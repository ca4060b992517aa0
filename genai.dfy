/**
 * The part of the generative-AI SDK's grounding metadata that the core reads.
 * Every field the source reaches through optional chaining is an `Option`;
 * fields the core never reads (`segment.startIndex`, the SDK's other members)
 * are not represented.
 */
module GenAi {
  import opened Wrappers

  /** The span of prose a support claims, as reported upstream. */
  datatype Segment = Segment(text: Option<string>, endIndex: Option<int>)

  /** One grounding support: a claimed span and the chunk positions backing it. */
  datatype GroundingSupport = GroundingSupport(
    segment: Option<Segment>,
    groundingChunkIndices: Option<seq<nat>>)

  /** The retrieved source excerpt behind one grounding chunk. */
  datatype RetrievedContext = RetrievedContext(
    title: Option<string>,
    text: Option<string>,
    uri: Option<string>)

  datatype GroundingChunk = GroundingChunk(retrievedContext: Option<RetrievedContext>)

  datatype GroundingMetadata = GroundingMetadata(
    groundingSupports: Option<seq<GroundingSupport>>,
    groundingChunks: Option<seq<GroundingChunk>>)
}
