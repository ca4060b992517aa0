/**
 * The grounded response assembled by `getGroundedResponse`: the source
 * reference list built from the grounding chunks, and the result record that
 * pairs it with the text carrying `[1.x]` markers.
 */
module GroundingSupports {
  import opened Wrappers
  import opened GenAi
  import opened JsString
  import opened Markers
  import opened CitationEngine

  /** One entry of the source reference list; `id` is what a `[1.id]` marker shows. */
  datatype Citation = Citation(id: nat, source: string, citedText: string, uri: Option<string>)

  /** What a grounded query returns: the marked-up text, the plain text, and the list the markers point into. */
  datatype GroundedResult = GroundedResult(
    text: string,
    rawText: string,
    citationMap: seq<Citation>,
    rawGroundingMetadata: Option<GroundingMetadata>)

  /** JavaScript's `v || fallback` on an optional string: a missing or empty value yields the fallback. */
  function OrFallback(v: Option<string>, fallback: string): (r: string)
    ensures r == fallback || (v.Some? && r == v.value)
    ensures fallback != [] ==> r != []
    ensures v.Some? && v.value != [] ==> r == v.value
  {
    if v.Some? && v.value != [] then v.value else fallback
  }

  const UnknownSource := "Unknown Source"
  const UnknownCitedText := "Unknown Cited Text"

  /** The reference-list entry for the chunk at (zero-based) position `i`. */
  function ToCitation(chunk: GroundingChunk, i: nat): (c: Citation)
    ensures c.id == i + 1
    ensures c.source != [] && c.citedText != []
  {
    var ctx := chunk.retrievedContext;
    Citation(
      i + 1,
      OrFallback(if ctx.Some? then ctx.value.title else None, UnknownSource),
      OrFallback(if ctx.Some? then ctx.value.text else None, UnknownCitedText),
      if ctx.Some? then ctx.value.uri else None)
  }

  /** The chunks of the metadata, or none when the metadata or its chunk list is missing. */
  function Chunks(metadata: Option<GroundingMetadata>): seq<GroundingChunk> {
    if metadata.Some? && metadata.value.groundingChunks.Some? then metadata.value.groundingChunks.value
    else []
  }

  /** The source reference list: one entry per grounding chunk, in chunk order. */
  function BuildCitationMap(metadata: Option<GroundingMetadata>): (r: seq<Citation>)
    ensures metadata.None? || metadata.value.groundingChunks.None? ==> r == []
    ensures |r| == |Chunks(metadata)|
    ensures forall i :: 0 <= i < |r| ==> r[i] == ToCitation(Chunks(metadata)[i], i)
  {
    var chunks := Chunks(metadata);
    seq(|chunks|, i requires 0 <= i < |chunks| => ToCitation(chunks[i], i))
  }

  /**
   * Entry `i` shows chunk `i`'s title, or "Unknown Source" when the title is
   * missing or empty; its text, or "Unknown Cited Text" likewise; and its
   * link exactly as given, possibly absent.
   */
  lemma CitationFields(metadata: Option<GroundingMetadata>, i: nat)
    requires i < |Chunks(metadata)|
    ensures var c, ctx := BuildCitationMap(metadata)[i], Chunks(metadata)[i].retrievedContext;
            c.id == i + 1 &&
            (ctx.Some? && ctx.value.title.Some? && ctx.value.title.value != [] ==> c.source == ctx.value.title.value) &&
            (ctx.None? || ctx.value.title.None? || ctx.value.title.value == [] ==> c.source == "Unknown Source") &&
            (ctx.Some? && ctx.value.text.Some? && ctx.value.text.value != [] ==> c.citedText == ctx.value.text.value) &&
            (ctx.None? || ctx.value.text.None? || ctx.value.text.value == [] ==> c.citedText == "Unknown Cited Text") &&
            (ctx.None? ==> c.uri.None?) &&
            (ctx.Some? ==> c.uri == ctx.value.uri)
  {
  }

  /** The entries' ids run 1, 2, ... in list order. */
  predicate IdsFrom(m: seq<Citation>, base: nat) {
    forall j :: 0 <= j < |m| ==> m[j].id == base + j
  }

  /** The first entry carrying `id`, as a reader resolving a marker would find it. */
  function CitationFor(m: seq<Citation>, id: nat): (r: Option<Citation>)
    ensures r.Some? ==> r.value in m && r.value.id == id
    ensures r.None? ==> forall c :: c in m ==> c.id != id
  {
    if m == [] then None
    else if m[0].id == id then Some(m[0])
    else CitationFor(m[1..], id)
  }

  /** Every entry has a title to show, ids are 1..n in order, and no two entries share an id. */
  lemma CitationMapWellFormed(metadata: Option<GroundingMetadata>)
    ensures var m := BuildCitationMap(metadata);
            IdsFrom(m, 1) &&
            (forall i, j :: 0 <= i < j < |m| ==> m[i].id != m[j].id) &&
            (forall c :: c in m ==> 1 <= c.id <= |m| && c.source != [] && c.citedText != [])
  {
  }

  lemma {:induction false} CitationForIds(m: seq<Citation>, base: nat, k: nat)
    requires IdsFrom(m, base) && k < |m|
    ensures CitationFor(m, base + k) == Some(m[k])
  {
    if k > 0 {
      assert m[0].id == base != base + k;
      assert IdsFrom(m[1..], base + 1) by {
        forall j | 0 <= j < |m[1..]|
          ensures m[1..][j].id == base + 1 + j
        {
          assert m[1..][j] == m[j + 1];
        }
      }
      CitationForIds(m[1..], base + 1, k - 1);
      assert m[1..][k - 1] == m[k];
    }
  }

  /** The marker injected for chunk index `k` reads back as the number `k + 1`. */
  lemma MarkerReadsBack(k: nat)
    ensures ParseMarkers(Label(k)) == Some([k + 1])
  {
    LabelsRoundTrip([k]);
    assert Labels([k]) == Label(k) + Labels([]);
    assert Label(k) + Labels([]) == Label(k);
    assert DisplayNumbers([k]) == [k + 1];
  }

  /**
   * The marker for chunk index `k` reads back as `k + 1`, and that number
   * resolves to the entry built from chunk `k`: its title (or the fallback)
   * and its link.
   */
  lemma MarkerNamesChunk(metadata: Option<GroundingMetadata>, k: nat)
    requires k < |Chunks(metadata)|
    ensures ParseMarkers(Label(k)) == Some([k + 1])
    ensures CitationFor(BuildCitationMap(metadata), k + 1)
            == Some(ToCitation(Chunks(metadata)[k], k))
  {
    MarkerReadsBack(k);
    var m := BuildCitationMap(metadata);
    assert IdsFrom(m, 1);
    CitationForIds(m, 1, k);
  }

  /** A chunk index with no chunk behind it still gets a marker, but the marker names no entry. */
  lemma DanglingMarker(metadata: Option<GroundingMetadata>, k: nat)
    requires k >= |Chunks(metadata)|
    ensures CitationFor(BuildCitationMap(metadata), k + 1) == None
  {
    CitationMapWellFormed(metadata);
  }

  /**
   * The result record built from the model's first candidate: its text part
   * (possibly missing) and its grounding metadata (possibly missing).
   */
  function GroundedResponse(candidateText: Option<string>, metadata: Option<GroundingMetadata>): (r: GroundedResult)
    requires metadata.Some? && metadata.value.groundingSupports.Some? ==>
             AllHaveLabels(metadata.value.groundingSupports.value)
    ensures candidateText.None? ==> r.rawText == []
    ensures candidateText.Some? ==> r.rawText == candidateText.value
    ensures r.text == InjectFromMetadata(r.rawText, metadata)
    ensures r.citationMap == BuildCitationMap(metadata)
    ensures r.rawGroundingMetadata == metadata
    ensures metadata.None? ==> r.text == r.rawText && r.citationMap == []
  {
    var rawText := OrFallback(candidateText, "");
    GroundedResult(InjectFromMetadata(rawText, metadata), rawText, BuildCitationMap(metadata), metadata)
  }

  /**
   * The marked-up text is longer than the plain text by exactly the length of
   * the non-skipped supports' markers, and equal to it when there are no
   * supports; the reference list has one entry per chunk.
   */
  lemma GroundedResponseConsistent(candidateText: Option<string>, metadata: Option<GroundingMetadata>)
    requires metadata.Some? && metadata.value.groundingSupports.Some? ==>
             AllHaveLabels(metadata.value.groundingSupports.value)
    ensures var r := GroundedResponse(candidateText, metadata);
            |r.citationMap| == |Chunks(metadata)| &&
            (metadata.Some? && metadata.value.groundingSupports.Some? ==>
               |r.text| == |r.rawText| + AddedLength(metadata.value.groundingSupports.value)) &&
            (metadata.None? || metadata.value.groundingSupports.None? ==> r.text == r.rawText)
  {
    var rawText := OrFallback(candidateText, "");
    if metadata.Some? && metadata.value.groundingSupports.Some? {
      var ss := metadata.value.groundingSupports.value;
      var sorted := SortByEndDescending(ss);
      SortedKeepsLabels(ss);
      InjectAllLength(rawText, sorted);
      AddedLengthPermutation(sorted, ss);
    }
  }
}
