# Grounded citations for a recruiting assistant: a Dafny model

The system asks a generative model to assess a candidate against a job
description. The model answers from a retrieval store and returns *grounding
metadata*: a list of retrieved source chunks, and a list of grounding supports.
Each support is a span of the answer (its text and its claimed end offset)
together with the chunk positions that back it. Three pieces of code turn that
answer into a readable report, and this project models all three.

- **The citation injector** `injectCitationsFromMetadata`
  (`src/utils/citation-engine.ts`). It copies the supports and sorts them by
  claimed end, highest first. It skips supports without anchor text or without
  an end offset. For each remaining support it finds the anchor text in the
  current text and falls back to the claimed end when the anchor is absent. It
  then moves past any `*`/`_` emphasis run and splices in one ` [1.N]` marker
  per chunk index, where N is the index plus one.
- **The HTML helpers** (`src/utils/html-generator.ts`). `escapeHtml` replaces
  `&`, `<`, `>`, `"` and `'` by entities, `&` first. The cleanup splits the
  text on line feeds, applies `trimEnd` to each line and joins the lines again.
- **The reference list** (`src/grounding-supports.ts`). It builds one
  `Citation` per retrieved chunk, with `id = i + 1` and fallback titles. It
  pairs that list with the marked-up text in a `GroundedResult`.

Modules:

| file | module | contents |
|---|---|---|
| `wrappers.dfy` | `Wrappers` | `Option`, for every field the source reads through `?.` |
| `genai.dfy` | `GenAi` | the parts of the SDK's grounding metadata that the core reads |
| `js_string.dfy` | `JsString` | `indexOf` and the index clamping of `slice` |
| `decimal.dfy` | `Decimal` | printing a number in decimal, as a template literal does, and reading it back |
| `markers.dfy` | `Markers` | the ` [1.N]` marker format and a reader for it |
| `citation_engine.dfy` | `CitationEngine` | the injector: a specification by functions, and the imperative method proved equal to it |
| `citation_examples.dfy` | `CitationExamples` | the ten non-skipped scenarios of `tests/citation-engine.test.ts`, proved on the specification |
| `html_generator.dfy` | `HtmlGenerator` | `escapeHtml` and the trailing-whitespace cleanup |
| `grounding_supports.dfy` | `GroundingSupports` | `Citation`, `GroundedResult`, the reference list and marker resolution |

How the injector is modelled:

- `InjectCitationsFromMetadata` keeps the source's form. A `for` loop runs over
  the sorted copy and reassigns `enrichedText`. A `while` loop advances the
  insertion index past emphasis. The method is proved equal to
  `InjectFromMetadata`, a fold of one-support steps (`Inject`) over
  `SortByEndDescending` of the supports. The properties below are proved about
  those functions.
- JavaScript's `Array.prototype.sort` is stable, so the sort is a stable
  insertion sort by `segment?.endIndex ?? 0`. Stability is stated as follows:
  for every key, the supports with that key keep their relative order.
- `slice` clamps its index. A negative index counts from the end, and an index
  past the end means the end. `SliceIndex` writes this out, so an unchecked
  fallback offset is handled as the source handles it, with no precondition.
- At a negative index, `text[i]` is `undefined`, and `/[*_]/` does not match
  it. So the emphasis loop stops at once there (`EmphasisAt`).

## Model

| member | source | states |
|---|---|---|
| CitationEngine.InjectCitationsFromMetadata | src/utils/citation-engine.ts:5-50 | Returns the text unchanged when the metadata or its support list is missing. Otherwise returns the result of applying each support's step to the text, in the sorted order. |
| CitationEngine.InjectFromMetadata | src/utils/citation-engine.ts:5-50 | Definition (no contract): the text itself when the metadata or its support list is missing; otherwise `InjectAll` over `SortByEndDescending` of the supports. |
| CitationEngine.InjectAll | src/utils/citation-engine.ts:15-47 | Definition (no contract): the loop as a fold that applies `Inject` for each support, first to last. |
| CitationEngine.Inject | src/utils/citation-engine.ts:16-46 | Definition (no contract): one loop body. A skipped support leaves the text alone. Otherwise the support's `Labels` are spliced in at `InsertionPoint`. |
| CitationEngine.IsSkipped | src/utils/citation-engine.ts:16-18 | Definition (no contract): the `continue` test. The segment or its text is missing, the text is empty, or the end offset is missing. |
| CitationEngine.EndKey | src/utils/citation-engine.ts:12 | Definition (no contract): the sort key `segment?.endIndex ?? 0`. |
| CitationEngine.IsEmphasis | src/utils/citation-engine.ts:33 | Definition (no contract): the characters `/[*_]/` matches, `*` and `_`. |
| CitationEngine.EmphasisAt | src/utils/citation-engine.ts:33 | Definition (no contract): the `while` guard. The index is inside the text and the character there is emphasis. A negative index reads `undefined`, which never matches, so the guard is false there. |
| CitationEngine.InsertionPoint | src/utils/citation-engine.ts:21-46 | Definition (no contract): the anchor-or-fallback candidate, advanced past emphasis, then clamped as `slice` clamps it. |
| Markers.Label | src/utils/citation-engine.ts:39 | Definition (no contract): the marker ` [1.N]` for chunk index i, with N = i + 1 printed in decimal. |
| Markers.Labels | src/utils/citation-engine.ts:38-40 | Definition (no contract): the markers of the indices, in order, joined with nothing between them. |
| CitationEngine.InjectAllSkipped | src/utils/citation-engine.ts:16-18 | Supports with no anchor text (missing or empty) or no end offset leave the text exactly as it was. |
| CitationEngine.SortByEndDescending | src/utils/citation-engine.ts:11-13 | The processing order is non-increasing in `endIndex ?? 0` and is a permutation of the supports. |
| CitationEngine.SortByEndDescendingStable | src/utils/citation-engine.ts:11-13 | Supports with equal keys keep their input order (the sort is stable). |
| CitationEngine.InsertByEnd | src/utils/citation-engine.ts:11-13 | Inserting one support into a sorted list keeps it sorted and adds exactly that support. |
| CitationEngine.InsertByEndStable | src/utils/citation-engine.ts:11-13 | An inserted support goes before (first among) the supports already there with the same key. This is the stable order, because the sort inserts each earlier input element into the sorted rest of the list. |
| JsString.IndexOf | src/utils/citation-engine.ts:21 | `indexOf` returns -1 exactly when there is no occurrence. Otherwise it returns an occurrence with no earlier one. |
| CitationEngine.Candidate | src/utils/citation-engine.ts:21-29 | When the anchor occurs, the candidate is its first occurrence's start plus its length, whatever the claimed end. When the anchor is absent, the candidate is exactly the claimed end. |
| CitationEngine.SnapPoint | src/utils/citation-engine.ts:33-35 | The snap stops at or after the candidate. Every character it passes is `*` or `_`. It stops at the end of the text or before a character that is neither. It never leaves the text when it starts inside it. |
| JsString.SliceIndex | src/utils/citation-engine.ts:43-46 | The split point `slice` uses: the index when in range, the length when past the end, and the length plus the index (at least 0) when negative. |
| CitationEngine.InjectOnlyInserts | src/utils/citation-engine.ts:43-46 | A step only inserts. The markers sit at the insertion point, the text grows by their length, and removing them gives back the previous text. |
| CitationEngine.MarkersFollowAnchor | src/utils/citation-engine.ts:21-46 | When the anchor occurs, the step keeps the text up to the end of its first occurrence and then the emphasis run that follows. The markers come next, then the rest of the old text. |
| CitationEngine.MarkersAtClaimedOffset | src/utils/citation-engine.ts:27-46 | When the anchor is absent, the markers go at the claimed end. An end inside the text is snapped past emphasis. An end beyond the text means the end of the text. A negative end counts back from the end, without snapping. |
| CitationEngine.InjectAllLength | src/utils/citation-engine.ts:15-47 | Over a whole pass, the text grows by exactly the markers of the active supports. |
| CitationEngine.AddedLengthPermutation | src/utils/citation-engine.ts:11-13 | The total growth does not depend on the order in which the supports are handled. |
| Markers.LabelsRoundTrip | src/utils/citation-engine.ts:38-40 | The markers for k chunk indices read back as exactly k tokens ` [1.N]`, in index order, each showing its index plus one, with nothing between them. |
| Markers.ParseMarkerLabel | src/utils/citation-engine.ts:39 | One marker reads back as its index plus one and leaves what follows it untouched. |
| Markers.DisplayNumbers | src/utils/citation-engine.ts:39 | The displayed numbers are the chunk indices plus one, one per index. |
| Decimal.NatToDecimal | src/utils/citation-engine.ts:39 | A number is printed as at least one digit, with no leading zero. |
| Decimal.DecimalRoundTrip | src/utils/citation-engine.ts:39 | Reading a printed number gives the number back. |
| Decimal.ParsedIsPrinted | src/utils/citation-engine.ts:39 | A canonical numeral is exactly what the printer writes for its value. |
| CitationExamples.DriftExample | tests/citation-engine.test.ts:6-22 | With a claimed end of 19, "Expert in Kafka. Next sentence." becomes "Expert in Kafka [1.1]. Next sentence.". |
| CitationExamples.BoldExample | tests/citation-engine.test.ts:24-40 | The marker goes after the closing `**`: "He is an **expert** [1.2] in SRE.". |
| CitationExamples.ItalicExample | tests/citation-engine.test.ts:42-57 | The marker goes after the closing `_`: "He is an _expert_ [1.2] in SRE.". |
| CitationExamples.TwoLinesExample | tests/citation-engine.test.ts:77-97 | The support with the later claim is handled first, so each line gets its own marker: "Operational excellence. [1.4]\n* Leadership [1.1]". |
| CitationExamples.TwoSupportsSorted | src/utils/citation-engine.ts:11-13 | Of two supports, the one with the larger claimed end is handled first. |
| CitationExamples.HeaderMashingExample | tests/citation-engine.test.ts:147-165 | The marker lands between the claim's period and the following `###`. |
| CitationExamples.StackingExample | tests/citation-engine.test.ts:167-178 | Indices `[0, 1]` give the adjacent markers " [1.1] [1.2]" at the end of the claim. |
| CitationExamples.FallbackExample | tests/citation-engine.test.ts:205-221 | An absent anchor puts the marker at the claimed end 12: "The original [1.1] text has changed.". |
| CitationExamples.MultiParagraphExample | tests/citation-engine.test.ts:99-119 | The second paragraph is handled first, so "Paragraph One.\n\n### Section 2\nParagraph Two." gets " [1.1]" after the first paragraph and " [1.2]" after the second, with the header untouched. |
| CitationExamples.FourCharDriftExample | tests/citation-engine.test.ts:121-145 | With a claimed end of 34, which points into `###`, the marker " [1.3]" goes right after "Quality increases agility.". |
| CitationExamples.TableIntegrityExample | tests/citation-engine.test.ts:184-203 | The marker goes inside the Kafka cell, giving "\| Kafka [1.1] \| Senior \|", and the rows above are unchanged. |
| CitationExamples.StepAfterAnchor | src/utils/citation-engine.ts:21-46 | In `pre + anchor + post`, suppose one character of the anchor rules out any occurrence starting inside `pre`, and `post` does not open with `*` or `_`. Then the markers go right after the anchor, whatever the claimed end. |
| HtmlGenerator.EscapeHtml | src/utils/html-generator.ts:7-14 | Definition (no contract): five `ReplaceChar` stages chained in the source's order, `&` first. |
| HtmlGenerator.ReplaceChar | src/utils/html-generator.ts:9-13 | Definition (no contract): one global `replace` of a single character by a string. |
| HtmlGenerator.CleanMarkdown | src/utils/html-generator.ts:18-21 | Definition (no contract): split on line feeds, `trimEnd` each line, join with line feeds. |
| HtmlGenerator.Join | src/utils/html-generator.ts:21 | Definition (no contract): `join('\n')` on a non-empty list of lines. |
| HtmlGenerator.EscapeHtmlIsPerChar | src/utils/html-generator.ts:7-14 | The chain of five global replacements, `&` first, equals replacing each character by its own entity independently, so no entity is escaped twice. |
| HtmlGenerator.Entity | src/utils/html-generator.ts:9-13 | Each of the five special characters becomes an entity starting with `&`, and every other character stays as it is. |
| HtmlGenerator.EscapeHtmlNoMarkup | src/utils/html-generator.ts:7-14 | The output holds no `<`, `>`, `"` or `'`. |
| HtmlGenerator.EscapeHtmlAmpersands | src/utils/html-generator.ts:9-13 | Every `&` in the output begins one of `&amp;`, `&lt;`, `&gt;`, `&quot;` or `&#039;`. |
| HtmlGenerator.EscapeHtmlLength | src/utils/html-generator.ts:8-13 | The output length is the input length plus 4, 3, 3, 5 and 5 per `&`, `<`, `>`, `"` and `'`. |
| HtmlGenerator.EscapeHtmlPlain | src/utils/html-generator.ts:8-13 | Text with none of the five characters is returned unchanged. |
| HtmlGenerator.EscapeHtmlConcat | src/utils/html-generator.ts:8-13 | Escaping commutes with concatenation, so characters are copied in order. |
| HtmlGenerator.EscapeHtmlRoundTrip | src/utils/html-generator.ts:7-14 | Decoding the five entities recovers the original text. |
| HtmlGenerator.IsWhiteSpace | src/utils/html-generator.ts:20 | Definition (no contract): the code units `trimEnd` removes. These are ECMAScript WhiteSpace (tab, vertical tab, form feed, space, no-break space, byte-order mark, the Unicode space separators) and LineTerminator (line feed, carriage return, line separator, paragraph separator). |
| HtmlGenerator.TrimLines | src/utils/html-generator.ts:20 | `.map(line => line.trimEnd())`. The contract states that the line count is kept. Entry k is `TrimEnd` of line k by definition. |
| HtmlGenerator.TrimEnd | src/utils/html-generator.ts:20 | `trimEnd` keeps a prefix of the line and drops only whitespace. What is left is empty or ends in a character that is not whitespace. |
| HtmlGenerator.Split | src/utils/html-generator.ts:19 | `split('\n')` gives at least one piece, and no piece holds a line feed. |
| HtmlGenerator.JoinSplit | src/utils/html-generator.ts:19-21 | Joining the pieces of a split with line feeds gives back the text. |
| HtmlGenerator.SplitJoin | src/utils/html-generator.ts:19-21 | Splitting joined lines that hold no line feed gives back the lines. |
| HtmlGenerator.CleanMarkdownLines | src/utils/html-generator.ts:18-21 | The cleanup keeps the number of lines. Each line keeps its leading whitespace and inner content, loses only trailing whitespace, and does not end in whitespace. |
| HtmlGenerator.CleanMarkdownIdempotent | src/utils/html-generator.ts:18-21 | Cleaning twice is the same as cleaning once. |
| HtmlGenerator.TrimEndIdempotent | src/utils/html-generator.ts:20 | Trimming a line twice is the same as trimming it once. |
| GroundingSupports.Chunks | src/grounding-supports.ts:90 | Definition (no contract): `metadata?.groundingChunks`, and the empty list when either is missing, as the `\|\| []` at :95 gives. |
| GroundingSupports.BuildCitationMap | src/grounding-supports.ts:90-95 | The list is empty when the metadata or its chunks are missing, and otherwise has one entry per chunk, in chunk order. |
| GroundingSupports.CitationFields | src/grounding-supports.ts:91-94 | Entry i has id i + 1. Its source is the title, or "Unknown Source" when the title is missing or empty. Its cited text is the text, or "Unknown Cited Text" likewise. Its uri is copied as is. |
| GroundingSupports.OrFallback | src/grounding-supports.ts:92-93 | `v \|\| fallback` yields `v` when present and non-empty and the fallback otherwise, so it is never empty when the fallback is not. |
| GroundingSupports.ToCitation | src/grounding-supports.ts:90-95 | An entry for position i has id i + 1 and a non-empty source and cited text. |
| GroundingSupports.CitationMapWellFormed | src/grounding-supports.ts:90-95 | Ids run 1..n in order, no two entries share an id, and every entry has a title and a text to show. |
| GroundingSupports.CitationFor | src/grounding-supports.ts:27 | Looking up an id finds an entry with that id, or reports that no entry has it. |
| GroundingSupports.CitationForIds | src/grounding-supports.ts:91 | In a list numbered from `base`, id `base + k` resolves to entry k. |
| GroundingSupports.MarkerReadsBack | src/utils/citation-engine.ts:39 | The marker for chunk index k reads back as the number k + 1. |
| GroundingSupports.MarkerNamesChunk | src/grounding-supports.ts:91 | The marker for chunk index k names the entry with id k + 1, which is the entry built from chunk k. |
| GroundingSupports.DanglingMarker | src/grounding-supports.ts:90-95 | A chunk index with no chunk behind it still gets a marker, but that marker names no entry. |
| GroundingSupports.GroundedResponse | src/grounding-supports.ts:85-105 | The plain text is the candidate's text, or the empty text when it is missing. The marked-up text is the injector's result on the plain text. The list is the citation map built from the metadata. The metadata is passed through. Without metadata, the text has no markers and the list is empty. |
| GroundingSupports.GroundedResponseConsistent | src/grounding-supports.ts:85-105 | The list has one entry per chunk. The marked-up text is longer than the plain text by exactly the length of the active supports' markers, and it equals the plain text when there are no supports. |

## Left out

- The model call, `dotenv` loading, the environment checks that call `process.exit`, and the async wrapper around `getGroundedResponse` (src/grounding-supports.ts:1-20, :41-85). These are network, I/O and SDK code. `GroundedResponse` takes the candidate's text and metadata as parameters.
- `marked.parse` and the HTML page template in `generateAssessmentHtml` (src/utils/html-generator.ts:23-47). They belong to a third-party markdown parser, whose code is not part of this model.
- Expanding markers into `cite-badge` spans with escaped tooltips. `tests/html-generator.test.ts` expects this, but `generateAssessmentHtml` never produces badges and never calls `escapeHtml`, so the model does not claim it.
- `src/grounding-support-html.ts` and `src/grounding-support-console.ts`, which hold an async `main`, file writes and console output. `vitest.config.ts`, which is tool configuration.
- The skipped header test (tests/citation-engine.test.ts:60-75). `indexOf` is case-sensitive, so "expert" does not occur in "## Expert in SRE", and the expected output is not a property of the code.
- A non-skipped support with no `groundingChunkIndices`. `.map` would throw on it (src/utils/citation-engine.ts:38), so its presence is a precondition (`HasLabels`) rather than a modelled exception.
- `segment.startIndex`, which the code never reads.
- An `endIndex` of `null` rather than `undefined`. JavaScript's skip test (`=== undefined`) would let it through and then sort and splice with it as 0. The model has a single "absent" value (`None`), which is skipped.
- Non-integer offsets and chunk indices, and chunk indices of 2^53 or more (beyond the safe integers). For those, JavaScript computes `i + 1` inexactly; for i = 2^53 it prints "9007199254740992" where `Label` prints "9007199254740993". From 1e21 on, it prints the number in exponent form. Offsets are `int` and chunk indices are `nat`. Negative chunk indices, which would print as `[1.0]` or `[1.-N]`, are not modelled.
- The caller's support array is not reordered, because the source sorts a copy. In this value model that holds trivially, since sequences are values.
- `escapeHtml` is modelled only for the five single-character patterns it uses. General regular-expression `replace` is not modelled.
- Characters outside the Basic Multilingual Plane (emoji and other astral characters) and lone surrogates. Dafny's `char` is a Unicode scalar value, so one `char` equals one JavaScript UTF-16 code unit only for BMP characters other than surrogates. The model covers texts made only of those. For other text, JavaScript's lengths and offsets, including a fallback `endIndex` that splits a surrogate pair, are not represented.
