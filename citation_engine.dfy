/**
 * The citation injector of src/utils/citation-engine.ts: splices ` [1.N]`
 * markers into model prose after the text each grounding support anchors to.
 *
 * Strings are `seq<char>`, and indices count characters. That equals
 * JavaScript's UTF-16 code-unit offsets for text drawn from the Basic
 * Multilingual Plane, which is the text this model covers.
 */
module CitationEngine {
  import opened Wrappers
  import opened GenAi
  import opened JsString
  import opened Markers

  // ---------------------------------------------------------------------------
  // The skip filter
  // ---------------------------------------------------------------------------

  /** A support without anchor text (missing or empty) or without an end offset is inert. */
  predicate IsSkipped(s: GroundingSupport) {
    s.segment.None? || s.segment.value.text.None? || s.segment.value.text.value == [] ||
    s.segment.value.endIndex.None?
  }

  function AnchorText(s: GroundingSupport): (a: string)
    requires !IsSkipped(s)
    ensures |a| > 0
  {
    s.segment.value.text.value
  }

  function ProvidedEnd(s: GroundingSupport): int
    requires !IsSkipped(s)
  {
    s.segment.value.endIndex.value
  }

  /**
   * The chunk-index list is read only for supports that survive the skip
   * filter; on those it must be present (the source would throw otherwise).
   */
  predicate HasLabels(s: GroundingSupport) {
    IsSkipped(s) || s.groundingChunkIndices.Some?
  }

  predicate AllHaveLabels(ss: seq<GroundingSupport>) {
    forall s :: s in ss ==> HasLabels(s)
  }

  // ---------------------------------------------------------------------------
  // The descending sort of the copied support list
  // ---------------------------------------------------------------------------

  /** The sort key: `segment?.endIndex ?? 0`. */
  function EndKey(s: GroundingSupport): int {
    match s.segment
    case None => 0
    case Some(seg) => seg.endIndex.GetOr(0)
  }

  predicate NonIncreasingByEnd(ss: seq<GroundingSupport>) {
    forall i, j :: 0 <= i < j < |ss| ==> EndKey(ss[i]) >= EndKey(ss[j])
  }

  /** The supports whose key is `k`, in their order in `ss`. */
  function WithEnd(ss: seq<GroundingSupport>, k: int): seq<GroundingSupport> {
    if ss == [] then []
    else if EndKey(ss[0]) == k then [ss[0]] + WithEnd(ss[1..], k)
    else WithEnd(ss[1..], k)
  }

  /** Every key in `ss` is at most `bound`. */
  predicate KeysAtMost(ss: seq<GroundingSupport>, bound: int) {
    forall j :: 0 <= j < |ss| ==> EndKey(ss[j]) <= bound
  }

  lemma KeysAtMostPermutation(a: seq<GroundingSupport>, b: seq<GroundingSupport>, bound: int)
    requires multiset(a) == multiset(b) && KeysAtMost(b, bound)
    ensures KeysAtMost(a, bound)
  {
    forall j | 0 <= j < |a|
      ensures EndKey(a[j]) <= bound
    {
      assert a[j] in multiset(b);
      var k :| 0 <= k < |b| && b[k] == a[j];
    }
  }

  /** `x` in front of a list whose keys are all at most its own keeps the order. */
  lemma InsertAtHead(x: GroundingSupport, ss: seq<GroundingSupport>)
    requires NonIncreasingByEnd(ss) && (ss == [] || EndKey(ss[0]) <= EndKey(x))
    ensures NonIncreasingByEnd([x] + ss)
  {
    forall i, j | 0 <= i < j < |[x] + ss|
      ensures EndKey(([x] + ss)[i]) >= EndKey(([x] + ss)[j])
    {
      assert ([x] + ss)[j] == ss[j - 1];
      if i > 0 {
        assert ([x] + ss)[i] == ss[i - 1];
      } else if j > 1 {
        assert EndKey(ss[0]) >= EndKey(ss[j - 1]);
      }
    }
  }

  /** Keeping the head and inserting `x` further down keeps the order and the elements. */
  lemma InsertBelowHead(x: GroundingSupport, ss: seq<GroundingSupport>, tail: seq<GroundingSupport>)
    requires NonIncreasingByEnd(ss) && ss != [] && EndKey(ss[0]) > EndKey(x)
    requires NonIncreasingByEnd(tail) && multiset(tail) == multiset(ss[1..]) + multiset{x}
    ensures NonIncreasingByEnd([ss[0]] + tail)
    ensures multiset([ss[0]] + tail) == multiset(ss) + multiset{x}
  {
    assert ss == [ss[0]] + ss[1..];
    assert KeysAtMost(ss[1..] + [x], EndKey(ss[0])) by {
      forall j | 0 <= j < |ss[1..] + [x]|
        ensures EndKey((ss[1..] + [x])[j]) <= EndKey(ss[0])
      {
        if j < |ss| - 1 {
          assert (ss[1..] + [x])[j] == ss[j + 1];
        }
      }
    }
    KeysAtMostPermutation(tail, ss[1..] + [x], EndKey(ss[0]));
    var r := [ss[0]] + tail;
    forall i, j | 0 <= i < j < |r|
      ensures EndKey(r[i]) >= EndKey(r[j])
    {
      assert r[j] == tail[j - 1];
      if i > 0 {
        assert r[i] == tail[i - 1];
      }
    }
  }

  /** Places `x` before the first element whose key is not larger than its own. */
  function InsertByEnd(x: GroundingSupport, ss: seq<GroundingSupport>): (r: seq<GroundingSupport>)
    requires NonIncreasingByEnd(ss)
    ensures NonIncreasingByEnd(r)
    ensures multiset(r) == multiset(ss) + multiset{x}
  {
    if ss == [] || EndKey(ss[0]) <= EndKey(x) then
      InsertAtHead(x, ss);
      [x] + ss
    else
      var tail := InsertByEnd(x, ss[1..]);
      InsertBelowHead(x, ss, tail);
      [ss[0]] + tail
  }

  /**
   * The stable sort by descending end offset that the source applies to its
   * copy of the supports: the result is non-increasing by key and a
   * permutation of the input (a new sequence; the input is not reordered).
   */
  function SortByEndDescending(ss: seq<GroundingSupport>): (r: seq<GroundingSupport>)
    ensures NonIncreasingByEnd(r)
    ensures multiset(r) == multiset(ss)
  {
    if ss == [] then []
    else
      assert ss == [ss[0]] + ss[1..];
      InsertByEnd(ss[0], SortByEndDescending(ss[1..]))
  }

  lemma {:induction false} InsertByEndStable(x: GroundingSupport, ss: seq<GroundingSupport>, k: int)
    requires NonIncreasingByEnd(ss)
    ensures WithEnd(InsertByEnd(x, ss), k) == if EndKey(x) == k then [x] + WithEnd(ss, k) else WithEnd(ss, k)
  {
    if ss == [] || EndKey(ss[0]) <= EndKey(x) {
      var r := [x] + ss;
      assert r[0] == x && r[1..] == ss;
      if EndKey(x) != k && ss != [] && EndKey(ss[0]) == EndKey(x) {
      }
    } else {
      InsertByEndStable(x, ss[1..], k);
      var r := [ss[0]] + InsertByEnd(x, ss[1..]);
      assert r[0] == ss[0] && r[1..] == InsertByEnd(x, ss[1..]);
      if EndKey(x) == k {
        assert EndKey(ss[0]) != k;
      }
    }
  }

  /** Supports with equal end offsets keep their input order: for every key, the supports carrying it come in the same order. */
  lemma {:induction false} SortByEndDescendingStable(ss: seq<GroundingSupport>, k: int)
    ensures WithEnd(SortByEndDescending(ss), k) == WithEnd(ss, k)
  {
    if ss != [] {
      SortByEndDescendingStable(ss[1..], k);
      InsertByEndStable(ss[0], SortByEndDescending(ss[1..]), k);
    }
  }

  // ---------------------------------------------------------------------------
  // The anchor search
  // ---------------------------------------------------------------------------

  /**
   * The candidate insertion point: right after the first occurrence of the
   * anchor when there is one, whatever the claimed offset; the claimed offset
   * otherwise.
   */
  function Candidate(t: string, anchor: string, providedEnd: int): (r: int)
    ensures forall p :: OccursAt(t, anchor, p) && (forall q :: 0 <= q < p ==> !OccursAt(t, anchor, q)) ==>
              r == p + |anchor|
    ensures (forall p :: !OccursAt(t, anchor, p)) ==> r == providedEnd
  {
    var found := IndexOf(t, anchor);
    if found != -1 then found + |anchor| else providedEnd
  }

  // ---------------------------------------------------------------------------
  // The emphasis snap
  // ---------------------------------------------------------------------------

  /** The characters `/[*_]/` matches. */
  predicate IsEmphasis(c: char) {
    c == '*' || c == '_'
  }

  /**
   * The loop guard: `i < t.length && /[*_]/.test(t[i])`. A negative `i`
   * reads `undefined`, which the pattern does not match, so the guard is
   * false there too.
   */
  predicate EmphasisAt(t: string, i: int) {
    0 <= i < |t| && IsEmphasis(t[i])
  }

  /**
   * The point the snap loop stops at: at or after `i`, past only emphasis
   * characters, and at the end of the text or before a character that is not
   * emphasis (or left alone when `i` is outside the text).
   */
  function SnapPoint(t: string, i: int): (r: int)
    ensures i <= r
    ensures forall j :: i <= j < r ==> EmphasisAt(t, j)
    ensures !EmphasisAt(t, r)
    ensures 0 <= i <= |t| ==> r <= |t|
    decreases |t| - i
  {
    if EmphasisAt(t, i) then SnapPoint(t, i + 1) else i
  }

  // ---------------------------------------------------------------------------
  // One injection step and the whole pass
  // ---------------------------------------------------------------------------

  /** The position the markers of an active support are spliced in at. */
  function InsertionPoint(t: string, s: GroundingSupport): nat
    requires !IsSkipped(s)
  {
    SliceIndex(SnapPoint(t, Candidate(t, AnchorText(s), ProvidedEnd(s))), |t|)
  }

  /** One pass of the loop body: the text after handling support `s`. */
  function Inject(t: string, s: GroundingSupport): string
    requires HasLabels(s)
  {
    if IsSkipped(s) then t
    else
      var p := InsertionPoint(t, s);
      t[..p] + Labels(s.groundingChunkIndices.value) + t[p..]
  }

  /** The text after handling the supports of `ss`, first to last. */
  function InjectAll(t: string, ss: seq<GroundingSupport>): string
    requires AllHaveLabels(ss)
  {
    if ss == [] then t
    else
      assert ss[|ss| - 1] in ss;
      Inject(InjectAll(t, ss[..|ss| - 1]), ss[|ss| - 1])
  }

  /** What `injectCitationsFromMetadata` returns. */
  function InjectFromMetadata(text: string, metadata: Option<GroundingMetadata>): string
    requires metadata.Some? && metadata.value.groundingSupports.Some? ==>
             AllHaveLabels(metadata.value.groundingSupports.value)
  {
    if metadata.None? || metadata.value.groundingSupports.None? then text
    else
      var ss := metadata.value.groundingSupports.value;
      SortedKeepsLabels(ss);
      InjectAll(text, SortByEndDescending(ss))
  }

  lemma SortedKeepsLabels(ss: seq<GroundingSupport>)
    requires AllHaveLabels(ss)
    ensures AllHaveLabels(SortByEndDescending(ss))
  {
    var r := SortByEndDescending(ss);
    forall s | s in r
      ensures HasLabels(s)
    {
      assert s in multiset(r);
    }
  }

  lemma InjectAllSnoc(t: string, ss: seq<GroundingSupport>, n: nat)
    requires n < |ss| && AllHaveLabels(ss)
    ensures AllHaveLabels(ss[..n]) && AllHaveLabels(ss[..n + 1]) && HasLabels(ss[n])
    ensures InjectAll(t, ss[..n + 1]) == Inject(InjectAll(t, ss[..n]), ss[n])
  {
    assert ss[n] in ss;
    assert forall s :: s in ss[..n + 1] ==> s in ss;
    assert ss[..n + 1][..n] == ss[..n];
  }

  /**
   * A step only inserts: the markers sit at the insertion point, and taking
   * them out again gives back the text before the step.
   */
  lemma InjectOnlyInserts(t: string, s: GroundingSupport)
    requires !IsSkipped(s) && HasLabels(s)
    ensures var r, p, labels := Inject(t, s), InsertionPoint(t, s), Labels(s.groundingChunkIndices.value);
            p <= |t| && |r| == |t| + |labels| &&
            r[p..p + |labels|] == labels &&
            r[..p] + r[p + |labels|..] == t
  {
    Splice(t, InsertionPoint(t, s), Labels(s.groundingChunkIndices.value));
  }

  /** Splicing `m` in at `p` and cutting it out again gives back `t`. */
  lemma Splice(t: string, p: nat, m: string)
    requires p <= |t|
    ensures var r := t[..p] + m + t[p..];
            |r| == |t| + |m| && r[p..p + |m|] == m && r[..p] + r[p + |m|..] == t
  {
    var r := t[..p] + m + t[p..];
    assert r[..p] == t[..p];
    assert r[p..p + |m|] == m;
    assert r[p + |m|..] == t[p..];
    assert t[..p] + t[p..] == t;
  }

  /**
   * The length of the markers one support adds: none when it is skipped.
   * (An active support without chunk indices never reaches the splice.)
   */
  function Added(s: GroundingSupport): nat {
    if IsSkipped(s) || s.groundingChunkIndices.None? then 0
    else |Labels(s.groundingChunkIndices.value)|
  }

  /** The total length of the markers the supports of `ss` add. */
  function AddedLength(ss: seq<GroundingSupport>): nat {
    if ss == [] then 0 else AddedLength(ss[..|ss| - 1]) + Added(ss[|ss| - 1])
  }

  lemma {:induction false} AddedLengthConcat(a: seq<GroundingSupport>, b: seq<GroundingSupport>)
    ensures AddedLength(a + b) == AddedLength(a) + AddedLength(b)
  {
    if b == [] {
      assert a + b == a;
    } else {
      var n := |b| - 1;
      assert (a + b)[..|a + b| - 1] == a + b[..n];
      assert (a + b)[|a + b| - 1] == b[n];
      AddedLengthConcat(a, b[..n]);
    }
  }

  /** Taking one support out of a list takes its markers out of the total. */
  lemma AddedLengthRemove(b: seq<GroundingSupport>, i: nat)
    requires i < |b|
    ensures AddedLength(b) == AddedLength(b[..i] + b[i + 1..]) + Added(b[i])
  {
    var u, x, v := b[..i], b[i], b[i + 1..];
    assert b == (u + [x]) + v;
    AddedLengthConcat(u + [x], v);
    AddedLengthConcat(u, [x]);
    AddedLengthConcat(u, v);
    assert [x][..0] == [];
  }

  lemma MultisetRemove(a: seq<GroundingSupport>, b: seq<GroundingSupport>, i: nat)
    requires a != [] && multiset(a) == multiset(b) && i < |b| && b[i] == a[|a| - 1]
    ensures multiset(a[..|a| - 1]) == multiset(b[..i] + b[i + 1..])
  {
    var n, x := |a| - 1, a[|a| - 1];
    var u, v := b[..i], b[i + 1..];
    assert a == a[..n] + [x];
    assert b == u + [x] + v;
    assert multiset(a) == multiset(a[..n]) + multiset{x};
    assert multiset(b) == multiset(u) + multiset{x} + multiset(v);
    assert multiset(u + v) == multiset(u) + multiset(v);
    assert multiset(a[..n]) == multiset(a) - multiset{x};
    assert multiset(u + v) == multiset(b) - multiset{x};
  }

  /** The total growth does not depend on the order the supports are handled in. */
  lemma {:induction false} AddedLengthPermutation(a: seq<GroundingSupport>, b: seq<GroundingSupport>)
    requires multiset(a) == multiset(b)
    ensures AddedLength(a) == AddedLength(b)
  {
    if a == [] {
      assert |b| == |multiset(b)| == 0;
    } else {
      var n := |a| - 1;
      assert a[n] in multiset(b);
      var i :| 0 <= i < |b| && b[i] == a[n];
      MultisetRemove(a, b, i);
      AddedLengthPermutation(a[..n], b[..i] + b[i + 1..]);
      AddedLengthRemove(b, i);
    }
  }

  /** Over a whole pass the text grows by exactly the markers of the active supports. */
  lemma {:induction false} InjectAllLength(t: string, ss: seq<GroundingSupport>)
    requires AllHaveLabels(ss)
    ensures |InjectAll(t, ss)| == |t| + AddedLength(ss)
  {
    if ss != [] {
      var s := ss[|ss| - 1];
      assert s in ss;
      assert forall x :: x in ss[..|ss| - 1] ==> x in ss;
      InjectAllLength(t, ss[..|ss| - 1]);
      if !IsSkipped(s) {
        InjectOnlyInserts(InjectAll(t, ss[..|ss| - 1]), s);
      }
    }
  }

  /** Supports that are all inert leave the text exactly as it was. */
  lemma {:induction false} InjectAllSkipped(t: string, ss: seq<GroundingSupport>)
    requires forall s :: s in ss ==> IsSkipped(s)
    ensures AllHaveLabels(ss) && InjectAll(t, ss) == t
  {
    if ss != [] {
      assert ss[|ss| - 1] in ss;
      assert forall x :: x in ss[..|ss| - 1] ==> x in ss;
      InjectAllSkipped(t, ss[..|ss| - 1]);
    }
  }

  /**
   * When the anchor occurs, first at `q`, the text up to the end of that
   * occurrence is kept, then comes the run of emphasis characters that
   * follows it, then the markers, then the rest of the old text: the claimed
   * offset plays no part.
   */
  lemma MarkersFollowAnchor(t: string, s: GroundingSupport, q: nat)
    requires !IsSkipped(s) && HasLabels(s)
    requires OccursAt(t, AnchorText(s), q)
    requires forall j :: 0 <= j < q ==> !OccursAt(t, AnchorText(s), j)
    ensures var e, p := q + |AnchorText(s)|, InsertionPoint(t, s);
            var r, labels := Inject(t, s), Labels(s.groundingChunkIndices.value);
            e <= p <= |t| &&
            (forall j :: e <= j < p ==> IsEmphasis(t[j])) &&
            (p == |t| || !IsEmphasis(t[p])) &&
            r == t[..p] + labels + t[p..]
  {
    var e := q + |AnchorText(s)|;
    assert Candidate(t, AnchorText(s), ProvidedEnd(s)) == e;
    var sp := SnapPoint(t, e);
    assert InsertionPoint(t, s) == sp;
    forall j | e <= j < sp
      ensures IsEmphasis(t[j])
    {
      assert EmphasisAt(t, j);
    }
  }

  /**
   * When the anchor does not occur, the markers go at the claimed offset
   * (snapped past emphasis) if it lies inside the text, at the end if it lies
   * beyond, and, for a negative offset, that many characters before the end
   * without any snapping.
   */
  lemma MarkersAtClaimedOffset(t: string, s: GroundingSupport)
    requires !IsSkipped(s) && HasLabels(s)
    requires forall j :: !OccursAt(t, AnchorText(s), j)
    ensures var e, p := ProvidedEnd(s), InsertionPoint(t, s);
            var r, labels := Inject(t, s), Labels(s.groundingChunkIndices.value);
            (0 <= e <= |t| ==> e <= p && (forall j :: e <= j < p ==> IsEmphasis(t[j])) &&
                               (p == |t| || !IsEmphasis(t[p]))) &&
            (e > |t| ==> r == t + labels) &&
            (e < 0 ==> p == if |t| + e < 0 then 0 else |t| + e) &&
            r == t[..p] + labels + t[p..]
  {
    var e := ProvidedEnd(s);
    assert Candidate(t, AnchorText(s), e) == e;
    var sp := SnapPoint(t, e);
    if 0 <= e <= |t| {
      forall j | e <= j < sp
        ensures IsEmphasis(t[j])
      {
        assert EmphasisAt(t, j);
      }
    } else if e > |t| {
      assert sp == e;
      assert t[..|t|] == t;
    } else {
      assert sp == e;
    }
  }

  /**
   * Copies and sorts the supports, then splices each active support's
   * markers into the running text.
   */
  method InjectCitationsFromMetadata(text: string, metadata: Option<GroundingMetadata>)
    returns (enrichedText: string)
    requires metadata.Some? && metadata.value.groundingSupports.Some? ==>
             AllHaveLabels(metadata.value.groundingSupports.value)
    ensures metadata.None? || metadata.value.groundingSupports.None? ==> enrichedText == text
    ensures enrichedText == InjectFromMetadata(text, metadata)
  {
    if metadata.None? || metadata.value.groundingSupports.None? {
      return text;
    }
    enrichedText := text;
    var sortedSupports := SortByEndDescending(metadata.value.groundingSupports.value);
    SortedKeepsLabels(metadata.value.groundingSupports.value);
    for n := 0 to |sortedSupports|
      invariant AllHaveLabels(sortedSupports[..n])
      invariant enrichedText == InjectAll(text, sortedSupports[..n])
    {
      var support := sortedSupports[n];
      InjectAllSnoc(text, sortedSupports, n);
      if IsSkipped(support) {
        continue;
      }
      var segmentText := support.segment.value.text.value;
      var providedEnd := support.segment.value.endIndex.value;

      var injectionIndex := IndexOf(enrichedText, segmentText);
      if injectionIndex != -1 {
        injectionIndex := injectionIndex + |segmentText|;
      } else {
        injectionIndex := providedEnd;
      }
      ghost var candidate := injectionIndex;

      while injectionIndex < |enrichedText| && EmphasisAt(enrichedText, injectionIndex)
        invariant candidate <= injectionIndex
        invariant SnapPoint(enrichedText, injectionIndex) == SnapPoint(enrichedText, candidate)
        decreases |enrichedText| - injectionIndex
      {
        injectionIndex := injectionIndex + 1;
      }

      var labels := Labels(support.groundingChunkIndices.value);
      var cut := SliceIndex(injectionIndex, |enrichedText|);
      enrichedText := enrichedText[..cut] + labels + enrichedText[cut..];
    }
    assert sortedSupports[..|sortedSupports|] == sortedSupports;
  }
}
