/**
 * The citation marker format ` [1.N]`: how a chunk index is printed, and a
 * reader that recovers the numbers from a run of markers.
 */
module Markers {
  import opened Wrappers
  import Decimal

  /** The marker for chunk index `i`: ` [1.${i + 1}]`. */
  function Label(i: nat): string {
    " [1." + (Decimal.NatToDecimal(i + 1) + "]")
  }

  /** `indices.map(Label).join("")`. */
  function Labels(indices: seq<nat>): string {
    if indices == [] then "" else Label(indices[0]) + Labels(indices[1..])
  }

  /** The first `]` in `s` at or after `from`, or -1 when there is none. */
  function CloseFrom(s: string, from: nat): (r: int)
    ensures r == -1 || from <= r < |s|
    decreases |s| - from
  {
    if from >= |s| then -1
    else if s[from] == ']' then from
    else CloseFrom(s, from + 1)
  }

  /**
   * Reads one marker ` [1.N]` at the front of `s`: the number N and the text
   * after the marker; `None` when `s` does not start with a marker.
   */
  function ParseMarker(s: string): (r: Option<(nat, string)>)
    ensures r.Some? ==> |r.value.1| < |s|
  {
    if |s| < 4 || s[0] != ' ' || s[1] != '[' || s[2] != '1' || s[3] != '.' then None
    else
      var close := CloseFrom(s, 4);
      if close == -1 then None
      else
        match Decimal.ParseDecimal(s[4..close])
        case None => None
        case Some(n) => Some((n, s[close + 1..]))
  }

  /**
   * Reads a run of markers with nothing between them, and gives their
   * numbers in order; `None` when the text is anything else.
   */
  function ParseMarkers(s: string): Option<seq<nat>>
    decreases |s|
  {
    if s == [] then Some([])
    else
      match ParseMarker(s)
      case None => None
      case Some((n, tail)) =>
        match ParseMarkers(tail)
        case None => None
        case Some(rest) => Some([n] + rest)
  }

  /** The display numbers the markers for `indices` carry: each index plus one. */
  function DisplayNumbers(indices: seq<nat>): (r: seq<nat>)
    ensures |r| == |indices|
    ensures forall k :: 0 <= k < |indices| ==> r[k] == indices[k] + 1
  {
    if indices == [] then [] else [indices[0] + 1] + DisplayNumbers(indices[1..])
  }

  /** After a run of digits, the first `]` is the one that ends the run. */
  lemma {:induction false} CloseAfterDigits(s: string, from: nat, end: nat)
    requires from <= end < |s| && s[end] == ']'
    requires forall j :: from <= j < end ==> Decimal.IsDigit(s[j])
    ensures CloseFrom(s, from) == end
    decreases end - from
  {
    if from < end {
      assert Decimal.IsDigit(s[from]);
      CloseAfterDigits(s, from + 1, end);
    }
  }

  /** The marker for `i` reads back as `i + 1`, leaving what follows it. */
  lemma ParseMarkerLabel(i: nat, rest: string)
    ensures ParseMarker(Label(i) + rest) == Some((i + 1, rest))
  {
    var digits := Decimal.NatToDecimal(i + 1);
    var s := Label(i) + rest;
    var end := 4 + |digits|;
    assert s == " [1." + (digits + "]" + rest);
    assert s[0] == ' ' && s[1] == '[' && s[2] == '1' && s[3] == '.';
    assert s[end] == ']';
    forall j | 4 <= j < end
      ensures Decimal.IsDigit(s[j])
    {
      assert s[j] == digits[j - 4];
    }
    CloseAfterDigits(s, 4, end);
    assert s[4..end] == digits;
    assert s[end + 1..] == rest;
    Decimal.DecimalRoundTrip(i + 1);
  }

  /** Parsing one marker in front of a run of markers. */
  lemma ParseMarkersCons(i: nat, rest: string, ns: seq<nat>)
    requires ParseMarkers(rest) == Some(ns)
    ensures ParseMarkers(Label(i) + rest) == Some([i + 1] + ns)
  {
    ParseMarkerLabel(i, rest);
  }

  /**
   * The markers for `indices` are exactly one token per index, in order,
   * each carrying the index plus one, with nothing between them.
   */
  lemma {:induction false} LabelsRoundTrip(indices: seq<nat>)
    ensures ParseMarkers(Labels(indices)) == Some(DisplayNumbers(indices))
  {
    if indices != [] {
      var rest, ns := Labels(indices[1..]), DisplayNumbers(indices[1..]);
      LabelsRoundTrip(indices[1..]);
      ParseMarkersCons(indices[0], rest, ns);
      assert Labels(indices) == Label(indices[0]) + rest;
    }
  }
}
