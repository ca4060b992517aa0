/**
 * The JavaScript string operations the core relies on, with their exact
 * edge-case behaviour: `indexOf` and the index clamping of `slice`.
 */
module JsString {

  predicate OccursAt(t: string, pat: string, i: int) {
    0 <= i && i + |pat| <= |t| && t[i..i + |pat|] == pat
  }

  function IndexOfFrom(t: string, pat: string, from: nat): (r: int)
    requires from <= |t| + 1
    ensures r == -1 || (from <= r && OccursAt(t, pat, r))
    ensures r == -1 ==> forall j :: from <= j ==> !OccursAt(t, pat, j)
    ensures r != -1 ==> forall j :: from <= j < r ==> !OccursAt(t, pat, j)
    decreases |t| + 1 - from
  {
    if from + |pat| > |t| then -1
    else if t[from..from + |pat|] == pat then from
    else IndexOfFrom(t, pat, from + 1)
  }

  /** `t.indexOf(pat)`: the first occurrence of `pat` in `t`, or -1 when there is none. */
  function IndexOf(t: string, pat: string): (r: int)
    ensures r == -1 <==> forall j :: !OccursAt(t, pat, j)
    ensures r != -1 ==> OccursAt(t, pat, r) && forall j :: 0 <= j < r ==> !OccursAt(t, pat, j)
  {
    IndexOfFrom(t, pat, 0)
  }

  /**
   * The split point `slice` uses for index `i` on a text of length `n`:
   * a negative index counts from the end, and the result is clamped to
   * `0..n`. Both `slice(0, i)` and `slice(i)` use this same point.
   */
  function SliceIndex(i: int, n: nat): (r: nat)
    ensures r <= n
    ensures 0 <= i <= n ==> r == i
    ensures i > n ==> r == n
    ensures i < 0 ==> r == if n + i < 0 then 0 else n + i
  {
    if i < 0 then (if n + i < 0 then 0 else n + i)
    else if i > n then n
    else i
  }
}
