/**
 * Scenarios from tests/citation-engine.test.ts, stated on the injector's
 * specification function.
 */
module CitationExamples {
  import opened Wrappers
  import opened GenAi
  import opened JsString
  import opened Markers
  import opened CitationEngine

  function OneSupport(anchor: string, end: int, indices: seq<nat>): Option<GroundingMetadata> {
    Some(GroundingMetadata(
      Some([GroundingSupport(Some(Segment(Some(anchor), Some(end))), Some(indices))]),
      None))
  }

  /**
   * No occurrence of `pat` starts before `n` when its `k`-th character is
   * absent from the stretch of `t` where those starts would put it.
   */
  lemma NoOccurrenceBefore(t: string, pat: string, n: nat, k: nat)
    requires k < |pat| && n + k <= |t| && pat[k] !in t[k..n + k]
    ensures forall j :: 0 <= j < n ==> !OccursAt(t, pat, j)
  {
    forall j | 0 <= j < n
      ensures !OccursAt(t, pat, j)
    {
      assert t[k..n + k][j] == t[j + k];
      if j + |pat| <= |t| {
        assert t[j..j + |pat|][k] == t[j + k];
      }
    }
  }

  /** An anchor longer than the rest of the text from `n` on cannot start there. */
  lemma NoOccurrenceFrom(t: string, pat: string, n: nat)
    requires |t| < n + |pat|
    ensures forall j :: n <= j ==> !OccursAt(t, pat, j)
  {
  }

  lemma LabelOne()
    ensures Label(0) == " [1.1]"
  {
  }

  lemma LabelTwo()
    ensures Label(1) == " [1.2]"
  {
  }

  /** The markers of a one-index list are that index's marker. */
  lemma LabelsSingle(k: nat)
    ensures Labels([k]) == Label(k)
  {
    assert [k][1..] == [];
  }

  /** The insertion point from a known candidate and a known snap. */
  lemma PointFrom(t: string, s: GroundingSupport, c: int, p: nat)
    requires !IsSkipped(s)
    requires Candidate(t, AnchorText(s), ProvidedEnd(s)) == c && SnapPoint(t, c) == p && p <= |t|
    ensures InsertionPoint(t, s) == p
  {
  }

  /** A step whose insertion point and marker text are known. */
  lemma InjectAt(t: string, s: GroundingSupport, p: nat, m: string)
    requires !IsSkipped(s) && HasLabels(s)
    requires InsertionPoint(t, s) == p && Labels(s.groundingChunkIndices.value) == m
    ensures Inject(t, s) == t[..p] + m + t[p..]
  {
  }

  /** With a single support, the whole pass is that support's step. */
  lemma SingleSupport(t: string, anchor: string, end: int, indices: seq<nat>)
    ensures var s := GroundingSupport(Some(Segment(Some(anchor), Some(end))), Some(indices));
            InjectFromMetadata(t, OneSupport(anchor, end, indices)) == Inject(t, s)
  {
    var s := GroundingSupport(Some(Segment(Some(anchor), Some(end))), Some(indices));
    assert SortByEndDescending([s]) == InsertByEnd(s, SortByEndDescending([])) == [s];
    assert [s][..0] == [];
    assert InjectAll(t, [s]) == Inject(InjectAll(t, []), s) == Inject(t, s);
    var md := OneSupport(anchor, end, indices);
    assert md.value.groundingSupports.value == [s];
  }

  lemma DriftAnchorAt10()
    ensures OccursAt("Expert in Kafka. Next sentence.", "Kafka", 10)
    ensures forall j :: 0 <= j < 10 ==> !OccursAt("Expert in Kafka. Next sentence.", "Kafka", j)
  {
    var t := "Expert in Kafka. Next sentence.";
    assert t[..10] == "Expert in ";
    NoOccurrenceBefore(t, "Kafka", 10, 0);
    assert t[10..15] == "Kafka";
  }

  lemma DriftSplice()
    ensures var t := "Expert in Kafka. Next sentence.";
            t[..15] + " [1.1]" + t[15..] == "Expert in Kafka [1.1]. Next sentence."
  {
  }

  lemma DriftPoint()
    ensures var s := GroundingSupport(Some(Segment(Some("Kafka"), Some(19))), Some([0]));
            InsertionPoint("Expert in Kafka. Next sentence.", s) == 15
  {
    var t := "Expert in Kafka. Next sentence.";
    var s := GroundingSupport(Some(Segment(Some("Kafka"), Some(19))), Some([0]));
    DriftCandidate();
    DriftSnap();
    PointFrom(t, s, 15, 15);
  }

  lemma DriftCandidate()
    ensures Candidate("Expert in Kafka. Next sentence.", "Kafka", 19) == 15
  {
    DriftAnchorAt10();
  }

  lemma DriftSnap()
    ensures SnapPoint("Expert in Kafka. Next sentence.", 15) == 15
  {
    var t := "Expert in Kafka. Next sentence.";
    assert t[15] == '.';
  }

  /** Drift: the claimed end 19 is wrong; the marker lands right after "Kafka". */
  lemma DriftExample()
    ensures InjectFromMetadata("Expert in Kafka. Next sentence.", OneSupport("Kafka", 19, [0]))
            == "Expert in Kafka [1.1]. Next sentence."
  {
    var t := "Expert in Kafka. Next sentence.";
    var s := GroundingSupport(Some(Segment(Some("Kafka"), Some(19))), Some([0]));
    SingleSupport(t, "Kafka", 19, [0]);
    DriftPoint();
    LabelOne();
    LabelsSingle(0);
    InjectAt(t, s, 15, " [1.1]");
    DriftSplice();
  }

  lemma FallbackNoAnchor()
    ensures forall j :: !OccursAt("The original text has changed.", "MISSING_TEXT", j)
  {
    var t := "The original text has changed.";
    assert t[0..|t|] == t;
    NoOccurrenceBefore(t, "MISSING_TEXT", |t| - 11, 0);
    NoOccurrenceFrom(t, "MISSING_TEXT", |t| - 11);
  }

  lemma FallbackSplice()
    ensures var t := "The original text has changed.";
            t[..12] + " [1.1]" + t[12..] == "The original [1.1] text has changed."
  {
  }

  lemma FallbackPoint()
    ensures var s := GroundingSupport(Some(Segment(Some("MISSING_TEXT"), Some(12))), Some([0]));
            InsertionPoint("The original text has changed.", s) == 12
  {
    var t := "The original text has changed.";
    var s := GroundingSupport(Some(Segment(Some("MISSING_TEXT"), Some(12))), Some([0]));
    FallbackCandidate();
    FallbackSnap();
    PointFrom(t, s, 12, 12);
  }

  lemma FallbackCandidate()
    ensures Candidate("The original text has changed.", "MISSING_TEXT", 12) == 12
  {
    FallbackNoAnchor();
  }

  lemma FallbackSnap()
    ensures SnapPoint("The original text has changed.", 12) == 12
  {
    var t := "The original text has changed.";
    assert t[12] == ' ';
  }

  /** Fallback: the anchor is absent, so the marker goes at the claimed end 12. */
  lemma FallbackExample()
    ensures InjectFromMetadata("The original text has changed.", OneSupport("MISSING_TEXT", 12, [0]))
            == "The original [1.1] text has changed."
  {
    var t := "The original text has changed.";
    var s := GroundingSupport(Some(Segment(Some("MISSING_TEXT"), Some(12))), Some([0]));
    SingleSupport(t, "MISSING_TEXT", 12, [0]);
    FallbackPoint();
    LabelOne();
    LabelsSingle(0);
    InjectAt(t, s, 12, " [1.1]");
    FallbackSplice();
  }

  lemma BoldAnchorAt11()
    ensures OccursAt("He is an **expert** in SRE.", "expert", 11)
    ensures forall j :: 0 <= j < 11 ==> !OccursAt("He is an **expert** in SRE.", "expert", j)
  {
    var t := "He is an **expert** in SRE.";
    assert t[..12] == "He is an **e";
    assert t[1..12] == t[..12][1..];
    NoOccurrenceBefore(t, "expert", 11, 1);
    assert t[11..17] == "expert";
  }

  lemma BoldSplice()
    ensures var t := "He is an **expert** in SRE.";
            t[..19] + " [1.2]" + t[19..] == "He is an **expert** [1.2] in SRE."
  {
  }

  lemma BoldPoint()
    ensures var s := GroundingSupport(Some(Segment(Some("expert"), Some(15))), Some([1]));
            InsertionPoint("He is an **expert** in SRE.", s) == 19
  {
    var t := "He is an **expert** in SRE.";
    var s := GroundingSupport(Some(Segment(Some("expert"), Some(15))), Some([1]));
    BoldCandidate();
    BoldSnap();
    PointFrom(t, s, 17, 19);
  }

  lemma BoldCandidate()
    ensures Candidate("He is an **expert** in SRE.", "expert", 15) == 17
  {
    BoldAnchorAt11();
  }

  lemma BoldSnap()
    ensures SnapPoint("He is an **expert** in SRE.", 17) == 19
  {
    var t := "He is an **expert** in SRE.";
    assert t[17] == '*' && t[18] == '*' && t[19] == ' ';
    assert SnapPoint(t, 19) == 19;
    assert SnapPoint(t, 18) == 19;
  }

  /** Emphasis: the anchor ends inside `**expert**`; the marker goes after the closing stars. */
  lemma BoldExample()
    ensures InjectFromMetadata("He is an **expert** in SRE.", OneSupport("expert", 15, [1]))
            == "He is an **expert** [1.2] in SRE."
  {
    var t := "He is an **expert** in SRE.";
    var s := GroundingSupport(Some(Segment(Some("expert"), Some(15))), Some([1]));
    SingleSupport(t, "expert", 15, [1]);
    BoldPoint();
    LabelTwo();
    LabelsSingle(1);
    InjectAt(t, s, 19, " [1.2]");
    BoldSplice();
  }

  lemma ItalicAnchorAt10()
    ensures OccursAt("He is an _expert_ in SRE.", "expert", 10)
    ensures forall j :: 0 <= j < 10 ==> !OccursAt("He is an _expert_ in SRE.", "expert", j)
  {
    var t := "He is an _expert_ in SRE.";
    assert t[..11] == "He is an _e";
    assert t[1..11] == t[..11][1..];
    NoOccurrenceBefore(t, "expert", 10, 1);
    assert t[10..16] == "expert";
  }

  lemma ItalicCandidate()
    ensures Candidate("He is an _expert_ in SRE.", "expert", 15) == 16
  {
    ItalicAnchorAt10();
  }

  lemma ItalicSnap()
    ensures SnapPoint("He is an _expert_ in SRE.", 16) == 17
  {
    var t := "He is an _expert_ in SRE.";
    assert t[16] == '_' && t[17] == ' ';
    assert SnapPoint(t, 17) == 17;
  }

  lemma ItalicSplice()
    ensures var t := "He is an _expert_ in SRE.";
            t[..17] + " [1.2]" + t[17..] == "He is an _expert_ [1.2] in SRE."
  {
  }

  /** Italics: the marker goes after the closing underscore. */
  lemma ItalicExample()
    ensures InjectFromMetadata("He is an _expert_ in SRE.", OneSupport("expert", 15, [1]))
            == "He is an _expert_ [1.2] in SRE."
  {
    var t := "He is an _expert_ in SRE.";
    var s := GroundingSupport(Some(Segment(Some("expert"), Some(15))), Some([1]));
    SingleSupport(t, "expert", 15, [1]);
    ItalicCandidate();
    ItalicSnap();
    PointFrom(t, s, 16, 17);
    LabelTwo();
    LabelsSingle(1);
    InjectAt(t, s, 17, " [1.2]");
    ItalicSplice();
  }

  lemma HeaderCandidate()
    ensures Candidate("Last claim.### Summary", "Last claim.", 14) == 11
  {
    var t := "Last claim.### Summary";
    assert t[0..11] == "Last claim.";
    assert OccursAt(t, "Last claim.", 0);
  }

  lemma HeaderSnap()
    ensures SnapPoint("Last claim.### Summary", 11) == 11
  {
    var t := "Last claim.### Summary";
    assert t[11] == '#';
  }

  lemma HeaderSplice()
    ensures var t := "Last claim.### Summary";
            t[..11] + " [1.1]" + t[11..] == "Last claim. [1.1]### Summary"
  {
  }

  /** Header mashing: the marker lands between the claim's period and the `#` run, not inside it. */
  lemma HeaderMashingExample()
    ensures InjectFromMetadata("Last claim.### Summary", OneSupport("Last claim.", 14, [0]))
            == "Last claim. [1.1]### Summary"
  {
    var t := "Last claim.### Summary";
    var s := GroundingSupport(Some(Segment(Some("Last claim."), Some(14))), Some([0]));
    SingleSupport(t, "Last claim.", 14, [0]);
    HeaderCandidate();
    HeaderSnap();
    PointFrom(t, s, 11, 11);
    LabelOne();
    LabelsSingle(0);
    InjectAt(t, s, 11, " [1.1]");
    HeaderSplice();
  }

  lemma LabelsOneTwo()
    ensures Labels([0, 1]) == " [1.1] [1.2]"
  {
    LabelOne();
    LabelTwo();
    assert [0, 1][1..] == [1];
    LabelsSingle(1);
  }

  /** An anchor that is the whole text puts the markers at its end. */
  lemma StackingSplice(t: string, s: GroundingSupport)
    requires t == "This claim is supported twice."
    requires s == GroundingSupport(Some(Segment(Some(t), Some(30))), Some([0, 1]))
    ensures Inject(t, s) == t + Labels([0, 1])
  {
    assert t[0..|t|] == t;
    MarkersFollowAnchor(t, s, 0);
    assert t[..|t|] == t && t[|t|..] == [];
  }

  /** Stacking: two chunk indices give two adjacent markers, in order. */
  lemma StackingExample()
    ensures InjectFromMetadata("This claim is supported twice.",
                               OneSupport("This claim is supported twice.", 30, [0, 1]))
            == "This claim is supported twice. [1.1] [1.2]"
  {
    var t := "This claim is supported twice.";
    var s := GroundingSupport(Some(Segment(Some(t), Some(30))), Some([0, 1]));
    SingleSupport(t, t, 30, [0, 1]);
    StackingSplice(t, s);
    LabelsOneTwo();
  }

  lemma LabelFour()
    ensures Label(3) == " [1.4]"
  {
  }

  /** Of two supports with different claimed ends, the one with the larger end is handled first. */
  lemma TwoSupportsSorted(s1: GroundingSupport, s2: GroundingSupport)
    requires EndKey(s1) < EndKey(s2)
    ensures SortByEndDescending([s1, s2]) == [s2, s1]
  {
    assert [s1, s2][1..] == [s2];
    assert SortByEndDescending([s2]) == [s2];
  }

  lemma LeadershipCandidate()
    ensures Candidate("Operational excellence.\n* Leadership", "* Leadership", 36) == 36
  {
    var t := "Operational excellence.\n* Leadership";
    assert t[0..24] == "Operational excellence.\n";
    NoOccurrenceBefore(t, "* Leadership", 24, 0);
    assert t[24..36] == "* Leadership";
  }

  lemma LeadershipPoint()
    ensures var s2 := GroundingSupport(Some(Segment(Some("* Leadership"), Some(36))), Some([0]));
            InsertionPoint("Operational excellence.\n* Leadership", s2) == 36
  {
    var t := "Operational excellence.\n* Leadership";
    var s2 := GroundingSupport(Some(Segment(Some("* Leadership"), Some(36))), Some([0]));
    LeadershipCandidate();
    assert |t| == 36;
    assert SnapPoint(t, 36) == 36;
    PointFrom(t, s2, 36, 36);
  }

  lemma LeadershipStep()
    ensures var s2 := GroundingSupport(Some(Segment(Some("* Leadership"), Some(36))), Some([0]));
            Inject("Operational excellence.\n* Leadership", s2)
            == "Operational excellence.\n* Leadership [1.1]"
  {
    var t := "Operational excellence.\n* Leadership";
    var s2 := GroundingSupport(Some(Segment(Some("* Leadership"), Some(36))), Some([0]));
    LeadershipPoint();
    LabelOne();
    LabelsSingle(0);
    InjectAt(t, s2, 36, " [1.1]");
    LeadershipSplice();
  }

  lemma LeadershipSplice()
    ensures var t := "Operational excellence.\n* Leadership";
            t[..36] + " [1.1]" + t[36..] == "Operational excellence.\n* Leadership [1.1]"
  {
  }

  lemma ExcellenceCandidate()
    ensures Candidate("Operational excellence.\n* Leadership [1.1]", "Operational excellence.", 23) == 23
  {
    var t := "Operational excellence.\n* Leadership [1.1]";
    assert t[0..23] == "Operational excellence.";
    assert OccursAt(t, "Operational excellence.", 0);
  }

  lemma ExcellenceSplice()
    ensures var t := "Operational excellence.\n* Leadership [1.1]";
            t[..23] + " [1.4]" + t[23..] == "Operational excellence. [1.4]\n* Leadership [1.1]"
  {
  }

  lemma ExcellencePoint()
    ensures var s1 := GroundingSupport(Some(Segment(Some("Operational excellence."), Some(23))), Some([3]));
            InsertionPoint("Operational excellence.\n* Leadership [1.1]", s1) == 23
  {
    var t := "Operational excellence.\n* Leadership [1.1]";
    var s1 := GroundingSupport(Some(Segment(Some("Operational excellence."), Some(23))), Some([3]));
    ExcellenceCandidate();
    ExcellenceSnap();
    PointFrom(t, s1, 23, 23);
  }

  lemma ExcellenceSnap()
    ensures SnapPoint("Operational excellence.\n* Leadership [1.1]", 23) == 23
  {
    var t := "Operational excellence.\n* Leadership [1.1]";
    assert t[23] == '\n';
  }

  lemma ExcellenceStep()
    ensures var s1 := GroundingSupport(Some(Segment(Some("Operational excellence."), Some(23))), Some([3]));
            Inject("Operational excellence.\n* Leadership [1.1]", s1)
            == "Operational excellence. [1.4]\n* Leadership [1.1]"
  {
    var t := "Operational excellence.\n* Leadership [1.1]";
    var s1 := GroundingSupport(Some(Segment(Some("Operational excellence."), Some(23))), Some([3]));
    ExcellencePoint();
    LabelFour();
    LabelsSingle(3);
    InjectAt(t, s1, 23, " [1.4]");
    ExcellenceSplice();
  }

  /** A pass over two supports is the first step followed by the second. */
  lemma TwoSteps(t: string, a: GroundingSupport, b: GroundingSupport)
    requires HasLabels(a) && HasLabels(b)
    ensures AllHaveLabels([a, b]) && InjectAll(t, [a, b]) == Inject(Inject(t, a), b)
  {
    assert [a, b][..1] == [a] && [a, b][1] == b;
    assert [a][..0] == [];
    assert InjectAll(t, [a]) == Inject(t, a);
  }

  /** Any two supports, the one with the larger claimed end handled first. */
  lemma TwoSupportsPass(t: string, s1: GroundingSupport, s2: GroundingSupport)
    requires HasLabels(s1) && HasLabels(s2) && EndKey(s1) < EndKey(s2)
    ensures AllHaveLabels([s1, s2])
    ensures InjectFromMetadata(t, Some(GroundingMetadata(Some([s1, s2]), None))) == Inject(Inject(t, s2), s1)
  {
    TwoSupportsSorted(s1, s2);
    TwoSteps(t, s2, s1);
  }

  /**
   * Two supports on two lines: the later claim is handled first, so each
   * marker lands at the end of its own line.
   */
  lemma TwoLinesExample()
    ensures var s1 := GroundingSupport(Some(Segment(Some("Operational excellence."), Some(23))), Some([3]));
            var s2 := GroundingSupport(Some(Segment(Some("* Leadership"), Some(36))), Some([0]));
            InjectFromMetadata("Operational excellence.\n* Leadership",
                               Some(GroundingMetadata(Some([s1, s2]), None)))
            == "Operational excellence. [1.4]\n* Leadership [1.1]"
  {
    var t := "Operational excellence.\n* Leadership";
    var s1 := GroundingSupport(Some(Segment(Some("Operational excellence."), Some(23))), Some([3]));
    var s2 := GroundingSupport(Some(Segment(Some("* Leadership"), Some(36))), Some([0]));
    TwoSupportsPass(t, s1, s2);
    LeadershipStep();
    ExcellenceStep();
  }

  lemma LabelThree()
    ensures Label(2) == " [1.3]"
  {
  }

  /**
   * A step on `pre + anchor + post`, where the anchor's `k`-th character
   * occurs neither in `pre` nor earlier in the anchor (so no occurrence
   * starts inside `pre`) and `post` does not open with emphasis,
   * puts the markers right after the anchor.
   */
  lemma StepAfterAnchor(pre: string, anchor: string, post: string, s: GroundingSupport, k: nat)
    requires !IsSkipped(s) && HasLabels(s) && AnchorText(s) == anchor
    requires k < |anchor| && k <= |pre| && anchor[k] !in pre && anchor[k] !in anchor[..k]
    requires post == [] || !IsEmphasis(post[0])
    ensures Inject(pre + anchor + post, s) == pre + anchor + Labels(s.groundingChunkIndices.value) + post
  {
    var t := pre + anchor + post;
    var e := |pre| + |anchor|;
    assert t[k..|pre| + k] == pre[k..] + anchor[..k];
    assert anchor[k] !in pre[k..];
    NoOccurrenceBefore(t, anchor, |pre|, k);
    assert t[|pre|..e] == anchor;
    assert OccursAt(t, anchor, |pre|);
    assert Candidate(t, anchor, ProvidedEnd(s)) == e;
    if post != [] {
      assert t[e] == post[0];
    }
    assert SnapPoint(t, e) == e;
    assert t[..e] == pre + anchor && t[e..] == post;
  }

  lemma ParagraphTwoAbsent()
    ensures 'T' !in "Paragraph One." + "\n\n### Section 2\n"
    ensures 'T' !in "Paragraph "
  {
  }

  lemma ParagraphTwoStep()
    ensures var s2 := GroundingSupport(Some(Segment(Some("Paragraph Two."), Some(44))), Some([1]));
            Inject("Paragraph One." + "\n\n### Section 2\n" + "Paragraph Two.", s2)
            == "Paragraph One." + "\n\n### Section 2\n" + "Paragraph Two." + " [1.2]"
  {
    var a, b, c := "Paragraph One.", "\n\n### Section 2\n", "Paragraph Two.";
    var s2 := GroundingSupport(Some(Segment(Some(c), Some(44))), Some([1]));
    ParagraphTwoAbsent();
    assert c[..10] == "Paragraph ";
    StepAfterAnchor(a + b, c, "", s2, 10);
    LabelTwo();
    LabelsSingle(1);
    assert a + b + c + "" == a + b + c;
    assert a + b + c + " [1.2]" + "" == a + b + c + " [1.2]";
  }

  lemma ParagraphOneStep()
    ensures var s1 := GroundingSupport(Some(Segment(Some("Paragraph One."), Some(14))), Some([0]));
            Inject("Paragraph One." + "\n\n### Section 2\n" + "Paragraph Two." + " [1.2]", s1)
            == "Paragraph One." + " [1.1]" + "\n\n### Section 2\n" + "Paragraph Two." + " [1.2]"
  {
    var a, rest := "Paragraph One.", "\n\n### Section 2\n" + "Paragraph Two." + " [1.2]";
    var s1 := GroundingSupport(Some(Segment(Some(a), Some(14))), Some([0]));
    assert 'P' !in "";
    StepAfterAnchor("", a, rest, s1, 0);
    LabelOne();
    LabelsSingle(0);
    assert "" + a + rest == a + rest;
    assert a + rest == "Paragraph One." + "\n\n### Section 2\n" + "Paragraph Two." + " [1.2]";
    assert "" + a + " [1.1]" + rest == "Paragraph One." + " [1.1]" + "\n\n### Section 2\n" + "Paragraph Two." + " [1.2]";
  }

  /**
   * Multi-paragraph: the second paragraph's support is handled first, so the
   * marker spliced there does not move the first paragraph's insertion point,
   * and the header between them is left intact.
   */
  lemma MultiParagraphExample()
    ensures var s1 := GroundingSupport(Some(Segment(Some("Paragraph One."), Some(14))), Some([0]));
            var s2 := GroundingSupport(Some(Segment(Some("Paragraph Two."), Some(44))), Some([1]));
            InjectFromMetadata("Paragraph One." + "\n\n### Section 2\n" + "Paragraph Two.",
                               Some(GroundingMetadata(Some([s1, s2]), None)))
            == "Paragraph One." + " [1.1]" + "\n\n### Section 2\n" + "Paragraph Two." + " [1.2]"
  {
    var s1 := GroundingSupport(Some(Segment(Some("Paragraph One."), Some(14))), Some([0]));
    var s2 := GroundingSupport(Some(Segment(Some("Paragraph Two."), Some(44))), Some([1]));
    TwoSupportsPass("Paragraph One." + "\n\n### Section 2\n" + "Paragraph Two.", s1, s2);
    ParagraphTwoStep();
    ParagraphOneStep();
  }

  lemma QualityStep()
    ensures var s := GroundingSupport(Some(Segment(Some("Quality increases agility."), Some(34))), Some([2]));
            Inject("ABC " + "Quality increases agility." + " ### Next Section", s)
            == "ABC " + "Quality increases agility." + " [1.3]" + " ### Next Section"
  {
    var s := GroundingSupport(Some(Segment(Some("Quality increases agility."), Some(34))), Some([2]));
    assert 'Q' !in "ABC ";
    StepAfterAnchor("ABC ", "Quality increases agility.", " ### Next Section", s, 0);
    LabelThree();
    LabelsSingle(2);
  }

  /** Four-character drift: the claimed end 34 points into `###`; the anchor puts the marker after the period. */
  lemma FourCharDriftExample()
    ensures InjectFromMetadata("ABC " + "Quality increases agility." + " ### Next Section",
                               OneSupport("Quality increases agility.", 34, [2]))
            == "ABC " + "Quality increases agility." + " [1.3]" + " ### Next Section"
  {
    SingleSupport("ABC " + "Quality increases agility." + " ### Next Section", "Quality increases agility.", 34, [2]);
    QualityStep();
  }

  lemma KafkaAbsent()
    ensures 'K' !in "\n| Skill | Level |\n|-------|-------|\n| "
  {
  }

  lemma KafkaStep()
    ensures var s := GroundingSupport(Some(Segment(Some("Kafka"), Some(23))), Some([0]));
            Inject("\n| Skill | Level |\n|-------|-------|\n| " + "Kafka" + " | Senior |", s)
            == "\n| Skill | Level |\n|-------|-------|\n| " + "Kafka" + " [1.1]" + " | Senior |"
  {
    var s := GroundingSupport(Some(Segment(Some("Kafka"), Some(23))), Some([0]));
    KafkaAbsent();
    StepAfterAnchor("\n| Skill | Level |\n|-------|-------|\n| ", "Kafka", " | Senior |", s, 0);
    LabelOne();
    LabelsSingle(0);
  }

  /** Table integrity: the marker goes inside the Kafka cell, before its closing pipe, and no row moves. */
  lemma TableIntegrityExample()
    ensures InjectFromMetadata("\n| Skill | Level |\n|-------|-------|\n| " + "Kafka" + " | Senior |",
                               OneSupport("Kafka", 23, [0]))
            == "\n| Skill | Level |\n|-------|-------|\n| " + "Kafka" + " [1.1]" + " | Senior |"
  {
    SingleSupport("\n| Skill | Level |\n|-------|-------|\n| " + "Kafka" + " | Senior |", "Kafka", 23, [0]);
    KafkaStep();
  }
}
