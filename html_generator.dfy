/**
 * The string helpers of src/utils/html-generator.ts: `escapeHtml` and the
 * per-line `trimEnd` cleanup that `generateAssessmentHtml` applies before
 * handing the text to the markdown parser.
 */
module HtmlGenerator {

  // ---------------------------------------------------------------------------
  // escapeHtml
  // ---------------------------------------------------------------------------

  /** `s.replace(/c/g, replacement)` for a single-character pattern `c`. */
  function ReplaceChar(s: string, c: char, replacement: string): string {
    if s == [] then []
    else (if s[0] == c then replacement else [s[0]]) + ReplaceChar(s[1..], c, replacement)
  }

  /** The five replacements, `&` first, in the order the source chains them. */
  function EscapeHtml(unsafe: string): string {
    ReplaceChar(
      ReplaceChar(
        ReplaceChar(
          ReplaceChar(
            ReplaceChar(unsafe, '&', "&amp;"),
            '<', "&lt;"),
          '>', "&gt;"),
        '"', "&quot;"),
      '\'', "&#039;")
  }

  predicate IsSpecial(c: char) {
    c == '&' || c == '<' || c == '>' || c == '"' || c == '\''
  }

  /** What one input character becomes. */
  function Entity(c: char): (e: string)
    ensures |e| >= 1
    ensures IsSpecial(c) <==> e[0] == '&'
    ensures !IsSpecial(c) ==> e == [c]
  {
    match c
    case '&' => "&amp;"
    case '<' => "&lt;"
    case '>' => "&gt;"
    case '"' => "&quot;"
    case '\'' => "&#039;"
    case _ => [c]
  }

  /** The reference escaping: each character replaced by its entity, independently. */
  function EscapeEach(s: string): string {
    if s == [] then [] else Entity(s[0]) + EscapeEach(s[1..])
  }

  lemma {:induction false} ReplaceCharConcat(a: string, b: string, c: char, replacement: string)
    ensures ReplaceChar(a + b, c, replacement) == ReplaceChar(a, c, replacement) + ReplaceChar(b, c, replacement)
  {
    if a == [] {
      assert a + b == b;
    } else {
      assert (a + b)[0] == a[0];
      assert (a + b)[1..] == a[1..] + b;
      ReplaceCharConcat(a[1..], b, c, replacement);
    }
  }

  lemma EscapeHtmlConcat(a: string, b: string)
    ensures EscapeHtml(a + b) == EscapeHtml(a) + EscapeHtml(b)
  {
    var a1, b1 := ReplaceChar(a, '&', "&amp;"), ReplaceChar(b, '&', "&amp;");
    ReplaceCharConcat(a, b, '&', "&amp;");
    var a2, b2 := ReplaceChar(a1, '<', "&lt;"), ReplaceChar(b1, '<', "&lt;");
    ReplaceCharConcat(a1, b1, '<', "&lt;");
    var a3, b3 := ReplaceChar(a2, '>', "&gt;"), ReplaceChar(b2, '>', "&gt;");
    ReplaceCharConcat(a2, b2, '>', "&gt;");
    var a4, b4 := ReplaceChar(a3, '"', "&quot;"), ReplaceChar(b3, '"', "&quot;");
    ReplaceCharConcat(a3, b3, '"', "&quot;");
    ReplaceCharConcat(a4, b4, '\'', "&#039;");
  }

  /** A replacement leaves a string without its pattern character alone. */
  lemma {:induction false} ReplaceCharAbsent(s: string, c: char, replacement: string)
    requires c !in s
    ensures ReplaceChar(s, c, replacement) == s
  {
    if s != [] {
      assert s == [s[0]] + s[1..];
      ReplaceCharAbsent(s[1..], c, replacement);
    }
  }

  // What each of the five replacements does to each special character and to
  // the entity it becomes: it passes untouched until its own replacement, and
  // the entity passes untouched through every later one.

  lemma AmpersandStages()
    ensures ReplaceChar("&", '&', "&amp;") == "&amp;"
    ensures ReplaceChar("&amp;", '<', "&lt;") == "&amp;"
    ensures ReplaceChar("&amp;", '>', "&gt;") == "&amp;"
    ensures ReplaceChar("&amp;", '"', "&quot;") == "&amp;"
    ensures ReplaceChar("&amp;", '\'', "&#039;") == "&amp;"
  {
  }

  lemma LessThanStages()
    ensures ReplaceChar("<", '&', "&amp;") == "<"
    ensures ReplaceChar("<", '<', "&lt;") == "&lt;"
    ensures ReplaceChar("&lt;", '>', "&gt;") == "&lt;"
    ensures ReplaceChar("&lt;", '"', "&quot;") == "&lt;"
    ensures ReplaceChar("&lt;", '\'', "&#039;") == "&lt;"
  {
  }

  lemma GreaterThanStages()
    ensures ReplaceChar(">", '&', "&amp;") == ">"
    ensures ReplaceChar(">", '<', "&lt;") == ">"
    ensures ReplaceChar(">", '>', "&gt;") == "&gt;"
    ensures ReplaceChar("&gt;", '"', "&quot;") == "&gt;"
    ensures ReplaceChar("&gt;", '\'', "&#039;") == "&gt;"
  {
  }

  lemma QuoteStages()
    ensures ReplaceChar("\"", '&', "&amp;") == "\""
    ensures ReplaceChar("\"", '<', "&lt;") == "\""
    ensures ReplaceChar("\"", '>', "&gt;") == "\""
    ensures ReplaceChar("\"", '"', "&quot;") == "&quot;"
    ensures ReplaceChar("&quot;", '\'', "&#039;") == "&quot;"
  {
  }

  lemma ApostropheStages()
    ensures ReplaceChar("'", '&', "&amp;") == "'"
    ensures ReplaceChar("'", '<', "&lt;") == "'"
    ensures ReplaceChar("'", '>', "&gt;") == "'"
    ensures ReplaceChar("'", '"', "&quot;") == "'"
    ensures ReplaceChar("'", '\'', "&#039;") == "&#039;"
  {
  }

  lemma ReplaceCharSingle(c: char, d: char, replacement: string)
    requires c != d
    ensures ReplaceChar([c], d, replacement) == [c]
  {
    assert [c][1..] == [];
  }

  /**
   * Escaping one character gives its entity: because `&` goes first, the
   * entities the later replacements add are never escaped again.
   */
  lemma EscapeHtmlChar(c: char)
    ensures EscapeHtml([c]) == Entity(c)
  {
    match c
    case '&' => AmpersandStages();
    case '<' => LessThanStages();
    case '>' => GreaterThanStages();
    case '"' => QuoteStages();
    case '\'' => ApostropheStages();
    case _ =>
      ReplaceCharSingle(c, '&', "&amp;");
      ReplaceCharSingle(c, '<', "&lt;");
      ReplaceCharSingle(c, '>', "&gt;");
      ReplaceCharSingle(c, '"', "&quot;");
      ReplaceCharSingle(c, '\'', "&#039;");
  }

  /** The chained replacements escape each character independently. */
  lemma {:induction false} EscapeHtmlIsPerChar(s: string)
    ensures EscapeHtml(s) == EscapeEach(s)
  {
    if s == [] {
    } else {
      assert s == [s[0]] + s[1..];
      EscapeHtmlConcat([s[0]], s[1..]);
      EscapeHtmlChar(s[0]);
      EscapeHtmlIsPerChar(s[1..]);
    }
  }

  /** Markup characters that must not survive escaping. */
  predicate IsMarkup(c: char) {
    c == '<' || c == '>' || c == '"' || c == '\''
  }

  lemma {:induction false} EscapeEachNoMarkup(s: string)
    ensures forall i :: 0 <= i < |EscapeEach(s)| ==> !IsMarkup(EscapeEach(s)[i])
  {
    if s != [] {
      EscapeEachNoMarkup(s[1..]);
      var e, rest := Entity(s[0]), EscapeEach(s[1..]);
      forall i | 0 <= i < |e + rest|
        ensures !IsMarkup((e + rest)[i])
      {
        if i >= |e| {
          assert (e + rest)[i] == rest[i - |e|];
        }
      }
    }
  }

  /** The output of `escapeHtml` holds no `<`, `>`, `"` or `'`. */
  lemma EscapeHtmlNoMarkup(s: string)
    ensures forall i :: 0 <= i < |EscapeHtml(s)| ==> !IsMarkup(EscapeHtml(s)[i])
  {
    EscapeHtmlIsPerChar(s);
    EscapeEachNoMarkup(s);
  }

  predicate HasPrefixAt(s: string, i: nat, p: string) {
    i + |p| <= |s| && s[i..i + |p|] == p
  }

  /** One of the five entities starts at position `i`. */
  predicate EntityAt(s: string, i: nat) {
    HasPrefixAt(s, i, "&amp;") || HasPrefixAt(s, i, "&lt;") || HasPrefixAt(s, i, "&gt;") ||
    HasPrefixAt(s, i, "&quot;") || HasPrefixAt(s, i, "&#039;")
  }

  lemma EntityAtShift(e: string, rest: string, i: nat)
    requires EntityAt(rest, i)
    ensures EntityAt(e + rest, |e| + i)
  {
    var s := e + rest;
    forall p: string | HasPrefixAt(rest, i, p)
      ensures HasPrefixAt(s, |e| + i, p)
    {
      assert s[|e| + i..|e| + i + |p|] == rest[i..i + |p|];
    }
  }

  lemma {:induction false} EscapeEachAmpersands(s: string)
    ensures forall i :: 0 <= i < |EscapeEach(s)| && EscapeEach(s)[i] == '&' ==> EntityAt(EscapeEach(s), i)
  {
    if s != [] {
      EscapeEachAmpersands(s[1..]);
      var e, rest := Entity(s[0]), EscapeEach(s[1..]);
      var r := e + rest;
      assert r == EscapeEach(s);
      forall i | 0 <= i < |r| && r[i] == '&'
        ensures EntityAt(r, i)
      {
        if i < |e| {
          assert r[..|e|] == e;
          assert i == 0;
          assert HasPrefixAt(r, 0, e);
        } else {
          assert rest[i - |e|] == r[i];
          EntityAtShift(e, rest, i - |e|);
        }
      }
    }
  }

  /** Every `&` in the output of `escapeHtml` begins one of the five entities. */
  lemma EscapeHtmlAmpersands(s: string)
    ensures forall i :: 0 <= i < |EscapeHtml(s)| && EscapeHtml(s)[i] == '&' ==> EntityAt(EscapeHtml(s), i)
  {
    EscapeHtmlIsPerChar(s);
    EscapeEachAmpersands(s);
  }

  function Count(s: string, c: char): nat {
    if s == [] then 0 else (if s[0] == c then 1 else 0) + Count(s[1..], c)
  }

  /** The output grows by 4, 3, 3, 5 and 5 characters per `&`, `<`, `>`, `"` and `'`. */
  lemma {:induction false} EscapeHtmlLength(s: string)
    ensures |EscapeHtml(s)| ==
            |s| + 4 * Count(s, '&') + 3 * Count(s, '<') + 3 * Count(s, '>') +
            5 * Count(s, '"') + 5 * Count(s, '\'')
  {
    if s == [] {
    } else {
      assert s == [s[0]] + s[1..];
      EscapeHtmlConcat([s[0]], s[1..]);
      EscapeHtmlChar(s[0]);
      EscapeHtmlLength(s[1..]);
    }
  }

  /** Text without the five special characters is left exactly as it is. */
  lemma EscapeHtmlPlain(s: string)
    requires forall i :: 0 <= i < |s| ==> !IsSpecial(s[i])
    ensures EscapeHtml(s) == s
  {
    ReplaceCharAbsent(s, '&', "&amp;");
    ReplaceCharAbsent(s, '<', "&lt;");
    ReplaceCharAbsent(s, '>', "&gt;");
    ReplaceCharAbsent(s, '"', "&quot;");
    ReplaceCharAbsent(s, '\'', "&#039;");
  }

  /** Decodes the five entities back to their characters; anything else is kept. */
  function UnescapeHtml(s: string): string
    decreases |s|
  {
    if s == [] then []
    else if s[0] != '&' then [s[0]] + UnescapeHtml(s[1..])
    else if HasPrefixAt(s, 0, "&amp;") then "&" + UnescapeHtml(s[5..])
    else if HasPrefixAt(s, 0, "&lt;") then "<" + UnescapeHtml(s[4..])
    else if HasPrefixAt(s, 0, "&gt;") then ">" + UnescapeHtml(s[4..])
    else if HasPrefixAt(s, 0, "&quot;") then "\"" + UnescapeHtml(s[6..])
    else if HasPrefixAt(s, 0, "&#039;") then "'" + UnescapeHtml(s[6..])
    else "&" + UnescapeHtml(s[1..])
  }

  /** An entity in front of `rest` is a prefix, and what follows it is `rest`. */
  lemma EntityPrefix(e: string, rest: string)
    ensures HasPrefixAt(e + rest, 0, e) && (e + rest)[|e|..] == rest
    ensures |e| >= 2 ==> (e + rest)[0] == e[0] && (e + rest)[1] == e[1]
  {
    assert (e + rest)[..|e|] == e;
  }

  /** The entities differ in their second character, so at most one of them is a prefix. */
  lemma NotPrefixAt1(s: string, p: string)
    requires |s| >= 2 && |p| >= 2 && s[1] != p[1]
    ensures !HasPrefixAt(s, 0, p)
  {
    if |p| <= |s| {
      assert s[0..|p|][1] == s[1];
    }
  }

  lemma UnescapeEntity(c: char, rest: string)
    ensures UnescapeHtml(Entity(c) + rest) == [c] + UnescapeHtml(rest)
  {
    var e := Entity(c);
    var s := e + rest;
    EntityPrefix(e, rest);
    match c
    case '&' =>
    case '<' =>
      NotPrefixAt1(s, "&amp;");
    case '>' =>
      NotPrefixAt1(s, "&amp;");
      NotPrefixAt1(s, "&lt;");
    case '"' =>
      NotPrefixAt1(s, "&amp;");
      NotPrefixAt1(s, "&lt;");
      NotPrefixAt1(s, "&gt;");
    case '\'' =>
      NotPrefixAt1(s, "&amp;");
      NotPrefixAt1(s, "&lt;");
      NotPrefixAt1(s, "&gt;");
      NotPrefixAt1(s, "&quot;");
    case _ =>
      assert e == [c];
      assert s[1..] == rest;
  }

  lemma {:induction false} UnescapeEscapeEach(s: string)
    ensures UnescapeHtml(EscapeEach(s)) == s
  {
    if s != [] {
      UnescapeEntity(s[0], EscapeEach(s[1..]));
      UnescapeEscapeEach(s[1..]);
    }
  }

  /** Unescaping what `escapeHtml` produced gives back the original text. */
  lemma EscapeHtmlRoundTrip(s: string)
    ensures UnescapeHtml(EscapeHtml(s)) == s
  {
    EscapeHtmlIsPerChar(s);
    UnescapeEscapeEach(s);
  }

  // ---------------------------------------------------------------------------
  // The trailing-whitespace cleanup
  // ---------------------------------------------------------------------------

  /**
   * The code units `trimEnd` removes: ECMAScript's WhiteSpace (tab, vertical
   * tab, form feed, space, no-break space, the byte-order mark and the
   * Unicode space separators) and LineTerminator (line feed, carriage return,
   * line and paragraph separators).
   */
  predicate IsWhiteSpace(c: char) {
    c == '\t' || c == '\n' || c == '\U{000B}' || c == '\U{000C}' || c == '\r' || c == ' ' ||
    c == '\U{00A0}' || c == '\U{1680}' || ('\U{2000}' <= c <= '\U{200A}') ||
    c == '\U{2028}' || c == '\U{2029}' || c == '\U{202F}' || c == '\U{205F}' || c == '\U{3000}' ||
    c == '\U{FEFF}'
  }

  /**
   * `line.trimEnd()`: the longest prefix of `line` that is empty or ends in a
   * character that is not whitespace; what it drops is all whitespace.
   */
  function TrimEnd(line: string): (r: string)
    ensures |r| <= |line| && r == line[..|r|]
    ensures forall i :: |r| <= i < |line| ==> IsWhiteSpace(line[i])
    ensures r == [] || !IsWhiteSpace(r[|r| - 1])
  {
    if line != [] && IsWhiteSpace(line[|line| - 1]) then TrimEnd(line[..|line| - 1]) else line
  }

  /** Trimming a line twice is trimming it once. */
  lemma TrimEndIdempotent(line: string)
    ensures TrimEnd(TrimEnd(line)) == TrimEnd(line)
  {
  }

  /** `s.split('\n')`: the pieces between line feeds; always at least one. */
  function Split(s: string): (lines: seq<string>)
    ensures |lines| >= 1
    ensures forall k :: 0 <= k < |lines| ==> '\n' !in lines[k]
  {
    if s == [] then [[]]
    else
      var rest := Split(s[1..]);
      if s[0] == '\n' then [[]] + rest
      else [[s[0]] + rest[0]] + rest[1..]
  }

  /** `lines.join('\n')`. */
  function Join(lines: seq<string>): string
    requires |lines| >= 1
  {
    if |lines| == 1 then lines[0] else lines[0] + "\n" + Join(lines[1..])
  }

  /** Joining the pieces of a split gives back the text. */
  lemma {:induction false} JoinSplit(s: string)
    ensures Join(Split(s)) == s
  {
    if s != [] {
      var rest := Split(s[1..]);
      JoinSplit(s[1..]);
      if s[0] == '\n' {
        assert ([[]] + rest)[1..] == rest;
      } else {
        var lines := [[s[0]] + rest[0]] + rest[1..];
        if |rest| > 1 {
          assert lines[1..] == rest[1..];
          assert Join(rest) == rest[0] + "\n" + Join(rest[1..]);
        }
      }
    }
  }

  lemma {:induction false} SplitPrefix(a: string, s: string)
    requires '\n' !in a
    ensures Split(a + s) == [a + Split(s)[0]] + Split(s)[1..]
  {
    if a != [] {
      assert (a + s)[0] == a[0];
      assert (a + s)[1..] == a[1..] + s;
      SplitPrefix(a[1..], s);
      assert [a[0]] + (a[1..] + Split(s)[0]) == a + Split(s)[0];
    } else {
      assert a + s == s;
      assert a + Split(s)[0] == Split(s)[0];
      assert Split(s) == [Split(s)[0]] + Split(s)[1..];
    }
  }

  /** Splitting lines that hold no line feed after joining them gives the lines back. */
  lemma {:induction false} SplitJoin(lines: seq<string>)
    requires |lines| >= 1
    requires forall k :: 0 <= k < |lines| ==> '\n' !in lines[k]
    ensures Split(Join(lines)) == lines
  {
    if |lines| == 1 {
      SplitPrefix(lines[0], []);
      assert lines[0] + [] == lines[0];
    } else {
      var tail := Join(lines[1..]);
      SplitJoin(lines[1..]);
      assert Join(lines) == lines[0] + ("\n" + tail);
      SplitPrefix(lines[0], "\n" + tail);
      assert ("\n" + tail)[1..] == tail;
      assert Split("\n" + tail) == [[]] + lines[1..];
      assert lines[0] + [] == lines[0];
      assert lines == [lines[0]] + lines[1..];
    }
  }

  function TrimLines(lines: seq<string>): (r: seq<string>)
    ensures |r| == |lines|
  {
    seq(|lines|, k requires 0 <= k < |lines| => TrimEnd(lines[k]))
  }

  /** The text `generateAssessmentHtml` hands to the markdown parser. */
  function CleanMarkdown(text: string): string {
    Join(TrimLines(Split(text)))
  }

  /** Splitting the cleaned text gives the trimmed lines of the original. */
  lemma SplitCleanMarkdown(text: string)
    ensures Split(CleanMarkdown(text)) == TrimLines(Split(text))
  {
    var trimmed := TrimLines(Split(text));
    forall k | 0 <= k < |trimmed|
      ensures '\n' !in trimmed[k]
    {
      assert trimmed[k] == Split(text)[k][..|trimmed[k]|];
    }
    SplitJoin(trimmed);
  }

  /**
   * The cleanup keeps the lines: there are as many as before, each is the old
   * line with only trailing whitespace removed, and none ends in whitespace.
   */
  lemma CleanMarkdownLines(text: string)
    ensures var before, after := Split(text), Split(CleanMarkdown(text));
            |after| == |before| &&
            forall k :: 0 <= k < |after| ==>
              |after[k]| <= |before[k]| && after[k] == before[k][..|after[k]|] &&
              (forall i :: |after[k]| <= i < |before[k]| ==> IsWhiteSpace(before[k][i])) &&
              (after[k] == [] || !IsWhiteSpace(after[k][|after[k]| - 1]))
  {
    var before, after := Split(text), Split(CleanMarkdown(text));
    SplitCleanMarkdown(text);
    forall k | 0 <= k < |after|
      ensures |after[k]| <= |before[k]| && after[k] == before[k][..|after[k]|]
      ensures forall i :: |after[k]| <= i < |before[k]| ==> IsWhiteSpace(before[k][i])
      ensures after[k] == [] || !IsWhiteSpace(after[k][|after[k]| - 1])
    {
      assert after[k] == TrimEnd(before[k]);
    }
  }

  /** Cleaning cleaned text changes nothing. */
  lemma CleanMarkdownIdempotent(text: string)
    ensures CleanMarkdown(CleanMarkdown(text)) == CleanMarkdown(text)
  {
    SplitCleanMarkdown(text);
    var once := TrimLines(Split(text));
    assert TrimLines(once) == once by {
      forall k | 0 <= k < |once|
        ensures TrimLines(once)[k] == once[k]
      {
        TrimEndIdempotent(Split(text)[k]);
      }
    }
  }
}
