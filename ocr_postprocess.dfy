/** The post-cleaning of browser OCR output: pipes and backslashes replaced, two accent
    passes that leave the text as it is, runs of spaces and tabs collapsed, three or more
    line breaks reduced to two, page-number and digit-only lines emptied, and the result
    trimmed. Every pass is a global regular-expression replacement on the whole text. */
module AutomaticOcr {
  import opened Wrappers
  import opened Text
  import opened Regex

  // ---------------------------------------------------------------- the patterns

  /** \w of JavaScript regular expressions without the u flag. */
  predicate IsJsWord(c: char) {
    ('a' <= c <= 'z') || ('A' <= c <= 'Z') || IsDigit(c) || c == '_'
  }

  predicate IsSpaceOrTab(c: char) {
    c == ' ' || c == '\t'
  }

  /** The match of the one-character class `[c]` at position j. */
  function CharMatch(c: char): (string, nat) -> nat {
    (s: string, j: nat) => if j < |s| && s[j] == c then 1 else 0
  }

  /** The match of `\bc\b` at position j for a character c outside \w: the boundary before
      it needs a word character just before, the one after a word character just after. */
  function BoundedCharMatch(c: char): (string, nat) -> nat {
    (s: string, j: nat) =>
      if 0 < j && j + 1 < |s| && s[j] == c && IsJsWord(s[j - 1]) && IsJsWord(s[j + 1]) then 1 else 0
  }

  /** The match of `[ \t]+` at position j. */
  function BlankRunMatch(s: string, j: nat): (n: nat)
    ensures n == 0 || j + n <= |s|
    ensures j < |s| ==> (n > 0 <==> IsSpaceOrTab(s[j]))
    ensures j + n >= |s| || !IsSpaceOrTab(s[j + n])
  {
    if j <= |s| then Run(s, j, IsSpaceOrTab) else 0
  }

  /** The match of `\n\s*\n\s*\n+` at position j, with JavaScript's \s. */
  function ExcessBreaksMatch(s: string, j: nat): (n: nat)
    ensures n == 0 || j + n <= |s|
  {
    NewlineRunMatch(s, j, 3, IsJsSpace)
  }

  /** Where `^` matches under the m flag: at the start or just after a line terminator. */
  predicate LineStart(s: string, j: nat) {
    j == 0 || (j <= |s| && IsJsLineTerminator(s[j - 1]))
  }

  /** Where `$` matches under the m flag: at the end or just before a line terminator. */
  predicate LineEnd(s: string, p: nat) {
    p == |s| || (p < |s| && IsJsLineTerminator(s[p]))
  }

  /** The end of the line that holds position j: what `.*$` reaches from j. */
  function EndOfLine(s: string, j: nat): (p: nat)
    requires j <= |s|
    ensures j <= p && LineEnd(s, p)
    ensures forall k :: j <= k < p ==> !IsJsLineTerminator(s[k])
  {
    j + Run(s, j, c => !IsJsLineTerminator(c))
  }

  /** The match of `^Page\s+\d+.*$` (m flag) at position j: "Page" at a line start, a
      whitespace run (which may cross lines), digits, and the rest of that line. */
  function PageLineMatch(s: string, j: nat): (n: nat)
    ensures n == 0 || j + n <= |s|
  {
    if j + 4 <= |s| && LineStart(s, j) && s[j..j + 4] == "Page" then
      var w := Run(s, j + 4, IsJsSpace);
      var d := Run(s, j + 4 + w, IsDigit);
      if w > 0 && d > 0 then EndOfLine(s, j + 4 + w + d) - j else 0
    else 0
  }

  /** The last position p in [a, b] where `$` matches, if any. */
  function LastLineEnd(s: string, a: nat, b: nat): (r: Option<nat>)
    requires a <= b <= |s|
    ensures r.Some? ==> a <= r.value <= b && LineEnd(s, r.value)
    ensures r.Some? ==> forall q :: r.value < q <= b ==> !LineEnd(s, q)
    ensures r.None? ==> forall q :: a <= q <= b ==> !LineEnd(s, q)
    decreases b - a
  {
    if LineEnd(s, b) then Some(b)
    else if a == b then None
    else LastLineEnd(s, a, b - 1)
  }

  /** The match of `^\d+\s*$` (m flag) at position j: digits at a line start, then as much of
      the following whitespace run (which may hold line breaks) as still ends where `$`
      matches. */
  function DigitLineMatch(s: string, j: nat): (n: nat)
    ensures n == 0 || j + n <= |s|
  {
    if j <= |s| && LineStart(s, j) then
      var d := Run(s, j, IsDigit);
      var w := Run(s, j + d, IsJsSpace);
      if d == 0 then 0
      else
        var p := LastLineEnd(s, j + d, j + d + w);
        if p.Some? then p.value - j else 0
    else 0
  }

  // ---------------------------------------------------------------- cleanOCRText

  /** The text after each replacement, first to last. */
  function PipesReplaced(text: string): string {
    SubFrom(text, 0, CharMatch('|'), "l")
  }

  function BackslashesReplaced(text: string): string {
    SubFrom(text, 0, CharMatch('\\'), "/")
  }

  function AccentsReplaced(text: string): string {
    var t := SubFrom(text, 0, BoundedCharMatch('à'), "à");
    SubFrom(t, 0, BoundedCharMatch('é'), "é")
  }

  function SpacingNormalized(text: string): string {
    var t := SubFrom(text, 0, BlankRunMatch, " ");
    SubFrom(t, 0, ExcessBreaksMatch, "\n\n")
  }

  function PageLinesEmptied(text: string): string {
    var t := SubFrom(text, 0, PageLineMatch, "");
    SubFrom(t, 0, DigitLineMatch, "")
  }

  /** cleanOCRText: the result neither starts nor ends with whitespace. */
  function CleanOcrText(text: string): (r: string)
    ensures r == [] || (!IsJsSpace(r[0]) && !IsJsSpace(r[|r| - 1]))
  {
    var t := BackslashesReplaced(PipesReplaced(text));
    Trim(PageLinesEmptied(SpacingNormalized(AccentsReplaced(t))))
  }

  // ---------------------------------------------------------------- properties

  /** Neither '|' nor '\'. */
  predicate NoArtifact(c: char) {
    c != '|' && c != '\\'
  }

  /** A replacement that puts back exactly the character it matched changes nothing. */
  lemma {:induction false} SubFromSame(s: string, i: nat, m: (string, nat) -> nat, c: char)
    requires i <= |s| && MatchesWithin(s, i, m)
    requires forall j :: i <= j < |s| && m(s, j) > 0 ==> m(s, j) == 1 && s[j] == c
    ensures SubFrom(s, i, m, [c]) == s[i..]
    decreases |s| - i
  {
    if i < |s| {
      SubFromSame(s, i + 1, m, c);
      assert s[i..] == [s[i]] + s[i + 1..];
    }
  }

  /** The two accent passes give back the text they are given. */
  lemma AccentsUnchanged(text: string)
    ensures AccentsReplaced(text) == text
  {
    SubFromSame(text, 0, BoundedCharMatch('à'), 'à');
    SubFromSame(text, 0, BoundedCharMatch('é'), 'é');
  }

  /** A pass whose replacement has neither character keeps a text free of both. */
  lemma PassKeepsClean(s: string, m: (string, nat) -> nat, rep: string)
    requires MatchesWithin(s, 0, m) && All(s, NoArtifact) && All(rep, NoArtifact)
    ensures All(SubFrom(s, 0, m, rep), NoArtifact)
  {
    SubFromKeeps(s, 0, m, rep, NoArtifact);
  }

  /** After the first two passes no pipe and no backslash is left. */
  lemma ArtifactsReplaced(text: string)
    ensures All(BackslashesReplaced(PipesReplaced(text)), NoArtifact)
  {
    var t := PipesReplaced(text);
    SubFromKeeps(text, 0, CharMatch('|'), "l", c => c != '|');
    SubFromKeeps(t, 0, CharMatch('\\'), "/", NoArtifact);
  }

  /** The spacing and line passes keep a text free of both characters. */
  lemma LaterPassesKeepClean(t: string)
    requires All(t, NoArtifact)
    ensures All(PageLinesEmptied(SpacingNormalized(t)), NoArtifact)
  {
    var t1 := SubFrom(t, 0, BlankRunMatch, " ");
    PassKeepsClean(t, BlankRunMatch, " ");
    var t2 := SubFrom(t1, 0, ExcessBreaksMatch, "\n\n");
    PassKeepsClean(t1, ExcessBreaksMatch, "\n\n");
    var t3 := SubFrom(t2, 0, PageLineMatch, "");
    PassKeepsClean(t2, PageLineMatch, "");
    PassKeepsClean(t3, DigitLineMatch, "");
  }

  /** The cleaned text holds no '|' and no '\\'. */
  lemma CleanOcrTextNoArtifacts(text: string)
    ensures '|' !in CleanOcrText(text) && '\\' !in CleanOcrText(text)
  {
    var t := BackslashesReplaced(PipesReplaced(text));
    ArtifactsReplaced(text);
    AccentsUnchanged(t);
    LaterPassesKeepClean(t);
    var t4 := PageLinesEmptied(SpacingNormalized(t));
    StripByKeeps(t4, IsJsSpace, NoArtifact);
    NoArtifactIn(Trim(t4));
  }

  lemma NoArtifactIn(r: string)
    requires All(r, NoArtifact)
    ensures '|' !in r && '\\' !in r
  {
  }

  /** A page-number match is exactly "Page", whitespace and digits at a line start, and it
      runs to the end of the line the digits are on. */
  lemma PageLineMatchSpec(s: string, j: nat)
    requires j <= |s|
    ensures PageLineMatch(s, j) > 0 <==>
      j + 4 <= |s| && LineStart(s, j) && s[j..j + 4] == "Page" &&
      Run(s, j + 4, IsJsSpace) > 0 && Run(s, j + 4 + Run(s, j + 4, IsJsSpace), IsDigit) > 0
    ensures PageLineMatch(s, j) > 0 ==>
      var e := j + PageLineMatch(s, j);
      LineEnd(s, e) && forall k :: j + 4 + Run(s, j + 4, IsJsSpace) <= k < e ==> !IsJsLineTerminator(s[k])
  {
  }

  /** A digit-line match starts at a line start with a digit, holds only digits and
      whitespace, and ends where `$` matches. */
  lemma DigitLineMatchSound(s: string, j: nat)
    requires j <= |s| && DigitLineMatch(s, j) > 0
    ensures LineStart(s, j) && IsDigit(s[j])
    ensures LineEnd(s, j + DigitLineMatch(s, j))
    ensures forall k :: j <= k < j + DigitLineMatch(s, j) ==> IsDigit(s[k]) || IsJsSpace(s[k])
  {
    var d := Run(s, j, IsDigit);
    var w := Run(s, j + d, IsJsSpace);
    assert forall k :: j + d <= k < j + d + w ==> IsJsSpace(s[k]);
  }

  /** A line made of at least one digit followed only by spaces and tabs is matched up to
      its end at least. */
  lemma DigitLineMatchComplete(s: string, j: nat)
    requires j <= |s| && LineStart(s, j) && Run(s, j, IsDigit) > 0
    requires forall k :: j + Run(s, j, IsDigit) <= k < EndOfLine(s, j) ==> IsSpaceOrTab(s[k])
    ensures j + DigitLineMatch(s, j) >= EndOfLine(s, j)
  {
    var d := Run(s, j, IsDigit);
    var w := Run(s, j + d, IsJsSpace);
    var e := EndOfLine(s, j);
    assert j + d == |s| || !IsJsLineTerminator(s[j + d]) || j + d <= e;
    assert j + d <= e;
    assert j + d + w == |s| || IsSpaceOrTab(s[j + d + w]) || j + d + w >= e;
    assert e <= j + d + w;
    var p := LastLineEnd(s, j + d, j + d + w);
    assert p.Some?;
  }

  /** Where a page-number or digit-only line starts, the pass drops everything up to the
      end of the match and goes on from there. */
  lemma LineEmptied(s: string, j: nat, m: (string, nat) -> nat)
    requires j < |s| && MatchesWithin(s, j, m) && m(s, j) > 0
    ensures SubFrom(s, j, m, "") == SubFrom(s, j + m(s, j), m, "")
  {
  }
}
