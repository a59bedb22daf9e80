/** The text cleaner: drops repeated header/footer lines, page numbers and "n/m" marks,
    normalises spaces and blank lines, removes signature and stamp lines, strips the result
    and reports the lengths before and after. */
module Cleaner {
  import opened Text
  import opened Regex

  // ---------------------------------------------------------------- _remove_headers_footers

  /** The number of lines whose key (their stripped form) is `s`. */
  function Occurrences(lines: seq<string>, s: string, key: string -> string): (n: nat)
    ensures n <= |lines|
  {
    if lines == [] then 0
    else Occurrences(lines[..|lines| - 1], s, key) + (if key(lines[|lines| - 1]) == s then 1 else 0)
  }

  /** line_counts after the counting loop over `lines`: every key longer than 10 characters,
      counted. */
  function CountsOf(lines: seq<string>, key: string -> string): map<string, nat> {
    if lines == [] then map[]
    else
      var counts := CountsOf(lines[..|lines| - 1], key);
      var k := key(lines[|lines| - 1]);
      if |k| > 10 then counts[k := (if k in counts then counts[k] else 0) + 1] else counts
  }

  /** The counts hold exactly the keys longer than 10 characters that occur, each with its
      number of occurrences. */
  lemma {:induction false} CountsOfSpec(lines: seq<string>, key: string -> string, s: string)
    ensures s in CountsOf(lines, key) <==> |s| > 10 && Occurrences(lines, s, key) > 0
    ensures s in CountsOf(lines, key) ==> CountsOf(lines, key)[s] == Occurrences(lines, s, key)
  {
    if lines != [] {
      CountsOfSpec(lines[..|lines| - 1], key, s);
    }
  }

  /** One more step of the counting loop. */
  lemma CountsOfStep(lines: seq<string>, i: nat, key: string -> string)
    requires i < |lines|
    ensures CountsOf(lines[..i + 1], key) ==
      var counts := CountsOf(lines[..i], key);
      var k := key(lines[i]);
      if |k| > 10 then counts[k := (if k in counts then counts[k] else 0) + 1] else counts
  {
    assert lines[..i + 1][..i] == lines[..i];
  }

  /** The keys counted more than 3 times. */
  function RepeatedKeys(counts: map<string, nat>): set<string> {
    set s | s in counts && counts[s] > 3
  }

  /** A line is a header or footer: its key is longer than 10 characters and occurs more than
      3 times. */
  predicate IsRepeated(lines: seq<string>, s: string, key: string -> string) {
    |s| > 10 && Occurrences(lines, s, key) > 3
  }

  lemma RepeatedKeysSpec(lines: seq<string>, key: string -> string, s: string)
    ensures s in RepeatedKeys(CountsOf(lines, key)) <==> IsRepeated(lines, s, key)
  {
    CountsOfSpec(lines, key, s);
  }

  /** [line for line in lines if key(line) not in repeated]. */
  function Unrepeated(lines: seq<string>, repeated: set<string>, key: string -> string): (r: seq<string>)
    ensures |r| <= |lines|
  {
    if lines == [] then []
    else (if key(lines[0]) in repeated then [] else [lines[0]]) + Unrepeated(lines[1..], repeated, key)
  }

  /** A line is kept iff it is one of the lines and its key is not repeated. */
  lemma {:induction false} UnrepeatedMembers(lines: seq<string>, repeated: set<string>, key: string -> string, x: string)
    ensures x in Unrepeated(lines, repeated, key) <==> x in lines && key(x) !in repeated
    decreases |lines|
  {
    if lines != [] {
      UnrepeatedMembers(lines[1..], repeated, key, x);
      assert lines == [lines[0]] + lines[1..];
    }
  }

  /** The kept lines of a concatenation are those of each part, in order. */
  lemma {:induction false} UnrepeatedAppend(a: seq<string>, b: seq<string>, repeated: set<string>, key: string -> string)
    ensures Unrepeated(a + b, repeated, key) == Unrepeated(a, repeated, key) + Unrepeated(b, repeated, key)
    decreases |a|
  {
    if a != [] {
      assert (a + b)[0] == a[0] && (a + b)[1..] == a[1..] + b;
      UnrepeatedAppend(a[1..], b, repeated, key);
    } else {
      assert a + b == b;
    }
  }

  /** One line is kept when its key is not repeated, dropped otherwise. */
  lemma UnrepeatedSingle(l: string, repeated: set<string>, key: string -> string)
    ensures Unrepeated([l], repeated, key) == (if key(l) in repeated then [] else [l])
  {
    assert [l][1..] == [];
  }

  /** The positions below n of the lines whose key is not repeated, in increasing order. */
  function KeptIndices(lines: seq<string>, repeated: set<string>, key: string -> string, n: nat): (idx: seq<nat>)
    requires n <= |lines|
    ensures forall i :: 0 <= i < |idx| ==> idx[i] < n
    ensures forall i, j :: 0 <= i < j < |idx| ==> idx[i] < idx[j]
  {
    if n == 0 then []
    else KeptIndices(lines, repeated, key, n - 1) + (if key(lines[n - 1]) in repeated then [] else [n - 1])
  }

  /** A position below n is listed iff the key of its line is not repeated. */
  lemma {:induction false} KeptIndicesMembers(lines: seq<string>, repeated: set<string>, key: string -> string, n: nat)
    requires n <= |lines|
    ensures forall k :: 0 <= k < n ==> (k in KeptIndices(lines, repeated, key, n) <==> key(lines[k]) !in repeated)
  {
    if n > 0 {
      KeptIndicesMembers(lines, repeated, key, n - 1);
      var before := KeptIndices(lines, repeated, key, n - 1);
      assert n - 1 !in before;
    }
  }

  /** Kept line i of the first n lines is the i-th line among them whose key is not
      repeated: the comprehension keeps those lines in order, each occurrence once. */
  lemma {:induction false} UnrepeatedAt(lines: seq<string>, repeated: set<string>, key: string -> string, n: nat)
    requires n <= |lines|
    ensures |Unrepeated(lines[..n], repeated, key)| == |KeptIndices(lines, repeated, key, n)|
    ensures forall i :: 0 <= i < |KeptIndices(lines, repeated, key, n)| ==>
      Unrepeated(lines[..n], repeated, key)[i] == lines[KeptIndices(lines, repeated, key, n)[i]]
  {
    if n > 0 {
      UnrepeatedAt(lines, repeated, key, n - 1);
      var prev := Unrepeated(lines[..n - 1], repeated, key);
      var before := KeptIndices(lines, repeated, key, n - 1);
      var keep := key(lines[n - 1]) !in repeated;
      var kept := Unrepeated(lines[..n], repeated, key);
      var idx := KeptIndices(lines, repeated, key, n);
      assert kept == prev + (if keep then [lines[n - 1]] else []) by {
        assert lines[..n] == lines[..n - 1] + [lines[n - 1]];
        UnrepeatedAppend(lines[..n - 1], [lines[n - 1]], repeated, key);
        UnrepeatedSingle(lines[n - 1], repeated, key);
      }
      assert idx == before + (if keep then [n - 1] else []);
      forall i | 0 <= i < |idx|
        ensures kept[i] == lines[idx[i]]
      {
        if i < |before| {
          assert kept[i] == prev[i] && idx[i] == before[i];
        } else {
          assert kept[i] == lines[n - 1] && idx[i] == n - 1;
        }
      }
    } else {
      assert lines[..n] == [];
    }
  }

  /** Joining fewer lines gives a text that is no longer. */
  lemma {:induction false} JoinUnrepeatedShorter(lines: seq<string>, repeated: set<string>, key: string -> string, sep: string)
    ensures |Join(Unrepeated(lines, repeated, key), sep)| <= |Join(lines, sep)|
    decreases |lines|
  {
    if lines != [] {
      var l := lines[0];
      var tail := lines[1..];
      var rest := Unrepeated(tail, repeated, key);
      JoinUnrepeatedShorter(tail, repeated, key, sep);
      assert lines == [l] + tail;
      var whole := |Join(lines, sep)|;
      if tail == [] {
        assert whole == |l|;
      } else {
        JoinCons(l, tail, sep);
        assert whole == |l| + |sep| + |Join(tail, sep)|;
      }
      if key(l) in repeated {
        assert Unrepeated(lines, repeated, key) == rest;
      } else if rest == [] {
        assert Unrepeated(lines, repeated, key) == [l];
      } else {
        assert Unrepeated(lines, repeated, key) == [l] + rest;
        JoinCons(l, rest, sep);
      }
    }
  }

  /** The lines kept by _remove_headers_footers. */
  function KeptLines(text: string): seq<string> {
    var lines := SplitOn(text, "\n");
    Unrepeated(lines, RepeatedKeys(CountsOf(lines, Strip)), Strip)
  }

  /** A line of the text is kept exactly when it is not a header or footer; so a line whose
      stripped form has at most 10 characters is always kept. */
  lemma KeptLinesSpec(text: string, x: string)
    ensures var lines := SplitOn(text, "\n");
      && (x in KeptLines(text) <==> x in lines && !IsRepeated(lines, Strip(x), Strip))
      && (x in lines && |Strip(x)| <= 10 ==> x in KeptLines(text))
  {
    var lines := SplitOn(text, "\n");
    RepeatedKeysSpec(lines, Strip, Strip(x));
    UnrepeatedMembers(lines, RepeatedKeys(CountsOf(lines, Strip)), Strip, x);
  }

  /** The kept lines are the lines that are not headers or footers, in their original
      order: kept line i is the line at the i-th position whose line is not repeated. */
  lemma KeptLinesOrder(text: string)
    ensures var lines := SplitOn(text, "\n");
      var idx := KeptIndices(lines, RepeatedKeys(CountsOf(lines, Strip)), Strip, |lines|);
      && |KeptLines(text)| == |idx|
      && (forall i :: 0 <= i < |idx| ==> KeptLines(text)[i] == lines[idx[i]])
      && (forall k :: 0 <= k < |lines| ==> (k in idx <==> !IsRepeated(lines, Strip(lines[k]), Strip)))
  {
    var lines := SplitOn(text, "\n");
    var repeated := RepeatedKeys(CountsOf(lines, Strip));
    UnrepeatedAt(lines, repeated, Strip, |lines|);
    KeptIndicesMembers(lines, repeated, Strip, |lines|);
    assert lines[..|lines|] == lines;
    forall k | 0 <= k < |lines|
      ensures Strip(lines[k]) in repeated <==> IsRepeated(lines, Strip(lines[k]), Strip)
    {
      RepeatedKeysSpec(lines, Strip, Strip(lines[k]));
    }
  }

  /** Removing lines does not lengthen the text. */
  lemma KeptLinesShorter(text: string)
    ensures |Join(KeptLines(text), "\n")| <= |text|
  {
    var lines := SplitOn(text, "\n");
    JoinUnrepeatedShorter(lines, RepeatedKeys(CountsOf(lines, Strip)), Strip, "\n");
    JoinSplitOn(text, "\n");
  }

  /** The counting loop of _remove_headers_footers, `key` being str.strip. */
  method CountLines(lines: seq<string>, key: string -> string) returns (lineCounts: map<string, nat>)
    ensures lineCounts == CountsOf(lines, key)
  {
    lineCounts := map[];
    for i := 0 to |lines|
      invariant lineCounts == CountsOf(lines[..i], key)
    {
      CountsOfStep(lines, i, key);
      var stripped := key(lines[i]);
      if |stripped| > 10 {
        lineCounts := lineCounts[stripped := (if stripped in lineCounts then lineCounts[stripped] else 0) + 1];
      }
    }
    assert lines[..|lines|] == lines;
  }

  /** _remove_headers_footers: counts the stripped lines longer than 10 characters, then keeps
      the lines whose stripped form is not counted more than 3 times. */
  method RemoveHeadersFooters(text: string) returns (result: string)
    ensures result == Join(KeptLines(text), "\n")
  {
    var lines := SplitOn(text, "\n");
    var lineCounts := CountLines(lines, Strip);
    var repeated := RepeatedKeys(lineCounts);
    var cleanedLines := Unrepeated(lines, repeated, Strip);
    result := Join(cleanedLines, "\n");
  }

  // ---------------------------------------------------------------- the substitutions of clean

  /** c is the ASCII letter l (given in lower case) in either case: IGNORECASE on a letter. */
  predicate FoldEq(c: char, l: char) {
    c == l || ('a' <= l <= 'z' && c as int == l as int - 32)
  }

  /** The word (lower-case letters) occurs at position j, ignoring case. */
  predicate MatchesFolded(s: string, j: nat, word: string) {
    j + |word| <= |s| && forall k :: 0 <= k < |word| ==> FoldEq(s[j + k], word[k])
  }

  /** The length of the match of `Page\s+\d+(/\d+)?` (ignoring case) at position j. */
  function PageMarkMatch(s: string, j: nat): (n: nat)
    ensures n == 0 || j + n <= |s|
    ensures n > 0 ==> MatchesFolded(s, j, "page") && n > 5 && IsPySpace(s[j + 4]) && IsDigit(s[j + n - 1])
    ensures MatchesFolded(s, j, "page") && j + 5 < |s| && IsPySpace(s[j + 4]) && IsDigit(s[j + 5]) ==> n > 0
  {
    if MatchesFolded(s, j, "page") then
      var a := j + 4;
      var sp := Run(s, a, IsPySpace);
      var d := Run(s, a + sp, IsDigit);
      if sp > 0 && d > 0 then
        var e := a + sp + d;
        var f := if e < |s| && s[e] == '/' then Run(s, e + 1, IsDigit) else 0;
        if f > 0 then e + 1 + f - j else e - j
      else 0
    else 0
  }

  /** The length of the match of `\d+\s*\/\s*\d+` at position j. */
  function FractionMatch(s: string, j: nat): (n: nat)
    ensures n == 0 || j + n <= |s|
    ensures n > 0 ==> n >= 3 && IsDigit(s[j]) && IsDigit(s[j + n - 1])
  {
    if j < |s| then
      var d := Run(s, j, IsDigit);
      var a := j + d;
      var b := a + Run(s, a, IsPySpace);
      if d > 0 && b < |s| && s[b] == '/' then
        var c := b + 1 + Run(s, b + 1, IsPySpace);
        var e := Run(s, c, IsDigit);
        if e > 0 then c + e - j else 0
      else 0
    else 0
  }

  /** The characters of `[ \t]`. */
  predicate IsBlank(c: char) {
    c == ' ' || c == '\t'
  }

  predicate NotTab(c: char) {
    c != '\t'
  }

  predicate NotNewline(c: char) {
    c != '\n'
  }

  /** The length of the match of `[ \t]+` at position j. */
  function BlankRunMatch(s: string, j: nat): (n: nat)
    ensures n == 0 || j + n <= |s|
    ensures j < |s| ==> (n > 0 <==> IsBlank(s[j]))
    ensures j + n >= |s| || !IsBlank(s[j + n])
  {
    if j <= |s| then Run(s, j, IsBlank) else 0
  }

  /** The length of the match of `\n\s*\n\s*\n+` at position j. */
  function ExcessNewlinesMatch(s: string, j: nat): (n: nat)
    ensures n == 0 || j + n <= |s|
    ensures n > 0 ==> n >= 2
  {
    NewlineRunMatch(s, j, 3, IsPySpace)
  }

  /** The length of the match of `<word>\s*:.*` (ignoring case) at position j: the label, a
      colon after any whitespace, and the rest of the line. */
  function LabelLineMatch(s: string, j: nat, word: string): (n: nat)
    requires word != []
    ensures n == 0 || j + n <= |s|
    ensures n > 0 ==> MatchesFolded(s, j, word) && n > |word|
    ensures n > 0 ==> j + n == |s| || s[j + n] == '\n'
    ensures MatchesFolded(s, j, word) && j + |word| < |s| && s[j + |word|] == ':' ==> n > 0
  {
    if MatchesFolded(s, j, word) then
      var a := j + |word|;
      var c := a + Run(s, a, IsPySpace);
      if c < |s| && s[c] == ':' then c + 1 + Run(s, c + 1, NotNewline) - j else 0
    else 0
  }

  /** The matcher of the pattern `<word>\s*:.*` for one label word. */
  function LabelMatch(word: string): (m: (string, nat) -> nat)
    requires word != []
    ensures forall s, j :: m(s, j) == LabelLineMatch(s, j, word)
  {
    (s, j) => LabelLineMatch(s, j, word)
  }

  /** The first argument of the second quote replacement. Its opening three quotes make
      Python read it as one triple-quoted literal: the 15 characters between the first
      and the second run of three quotes. */
  const QuoteCallText := ", \"'\").replace("

  /** The match length of QuoteCallText at position j. */
  function QuoteCallMatch(s: string, j: nat): (n: nat)
    ensures n == 0 || j + n <= |s|
    ensures n == 0 || n == |QuoteCallText|
    ensures j + |QuoteCallText| <= |s| && s[j..j + |QuoteCallText|] == QuoteCallText ==> n > 0
  {
    LiteralMatch(s, j, QuoteCallText)
  }

  /** Step 2: page numbers, then "n/m" marks, removed. */
  function WithoutMarks(t: string): string {
    SubFrom(SubFrom(t, 0, PageMarkMatch, ""), 0, FractionMatch, "")
  }

  /** Step 3: every run of spaces and tabs to one space, then every blank-line run holding at
      least three newlines to one paragraph break. */
  function SpacesNormalised(t: string): string {
    SubFrom(SubFrom(t, 0, BlankRunMatch, " "), 0, ExcessNewlinesMatch, "\n\n")
  }

  /** Step 4: signature and stamp lines removed. */
  function WithoutLabels(t: string): string {
    SubFrom(SubFrom(t, 0, LabelMatch("signature"), ""), 0, LabelMatch("cachet"), "")
  }

  /** Step 5. The first replacement puts a double quote in place of itself; the second puts
      one apostrophe in place of every occurrence of QuoteCallText. */
  function QuotesNormalised(t: string): string {
    SubFrom(t, 0, QuoteCallMatch, "'")
  }

  /** Every match of step 5 stays inside the text. */
  lemma QuoteCallWithin(t: string)
    ensures MatchesWithin(t, 0, QuoteCallMatch)
  {
  }

  /** Text in which QuoteCallText does not occur goes through step 5 unchanged. */
  lemma QuotesUnchanged(t: string)
    requires forall j :: 0 <= j < |t| ==> !(QuoteCallText <= t[j..])
    ensures QuotesNormalised(t) == t
  {
    forall j | 0 <= j < |t|
      ensures QuoteCallMatch(t, j) == 0
    {
      if j + |QuoteCallText| <= |t| {
        assert t[j..][..|QuoteCallText|] == t[j..j + |QuoteCallText|];
      }
    }
    SubFromNoMatch(t, 0, QuoteCallMatch, "'");
  }

  /** Step 5 changes text that holds QuoteCallText: `a, "'").replace(b` becomes `a'b`. */
  lemma QuoteCallReplaced()
    ensures QuotesNormalised("a" + QuoteCallText + "b") == "a'b"
  {
    var s := "a" + QuoteCallText + "b";
    assert |s| == 17;
    assert s[0..15] != QuoteCallText by { assert s[0] == 'a'; }
    assert s[1..16] == QuoteCallText;
    assert SubFrom(s, 17, QuoteCallMatch, "'") == [];
    assert SubFrom(s, 16, QuoteCallMatch, "'") == "b";
    assert SubFrom(s, 1, QuoteCallMatch, "'") == "'b";
  }

  /** The text clean returns. */
  function CleanedText(text: string): string {
    Strip(QuotesNormalised(WithoutLabels(SpacesNormalised(WithoutMarks(Join(KeptLines(text), "\n"))))))
  }

  /** (1 - cleaned/original) * 100, and 0 for an empty original. */
  function Reduction(originalLength: nat, cleanedLength: nat): (r: real)
    ensures originalLength == 0 ==> r == 0.0
    ensures cleanedLength <= originalLength ==> 0.0 <= r <= 100.0
    ensures 0 < originalLength && cleanedLength == originalLength ==> r == 0.0
  {
    if originalLength == 0 then 0.0
    else
      var ratio := (cleanedLength as real) / (originalLength as real);
      assert ratio * (originalLength as real) == cleanedLength as real;
      assert cleanedLength <= originalLength ==> ratio <= 1.0;
      (1.0 - ratio) * 100.0
  }

  datatype CleanResult = CleanResult(text: string, originalLength: nat, cleanedLength: nat, reductionPercent: real)

  /** clean. */
  method Clean(text: string) returns (r: CleanResult)
    ensures r.text == CleanedText(text)
    ensures r.originalLength == |text| && r.cleanedLength == |r.text|
    ensures r.reductionPercent == Reduction(|text|, |r.text|)
  {
    var originalLength := |text|;
    var t := RemoveHeadersFooters(text);
    t := WithoutMarks(t);
    t := SpacesNormalised(t);
    t := WithoutLabels(t);
    t := QuotesNormalised(t);
    var cleanedText := Strip(t);
    var cleanedLength := |cleanedText|;
    var reduction := if originalLength == 0 then 0.0 else (1.0 - (cleanedLength as real) / (originalLength as real)) * 100.0;
    r := CleanResult(cleanedText, originalLength, cleanedLength, reduction);
  }

  // ---------------------------------------------------------------- properties of clean

  /** No pass lengthens the text, so the cleaned text is no longer than the input and the
      reduction lies between 0 and 100. */
  lemma CleanedShorter(text: string)
    ensures |CleanedText(text)| <= |text|
    ensures 0.0 <= Reduction(|text|, |CleanedText(text)|) <= 100.0
  {
    var t0 := Join(KeptLines(text), "\n");
    KeptLinesShorter(text);
    var t1 := SubFrom(t0, 0, PageMarkMatch, "");
    SubFromShorter(t0, 0, PageMarkMatch, "");
    SubFromShorter(t1, 0, FractionMatch, "");
    var t2 := WithoutMarks(t0);
    var t3 := SubFrom(t2, 0, BlankRunMatch, " ");
    SubFromShorter(t2, 0, BlankRunMatch, " ");
    SubFromShorter(t3, 0, ExcessNewlinesMatch, "\n\n");
    var t4 := SpacesNormalised(t2);
    var t5 := SubFrom(t4, 0, LabelMatch("signature"), "");
    SubFromShorter(t4, 0, LabelMatch("signature"), "");
    SubFromShorter(t5, 0, LabelMatch("cachet"), "");
    SubFromShorter(WithoutLabels(t4), 0, QuoteCallMatch, "'");
  }

  /** After collapsing the runs of spaces and tabs, no tab is left and no two blanks are
      adjacent. */
  lemma BlankPassBlanks(t: string)
    ensures NoAdjacent(SubFrom(t, 0, BlankRunMatch, " "), IsBlank)
    ensures All(SubFrom(t, 0, BlankRunMatch, " "), NotTab)
  {
    SubFromCollapses(t, 0, BlankRunMatch, IsBlank, ' ');
    SubFromKeeps(t, 0, BlankRunMatch, " ", NotTab);
  }

  /** A pass whose replacement holds no blank, and which is followed by no blank when it
      replaces by nothing, keeps "no tab and no two adjacent blanks". */
  lemma PassKeepsBlanks(t: string, m: (string, nat) -> nat, rep: string)
    requires MatchesWithin(t, 0, m)
    requires NoAdjacent(t, IsBlank) && All(t, NotTab)
    requires forall k :: 0 <= k < |rep| ==> !IsBlank(rep[k])
    requires rep == [] ==> forall j :: 0 <= j < |t| && m(t, j) > 0 ==> j + m(t, j) == |t| || !IsBlank(t[j + m(t, j)])
    ensures NoAdjacent(SubFrom(t, 0, m, rep), IsBlank)
    ensures All(SubFrom(t, 0, m, rep), NotTab)
  {
    SubFromNoAdjacent(t, 0, m, rep, IsBlank);
    SubFromKeeps(t, 0, m, rep, NotTab);
  }

  /** After the space pass no tab is left and no two blanks are adjacent. */
  lemma SpacesNormalisedBlanks(t: string)
    ensures NoAdjacent(SpacesNormalised(t), IsBlank)
    ensures All(SpacesNormalised(t), NotTab)
  {
    BlankPassBlanks(t);
    PassKeepsBlanks(SubFrom(t, 0, BlankRunMatch, " "), ExcessNewlinesMatch, "\n\n");
  }

  /** Removing signature and stamp lines keeps both properties: what follows a removed line
      is a newline or the end. */
  lemma WithoutLabelsBlanks(t: string)
    requires NoAdjacent(t, IsBlank) && All(t, NotTab)
    ensures NoAdjacent(WithoutLabels(t), IsBlank)
    ensures All(WithoutLabels(t), NotTab)
  {
    LabelPassBlanks(t, LabelMatch("signature"));
    LabelPassBlanks(SubFrom(t, 0, LabelMatch("signature"), ""), LabelMatch("cachet"));
  }

  /** A removal of matches that each run to the end of a line. */
  lemma LabelPassBlanks(t: string, m: (string, nat) -> nat)
    requires MatchesWithin(t, 0, m)
    requires NoAdjacent(t, IsBlank) && All(t, NotTab)
    requires forall j :: 0 <= j < |t| && m(t, j) > 0 ==> j + m(t, j) == |t| || t[j + m(t, j)] == '\n'
    ensures NoAdjacent(SubFrom(t, 0, m, ""), IsBlank)
    ensures All(SubFrom(t, 0, m, ""), NotTab)
  {
    PassKeepsBlanks(t, m, "");
  }

  /** Steps 4 and 5 keep "no tab and no two adjacent blanks". */
  lemma LabelsQuotesBlanks(t: string)
    requires NoAdjacent(t, IsBlank) && All(t, NotTab)
    ensures NoAdjacent(QuotesNormalised(WithoutLabels(t)), IsBlank)
    ensures All(QuotesNormalised(WithoutLabels(t)), NotTab)
  {
    WithoutLabelsBlanks(t);
    QuoteCallWithin(WithoutLabels(t));
    PassKeepsBlanks(WithoutLabels(t), QuoteCallMatch, "'");
  }

  /** The cleaned text is stripped, holds no tab and no two adjacent blanks. */
  lemma CleanedShape(text: string)
    ensures Stripped(CleanedText(text))
    ensures NoAdjacent(CleanedText(text), IsBlank)
    ensures All(CleanedText(text), NotTab)
  {
    var joined := Join(KeptLines(text), "\n");
    var t := SpacesNormalised(WithoutMarks(joined));
    SpacesNormalisedBlanks(WithoutMarks(joined));
    LabelsQuotesBlanks(t);
    var u := QuotesNormalised(WithoutLabels(t));
    assert CleanedText(text) == Strip(u);
    StripByKeeps(u, IsPySpace, IsBlank);
    StripByKeeps(u, IsPySpace, NotTab);
  }

  // ---------------------------------------------------------------- what step 4 removes

  /** No position of t starts `word`, ignoring case. */
  predicate Absent(t: string, word: string) {
    forall j :: 0 <= j <= |t| ==> !MatchesFolded(t, j, word)
  }

  /** r, the result of a scan from position i of t, holds no occurrence of the word, and a
      suffix of the word at its start starts at i in t. */
  predicate LeftOut(r: string, t: string, i: nat, word: string) {
    && Absent(r, word)
    && forall k :: 0 <= k <= |word| && MatchesFolded(r, 0, word[k..]) ==> MatchesFolded(t, i, word[k..])
  }

  /** A newline, and an upper-case-free character outside the word, fold to no letter of it. */
  lemma NoFold(c: char, word: string)
    requires c !in word && !('A' <= c <= 'Z')
    ensures forall k :: 0 <= k < |word| ==> !FoldEq(c, word[k])
  {
  }

  /** A word occurs at i iff its first character folds there and the rest follows. */
  lemma FoldedStep(t: string, i: nat, word: string)
    requires word != []
    ensures MatchesFolded(t, i, word) <==> i < |t| && FoldEq(t[i], word[0]) && MatchesFolded(t, i + 1, word[1..])
  {
    if i < |t| && FoldEq(t[i], word[0]) && MatchesFolded(t, i + 1, word[1..]) {
      forall k | 0 <= k < |word|
        ensures FoldEq(t[i + k], word[k])
      {
        if k > 0 { assert word[k] == word[1..][k - 1]; }
      }
    }
    if MatchesFolded(t, i, word) {
      forall k | 0 <= k < |word| - 1
        ensures FoldEq(t[i + 1 + k], word[1..][k])
      {
        assert FoldEq(t[i + (k + 1)], word[k + 1]);
      }
    }
  }

  /** Occurrences in a + r at or after |a| are occurrences in r. */
  lemma FoldedShift(a: string, r: string, p: nat, word: string)
    requires |a| <= p
    ensures MatchesFolded(a + r, p, word) <==> MatchesFolded(r, p - |a|, word)
  {
    if MatchesFolded(a + r, p, word) {
      forall k | 0 <= k < |word|
        ensures FoldEq(r[p - |a| + k], word[k])
      {
        assert (a + r)[p + k] == r[p - |a| + k];
      }
    }
    if MatchesFolded(r, p - |a|, word) {
      forall k | 0 <= k < |word|
        ensures FoldEq((a + r)[p + k], word[k])
      {
        assert (a + r)[p + k] == r[p - |a| + k];
      }
    }
  }

  /** What a scan starting at i puts in front of `rest` when it keeps t[i], for a word that does
      not occur at i. */
  lemma KeptCharStep(t: string, i: nat, rest: string, word: string)
    requires i < |t| && word != [] && !MatchesFolded(t, i, word)
    requires LeftOut(rest, t, i + 1, word)
    ensures LeftOut([t[i]] + rest, t, i, word)
  {
    var r := [t[i]] + rest;
    forall k | 0 <= k <= |word| && MatchesFolded(r, 0, word[k..])
      ensures MatchesFolded(t, i, word[k..])
    {
      if k < |word| {
        FoldedStep(r, 0, word[k..]);
        FoldedShift([t[i]], rest, 1, word[k + 1..]);
        assert word[k..][1..] == word[k + 1..];
        FoldedStep(t, i, word[k..]);
      }
    }
    forall j | 0 <= j <= |r|
      ensures !MatchesFolded(r, j, word)
    {
      if j == 0 {
        assert word[0..] == word;
      } else {
        FoldedShift([t[i]], rest, j, word);
      }
    }
  }

  /** A pass that removes matches, each running to a newline or to the end of the text and none
      starting at a newline, leaves no occurrence of a newline-free word when every occurrence
      of the word from i on is matched. */
  lemma {:induction false} RemovalLeavesOut(t: string, i: nat, m: (string, nat) -> nat, word: string)
    requires i <= |t| && MatchesWithin(t, i, m)
    requires forall j :: i <= j < |t| && m(t, j) > 0 ==> j + m(t, j) == |t| || t[j + m(t, j)] == '\n'
    requires forall j :: i <= j < |t| && t[j] == '\n' ==> m(t, j) == 0
    requires word != [] && '\n' !in word
    requires forall j :: i <= j < |t| && MatchesFolded(t, j, word) ==> m(t, j) > 0
    ensures LeftOut(SubFrom(t, i, m, ""), t, i, word)
    decreases |t| - i
  {
    if i < |t| {
      var n := m(t, i);
      if n > 0 {
        RemovalLeavesOut(t, i + n, m, word);
        RemovedStep(t, i, m, word);
      } else {
        RemovalLeavesOut(t, i + 1, m, word);
        KeptCharStep(t, i, SubFrom(t, i + 1, m, ""), word);
      }
    }
  }

  /** A removed match: the scan goes on after it, at an unmatched newline or at the end. */
  lemma RemovedStep(t: string, i: nat, m: (string, nat) -> nat, word: string)
    requires i < |t| && MatchesWithin(t, i, m) && m(t, i) > 0 && '\n' !in word
    requires i + m(t, i) < |t| ==> t[i + m(t, i)] == '\n' && m(t, i + m(t, i)) == 0
    requires LeftOut(SubFrom(t, i + m(t, i), m, ""), t, i + m(t, i), word)
    ensures LeftOut(SubFrom(t, i, m, ""), t, i, word)
  {
    var n := m(t, i);
    assert SubFrom(t, i, m, "") == SubFrom(t, i + n, m, "");
    if i + n < |t| {
      NewlineFirst(t, i + n, m, word);
    }
  }

  /** A scan that goes on at an unmatched newline starts no suffix of a newline-free word. */
  lemma NewlineFirst(t: string, i: nat, m: (string, nat) -> nat, word: string)
    requires i < |t| && t[i] == '\n' && '\n' !in word
    requires MatchesWithin(t, i, m) && m(t, i) == 0
    ensures forall k :: 0 <= k < |word| ==> !MatchesFolded(SubFrom(t, i, m, ""), 0, word[k..])
  {
    var r := SubFrom(t, i, m, "");
    assert r == ['\n'] + SubFrom(t, i + 1, m, "");
    NoFold('\n', word);
    forall k | 0 <= k < |word|
      ensures !MatchesFolded(r, 0, word[k..])
    {
      FoldedStep(r, 0, word[k..]);
    }
  }

  /** A pass whose non-empty replacement holds no upper-case letter and no character of the
      word keeps the word out. */
  lemma {:induction false} ReplacementLeavesOut(t: string, i: nat, m: (string, nat) -> nat, rep: string, word: string)
    requires i <= |t| && MatchesWithin(t, i, m)
    requires rep != [] && forall c :: c in rep ==> c !in word && !('A' <= c <= 'Z')
    requires word != []
    requires forall j :: i <= j < |t| && MatchesFolded(t, j, word) ==> m(t, j) > 0
    ensures LeftOut(SubFrom(t, i, m, rep), t, i, word)
    decreases |t| - i
  {
    if i < |t| {
      var n := m(t, i);
      if n > 0 {
        ReplacementLeavesOut(t, i + n, m, rep, word);
        ReplacedStep(SubFrom(t, i + n, m, rep), rep, word);
        assert SubFrom(t, i, m, rep) == rep + SubFrom(t, i + n, m, rep);
      } else {
        ReplacementLeavesOut(t, i + 1, m, rep, word);
        KeptCharStep(t, i, SubFrom(t, i + 1, m, rep), word);
      }
    }
  }

  /** A replacement in front keeps the word out and starts no suffix of it. */
  lemma ReplacedStep(rest: string, rep: string, word: string)
    requires rep != [] && forall c :: c in rep ==> c !in word && !('A' <= c <= 'Z')
    requires word != [] && Absent(rest, word)
    ensures Absent(rep + rest, word)
    ensures forall k :: 0 <= k < |word| ==> !MatchesFolded(rep + rest, 0, word[k..])
  {
    var r := rep + rest;
    forall j | 0 <= j <= |r|
      ensures !MatchesFolded(r, j, word)
    {
      if j < |rep| {
        assert r[j] == rep[j] && rep[j] in rep;
        NoFold(rep[j], word);
        FoldedStep(r, j, word);
      } else {
        FoldedShift(rep, rest, j, word);
      }
    }
    forall k | 0 <= k < |word|
      ensures !MatchesFolded(r, 0, word[k..])
    {
      assert r[0] == rep[0] && rep[0] in rep;
      NoFold(rep[0], word);
      FoldedStep(r, 0, word[k..]);
    }
  }

  /** The label word directly followed by a colon is always matched. */
  lemma LabelColonMatched(t: string, j: nat, word: string)
    requires word != [] && MatchesFolded(t, j, word + ":")
    ensures LabelLineMatch(t, j, word) > 0
  {
    assert forall k :: 0 <= k < |word| ==> (word + ":")[k] == word[k];
    assert FoldEq(t[j + |word|], (word + ":")[|word|]);
  }

  /** Step 4's pass for the label `name` keeps out any newline-free word every occurrence of
      which that pass matches. */
  lemma LabelPassLeavesOut(t: string, name: string, word: string)
    requires name != [] && !FoldEq('\n', name[0])
    requires word != [] && '\n' !in word
    requires forall j :: 0 <= j < |t| && MatchesFolded(t, j, word) ==> LabelLineMatch(t, j, name) > 0
    ensures Absent(SubFrom(t, 0, LabelMatch(name), ""), word)
  {
    LabelMatchFacts(t, name);
    LabelCovers(t, name, word);
    LineRemovalLeavesOut(t, LabelMatch(name), word);
  }

  /** The matches of m stay inside t, each runs to a newline or to the end, and none starts at
      a newline. */
  predicate RemovesLineEnds(t: string, m: (string, nat) -> nat) {
    && MatchesWithin(t, 0, m)
    && (forall j :: 0 <= j < |t| && m(t, j) > 0 ==> j + m(t, j) == |t| || t[j + m(t, j)] == '\n')
    && (forall j :: 0 <= j < |t| && t[j] == '\n' ==> m(t, j) == 0)
  }

  /** m matches at every occurrence of the word in t. */
  predicate Covers(t: string, m: (string, nat) -> nat, word: string) {
    forall j :: 0 <= j < |t| && MatchesFolded(t, j, word) ==> m(t, j) > 0
  }

  /** RemovalLeavesOut for a whole text. */
  lemma LineRemovalLeavesOut(t: string, m: (string, nat) -> nat, word: string)
    requires RemovesLineEnds(t, m) && Covers(t, m, word)
    requires word != [] && '\n' !in word
    ensures Absent(SubFrom(t, 0, m, ""), word)
  {
    RemovalLeavesOut(t, 0, m, word);
  }

  /** The matches of a label pass stay inside the text, run to a newline or to the end, and
      never start at a newline. */
  lemma LabelMatchFacts(t: string, name: string)
    requires name != [] && !FoldEq('\n', name[0])
    ensures RemovesLineEnds(t, LabelMatch(name))
  {
    LabelMatchEnds(t, name);
    LabelMatchNotAtNewlines(t, name);
  }

  /** Label matches stay inside the text and run to a newline or to the end. */
  lemma LabelMatchEnds(t: string, name: string)
    requires name != []
    ensures MatchesWithin(t, 0, LabelMatch(name))
    ensures forall j :: 0 <= j < |t| && LabelMatch(name)(t, j) > 0 ==>
      j + LabelMatch(name)(t, j) == |t| || t[j + LabelMatch(name)(t, j)] == '\n'
  {
  }

  /** No label match starts at a newline of the text. */
  lemma LabelMatchNotAtNewlines(t: string, name: string)
    requires name != [] && !FoldEq('\n', name[0])
    ensures forall j :: 0 <= j < |t| && t[j] == '\n' ==> LabelMatch(name)(t, j) == 0
  {
    forall j | 0 <= j < |t| && t[j] == '\n'
      ensures LabelMatch(name)(t, j) == 0
    {
      LabelNotAtNewline(t, j, name);
    }
  }

  /** The label pass matches where LabelLineMatch does. */
  lemma LabelCovers(t: string, name: string, word: string)
    requires name != []
    requires forall j :: 0 <= j < |t| && MatchesFolded(t, j, word) ==> LabelLineMatch(t, j, name) > 0
    ensures Covers(t, LabelMatch(name), word)
  {
  }

  /** No label match starts at a newline. */
  lemma LabelNotAtNewline(t: string, j: nat, name: string)
    requires name != [] && !FoldEq('\n', name[0]) && j < |t| && t[j] == '\n'
    ensures LabelLineMatch(t, j, name) == 0
  {
  }

  /** An occurrence in a slice is an occurrence in the text. */
  lemma FoldedSlice(t: string, a: nat, b: nat, j: nat, word: string)
    requires a <= b <= |t| && MatchesFolded(t[a..b], j, word)
    ensures MatchesFolded(t, a + j, word)
  {
    forall k | 0 <= k < |word|
      ensures FoldEq(t[a + j + k], word[k])
    {
      assert t[a..b][j + k] == t[a + j + k];
    }
  }

  /** A slice of a text without the word is without it. */
  lemma AbsentSlice(t: string, a: nat, b: nat, word: string)
    requires a <= b <= |t| && Absent(t, word)
    ensures Absent(t[a..b], word)
  {
    forall j | 0 <= j <= b - a && MatchesFolded(t[a..b], j, word)
      ensures false
    {
      FoldedSlice(t, a, b, j, word);
    }
  }

  /** A label pass removes every occurrence of its label followed directly by a colon. */
  lemma LabelPassRemoves(t: string, name: string)
    requires name != [] && !FoldEq('\n', name[0]) && '\n' !in name
    ensures Absent(SubFrom(t, 0, LabelMatch(name), ""), name + ":")
  {
    forall j | 0 <= j < |t| && MatchesFolded(t, j, name + ":")
      ensures LabelLineMatch(t, j, name) > 0
    {
      LabelColonMatched(t, j, name);
    }
    LabelPassLeavesOut(t, name, name + ":");
  }

  /** A label pass keeps out a newline-free word that was not there. */
  lemma LabelPassKeepsOut(t: string, name: string, word: string)
    requires name != [] && !FoldEq('\n', name[0])
    requires word != [] && '\n' !in word && Absent(t, word)
    ensures Absent(SubFrom(t, 0, LabelMatch(name), ""), word)
  {
    LabelPassLeavesOut(t, name, word);
  }

  /** Step 4 leaves no "Signature:" and no "Cachet:", in any case. The signature pass removes
      every occurrence of the first, the stamp pass every occurrence of the second, and as each
      removal ends at a newline or at the end of the text, none is formed anew. */
  lemma WithoutLabelsLeavesOut(t: string)
    ensures Absent(WithoutLabels(t), "signature:")
    ensures Absent(WithoutLabels(t), "cachet:")
  {
    assert "signature" + ":" == "signature:";
    assert "cachet" + ":" == "cachet:";
    LabelPassRemoves(t, "signature");
    var t5 := SubFrom(t, 0, LabelMatch("signature"), "");
    LabelPassKeepsOut(t5, "cachet", "signature:");
    LabelPassRemoves(t5, "cachet");
  }

  /** Step 5 forms no occurrence of a word without an apostrophe and without upper-case
      letters. */
  lemma QuotesLeaveOut(t: string, word: string)
    requires word != [] && '\'' !in word && Absent(t, word)
    ensures Absent(QuotesNormalised(t), word)
  {
    QuoteCallWithin(t);
    ReplacementLeavesOut(t, 0, QuoteCallMatch, "'", word);
  }

  /** The final strip forms no occurrence either. */
  lemma StripLeavesOut(u: string, word: string)
    requires Absent(u, word)
    ensures Absent(Strip(u), word)
  {
    var r := Strip(u);
    var a := LeadingCount(u, IsPySpace);
    assert r == u[a..a + |r|];
    AbsentSlice(u, a, a + |r|, word);
  }

  /** Steps 4 and 5 and the final strip leave no "Signature:" and no "Cachet:". */
  lemma LabelsQuotesLeaveOut(t: string)
    ensures Absent(Strip(QuotesNormalised(WithoutLabels(t))), "signature:")
    ensures Absent(Strip(QuotesNormalised(WithoutLabels(t))), "cachet:")
  {
    WithoutLabelsLeavesOut(t);
    QuotesLeaveOut(WithoutLabels(t), "signature:");
    QuotesLeaveOut(WithoutLabels(t), "cachet:");
    StripLeavesOut(QuotesNormalised(WithoutLabels(t)), "signature:");
    StripLeavesOut(QuotesNormalised(WithoutLabels(t)), "cachet:");
  }

  /** Step 4 at work: the cleaned text holds no "Signature:" and no "Cachet:", in any case. */
  lemma CleanedWithoutLabels(text: string)
    ensures Absent(CleanedText(text), "signature:")
    ensures Absent(CleanedText(text), "cachet:")
  {
    LabelsQuotesLeaveOut(SpacesNormalised(WithoutMarks(Join(KeptLines(text), "\n"))));
  }

  // ---------------------------------------------------------------- what step 2 leaves

  /** The scan of "PaPage 1ge 2" from position 8 keeps "ge 2". */
  lemma RejoinedTail(s: string)
    requires s == "PaPage 1ge 2"
    ensures SubFrom(s, 8, PageMarkMatch, "") == "ge 2"
  {
    assert SubFrom(s, 12, PageMarkMatch, "") == "";
    assert SubFrom(s, 11, PageMarkMatch, "") == "2";
    assert SubFrom(s, 10, PageMarkMatch, "") == " 2";
    assert SubFrom(s, 9, PageMarkMatch, "") == "e 2";
  }

  /** "Page 1" is matched at position 2 of "PaPage 1ge 2". */
  lemma RejoinedMark(s: string)
    requires s == "PaPage 1ge 2"
    ensures PageMarkMatch(s, 2) == 6
  {
    assert MatchesFolded(s, 2, "page");
    assert Run(s, 6, IsPySpace) == 1;
    assert Run(s, 7, IsDigit) == 1;
  }

  /** Nothing is matched at positions 0 and 1 of "PaPage 1ge 2". */
  lemma RejoinedHead(s: string)
    requires s == "PaPage 1ge 2"
    ensures PageMarkMatch(s, 0) == 0 && PageMarkMatch(s, 1) == 0
  {
    assert !FoldEq(s[0 + 2], "page"[2]);
    assert !FoldEq(s[1 + 0], "page"[0]);
  }

  /** "Page 2" is one whole page mark. */
  lemma RejoinedResultMatched(s: string)
    requires s == "Page 2"
    ensures PageMarkMatch(s, 0) == 6
  {
    assert MatchesFolded(s, 0, "page");
    assert Run(s, 4, IsPySpace) == 1;
    assert Run(s, 5, IsDigit) == 1;
  }

  /** Step 2 removes page numbers in one pass, so the text around a removed number can form a
      new one: "PaPage 1ge 2" becomes "Page 2", which the pattern matches whole. */
  lemma PageMarkRejoined(s: string)
    requires s == "PaPage 1ge 2"
    ensures SubFrom(s, 0, PageMarkMatch, "") == "Page 2"
    ensures PageMarkMatch(SubFrom(s, 0, PageMarkMatch, ""), 0) == 6
  {
    RejoinedTail(s);
    RejoinedMark(s);
    RejoinedHead(s);
    assert SubFrom(s, 2, PageMarkMatch, "") == "ge 2";
    assert SubFrom(s, 1, PageMarkMatch, "") == "age 2";
    RejoinedResultMatched(SubFrom(s, 0, PageMarkMatch, ""));
  }

  /** An empty input gives an empty text, lengths 0 and reduction 0. */
  lemma CleanEmpty()
    ensures CleanedText("") == ""
    ensures Reduction(0, 0) == 0.0
  {
    CleanedShorter("");
  }
}
