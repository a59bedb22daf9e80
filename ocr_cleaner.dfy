/** The OCR post-cleaner: Unicode normalisation, character, phone-number and spacing
    substitution passes that record a correction whenever they change the text, rejoining of
    broken words, limiting blank lines, and an improvement score. `normalize` stands for
    _normalize_unicode (NFKC and removal of control characters), `sub` for re.sub of one
    pass and `isLower` for str.islower on one character. */
module OcrCleaner {
  import opened Text
  import Regex

  /** One substitution pass: its regex, its replacement and whether it uses re.MULTILINE. */
  datatype SubPass = SubPass(pattern: string, replacement: string, multiline: bool)

  const CharPasses: seq<SubPass> := [
    SubPass(@"(?<=[a-z])0(?=[a-z])", "o", false),
    SubPass(@"(?<=[A-Z])0(?=[A-Z])", "O", false),
    SubPass(@"(?<=\d)l(?=\d)", "1", false),
    SubPass(@"(?<=\d)I(?=\d)", "1", false),
    SubPass(@"(?<=\d)O(?=\d)", "0", false),
    SubPass(@"(?<=\d)o(?=\d)", "0", false),
    SubPass(@"(?<=\d)S(?=\d)", "5", false),
    SubPass(@"(?<=\d)B(?=\d)", "8", false),
    SubPass(@"(?<=\d)Z(?=\d)", "2", false),
    SubPass("ﬁ", "fi", false),
    SubPass("ﬂ", "fl", false),
    SubPass("ﬀ", "ff", false),
    SubPass("ﬃ", "ffi", false),
    SubPass("ﬄ", "ffl", false),
    SubPass("ﬆ", "st", false),
    SubPass("rn", "m", false),
    SubPass("vv", "w", false),
    SubPass("VV", "W", false)]

  const PhonePasses: seq<SubPass> := [
    SubPass(@"(\d{2})[.,;:\s]+(\d{2})[.,;:\s]+(\d{2})[.,;:\s]+(\d{2})[.,;:\s]+(\d{2})", @"\1.\2.\3.\4.\5", false),
    SubPass(@"(\d{2})[.,;:\s]+(\d{2})[.,;:\s]+(\d{2})[.,;:\s]+(\d{2})", @"\1.\2.\3.\4", false)]

  /** The spacing passes; the first quote class is "[`]" (the adjacent literals r'[' and
      '`]'), the second "[\"\"«»]". */
  const SpacingPasses: seq<SubPass> := [
    SubPass(@"\s+([,;:!?.\)])", @"\1", false),
    SubPass(@"([,;:!?.\)])(?=[A-Za-zÀ-ÿ0-9])", @"\1 ", false),
    SubPass(" {2,}", " ", false),
    SubPass(@"\(\s+", "(", false),
    SubPass(@"\s+\)", ")", false),
    SubPass("[`]", "'", false),
    SubPass("[\"\"«»]", "\"", false),
    SubPass(" +$", "", true)]

  /** The correction texts of the three kinds of pass. */
  function CharLabel(p: SubPass): string {
    "Char pattern: " + SliceTo(p.pattern, 20) + "..."
  }

  function PhoneLabel(p: SubPass): string {
    "Phone number normalization"
  }

  function SpacingLabel(p: SubPass): string {
    "Spacing: " + SliceTo(p.pattern, 20) + "..."
  }

  // ---------------------------------------------------------------- substitution passes

  /** The text and the corrections after running `passes` in order: a pass that changes the
      text adds its correction. */
  function RunPasses(passes: seq<SubPass>, text: string, sub: (SubPass, string) -> string, note: SubPass -> string): (r: (string, seq<string>))
    ensures |r.1| <= |passes|
    ensures forall c :: c in r.1 ==> exists k :: 0 <= k < |passes| && c == note(passes[k])
  {
    if passes == [] then (text, [])
    else
      var last := passes[|passes| - 1];
      var before := RunPasses(passes[..|passes| - 1], text, sub, note);
      var after := sub(last, before.0);
      assert forall k :: 0 <= k < |passes| - 1 ==> passes[..|passes| - 1][k] == passes[k];
      (after, before.1 + (if after != before.0 then [note(last)] else []))
  }

  /** With no correction recorded, no pass changed the text. */
  lemma {:induction false} NoCorrectionNoChange(passes: seq<SubPass>, text: string, sub: (SubPass, string) -> string, note: SubPass -> string)
    ensures RunPasses(passes, text, sub, note).1 == [] ==> RunPasses(passes, text, sub, note).0 == text
  {
    if passes != [] {
      NoCorrectionNoChange(passes[..|passes| - 1], text, sub, note);
    }
  }

  /** The pass loops of clean_text. */
  method ApplyPasses(passes: seq<SubPass>, text: string, sub: (SubPass, string) -> string, note: SubPass -> string)
    returns (cleaned: string, corrections: seq<string>)
    ensures cleaned == RunPasses(passes, text, sub, note).0
    ensures corrections == RunPasses(passes, text, sub, note).1
  {
    cleaned := text;
    corrections := [];
    for i := 0 to |passes|
      invariant cleaned == RunPasses(passes[..i], text, sub, note).0
      invariant corrections == RunPasses(passes[..i], text, sub, note).1
    {
      assert passes[..i + 1][..i] == passes[..i] && passes[..i + 1][i] == passes[i];
      var before := cleaned;
      cleaned := sub(passes[i], cleaned);
      if before != cleaned {
        corrections := corrections + [note(passes[i])];
      }
      assert cleaned == RunPasses(passes[..i + 1], text, sub, note).0;
    }
    assert passes[..|passes|] == passes;
  }

  // ---------------------------------------------------------------- _fix_broken_words

  /** The character class [a-zà-ÿ]. */
  predicate IsHyphenLetter(c: char) {
    ('a' <= c <= 'z') || ('\U{00E0}' <= c <= '\U{00FF}')
  }

  /** The length of the match of `([a-zà-ÿ])-\s*\n\s*([a-zà-ÿ])` at position j, 0 where it
      does not match. Letters are not spaces, so whatever the backtracking, the spaces after
      the hyphen can only end where their run ends; the match exists when that run holds a
      line break and a letter follows it. */
  function HyphenMatch(s: string, j: nat): (n: nat)
    ensures n == 0 || (n >= 4 && j + n <= |s| && IsHyphenLetter(s[j]) && IsHyphenLetter(s[j + n - 1]))
  {
    if j + 1 < |s| && IsHyphenLetter(s[j]) && s[j + 1] == '-' then
      var e := j + 2 + Run(s, j + 2, IsPySpace);
      if e < |s| && IsHyphenLetter(s[e]) && '\n' in s[j + 2..e] then e + 1 - j else 0
    else 0
  }

  /** A match is a letter, a hyphen, spaces holding a line break, and a letter; where the
      pattern does not match though a letter and a hyphen start there, the run of spaces after
      them holds no line break or is not followed by a letter. */
  lemma HyphenMatchSpec(s: string, j: nat)
    ensures var n := HyphenMatch(s, j);
      n > 0 ==>
        && s[j + 1] == '-'
        && '\n' in s[j + 2..j + n - 1]
        && forall k :: j + 2 <= k < j + n - 1 ==> IsPySpace(s[k])
    ensures var n := HyphenMatch(s, j);
      n == 0 && j + 1 < |s| && IsHyphenLetter(s[j]) && s[j + 1] == '-' ==>
        var e := j + 2 + Run(s, j + 2, IsPySpace);
        e == |s| || !IsHyphenLetter(s[e]) || '\n' !in s[j + 2..e]
  {
  }

  /** The hyphen pass of _fix_broken_words: re.sub of that pattern with `\1\2`, each match
      becoming its two letters. */
  function HyphenJoined(s: string): string {
    Regex.SubEndsFrom(s, 0, HyphenMatch)
  }

  /** The hyphen pass never adds a line break. */
  lemma HyphenJoinedNewlines(s: string)
    ensures CharCount(HyphenJoined(s), '\n') <= CharCount(s, '\n')
  {
    forall j | 0 <= j < |s| && HyphenMatch(s, j) > 0
      ensures s[j] != '\n' && s[j + HyphenMatch(s, j) - 1] != '\n'
    {
      var n := HyphenMatch(s, j);
      assert IsHyphenLetter(s[j]) && IsHyphenLetter(s[j + n - 1]);
    }
    Regex.SubEndsFromCount(s, 0, HyphenMatch, '\n');
    assert s[0..] == s;
  }

  /** A text without a hyphen is left as it is. */
  lemma HyphenJoinedNoHyphen(s: string)
    requires '-' !in s
    ensures HyphenJoined(s) == s
  {
    forall j | 0 <= j < |s|
      ensures HyphenMatch(s, j) == 0
    {
      if j + 1 < |s| {
        assert s[j + 1] in s;
      }
    }
    Regex.SubEndsFromNoMatch(s, 0, HyphenMatch);
    assert s[0..] == s;
  }

  /** In "ges-\ntionnaire" the pattern matches "s-\nt" and nowhere after it. */
  lemma HyphenExampleMatches()
    ensures var s := "ges-\ntionnaire";
      && HyphenMatch(s, 0) == 0 && HyphenMatch(s, 1) == 0 && HyphenMatch(s, 2) == 4
      && forall j :: 6 <= j < |s| ==> HyphenMatch(s, j) == 0
  {
    var s := "ges-\ntionnaire";
    assert Run(s, 5, IsPySpace) == 0;
    assert Run(s, 4, IsPySpace) == 1;
    assert s[4..5] == "\n";
    forall j | 6 <= j < |s|
      ensures HyphenMatch(s, j) == 0
    {
      assert j + 1 < |s| ==> s[j + 1] != '-';
    }
  }

  /** A substitution matching "ges-\ntionnaire" as the hyphen pattern does gives
      "gestionnaire". */
  lemma {:induction false} ExampleJoined(m: (string, nat) -> nat)
    requires var s := "ges-\ntionnaire";
      && Regex.MatchesWithin(s, 0, m)
      && m(s, 0) == 0 && m(s, 1) == 0 && m(s, 2) == 4
      && forall j :: 6 <= j < |s| ==> m(s, j) == 0
    ensures Regex.SubEndsFrom("ges-\ntionnaire", 0, m) == "gestionnaire"
  {
    var s := "ges-\ntionnaire";
    var tail := Regex.SubEndsFrom(s, 6, m);
    assert tail == "ionnaire" by {
      Regex.SubEndsFromNoMatch(s, 6, m);
    }
    var joined := Regex.SubEndsFrom(s, 2, m);
    assert joined == "st" + tail by {
      assert joined == [s[2], s[5]] + tail;
    }
    assert Regex.SubEndsFrom(s, 0, m) == "ge" + joined by {
      assert Regex.SubEndsFrom(s, 1, m) == [s[1]] + joined;
    }
    assert "ge" + ("st" + "ionnaire") == "gestionnaire";
  }

  /** The example of _fix_broken_words: "ges-\ntionnaire" becomes "gestionnaire". */
  lemma HyphenJoinedExample()
    ensures HyphenJoined("ges-\ntionnaire") == "gestionnaire"
  {
    HyphenExampleMatches();
    ExampleJoined(HyphenMatch);
  }

  /** A short line ending in a lower-case letter followed by a line starting with one. */
  predicate Mergeable(current: string, next: string, isLower: char -> bool) {
    && 0 < |current| < 50
    && isLower(current[|current| - 1])
    && |next| > 0
    && isLower(next[0])
  }

  /** The lines after the rejoining loop: each line right-stripped, and merged with the
      left-stripped next line when it is mergeable; the merged line is consumed. */
  function Merged(lines: seq<string>, isLower: char -> bool): (r: seq<string>)
    ensures |r| <= |lines|
    ensures 2 * |r| >= |lines|
    decreases |lines|
  {
    if lines == [] then []
    else
      var current := RStrip(lines[0], IsPySpace);
      if |lines| >= 2 && Mergeable(current, lines[1], isLower) then
        [current + LStrip(lines[1], IsPySpace)] + Merged(lines[2..], isLower)
      else [current] + Merged(lines[1..], isLower)
  }

  /** When no line is merged, the lines are the right-stripped input lines. */
  lemma {:induction false} MergedNone(lines: seq<string>, isLower: char -> bool)
    requires |Merged(lines, isLower)| == |lines|
    ensures forall k :: 0 <= k < |lines| ==> Merged(lines, isLower)[k] == RStrip(lines[k], IsPySpace)
    decreases |lines|
  {
    if lines != [] {
      var current := RStrip(lines[0], IsPySpace);
      if |lines| >= 2 && Mergeable(current, lines[1], isLower) {
        assert |Merged(lines[2..], isLower)| <= |lines| - 2;
      } else {
        MergedNone(lines[1..], isLower);
        forall k | 1 <= k < |lines|
          ensures Merged(lines, isLower)[k] == RStrip(lines[k], IsPySpace)
        {
          assert lines[1..][k - 1] == lines[k];
        }
      }
    }
  }

  /** The first line is merged with the second exactly when it is mergeable. */
  lemma MergedHead(lines: seq<string>, isLower: char -> bool)
    requires |lines| >= 2
    ensures var current := RStrip(lines[0], IsPySpace);
      Merged(lines, isLower)[0] == if Mergeable(current, lines[1], isLower) then current + LStrip(lines[1], IsPySpace) else current
  {
  }

  /** The lines from position i on: the line there, merged or not with the next one, then
      the rest. */
  lemma MergedFrom(lines: seq<string>, i: nat, isLower: char -> bool)
    requires i < |lines|
    ensures var current := RStrip(lines[i], IsPySpace);
      Merged(lines[i..], isLower) ==
        if i < |lines| - 1 && Mergeable(current, lines[i + 1], isLower)
        then [current + LStrip(lines[i + 1], IsPySpace)] + Merged(lines[i + 2..], isLower)
        else [current] + Merged(lines[i + 1..], isLower)
  {
    assert lines[i..][0] == lines[i] && lines[i..][1..] == lines[i + 1..];
    if i < |lines| - 1 {
      assert lines[i..][1] == lines[i + 1] && lines[i..][2..] == lines[i + 2..];
    }
  }

  /** One step of the line loop: the accumulated lines followed by the merged rest are
      unchanged when the loop takes line i, alone or merged with line i + 1. */
  lemma MergeStep(lines: seq<string>, i: nat, isLower: char -> bool, result: seq<string>)
    requires i < |lines|
    ensures var current := RStrip(lines[i], IsPySpace);
      if i < |lines| - 1 && Mergeable(current, lines[i + 1], isLower)
      then result + Merged(lines[i..], isLower) == (result + [current + LStrip(lines[i + 1], IsPySpace)]) + Merged(lines[i + 2..], isLower)
      else result + Merged(lines[i..], isLower) == (result + [current]) + Merged(lines[i + 1..], isLower)
  {
    MergedFrom(lines, i, isLower);
  }

  /** The line loop of _fix_broken_words. */
  method MergeBrokenLines(lines: seq<string>, isLower: char -> bool) returns (result: seq<string>)
    ensures result == Merged(lines, isLower)
  {
    result := [];
    var i := 0;
    while i < |lines|
      invariant 0 <= i <= |lines|
      invariant result + Merged(lines[i..], isLower) == Merged(lines, isLower)
      decreases |lines| - i
    {
      var currentLine := RStrip(lines[i], IsPySpace);
      MergeStep(lines, i, isLower, result);
      if i < |lines| - 1 && Mergeable(currentLine, lines[i + 1], isLower) {
        var merged := currentLine + LStrip(lines[i + 1], IsPySpace);
        result := result + [merged];
        i := i + 2;
      } else {
        result := result + [currentLine];
        i := i + 1;
      }
    }
    assert lines[i..] == [];
  }

  /** The text after _fix_broken_words. */
  function BrokenWordsFixed(text: string, isLower: char -> bool): string {
    Join(Merged(SplitOn(HyphenJoined(text), "\n"), isLower), "\n")
  }

  /** _fix_broken_words. */
  method FixBrokenWords(text: string, isLower: char -> bool) returns (r: string)
    ensures r == BrokenWordsFixed(text, isLower)
  {
    var fixed := HyphenJoined(text);
    var lines := SplitOn(fixed, "\n");
    var result := MergeBrokenLines(lines, isLower);
    r := Join(result, "\n");
  }

  /** Rejoining lines free of line breaks gives lines free of line breaks. */
  lemma {:induction false} MergedNoNewline(lines: seq<string>, isLower: char -> bool)
    requires forall p :: p in lines ==> '\n' !in p
    ensures forall p :: p in Merged(lines, isLower) ==> '\n' !in p
    decreases |lines|
  {
    if lines != [] {
      var current := RStrip(lines[0], IsPySpace);
      assert lines[0] in lines;
      assert '\n' !in current;
      if |lines| >= 2 && Mergeable(current, lines[1], isLower) {
        assert lines[1] in lines;
        var next := LStrip(lines[1], IsPySpace);
        assert '\n' !in next;
        assert forall p :: p in lines[2..] ==> p in lines;
        MergedNoNewline(lines[2..], isLower);
      } else {
        assert forall p :: p in lines[1..] ==> p in lines;
        MergedNoNewline(lines[1..], isLower);
      }
    }
  }

  /** _fix_broken_words never produces more lines than the text had: the hyphen pass removes
      line breaks and adds none, and the rejoining loop only merges lines. */
  lemma BrokenWordsFixedLines(text: string, isLower: char -> bool)
    ensures |SplitOn(BrokenWordsFixed(text, isLower), "\n")| <= |SplitOn(text, "\n")|
  {
    var fixed := HyphenJoined(text);
    var lines := SplitOn(fixed, "\n");
    var merged := Merged(lines, isLower);
    assert "\n" == ['\n'];
    SplitOnCharPieces(fixed, '\n');
    MergedNoNewline(lines, isLower);
    JoinCharCount(merged, '\n');
    SplitOnCharCount(Join(merged, "\n"), '\n');
    SplitOnCharCount(fixed, '\n');
    SplitOnCharCount(text, '\n');
    HyphenJoinedNewlines(text);
  }

  // ---------------------------------------------------------------- _normalize_line_breaks

  /** A line that strips to nothing. */
  predicate IsBlankLine(line: string) {
    Strip(line) == []
  }

  /** The kept lines and blank_count after the loop over `lines`, for a blank-line test
      `blank`. */
  function LineBreaksState(lines: seq<string>, blank: string -> bool): (seq<string>, nat) {
    if lines == [] then ([], 0)
    else
      var before := LineBreaksState(lines[..|lines| - 1], blank);
      var line := lines[|lines| - 1];
      if !blank(line) then (before.0 + [line], 0)
      else if before.1 + 1 <= 2 then (before.0 + [line], before.1 + 1)
      else (before.0, before.1 + 1)
  }

  /** The non-blank lines, in order. */
  function NonBlankLines(lines: seq<string>, blank: string -> bool): seq<string> {
    if lines == [] then []
    else NonBlankLines(lines[..|lines| - 1], blank) + (if blank(lines[|lines| - 1]) then [] else [lines[|lines| - 1]])
  }

  /** No three consecutive blank lines. */
  predicate AtMostTwoBlanks(lines: seq<string>, blank: string -> bool) {
    forall k :: 0 <= k < |lines| - 2 ==> !(blank(lines[k]) && blank(lines[k + 1]) && blank(lines[k + 2]))
  }

  /** What blank_count says about the end of the kept lines. */
  predicate BlankCountShape(cleaned: seq<string>, blankCount: nat, blank: string -> bool) {
    && (blankCount == 0 ==> cleaned == [] || !blank(cleaned[|cleaned| - 1]))
    && (blankCount == 1 ==> |cleaned| >= 1 && blank(cleaned[|cleaned| - 1]) && (|cleaned| == 1 || !blank(cleaned[|cleaned| - 2])))
  }

  /** The loop keeps every non-blank line, in order. */
  lemma {:induction false} LineBreaksKeepText(lines: seq<string>, blank: string -> bool)
    ensures NonBlankLines(LineBreaksState(lines, blank).0, blank) == NonBlankLines(lines, blank)
  {
    if lines != [] {
      var init := lines[..|lines| - 1];
      LineBreaksKeepText(init, blank);
      var cleaned := LineBreaksState(init, blank).0;
      var line := lines[|lines| - 1];
      var out := LineBreaksState(lines, blank).0;
      if !blank(line) || LineBreaksState(init, blank).1 + 1 <= 2 {
        assert out == cleaned + [line];
        assert out[..|out| - 1] == cleaned;
      } else {
        assert out == cleaned;
      }
    }
  }

  /** The loop never keeps three blank lines in a row. */
  lemma {:induction false} LineBreaksBlankRuns(lines: seq<string>, blank: string -> bool)
    ensures AtMostTwoBlanks(LineBreaksState(lines, blank).0, blank)
    ensures BlankCountShape(LineBreaksState(lines, blank).0, LineBreaksState(lines, blank).1, blank)
  {
    if lines != [] {
      var init := lines[..|lines| - 1];
      LineBreaksBlankRuns(init, blank);
      var cleaned := LineBreaksState(init, blank).0;
      var blankCount := LineBreaksState(init, blank).1;
      var line := lines[|lines| - 1];
      var out := LineBreaksState(lines, blank).0;
      if !blank(line) || blankCount + 1 <= 2 {
        assert out == cleaned + [line];
        AppendKeepsRuns(cleaned, line, blank, blankCount);
      } else {
        assert out == cleaned;
      }
    }
  }

  lemma AppendKeepsRuns(cleaned: seq<string>, line: string, blank: string -> bool, blankCount: nat)
    requires AtMostTwoBlanks(cleaned, blank)
    requires BlankCountShape(cleaned, blankCount, blank)
    requires blank(line) ==> blankCount <= 1
    ensures AtMostTwoBlanks(cleaned + [line], blank)
  {
    var out := cleaned + [line];
    forall k | 0 <= k < |out| - 2
      ensures !(blank(out[k]) && blank(out[k + 1]) && blank(out[k + 2]))
    {
      if k + 2 < |cleaned| {
        assert out[k] == cleaned[k] && out[k + 1] == cleaned[k + 1] && out[k + 2] == cleaned[k + 2];
      } else {
        assert out[k + 2] == line && out[k + 1] == cleaned[|cleaned| - 1] && out[k] == cleaned[|cleaned| - 2];
      }
    }
  }

  /** The loop of _normalize_line_breaks over the lines. */
  method KeepBlankRuns(lines: seq<string>, blank: string -> bool) returns (cleanedLines: seq<string>)
    ensures cleanedLines == LineBreaksState(lines, blank).0
  {
    cleanedLines := [];
    var blankCount: nat := 0;
    for i := 0 to |lines|
      invariant (cleanedLines, blankCount) == LineBreaksState(lines[..i], blank)
    {
      assert lines[..i + 1][..i] == lines[..i];
      var line := lines[i];
      if !blank(line) {
        cleanedLines := cleanedLines + [line];
        blankCount := 0;
      } else {
        blankCount := blankCount + 1;
        if blankCount <= 2 {
          cleanedLines := cleanedLines + [line];
        }
      }
    }
    assert lines[..|lines|] == lines;
  }

  /** The text after _normalize_line_breaks. */
  function LineBreaksNormalized(text: string): string {
    Join(LineBreaksState(SplitOn(text, "\n"), IsBlankLine).0, "\n")
  }

  /** _normalize_line_breaks. */
  method NormalizeLineBreaks(text: string) returns (r: string)
    ensures r == LineBreaksNormalized(text)
  {
    var lines := SplitOn(text, "\n");
    var cleanedLines := KeepBlankRuns(lines, IsBlankLine);
    r := Join(cleanedLines, "\n");
  }

  // ---------------------------------------------------------------- _calculate_improvement_score

  /** The number of positions below n where a and b differ. */
  function Mismatches(a: string, b: string, n: nat): (m: nat)
    requires n <= |a| && n <= |b|
    ensures m <= n
  {
    if n == 0 then 0 else Mismatches(a, b, n - 1) + (if a[n - 1] != b[n - 1] then 1 else 0)
  }

  lemma {:induction false} NoMismatches(a: string, b: string, n: nat)
    requires n <= |a| && n <= |b|
    ensures Mismatches(a, b, n) == 0 ==> a[..n] == b[..n]
  {
    if n > 0 {
      NoMismatches(a, b, n - 1);
      assert a[..n] == a[..n - 1] + [a[n - 1]] && b[..n] == b[..n - 1] + [b[n - 1]];
    }
  }

  /** The differing positions of the common prefix plus the difference in length. */
  function CharDiff(original: string, cleaned: string): nat {
    var minLen := if |original| < |cleaned| then |original| else |cleaned|;
    var lengthDiff := if |original| < |cleaned| then |cleaned| - |original| else |original| - |cleaned|;
    Mismatches(original, cleaned, minLen) + lengthDiff
  }

  /** Two different texts differ somewhere. */
  lemma CharDiffPositive(original: string, cleaned: string)
    ensures CharDiff(original, cleaned) == 0 <==> original == cleaned
  {
    var minLen := if |original| < |cleaned| then |original| else |cleaned|;
    NoMismatches(original, cleaned, minLen);
    if original == cleaned {
      assert Mismatches(original, cleaned, minLen) == 0 by {
        MismatchesSame(original, minLen);
      }
    }
    if |original| == |cleaned| {
      assert original[..minLen] == original && cleaned[..minLen] == cleaned;
    }
  }

  lemma {:induction false} MismatchesSame(a: string, n: nat)
    requires n <= |a|
    ensures Mismatches(a, a, n) == 0
  {
    if n > 0 {
      MismatchesSame(a, n - 1);
    }
  }

  /** _calculate_improvement_score, exactly (the rounding to two decimals is left out). */
  function ImprovementScore(original: string, cleaned: string): (r: real)
    ensures 0.0 <= r <= 100.0
    ensures original == cleaned || |original| == 0 ==> r == 0.0
    ensures original != cleaned && |original| > 0 ==> r > 0.0
  {
    if original == cleaned then 0.0
    else
      var charDiff := CharDiff(original, cleaned);
      CharDiffPositive(original, cleaned);
      if |original| == 0 then 0.0
      else
        var improvement := (charDiff as real) / (|original| as real) * 100.0;
        if improvement < 100.0 then improvement else 100.0
  }

  // ---------------------------------------------------------------- clean_text

  datatype OcrCleanResult = OcrCleanResult(original: string, cleaned: string, corrections: seq<string>, improvementScore: real)

  /** The result of clean_text on a text that is not blank: normalisation, the character,
      phone and spacing passes, broken words, blank lines, strip. */
  function CleanedNonBlank(text: string, normalize: string -> string, sub: (SubPass, string) -> string, isLower: char -> bool): OcrCleanResult {
    var normalized := normalize(text);
    var chars := RunPasses(CharPasses, normalized, sub, CharLabel);
    var phones := RunPasses(PhonePasses, chars.0, sub, PhoneLabel);
    var spacing := RunPasses(SpacingPasses, phones.0, sub, SpacingLabel);
    var cleaned := Strip(LineBreaksNormalized(BrokenWordsFixed(spacing.0, isLower)));
    OcrCleanResult(text, cleaned, (if normalized != text then ["Unicode normalization"] else []) + chars.1 + phones.1 + spacing.1,
      ImprovementScore(text, cleaned))
  }

  /** The result of clean_text. */
  function OcrCleaned(text: string, normalize: string -> string, sub: (SubPass, string) -> string, isLower: char -> bool): OcrCleanResult {
    if text == [] || Strip(text) == [] then OcrCleanResult(text, text, [], 0.0)
    else CleanedNonBlank(text, normalize, sub, isLower)
  }

  /** clean_text. */
  method CleanText(text: string, normalize: string -> string, sub: (SubPass, string) -> string, isLower: char -> bool)
    returns (r: OcrCleanResult)
    ensures r == OcrCleaned(text, normalize, sub, isLower)
  {
    if text == [] || Strip(text) == [] {
      return OcrCleanResult(text, text, [], 0.0);
    }
    var original := text;
    var cleaned := normalize(text);
    var corrections: seq<string> := [];
    if cleaned != text {
      corrections := corrections + ["Unicode normalization"];
    }
    ghost var normalized := cleaned;
    assert corrections == if normalized != text then ["Unicode normalization"] else [];
    var found;
    cleaned, found := ApplyPasses(CharPasses, cleaned, sub, CharLabel);
    corrections := corrections + found;
    ghost var chars := RunPasses(CharPasses, normalized, sub, CharLabel);
    assert cleaned == chars.0 && found == chars.1;
    cleaned, found := ApplyPasses(PhonePasses, cleaned, sub, PhoneLabel);
    corrections := corrections + found;
    ghost var phones := RunPasses(PhonePasses, chars.0, sub, PhoneLabel);
    assert cleaned == phones.0 && found == phones.1;
    cleaned, found := ApplyPasses(SpacingPasses, cleaned, sub, SpacingLabel);
    corrections := corrections + found;
    cleaned := FixBrokenWords(cleaned, isLower);
    cleaned := NormalizeLineBreaks(cleaned);
    cleaned := Strip(cleaned);
    r := OcrCleanResult(original, cleaned, corrections, ImprovementScore(original, cleaned));
    assert r == CleanedNonBlank(text, normalize, sub, isLower);
  }

  /** The original is the input; a blank input comes back unchanged with no correction and
      score 0; otherwise the cleaned text is stripped, its score is within [0, 100] and positive
      exactly when it differs from a non-empty input, and there is at most one correction per
      pass plus the normalisation. */
  lemma OcrCleanedSpec(text: string, normalize: string -> string, sub: (SubPass, string) -> string, isLower: char -> bool)
    ensures var r := OcrCleaned(text, normalize, sub, isLower);
      && r.original == text
      && (text == [] || Strip(text) == [] ==> r.cleaned == text && r.corrections == [] && r.improvementScore == 0.0)
      && (Strip(text) != [] ==> Stripped(r.cleaned))
      && 0.0 <= r.improvementScore <= 100.0
      && (r.improvementScore > 0.0 <==> r.cleaned != text && |text| > 0)
      && |r.corrections| <= 1 + |CharPasses| + |PhonePasses| + |SpacingPasses|
  {
  }
}
