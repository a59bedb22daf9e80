/** The two ways the sources use a regular expression, stated once for any pattern:
    a global substitution (Python's re.sub, JavaScript's replace with the g flag) driven by
    a match-length function, and Python's re.split around a capturing group, driven by the
    list of match spans a regex engine reports. */
module Regex {
  import opened Wrappers
  import Text

  /** `m(s, j)` is the length of the match of some pattern at position j of s, 0 when the
      pattern does not match there; every match stays inside s. */
  predicate MatchesWithin(s: string, i: nat, m: (string, nat) -> nat) {
    forall j :: i <= j <= |s| ==> j + m(s, j) <= |s|
  }

  /** Scanning from position i, replace every leftmost non-overlapping match by `rep` and
      keep every other character. The patterns modelled with it never match the empty
      string, so a zero length means "no match here". */
  function SubFrom(s: string, i: nat, m: (string, nat) -> nat, rep: string): string
    requires i <= |s| && MatchesWithin(s, i, m)
    decreases |s| - i
  {
    if i == |s| then []
    else
      var k := m(s, i);
      if k > 0 then rep + SubFrom(s, i + k, m, rep)
      else [s[i]] + SubFrom(s, i + 1, m, rep)
  }

  /** The match length of a fixed text at position j, 0 where it does not occur there:
      SubFrom driven by it is Python's str.replace. */
  function LiteralMatch(s: string, j: nat, lit: string): (n: nat)
    ensures n == 0 || j + n <= |s|
    ensures n == 0 || n == |lit|
    ensures n > 0 <==> lit != [] && j + |lit| <= |s| && s[j..j + |lit|] == lit
  {
    if lit != [] && j + |lit| <= |s| && s[j..j + |lit|] == lit then |lit| else 0
  }

  /** A substitution whose replacement is never longer than the text it replaces does not
      lengthen the text. */
  lemma {:induction false} SubFromShorter(s: string, i: nat, m: (string, nat) -> nat, rep: string)
    requires i <= |s| && MatchesWithin(s, i, m)
    requires forall j :: i <= j <= |s| && m(s, j) > 0 ==> |rep| <= m(s, j)
    ensures |SubFrom(s, i, m, rep)| <= |s| - i
    decreases |s| - i
  {
    if i < |s| {
      if m(s, i) > 0 { SubFromShorter(s, i + m(s, i), m, rep); } else { SubFromShorter(s, i + 1, m, rep); }
    }
  }

  /** Every character of the result comes from the scanned text or from the replacement. */
  lemma {:induction false} SubFromChars(s: string, i: nat, m: (string, nat) -> nat, rep: string)
    requires i <= |s| && MatchesWithin(s, i, m)
    ensures forall c :: c in SubFrom(s, i, m, rep) ==> c in s[i..] || c in rep
    decreases |s| - i
  {
    if i < |s| {
      var k := m(s, i);
      if k > 0 {
        SubFromChars(s, i + k, m, rep);
        assert forall c :: c in s[i + k..] ==> c in s[i..];
      } else {
        SubFromChars(s, i + 1, m, rep);
        assert forall c :: c in s[i + 1..] ==> c in s[i..];
      }
    }
  }

  /** Where the pattern matches nowhere, the text is unchanged. */
  lemma {:induction false} SubFromNoMatch(s: string, i: nat, m: (string, nat) -> nat, rep: string)
    requires i <= |s| && MatchesWithin(s, i, m)
    requires forall j :: i <= j < |s| ==> m(s, j) == 0
    ensures SubFrom(s, i, m, rep) == s[i..]
    decreases |s| - i
  {
    if i < |s| {
      SubFromNoMatch(s, i + 1, m, rep);
      assert s[i..] == [s[i]] + s[i + 1..];
    }
  }

  /** Scanning from position i, replace every leftmost non-overlapping match by its first and
      last characters, keeping every other character: re.sub with the replacement `\1\2`
      for a pattern whose two groups are the one-character ends of its match. */
  function SubEndsFrom(s: string, i: nat, m: (string, nat) -> nat): string
    requires i <= |s| && MatchesWithin(s, i, m)
    decreases |s| - i
  {
    if i == |s| then []
    else
      var k := m(s, i);
      if k > 0 then [s[i], s[i + k - 1]] + SubEndsFrom(s, i + k, m)
      else [s[i]] + SubEndsFrom(s, i + 1, m)
  }

  /** A match whose ends are not c contributes no c, so the count bound for the text after the
      match gives the bound from the match on. */
  lemma SubEndsFromStep(s: string, i: nat, m: (string, nat) -> nat, c: char)
    requires i < |s| && MatchesWithin(s, i, m)
    requires m(s, i) > 0 && s[i] != c && s[i + m(s, i) - 1] != c
    requires Text.CharCount(SubEndsFrom(s, i + m(s, i), m), c) <= Text.CharCount(s[i + m(s, i)..], c)
    ensures Text.CharCount(SubEndsFrom(s, i, m), c) <= Text.CharCount(s[i..], c)
  {
    var k := m(s, i);
    var ends := [s[i], s[i + k - 1]];
    assert SubEndsFrom(s, i, m) == ends + SubEndsFrom(s, i + k, m);
    assert ends[1..] == [s[i + k - 1]];
    Text.CharCountAppend(ends, SubEndsFrom(s, i + k, m), c);
    Text.CharCountSplit(s, i, i + k, c);
  }

  /** A character where nothing matches is kept, so the count bound for the text after it
      gives the bound from it on. */
  lemma SubEndsFromKeep(s: string, i: nat, m: (string, nat) -> nat, c: char)
    requires i < |s| && MatchesWithin(s, i, m)
    requires m(s, i) == 0
    requires Text.CharCount(SubEndsFrom(s, i + 1, m), c) <= Text.CharCount(s[i + 1..], c)
    ensures Text.CharCount(SubEndsFrom(s, i, m), c) <= Text.CharCount(s[i..], c)
  {
    assert SubEndsFrom(s, i, m) == [s[i]] + SubEndsFrom(s, i + 1, m);
    Text.CharCountAppend([s[i]], SubEndsFrom(s, i + 1, m), c);
    Text.CharCountSplit(s, i, i + 1, c);
    assert s[i..i + 1] == [s[i]];
  }

  /** When no match begins or ends with c, the substitution never adds a c. */
  lemma {:induction false} SubEndsFromCount(s: string, i: nat, m: (string, nat) -> nat, c: char)
    requires i <= |s| && MatchesWithin(s, i, m)
    requires forall j {:trigger m(s, j)} :: i <= j < |s| && m(s, j) > 0 ==> s[j] != c && s[j + m(s, j) - 1] != c
    ensures Text.CharCount(SubEndsFrom(s, i, m), c) <= Text.CharCount(s[i..], c)
    decreases |s| - i
  {
    if i < |s| {
      var k := m(s, i);
      if k > 0 {
        SubEndsFromCount(s, i + k, m, c);
        SubEndsFromStep(s, i, m, c);
      } else {
        SubEndsFromCount(s, i + 1, m, c);
        SubEndsFromKeep(s, i, m, c);
      }
    }
  }

  /** Where the pattern matches nowhere, the text is unchanged. */
  lemma {:induction false} SubEndsFromNoMatch(s: string, i: nat, m: (string, nat) -> nat)
    requires i <= |s| && MatchesWithin(s, i, m)
    requires forall j :: i <= j < |s| ==> m(s, j) == 0
    ensures SubEndsFrom(s, i, m) == s[i..]
    decreases |s| - i
  {
    if i < |s| {
      SubEndsFromNoMatch(s, i + 1, m);
      assert s[i..] == [s[i]] + s[i + 1..];
    }
  }

  /** Every character of the result is either from the replacement or a character of the
      scanned text at which the pattern does not match; so a property that all those
      characters have, the result's characters have. */
  lemma {:induction false} SubFromKeeps(s: string, i: nat, m: (string, nat) -> nat, rep: string, p: char -> bool)
    requires i <= |s| && MatchesWithin(s, i, m)
    requires forall j :: i <= j < |s| && m(s, j) == 0 ==> p(s[j])
    requires forall k :: 0 <= k < |rep| ==> p(rep[k])
    ensures forall k :: 0 <= k < |SubFrom(s, i, m, rep)| ==> p(SubFrom(s, i, m, rep)[k])
    decreases |s| - i
  {
    if i < |s| {
      var n := m(s, i);
      if n > 0 {
        SubFromKeeps(s, i + n, m, rep, p);
      } else {
        SubFromKeeps(s, i + 1, m, rep, p);
      }
    }
  }

  /** A run replaced by c, in front of a result that does not start with an `sp` character,
      leaves no two adjacent `sp` characters. */
  lemma CollapseMatched(s: string, i: nat, m: (string, nat) -> nat, sp: char -> bool, c: char)
    requires i < |s| && MatchesWithin(s, i, m) && m(s, i) > 0
    requires var rest := SubFrom(s, i + m(s, i), m, [c]);
      Text.NoAdjacent(rest, sp) && (rest != [] ==> !sp(rest[0]))
    ensures Text.NoAdjacent(SubFrom(s, i, m, [c]), sp)
    ensures SubFrom(s, i, m, [c])[0] == c
  {
    var rest := SubFrom(s, i + m(s, i), m, [c]);
    assert SubFrom(s, i, m, [c]) == [c] + rest;
    Text.NoAdjacentCons(c, rest, sp);
  }

  /** A character that is not an `sp` character, in front of a result with no two adjacent
      `sp` characters, keeps it so. */
  lemma CollapseKept(s: string, i: nat, m: (string, nat) -> nat, sp: char -> bool, c: char)
    requires i < |s| && MatchesWithin(s, i, m) && m(s, i) == 0 && !sp(s[i])
    requires Text.NoAdjacent(SubFrom(s, i + 1, m, [c]), sp)
    ensures Text.NoAdjacent(SubFrom(s, i, m, [c]), sp)
    ensures SubFrom(s, i, m, [c])[0] == s[i]
  {
    var rest := SubFrom(s, i + 1, m, [c]);
    assert SubFrom(s, i, m, [c]) == [s[i]] + rest;
    Text.NoAdjacentCons(s[i], rest, sp);
  }

  /** Replacing every maximal run of `sp` characters by the one `sp` character c leaves no
      two adjacent `sp` characters; the result starts with one only where the text does. */
  lemma {:induction false} SubFromCollapses(s: string, i: nat, m: (string, nat) -> nat, sp: char -> bool, c: char)
    requires i <= |s| && MatchesWithin(s, i, m)
    requires sp(c)
    requires forall j :: i <= j < |s| ==> (m(s, j) > 0 <==> sp(s[j]))
    requires forall j :: i <= j < |s| && m(s, j) > 0 ==> j + m(s, j) == |s| || !sp(s[j + m(s, j)])
    ensures Text.NoAdjacent(SubFrom(s, i, m, [c]), sp)
    ensures SubFrom(s, i, m, [c]) != [] ==> i < |s| && (sp(SubFrom(s, i, m, [c])[0]) ==> sp(s[i]))
    decreases |s| - i
  {
    if i < |s| {
      var n := m(s, i);
      if n > 0 {
        SubFromCollapses(s, i + n, m, sp, c);
        CollapseMatched(s, i, m, sp, c);
      } else {
        SubFromCollapses(s, i + 1, m, sp, c);
        CollapseKept(s, i, m, sp, c);
      }
    }
  }

  /** A substitution keeps "no two adjacent characters satisfy p" when the replacement has no
      such character and, if it is empty, no match is followed by one. */
  lemma {:induction false} SubFromNoAdjacent(s: string, i: nat, m: (string, nat) -> nat, rep: string, p: char -> bool)
    requires i <= |s| && MatchesWithin(s, i, m)
    requires Text.NoAdjacent(s, p)
    requires forall k :: 0 <= k < |rep| ==> !p(rep[k])
    requires rep == [] ==> forall j :: i <= j < |s| && m(s, j) > 0 ==> j + m(s, j) == |s| || !p(s[j + m(s, j)])
    ensures Text.NoAdjacent(SubFrom(s, i, m, rep), p)
    ensures SubFrom(s, i, m, rep) != [] && p(SubFrom(s, i, m, rep)[0]) ==> i < |s| && m(s, i) == 0 && p(s[i])
    decreases |s| - i
  {
    if i < |s| {
      var n := m(s, i);
      if n > 0 {
        SubFromNoAdjacent(s, i + n, m, rep, p);
        assert SubFrom(s, i, m, rep) == rep + SubFrom(s, i + n, m, rep);
      } else {
        SubFromNoAdjacent(s, i + 1, m, rep, p);
        assert SubFrom(s, i, m, rep) == [s[i]] + SubFrom(s, i + 1, m, rep);
      }
    }
  }

  /** The position just after the last '\n' of s[j..e], or j when there is none. */
  function LastNewlineEnd(s: string, j: nat, e: nat): (r: nat)
    requires j <= e <= |s|
    ensures j <= r <= e
    ensures r > j ==> s[r - 1] == '\n'
    ensures forall k :: r <= k < e ==> s[k] != '\n'
    decreases e - j
  {
    if e == j then j else if s[e - 1] == '\n' then e else LastNewlineEnd(s, j, e - 1)
  }

  /** A whitespace run from a newline that holds a second newline ends its last newline at
      least two characters on. */
  lemma TwoNewlines(s: string, j: nat, e: nat)
    requires j < e <= |s| && s[j] == '\n'
    ensures multiset(s[j..e])['\n'] >= 2 ==> LastNewlineEnd(s, j, e) >= j + 2
  {
    if multiset(s[j..e])['\n'] >= 2 {
      assert s[j..e] == [s[j]] + s[j + 1..e];
      assert '\n' in multiset(s[j + 1..e]);
      var q :| j + 1 <= q < e && s[q] == '\n';
    }
  }

  /** The length of the match at j of `\n\s*\n` (k = 2) or of `\n\s*\n\s*\n+` (k = 3), with
      `sp` the class of \s: from a newline through the last newline of the whitespace run
      that starts there, when that run holds at least k newlines; 0 otherwise. */
  function NewlineRunMatch(s: string, j: nat, k: nat, sp: char -> bool): (n: nat)
    requires sp('\n')
    ensures n == 0 || j + n <= |s|
    ensures n > 0 ==> j < |s| && s[j] == '\n'
    ensures n > 0 && k >= 2 ==> n >= 2
  {
    if j < |s| && s[j] == '\n' then
      var e := j + Text.Run(s, j, sp);
      if multiset(s[j..e])['\n'] >= k then
        TwoNewlines(s, j, e);
        LastNewlineEnd(s, j, e) - j
      else 0
    else 0
  }

  /** The text span [start, end) of one match. */
  datatype Span = Span(start: nat, end: nat)

  /** Non-empty matches, left to right, not overlapping, inside [from, n]. */
  predicate Ordered(spans: seq<Span>, n: nat, from: nat) {
    && (forall k :: 0 <= k < |spans| ==> spans[k].start < spans[k].end <= n)
    && (forall k :: 0 < k < |spans| ==> spans[k - 1].end <= spans[k].start)
    && (spans != [] ==> from <= spans[0].start)
  }

  /** A list of matches inside [from, n] that is not empty starts before n. */
  lemma OrderedInside(spans: seq<Span>, n: nat, from: nat)
    requires Ordered(spans, n, from)
    ensures spans != [] ==> from <= spans[0].start < n
    ensures n == 0 ==> spans == []
  {
  }

  /** A regular expression as written in the source: its text and whether it ignores case. */
  datatype Pattern = Pattern(source: string, ignoreCase: bool)

  /** A regex engine's search for the first match (JavaScript's exec without the g flag,
      Python's re.search) reports a span inside the text. */
  ghost predicate IsFirstMatcher(exec: (Pattern, string) -> Option<Span>) {
    forall p, t :: exec(p, t).Some? ==> exec(p, t).value.start <= exec(p, t).value.end <= |t|
  }

  /** A regex engine's scan for all matches (re.finditer, the matches re.split cuts at)
      reports them left to right, non-empty and not overlapping. */
  ghost predicate IsFinder(find: (Pattern, string) -> seq<Span>) {
    forall p, t :: Ordered(find(p, t), |t|, 0)
  }

  /** Python's re.split(p, s) for a pattern that is one capturing group, given the spans of
      its matches after position `from`: the text before the first match, then each match
      followed by the text up to the next match (or the end). */
  function SplitAround(s: string, spans: seq<Span>, from: nat): seq<string>
    requires from <= |s| && Ordered(spans, |s|, from)
    decreases |spans|
  {
    if spans == [] then [s[from..]]
    else [s[from..spans[0].start], s[spans[0].start..spans[0].end]] + SplitAround(s, spans[1..], spans[0].end)
  }

  /** The text that follows match j, up to the next match or the end of s. */
  function Following(s: string, spans: seq<Span>, j: nat): string
    requires Ordered(spans, |s|, 0) && j < |spans|
  {
    if j + 1 < |spans| then s[spans[j].end..spans[j + 1].start] else s[spans[j].end..]
  }

  lemma {:induction false} SplitAroundLength(s: string, spans: seq<Span>, from: nat)
    requires from <= |s| && Ordered(spans, |s|, from)
    ensures |SplitAround(s, spans, from)| == 2 * |spans| + 1
    decreases |spans|
  {
    if spans != [] {
      SplitAroundLength(s, spans[1..], spans[0].end);
    }
  }

  /** The matches after the first are ordered from the end of the first, and the text
      following match j is the text following match j - 1 of them. */
  lemma FollowingTail(s: string, spans: seq<Span>, j: nat)
    requires Ordered(spans, |s|, 0) && 0 < j < |spans|
    ensures Ordered(spans[1..], |s|, 0)
    ensures Following(s, spans, j) == Following(s, spans[1..], j - 1)
  {
    var rest := spans[1..];
    assert spans[j] == rest[j - 1];
    if j + 1 < |spans| {
      assert spans[j + 1] == rest[j];
    }
  }

  /** Piece 2j+1 of the split is match j and piece 2j+2 the text that follows it. */
  lemma {:induction false} SplitAroundAt(s: string, spans: seq<Span>, from: nat, j: nat)
    requires from <= |s| && Ordered(spans, |s|, from) && j < |spans|
    ensures |SplitAround(s, spans, from)| == 2 * |spans| + 1
    ensures SplitAround(s, spans, from)[2 * j + 1] == s[spans[j].start..spans[j].end]
    ensures SplitAround(s, spans, from)[2 * j + 2] == Following(s, spans, j)
    decreases j
  {
    SplitAroundLength(s, spans, from);
    var rest := spans[1..];
    var e := spans[0].end;
    assert Ordered(rest, |s|, e);
    var tail := SplitAround(s, rest, e);
    var whole := SplitAround(s, spans, from);
    assert whole == [s[from..spans[0].start], s[spans[0].start..e]] + tail;
    if j == 0 {
      assert whole[1] == s[spans[0].start..e] && whole[2] == tail[0];
      assert tail[0] == (if rest == [] then s[e..] else s[e..rest[0].start]);
    } else {
      SplitAroundAt(s, rest, e, j - 1);
      assert whole[2 * j + 1] == tail[2 * (j - 1) + 1] && whole[2 * j + 2] == tail[2 * (j - 1) + 2];
      assert spans[j] == rest[j - 1];
      FollowingTail(s, spans, j);
    }
  }

  /** re.split around k matches gives 2k+1 pieces; piece 2j+1 is match j and piece 2j+2 is
      the text that follows it. */
  lemma SplitAroundShape(s: string, spans: seq<Span>)
    requires Ordered(spans, |s|, 0)
    ensures |SplitAround(s, spans, 0)| == 2 * |spans| + 1
    ensures forall j :: 0 <= j < |spans| ==>
      SplitAround(s, spans, 0)[2 * j + 1] == s[spans[j].start..spans[j].end] &&
      SplitAround(s, spans, 0)[2 * j + 2] == Following(s, spans, j)
  {
    SplitAroundLength(s, spans, 0);
    forall j | 0 <= j < |spans|
      ensures SplitAround(s, spans, 0)[2 * j + 1] == s[spans[j].start..spans[j].end]
      ensures SplitAround(s, spans, 0)[2 * j + 2] == Following(s, spans, j)
    {
      SplitAroundAt(s, spans, 0, j);
    }
  }
}
