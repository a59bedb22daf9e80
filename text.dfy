/** String primitives shared by the Python and TypeScript sources: the whitespace classes
    of both languages, strip/trim, str.split/str.join, the `in` substring test, word
    splitting, decimal formatting and Python's slice-to. */
module Text {

  /** The characters for which Python's str.isspace() holds. re's \s on str, str.strip()
      and str.split() without arguments use this same set. */
  predicate IsPySpace(c: char) {
    || c == '\t' || c == '\n' || c == '\U{000B}' || c == '\U{000C}' || c == '\r'
    || ('\U{001C}' <= c <= '\U{001F}') || c == ' ' || c == '\U{0085}' || c == '\U{00A0}'
    || c == '\U{1680}' || ('\U{2000}' <= c <= '\U{200A}') || c == '\U{2028}' || c == '\U{2029}'
    || c == '\U{202F}' || c == '\U{205F}' || c == '\U{3000}'
  }

  /** JavaScript's line terminators: where `.` stops and where `^`/`$` match under the m flag. */
  predicate IsJsLineTerminator(c: char) {
    c == '\n' || c == '\r' || c == '\U{2028}' || c == '\U{2029}'
  }

  /** JavaScript's WhiteSpace and LineTerminator code points: the set of \s and of trim(). */
  predicate IsJsSpace(c: char) {
    || c == '\t' || c == '\U{000B}' || c == '\U{000C}' || c == ' ' || c == '\U{00A0}'
    || c == '\U{1680}' || ('\U{2000}' <= c <= '\U{200A}') || c == '\U{202F}' || c == '\U{205F}'
    || c == '\U{3000}' || c == '\U{FEFF}' || IsJsLineTerminator(c)
  }

  predicate IsDigit(c: char) {
    '0' <= c <= '9'
  }

  /** Removes the leading characters that satisfy `sp`. */
  function LStrip(s: string, sp: char -> bool): (r: string)
    ensures |r| <= |s| && r == s[|s| - |r|..]
    ensures r == [] || !sp(r[0])
    decreases |s|
  {
    if s != [] && sp(s[0]) then
      var r := LStrip(s[1..], sp);
      assert s[1..][|s| - 1 - |r|..] == s[|s| - |r|..];
      r
    else s
  }

  /** Every character LStrip removes satisfies `sp`. */
  lemma {:induction false} LStripRemoved(s: string, sp: char -> bool)
    ensures forall i :: 0 <= i < |s| - |LStrip(s, sp)| ==> sp(s[i])
    decreases |s|
  {
    if s != [] && sp(s[0]) {
      LStripRemoved(s[1..], sp);
      assert forall i :: 1 <= i < |s| ==> s[1..][i - 1] == s[i];
    }
  }

  /** Removes the trailing characters that satisfy `sp` (Python's str.rstrip()). */
  function RStrip(s: string, sp: char -> bool): (r: string)
    ensures |r| <= |s| && r == s[..|r|]
    ensures r == [] || !sp(r[|r| - 1])
    decreases |s|
  {
    if s != [] && sp(s[|s| - 1]) then RStrip(s[..|s| - 1], sp) else s
  }

  /** Every character RStrip removes satisfies `sp`. */
  lemma {:induction false} RStripRemoved(s: string, sp: char -> bool)
    ensures forall i :: |RStrip(s, sp)| <= i < |s| ==> sp(s[i])
    decreases |s|
  {
    if s != [] && sp(s[|s| - 1]) {
      RStripRemoved(s[..|s| - 1], sp);
    }
  }

  /** The number of leading characters of `s` that satisfy `sp`. */
  function LeadingCount(s: string, sp: char -> bool): (n: nat)
    ensures n <= |s| && LStrip(s, sp) == s[n..]
  {
    |s| - |LStrip(s, sp)|
  }

  /** Removes leading and trailing characters that satisfy `sp`; what is left is the
      contiguous piece of `s` after its leading such characters that neither starts nor
      ends with one. */
  function StripBy(s: string, sp: char -> bool): (r: string)
    ensures LeadingCount(s, sp) + |r| <= |s|
    ensures r == s[LeadingCount(s, sp)..LeadingCount(s, sp) + |r|]
    ensures r == [] || (!sp(r[0]) && !sp(r[|r| - 1]))
  {
    var n := LeadingCount(s, sp);
    var r := RStrip(s[n..], sp);
    assert r == s[n..][..|r|] == s[n..n + |r|];
    r
  }

  /** Stripping leaves nothing exactly when every character is stripped. */
  lemma StripByEmpty(s: string, sp: char -> bool)
    ensures StripBy(s, sp) == [] <==> forall i :: 0 <= i < |s| ==> sp(s[i])
  {
    var n := LeadingCount(s, sp);
    var t := s[n..];
    LStripRemoved(s, sp);
    RStripRemoved(t, sp);
    if StripBy(s, sp) == [] {
      forall i | 0 <= i < |s|
        ensures sp(s[i])
      {
        if i >= n {
          assert s[i] == t[i - n];
        }
      }
    }
    if forall i :: 0 <= i < |s| ==> sp(s[i]) {
      LStripAll(s, sp);
    }
  }

  /** Nothing is left of a text whose every character is stripped. */
  lemma {:induction false} LStripAll(s: string, sp: char -> bool)
    requires forall i :: 0 <= i < |s| ==> sp(s[i])
    ensures LStrip(s, sp) == []
    decreases |s|
  {
    if s != [] {
      assert forall i :: 0 <= i < |s| - 1 ==> s[1..][i] == s[i + 1];
      LStripAll(s[1..], sp);
    }
  }

  /** Neither starts nor ends with a Python whitespace character. */
  predicate Stripped(t: string) {
    t == [] || (!IsPySpace(t[0]) && !IsPySpace(t[|t| - 1]))
  }

  /** Every character satisfies `p`. */
  predicate All(t: string, p: char -> bool) {
    forall k :: 0 <= k < |t| ==> p(t[k])
  }

  /** No two adjacent characters both satisfy `p`. */
  predicate NoAdjacent(t: string, p: char -> bool) {
    forall k :: 0 < k < |t| ==> !p(t[k - 1]) || !p(t[k])
  }

  /** A character put in front keeps "no two adjacent" when it and the old first character
      are not both p. */
  lemma NoAdjacentCons(x: char, t: string, p: char -> bool)
    requires NoAdjacent(t, p)
    requires t != [] && p(x) ==> !p(t[0])
    ensures NoAdjacent([x] + t, p)
  {
    var u := [x] + t;
    forall k | 0 < k < |u|
      ensures !p(u[k - 1]) || !p(u[k])
    {
      if k > 1 { assert u[k - 1] == t[k - 2] && u[k] == t[k - 1]; }
    }
  }

  /** A contiguous piece of a text keeps both properties. */
  lemma SliceKeepsAll(t: string, a: nat, b: nat, p: char -> bool)
    requires a <= b <= |t| && All(t, p)
    ensures All(t[a..b], p)
  {
    assert forall k :: 0 <= k < b - a ==> t[a..b][k] == t[a + k];
  }

  lemma SliceKeepsNoAdjacent(t: string, a: nat, b: nat, p: char -> bool)
    requires a <= b <= |t| && NoAdjacent(t, p)
    ensures NoAdjacent(t[a..b], p)
  {
    assert forall k :: 0 <= k < b - a ==> t[a..b][k] == t[a + k];
  }

  /** Stripping keeps both properties. */
  lemma StripByKeeps(t: string, sp: char -> bool, p: char -> bool)
    ensures All(t, p) ==> All(StripBy(t, sp), p)
    ensures NoAdjacent(t, p) ==> NoAdjacent(StripBy(t, sp), p)
  {
    var r := StripBy(t, sp);
    var n := LeadingCount(t, sp);
    assert r == t[n..n + |r|];
    if All(t, p) {
      SliceKeepsAll(t, n, n + |r|, p);
    }
    if NoAdjacent(t, p) {
      SliceKeepsNoAdjacent(t, n, n + |r|, p);
    }
  }

  /** Python's str.strip() without arguments. */
  function Strip(s: string): (r: string)
    ensures |r| <= |s| && Stripped(r)
  {
    StripBy(s, IsPySpace)
  }

  /** JavaScript's String.prototype.trim(). */
  function Trim(s: string): string {
    StripBy(s, IsJsSpace)
  }

  /** Python's `sub in s` and JavaScript's s.includes(sub) on strings. */
  predicate Contains(s: string, sub: string)
    decreases |s|
  {
    sub <= s || (s != [] && Contains(s[1..], sub))
  }

  lemma {:induction false} ContainsAt(s: string, sub: string, i: nat)
    requires i + |sub| <= |s| && s[i..i + |sub|] == sub
    ensures Contains(s, sub)
    decreases i
  {
    if i > 0 {
      assert s[1..][i - 1..i - 1 + |sub|] == sub;
      ContainsAt(s[1..], sub, i - 1);
    }
  }

  lemma {:induction false} ContainsWitness(s: string, sub: string) returns (i: nat)
    requires Contains(s, sub)
    ensures i + |sub| <= |s| && s[i..i + |sub|] == sub
    decreases |s|
  {
    if sub <= s {
      i := 0;
    } else {
      var j := ContainsWitness(s[1..], sub);
      i := j + 1;
      assert s[i..i + |sub|] == s[1..][j..j + |sub|];
    }
  }

  /** A text contains each of its middle parts. */
  lemma ContainsInside(a: string, b: string, c: string)
    ensures Contains(a + b + c, b)
  {
    assert (a + b + c)[|a|..|a| + |b|] == b;
    ContainsAt(a + b + c, b, |a|);
  }

  /** Python's any(kw in s for kw in keywords). */
  predicate ContainsAny(s: string, keywords: seq<string>) {
    exists k :: 0 <= k < |keywords| && Contains(s, keywords[k])
  }

  /** The index of the first keyword group with a keyword in `s`, or |groups| when no group
      has one: the branch an if/elif chain of `any(...)` tests takes. */
  function FirstGroup(s: string, groups: seq<seq<string>>): (r: nat)
    ensures r <= |groups|
    ensures r < |groups| ==> ContainsAny(s, groups[r])
    ensures forall g :: 0 <= g < r ==> !ContainsAny(s, groups[g])
    decreases |groups|
  {
    if groups == [] then 0
    else if ContainsAny(s, groups[0]) then 0
    else
      var r := FirstGroup(s, groups[1..]);
      assert forall g :: 1 <= g < 1 + r ==> groups[g] == groups[1..][g - 1];
      1 + r
  }

  /** The length of the run of characters satisfying `p` that starts at position j. */
  function Run(s: string, j: nat, p: char -> bool): (n: nat)
    requires j <= |s|
    ensures j + n <= |s|
    ensures forall k :: j <= k < j + n ==> p(s[k])
    ensures j + n == |s| || !p(s[j + n])
    decreases |s| - j
  {
    if j < |s| && p(s[j]) then 1 + Run(s, j + 1, p) else 0
  }

  /** Python's s.split(sep) for a non-empty separator: the pieces between the leftmost
      non-overlapping occurrences of `sep`. */
  function SplitOn(s: string, sep: string): (r: seq<string>)
    requires sep != []
    ensures |r| >= 1
    decreases |s|
  {
    if |s| < |sep| then [s]
    else if sep <= s then [""] + SplitOn(s[|sep|..], sep)
    else
      var t := SplitOn(s[1..], sep);
      [[s[0]] + t[0]] + t[1..]
  }

  /** Python's sep.join(parts). */
  function Join(parts: seq<string>, sep: string): string
    decreases |parts|
  {
    if parts == [] then ""
    else if |parts| == 1 then parts[0]
    else parts[0] + sep + Join(parts[1..], sep)
  }

  lemma {:induction false} JoinCons(p: string, parts: seq<string>, sep: string)
    requires parts != []
    ensures Join([p] + parts, sep) == p + sep + Join(parts, sep)
  {
    assert ([p] + parts)[1..] == parts;
  }

  /** Prepending a character to the first piece prepends it to the joined text. */
  lemma JoinPrepend(c: char, t: seq<string>, sep: string)
    requires t != []
    ensures Join([[c] + t[0]] + t[1..], sep) == [c] + Join(t, sep)
  {
    var head := [c] + t[0];
    if |t| == 1 {
      assert [head] + t[1..] == [head];
    } else {
      JoinCons(head, t[1..], sep);
      JoinCons(t[0], t[1..], sep);
      assert [t[0]] + t[1..] == t;
    }
  }

  /** Joining the pieces of a split with the same separator gives back the text. */
  lemma {:induction false} JoinSplitOn(s: string, sep: string)
    requires sep != []
    ensures Join(SplitOn(s, sep), sep) == s
    decreases |s|
  {
    if |s| < |sep| {
    } else if sep <= s {
      var t := SplitOn(s[|sep|..], sep);
      assert SplitOn(s, sep) == [""] + t;
      JoinSplitOn(s[|sep|..], sep);
      JoinCons("", t, sep);
      assert s == sep + s[|sep|..];
    } else {
      var t := SplitOn(s[1..], sep);
      assert SplitOn(s, sep) == [[s[0]] + t[0]] + t[1..];
      JoinSplitOn(s[1..], sep);
      JoinPrepend(s[0], t, sep);
      assert s == [s[0]] + s[1..];
    }
  }

  /** No piece of a split on a single character contains that character. */
  lemma {:induction false} SplitOnCharPieces(s: string, c: char)
    ensures forall p :: p in SplitOn(s, [c]) ==> c !in p
    decreases |s|
  {
    if |s| >= 1 {
      SplitOnCharPieces(s[1..], c);
      if [c] <= s {
        assert SplitOn(s, [c]) == [""] + SplitOn(s[1..], [c]);
      } else {
        assert s[0] != c;
      }
    }
  }

  /** The number of occurrences of `c` in `s`. */
  function CharCount(s: string, c: char): (n: nat)
    ensures n <= |s|
    decreases |s|
  {
    if s == [] then 0
    else (if s[0] == c then 1 else 0) + CharCount(s[1..], c)
  }

  lemma {:induction false} CharCountAppend(a: string, b: string, c: char)
    ensures CharCount(a + b, c) == CharCount(a, c) + CharCount(b, c)
    decreases |a|
  {
    if a != [] {
      assert (a + b)[0] == a[0] && (a + b)[1..] == a[1..] + b;
      CharCountAppend(a[1..], b, c);
    } else {
      assert a + b == b;
    }
  }

  lemma {:induction false} CharCountAbsent(s: string, c: char)
    requires c !in s
    ensures CharCount(s, c) == 0
    decreases |s|
  {
    if s != [] {
      assert s[0] != c;
      assert forall x :: x in s[1..] ==> x in s;
      CharCountAbsent(s[1..], c);
    }
  }

  lemma CharCountSplit(s: string, i: nat, j: nat, c: char)
    requires i <= j <= |s|
    ensures CharCount(s[i..], c) == CharCount(s[i..j], c) + CharCount(s[j..], c)
  {
    assert s[i..] == s[i..j] + s[j..];
    CharCountAppend(s[i..j], s[j..], c);
  }

  /** A split on one character has one piece more than the text has of that character. */
  lemma {:induction false} SplitOnCharCount(s: string, c: char)
    ensures |SplitOn(s, [c])| == CharCount(s, c) + 1
    decreases |s|
  {
    if |s| >= 1 {
      SplitOnCharCount(s[1..], c);
      if [c] <= s {
        assert s[0] == c;
        assert SplitOn(s, [c]) == [""] + SplitOn(s[1..], [c]);
      } else {
        assert s[0] != c;
      }
    }
  }

  /** Joining pieces free of `c` with `c` puts exactly one `c` between each two of them. */
  lemma {:induction false} JoinCharCount(parts: seq<string>, c: char)
    requires parts != []
    requires forall p :: p in parts ==> c !in p
    ensures CharCount(Join(parts, [c]), c) == |parts| - 1
    decreases |parts|
  {
    assert parts[0] in parts;
    CharCountAbsent(parts[0], c);
    if |parts| > 1 {
      JoinCharCount(parts[1..], c);
      CharCountAppend(parts[0] + [c], Join(parts[1..], [c]), c);
      CharCountAppend(parts[0], [c], c);
    }
  }

  /** The length of the run of characters at the start of `s` that are not spaces. */
  function WordLength(s: string): (n: nat)
    ensures n <= |s|
    ensures forall i :: 0 <= i < n ==> !IsPySpace(s[i])
    ensures n == |s| || IsPySpace(s[n])
    decreases |s|
  {
    if s != [] && !IsPySpace(s[0]) then 1 + WordLength(s[1..]) else 0
  }

  /** Python's s.split() without arguments: the maximal runs of non-space characters. */
  function Words(s: string): seq<string>
    decreases |s|
  {
    var t := LStrip(s, IsPySpace);
    if t == [] then []
    else
      var n := WordLength(t);
      [t[..n]] + Words(t[n..])
  }

  /** The value of a digit character. */
  function DigitValue(c: char): (d: nat)
    requires IsDigit(c)
    ensures d < 10
  {
    c as int - '0' as int
  }

  /** The digit character of a value below ten. */
  function DigitChar(d: nat): (c: char)
    requires d < 10
    ensures IsDigit(c) && DigitValue(c) == d
  {
    ['0', '1', '2', '3', '4', '5', '6', '7', '8', '9'][d]
  }

  predicate AllDigits(s: string) {
    forall i :: 0 <= i < |s| ==> IsDigit(s[i])
  }

  /** The number a run of decimal digits denotes, most significant digit first. */
  function DecimalValue(s: string): nat
    requires AllDigits(s)
    decreases |s|
  {
    if s == [] then 0 else DecimalValue(s[..|s| - 1]) * 10 + DigitValue(s[|s| - 1])
  }

  /** The number a decimal numeral with an optional leading minus sign denotes. */
  function SignedValue(s: string): int
    requires s != [] && AllDigits(if s[0] == '-' then s[1..] else s)
  {
    if s[0] == '-' then -(DecimalValue(s[1..]) as int) else DecimalValue(s)
  }

  /**
   * The decimal numeral of a non-negative integer, as Python's str(n) and
   * JavaScript's template literals write it: digits only, no leading zero.
   */
  function NatToString(n: nat): (r: string)
    ensures |r| >= 1 && AllDigits(r)
    ensures r[0] == '0' <==> n == 0
    decreases n
  {
    if n < 10 then [DigitChar(n)] else NatToString(n / 10) + [DigitChar(n % 10)]
  }

  /** NatToString writes the numeral of n: reading its digits back gives n. */
  lemma {:induction false} NatToStringValue(n: nat)
    ensures DecimalValue(NatToString(n)) == n
    decreases n
  {
    var r := NatToString(n);
    if n < 10 {
      assert r[..|r| - 1] == [];
    } else {
      NatToStringValue(n / 10);
      assert r[..|r| - 1] == NatToString(n / 10);
    }
  }

  /** Two numbers have the same numeral only if they are equal. */
  lemma NatToStringInjective(m: nat, n: nat)
    requires NatToString(m) == NatToString(n)
    ensures m == n
  {
    NatToStringValue(m);
    NatToStringValue(n);
  }

  /**
   * The decimal numeral of any integer, as Python's str(n) and JavaScript's
   * template literals write it: a minus sign exactly for a negative number,
   * then the digits of its absolute value.
   */
  function IntToString(n: int): (r: string)
    ensures |r| >= 1
    ensures r[0] == '-' <==> n < 0
    ensures AllDigits(if r[0] == '-' then r[1..] else r)
    ensures SignedValue(r) == n
  {
    if n >= 0 then
      NatToStringValue(n);
      NatToString(n)
    else
      var d := NatToString(-n);
      NatToStringValue(-n);
      assert ("-" + d)[1..] == d;
      "-" + d
  }

  /** Python's s[:n] for any integer n (a negative n counts from the end). */
  function SliceTo<T>(s: seq<T>, n: int): (r: seq<T>)
    ensures 0 <= n ==> |r| == (if n < |s| then n else |s|)
    ensures n < 0 ==> |r| == (if |s| + n < 0 then 0 else |s| + n)
    ensures r <= s
  {
    if 0 <= n then (if n < |s| then s[..n] else s)
    else if |s| + n < 0 then []
    else s[..|s| + n]
  }
}
