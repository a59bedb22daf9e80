/** The rule engine's score: every detected risk deducts points from 100 according to its
    severity, the result is clamped to 0..100 and mapped to a letter grade. */
module Scoring {
  import opened AnalysisTypes

  /** The points one risk of severity `s` deducts. */
  function Penalty(s: Severity): (p: nat)
    ensures 2 <= p <= 20
  {
    match s
    case Critical => 20
    case High => 10
    case Medium => 5
    case Low => 2
  }

  /** The points all of `risks` deduct together. */
  function TotalPenalty(risks: seq<DetectedRisk>): (p: nat)
    ensures 2 * |risks| <= p <= 20 * |risks|
  {
    if risks == [] then 0
    else TotalPenalty(risks[..|risks| - 1]) + Penalty(risks[|risks| - 1].severity)
  }

  /** The letter for a total: 90 and up A, 80 B, 60 C, 40 D, anything below F. */
  function GradeOf(total: int): Grade {
    if total >= 90 then A
    else if total >= 80 then B
    else if total >= 60 then C
    else if total >= 40 then D
    else F
  }

  /** The order of the grades, F lowest. */
  function GradeRank(g: Grade): nat {
    match g
    case F => 0
    case D => 1
    case C => 2
    case B => 3
    case A => 4
  }

  /** The score of a list of risks. */
  function ScoreOf(risks: seq<DetectedRisk>): (s: AnalysisScore)
    ensures 0 <= s.total <= 100
    ensures s.total == 100 - TotalPenalty(risks) || (s.total == 0 && TotalPenalty(risks) > 100)
    ensures s.details == ScoreDetails(0, 0, 0)
    ensures risks == [] ==> s.total == 100 && s.grade == A
    ensures |risks| >= 50 ==> s.total == 0 && s.grade == F
  {
    var raw := 100 - TotalPenalty(risks);
    var total := if raw < 0 then 0 else raw;
    AnalysisScore(total, ScoreDetails(0, 0, 0), GradeOf(total))
  }

  /** calculateScore: deducts each risk's penalty in turn, clamps, then picks the grade. */
  method CalculateScore(risks: seq<DetectedRisk>) returns (score: AnalysisScore)
    ensures score == ScoreOf(risks)
  {
    var rawScore := 100;
    for i := 0 to |risks|
      invariant rawScore == 100 - TotalPenalty(risks[..i])
    {
      assert risks[..i + 1][..i] == risks[..i];
      match risks[i].severity {
        case Critical => rawScore := rawScore - 20;
        case High => rawScore := rawScore - 10;
        case Medium => rawScore := rawScore - 5;
        case Low => rawScore := rawScore - 2;
      }
    }
    assert risks[..|risks|] == risks;
    var capped := if rawScore < 100 then rawScore else 100;
    var finalScore := if capped > 0 then capped else 0;
    var grade := F;
    if finalScore >= 90 {
      grade := A;
    } else if finalScore >= 80 {
      grade := B;
    } else if finalScore >= 60 {
      grade := C;
    } else if finalScore >= 40 {
      grade := D;
    }
    score := AnalysisScore(finalScore, ScoreDetails(0, 0, 0), grade);
  }

  lemma {:induction false} TotalPenaltyAppend(a: seq<DetectedRisk>, b: seq<DetectedRisk>)
    ensures TotalPenalty(a + b) == TotalPenalty(a) + TotalPenalty(b)
    decreases |b|
  {
    if b != [] {
      var b' := b[..|b| - 1];
      assert (a + b)[..|a + b| - 1] == a + b';
      assert (a + b)[|a + b| - 1] == b[|b| - 1];
      TotalPenaltyAppend(a, b');
    } else {
      assert a + b == a;
    }
  }

  /** A single risk scores 80, 90, 95 or 98 for critical, high, medium or low. */
  lemma ScoreOfSingle(r: DetectedRisk)
    ensures ScoreOf([r]).total == (match r.severity case Critical => 80 case High => 90 case Medium => 95 case Low => 98)
  {
    assert [r][..0] == [];
  }

  /** Adding one more risk deducts its penalty from the total, stopping at 0: the total never
      goes up. */
  lemma ScoreOfAppend(risks: seq<DetectedRisk>, r: DetectedRisk)
    ensures ScoreOf(risks + [r]).total == (if ScoreOf(risks).total >= Penalty(r.severity) then ScoreOf(risks).total - Penalty(r.severity) else 0)
    ensures ScoreOf(risks + [r]).total <= ScoreOf(risks).total
  {
    assert (risks + [r])[..|risks|] == risks;
  }

  /** More risks never give a higher total or a better grade. */
  lemma ScoreOfExtend(a: seq<DetectedRisk>, b: seq<DetectedRisk>)
    ensures ScoreOf(a + b).total <= ScoreOf(a).total
    ensures GradeRank(ScoreOf(a + b).grade) <= GradeRank(ScoreOf(a).grade)
  {
    TotalPenaltyAppend(a, b);
    GradeMonotone(ScoreOf(a + b).total, ScoreOf(a).total);
  }

  /** The grade never gets worse as the total rises. */
  lemma GradeMonotone(t1: int, t2: int)
    requires t1 <= t2
    ensures GradeRank(GradeOf(t1)) <= GradeRank(GradeOf(t2))
  {
  }

  lemma {:induction false} TotalPenaltyPermutation(a: seq<DetectedRisk>, b: seq<DetectedRisk>)
    requires multiset(a) == multiset(b)
    ensures TotalPenalty(a) == TotalPenalty(b)
    decreases |a|
  {
    if a != [] {
      var x := a[|a| - 1];
      var a' := a[..|a| - 1];
      assert a == a' + [x];
      assert x in multiset(a);
      assert x in b;
      var k :| 0 <= k < |b| && b[k] == x;
      var b' := b[..k] + b[k + 1..];
      assert b == b[..k] + [x] + b[k + 1..];
      assert multiset(b) == multiset(b[..k]) + multiset{x} + multiset(b[k + 1..]);
      assert multiset(a) == multiset(a') + multiset{x};
      assert multiset(b') == multiset(b[..k]) + multiset(b[k + 1..]);
      assert multiset(a') == multiset(a) - multiset{x};
      assert multiset(b') == multiset(b) - multiset{x};
      TotalPenaltyPermutation(a', b');
      TotalPenaltyAppend(b[..k] + [x], b[k + 1..]);
      TotalPenaltyAppend(b[..k], [x]);
      TotalPenaltyAppend(b[..k], b[k + 1..]);
    }
  }

  /** The score does not depend on the order of the risks. */
  lemma ScoreOfPermutation(a: seq<DetectedRisk>, b: seq<DetectedRisk>)
    requires multiset(a) == multiset(b)
    ensures ScoreOf(a) == ScoreOf(b)
  {
    TotalPenaltyPermutation(a, b);
  }
}
