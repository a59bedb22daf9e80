/** The template context of the PDF report: the analysis data with its missing parts
    defaulted, the risks counted by severity, the first recommendations and the totals. */
module ReportContext {
  import opened Wrappers

  /** A JSON object whose values are strings. */
  type Dict = map<string, string>

  /** The analysis data as the pipeline returns it; a missing key is None. */
  datatype AnalysisData = AnalysisData(
    score: Option<Dict>,
    risks: Option<seq<Dict>>,
    clauses: Option<seq<Dict>>,
    entities: Option<Dict>,
    contractType: Option<string>,
    metadata: Option<Dict>)

  datatype RiskCounts = RiskCounts(high: nat, medium: nat, low: nat)

  datatype Context = Context(
    reportDate: string,
    contractType: string,
    score: Dict,
    totalClauses: nat,
    riskCounts: RiskCounts,
    totalRisks: nat,
    topRecommendations: seq<string>,
    risks: seq<Dict>,
    clauses: seq<Dict>,
    entities: Dict,
    metadata: Dict)

  /** dict.get(key, default) for an optional value. */
  function OrElse<T>(o: Option<T>, default: T): T {
    if o.Some? then o.value else default
  }

  /** r.get(key): None when the key is missing. */
  function Get(d: Dict, key: string): Option<string> {
    if key in d then Some(d[key]) else None
  }

  /** len([r for r in risks if r.get('severity') == level]). */
  function CountSeverity(risks: seq<Dict>, level: string): (n: nat)
    ensures n <= |risks|
  {
    if risks == [] then 0
    else CountSeverity(risks[..|risks| - 1], level) + (if Get(risks[|risks| - 1], "severity") == Some(level) then 1 else 0)
  }

  /** r.get('recommendation', ''). */
  function RecommendationOf(r: Dict): string {
    OrElse(Get(r, "recommendation"), "")
  }

  predicate Urgent(r: Dict) {
    Get(r, "severity") in [Some("high"), Some("medium")]
  }

  /** [r.get('recommendation', '') for r in risks if r.get('severity') in ['high', 'medium']]. */
  function UrgentRecommendations(risks: seq<Dict>): seq<string> {
    if risks == [] then []
    else
      var r := risks[|risks| - 1];
      UrgentRecommendations(risks[..|risks| - 1]) + (if Urgent(r) then [RecommendationOf(r)] else [])
  }

  /** _prepare_context, with the formatted current date as a parameter. */
  function PrepareContext(data: AnalysisData, today: string): Context {
    var risks := OrElse(data.risks, []);
    var clauses := OrElse(data.clauses, []);
    Context(
      today,
      OrElse(data.contractType, "Inconnu"),
      OrElse(data.score, map[]),
      |clauses|,
      RiskCounts(CountSeverity(risks, "high"), CountSeverity(risks, "medium"), CountSeverity(risks, "low")),
      |risks|,
      UrgentRecommendations(if |risks| <= 3 then risks else risks[..3]),
      risks,
      clauses,
      OrElse(data.entities, map[]),
      OrElse(data.metadata, map[]))
  }

  // ---------------------------------------------------------------- risk counts

  /** The number of risks whose severity is none of the three levels. */
  function Unranked(risks: seq<Dict>): nat {
    if risks == [] then 0
    else
      var s := Get(risks[|risks| - 1], "severity");
      Unranked(risks[..|risks| - 1]) + (if s !in [Some("high"), Some("medium"), Some("low")] then 1 else 0)
  }

  /** Every risk is counted at most once: the three counts and the risks of any other
      severity make up the whole list, so the counts never exceed the total. */
  lemma {:induction false} RiskCountsPartition(risks: seq<Dict>)
    ensures CountSeverity(risks, "high") + CountSeverity(risks, "medium") + CountSeverity(risks, "low") + Unranked(risks) == |risks|
  {
    if risks != [] {
      RiskCountsPartition(risks[..|risks| - 1]);
    }
  }

  /** A count is positive exactly when some risk has that severity, and it is the whole
      list exactly when every risk has it. */
  lemma {:induction false} CountSeveritySpec(risks: seq<Dict>, level: string)
    ensures CountSeverity(risks, level) > 0 <==> exists k :: 0 <= k < |risks| && Get(risks[k], "severity") == Some(level)
    ensures CountSeverity(risks, level) == |risks| <==> forall k :: 0 <= k < |risks| ==> Get(risks[k], "severity") == Some(level)
  {
    if risks != [] {
      var init := risks[..|risks| - 1];
      CountSeveritySpec(init, level);
      assert forall k :: 0 <= k < |init| ==> init[k] == risks[k];
    }
  }

  // ---------------------------------------------------------------- recommendations

  /** At most one recommendation per risk, and none when no risk is urgent. */
  lemma {:induction false} UrgentRecommendationsBound(risks: seq<Dict>)
    ensures |UrgentRecommendations(risks)| <= |risks|
    ensures (forall k :: 0 <= k < |risks| ==> !Urgent(risks[k])) ==> UrgentRecommendations(risks) == []
  {
    if risks != [] {
      UrgentRecommendationsBound(risks[..|risks| - 1]);
    }
  }

  /** When every risk is urgent, the recommendations are theirs, in order. */
  lemma {:induction false} UrgentRecommendationsAll(risks: seq<Dict>)
    requires forall k :: 0 <= k < |risks| ==> Urgent(risks[k])
    ensures |UrgentRecommendations(risks)| == |risks|
    ensures forall k :: 0 <= k < |risks| ==>
      UrgentRecommendations(risks)[k] == RecommendationOf(risks[k])
  {
    if risks != [] {
      var init := risks[..|risks| - 1];
      UrgentRecommendationsAll(init);
      assert UrgentRecommendations(risks) == UrgentRecommendations(init) + [RecommendationOf(risks[|risks| - 1])];
    }
  }

  /** Every urgent risk contributes its recommendation, and every recommendation comes
      from an urgent risk. */
  lemma {:induction false} UrgentRecommendationsMembers(risks: seq<Dict>)
    ensures forall k :: 0 <= k < |risks| && Urgent(risks[k]) ==>
      RecommendationOf(risks[k]) in UrgentRecommendations(risks)
    ensures forall m :: m in UrgentRecommendations(risks) ==>
      exists k :: 0 <= k < |risks| && Urgent(risks[k]) && m == RecommendationOf(risks[k])
  {
    if risks != [] {
      var init := risks[..|risks| - 1];
      UrgentRecommendationsMembers(init);
      assert forall k :: 0 <= k < |init| ==> init[k] == risks[k];
    }
  }

  /** The recommendations of a concatenation are those of each part, in order. */
  lemma {:induction false} UrgentRecommendationsAppend(a: seq<Dict>, b: seq<Dict>)
    ensures UrgentRecommendations(a + b) == UrgentRecommendations(a) + UrgentRecommendations(b)
    decreases |b|
  {
    if b != [] {
      var init := b[..|b| - 1];
      assert (a + b)[..|a + b| - 1] == a + init;
      assert (a + b)[|a + b| - 1] == b[|b| - 1];
      UrgentRecommendationsAppend(a, init);
    } else {
      assert a + b == a;
    }
  }

  /** One risk contributes its recommendation when it is urgent, nothing otherwise. */
  lemma UrgentRecommendationsSingle(r: Dict)
    ensures UrgentRecommendations([r]) == (if Urgent(r) then [RecommendationOf(r)] else [])
  {
    assert [r][..0] == [];
  }

  /** The positions below n of the urgent risks, in increasing order. */
  function UrgentIndices(risks: seq<Dict>, n: nat): (idx: seq<nat>)
    requires n <= |risks|
    ensures forall i :: 0 <= i < |idx| ==> idx[i] < n
    ensures forall i, j :: 0 <= i < j < |idx| ==> idx[i] < idx[j]
    ensures forall k :: 0 <= k < n ==> (k in idx <==> Urgent(risks[k]))
  {
    if n == 0 then []
    else UrgentIndices(risks, n - 1) + (if Urgent(risks[n - 1]) then [n - 1] else [])
  }

  /** Recommendation i of the first n risks is that of the i-th urgent risk among them:
      the list comprehension keeps the urgent risks in order, each once. */
  lemma {:induction false} UrgentRecommendationsAt(risks: seq<Dict>, n: nat)
    requires n <= |risks|
    ensures |UrgentRecommendations(risks[..n])| == |UrgentIndices(risks, n)|
    ensures forall i :: 0 <= i < |UrgentIndices(risks, n)| ==>
      UrgentRecommendations(risks[..n])[i] == RecommendationOf(risks[UrgentIndices(risks, n)[i]])
  {
    if n > 0 {
      UrgentRecommendationsAt(risks, n - 1);
      assert risks[..n][..n - 1] == risks[..n - 1];
      assert risks[..n][n - 1] == risks[n - 1];
    }
  }

  /** Only the first three risks can contribute a recommendation, each urgent one among them
      does, and so there are at most three; recommendation i is that of the i-th urgent risk
      among the first three, so the order of the risks is kept. */
  lemma TopRecommendationsSpec(data: AnalysisData, today: string)
    ensures var c := PrepareContext(data, today);
      |c.topRecommendations| <= 3 &&
      forall k :: 0 <= k < |c.risks| && k < 3 && Urgent(c.risks[k]) ==>
        RecommendationOf(c.risks[k]) in c.topRecommendations
    ensures var c := PrepareContext(data, today);
      forall m :: m in c.topRecommendations ==>
        exists k :: 0 <= k < |c.risks| && k < 3 && Urgent(c.risks[k]) && m == RecommendationOf(c.risks[k])
    ensures var c := PrepareContext(data, today);
      var idx := UrgentIndices(c.risks, if |c.risks| <= 3 then |c.risks| else 3);
      |c.topRecommendations| == |idx| &&
      forall i :: 0 <= i < |idx| ==> c.topRecommendations[i] == RecommendationOf(c.risks[idx[i]])
  {
    var risks := OrElse(data.risks, []);
    var first := if |risks| <= 3 then risks else risks[..3];
    UrgentRecommendationsBound(first);
    UrgentRecommendationsMembers(first);
    assert forall k :: 0 <= k < |first| ==> first[k] == risks[k];
    var n := if |risks| <= 3 then |risks| else 3;
    assert first == risks[..n];
    UrgentRecommendationsAt(risks, n);
  }

  /** A low risk between a high and a medium one is skipped, and the other two keep their
      order. */
  lemma TopRecommendationsMixedExample(today: string)
    ensures var a := map["severity" := "high", "recommendation" := "A"];
      var b := map["severity" := "low", "recommendation" := "B"];
      var c := map["severity" := "medium", "recommendation" := "C"];
      PrepareContext(AnalysisData(None, Some([a, b, c]), None, None, None, None), today).topRecommendations == ["A", "C"]
  {
    var a := map["severity" := "high", "recommendation" := "A"];
    var b := map["severity" := "low", "recommendation" := "B"];
    var c := map["severity" := "medium", "recommendation" := "C"];
    UrgentRecommendationsSingle(a);
    UrgentRecommendationsSingle(b);
    UrgentRecommendationsSingle(c);
    UrgentRecommendationsAppend([a], [b]);
    UrgentRecommendationsAppend([a, b], [c]);
    assert [a] + [b] == [a, b] && [a, b] + [c] == [a, b, c];
  }

  // ---------------------------------------------------------------- the context

  /** Missing keys take their defaults, risks and clauses pass through, the totals are their
      lengths and the three counts together never exceed the number of risks. */
  lemma PrepareContextSpec(data: AnalysisData, today: string)
    ensures var c := PrepareContext(data, today);
      c.reportDate == today &&
      c.contractType == (if data.contractType.Some? then data.contractType.value else "Inconnu") &&
      (data.score.None? ==> c.score == map[]) &&
      (data.entities.None? ==> c.entities == map[]) &&
      (data.metadata.None? ==> c.metadata == map[]) &&
      (data.risks.None? ==> c.risks == [] && c.totalRisks == 0 && c.topRecommendations == []) &&
      (data.clauses.None? ==> c.clauses == [] && c.totalClauses == 0)
    ensures var c := PrepareContext(data, today);
      (data.risks.Some? ==> c.risks == data.risks.value) &&
      (data.clauses.Some? ==> c.clauses == data.clauses.value) &&
      c.totalClauses == |c.clauses| && c.totalRisks == |c.risks|
    ensures var c := PrepareContext(data, today);
      c.riskCounts.high + c.riskCounts.medium + c.riskCounts.low <= c.totalRisks
  {
    RiskCountsPartition(OrElse(data.risks, []));
  }
}
