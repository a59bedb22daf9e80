/** The deterministic housing-lease rules: a fixed catalogue of rules, each with one or more
    case-insensitive regular expressions, and the matcher that reports one risk for every
    pattern that matches the text, in catalogue order. The regex engine is the parameter
    `exec`, RegExp.prototype.exec: the patterns have no g flag, so exec keeps no state
    between calls and is a function of the pattern and the text. */
module HousingRules {
  import opened Wrappers
  import opened AnalysisTypes
  import opened Regex

  datatype RuleDefinition = RuleDefinition(
    id: string,
    patterns: seq<Pattern>,
    severity: Severity,
    title: string,
    description: string,
    recommendation: string)

  /** A deposit refunded after more than the legal delay. */
  const RefundDelay := RuleDefinition(
    "housing-refund-delay",
    [Pattern("restitution.*dépôt.*garantie.*(3|4|5|6).*mois", true),
     Pattern("remboursement.*caution.*(60|90).*jours", true)],
    High,
    "Délai de restitution du dépôt de garantie excessif",
    "Le contrat mentionne un délai de restitution du dépôt de garantie supérieur à la légalité (maximum 1 mois si l'état des lieux est conforme, 2 mois sinon).",
    "Exigez de ramener le délai à 1 mois conformément à la loi ALUR de 2014.")

  /** Application or reservation fees that may not be charged. */
  const IllegalFees := RuleDefinition(
    "housing-illegal-fees",
    [Pattern("frais.*dossier.*(rédaction|visite|état des lieux)", true),
     Pattern("chèque.*réservation", true)],
    Critical,
    "Frais potentiellement illégaux",
    "Certains frais de dossier ou de réservation exigés avant la signature ou hors agence sont strictement interdits.",
    "Ne payez aucun frais avant la signature du bail. Vérifiez le barème légal des honoraires d'agence.")

  /** A tacit renewal whose notice conditions should be checked. */
  const AutomaticRenewal := RuleDefinition(
    "housing-automatic-renewal",
    [Pattern("tacite.*reconduction.*(3|6|9|12).*ans", true)],
    Medium,
    "Durée de tacite reconduction à vérifier",
    "La tacite reconduction est standard, mais vérifiez les conditions de préavis pour le locataire (1 mois en zone tendue).",
    "Assurez-vous que le préavis de départ est bien mentionné (1 ou 3 mois).")

  /** HOUSING_RULES, in catalogue order. */
  const HousingRuleSet: seq<RuleDefinition> := [RefundDelay, IllegalFees, AutomaticRenewal]

  /** Which pattern of which rule a finding comes from. */
  datatype Origin = Origin(rule: nat, pattern: nat)

  predicate Before(a: Origin, b: Origin) {
    a.rule < b.rule || (a.rule == b.rule && a.pattern < b.pattern)
  }

  /** Pattern `o.pattern` of rule `o.rule` exists and matches the text. */
  predicate Matches(rules: seq<RuleDefinition>, exec: (Pattern, string) -> Option<Span>, text: string, o: Origin) {
    o.rule < |rules| && o.pattern < |rules[o.rule].patterns| && exec(rules[o.rule].patterns[o.pattern], text).Some?
  }

  /** The matching patterns among the first `m` patterns of rule `i`, in pattern order. */
  function PatternOrigins(rules: seq<RuleDefinition>, exec: (Pattern, string) -> Option<Span>, text: string, i: nat, m: nat): (r: seq<Origin>)
    requires i < |rules| && m <= |rules[i].patterns|
    ensures |r| <= m
    ensures forall k :: 0 <= k < |r| ==> Matches(rules, exec, text, r[k]) && r[k].rule == i && r[k].pattern < m
  {
    if m == 0 then []
    else
      PatternOrigins(rules, exec, text, i, m - 1)
        + (if exec(rules[i].patterns[m - 1], text).Some? then [Origin(i, m - 1)] else [])
  }

  /** The matching patterns of the first `n` rules, rule by rule. */
  function Origins(rules: seq<RuleDefinition>, exec: (Pattern, string) -> Option<Span>, text: string, n: nat): (r: seq<Origin>)
    requires n <= |rules|
    ensures forall k :: 0 <= k < |r| ==> Matches(rules, exec, text, r[k]) && r[k].rule < n
  {
    if n == 0 then []
    else Origins(rules, exec, text, n - 1) + PatternOrigins(rules, exec, text, n - 1, |rules[n - 1].patterns|)
  }

  /** The number of patterns of the first `n` rules. */
  function PatternCount(rules: seq<RuleDefinition>, n: nat): nat
    requires n <= |rules|
  {
    if n == 0 then 0 else PatternCount(rules, n - 1) + |rules[n - 1].patterns|
  }

  /** The risk reported for a match of one of `rule`'s patterns. */
  function FindingOf(rule: RuleDefinition, text: string, m: Span): (f: DetectedRisk)
    requires m.start <= m.end <= |text|
    ensures f.id == rule.id && f.severity == rule.severity && f.title == rule.title
    ensures f.description == rule.description && f.recommendation == rule.recommendation
    ensures f.source == Rule
    ensures f.clause.endIndex == f.clause.startIndex + |f.clause.text|
    ensures 0 <= f.clause.startIndex <= f.clause.endIndex <= |text|
    ensures f.clause.text == text[f.clause.startIndex..f.clause.endIndex]
  {
    DetectedRisk(rule.id, rule.severity, rule.title, rule.description, rule.recommendation,
      ExtractedClause(text[m.start..m.end], m.start, m.start + (m.end - m.start)), Rule)
  }

  /** The risk reported for the matching pattern `o`. */
  function FindingAt(rules: seq<RuleDefinition>, exec: (Pattern, string) -> Option<Span>, text: string, o: Origin): DetectedRisk
    requires IsFirstMatcher(exec) && Matches(rules, exec, text, o)
  {
    var m := exec(rules[o.rule].patterns[o.pattern], text).value;
    FindingOf(rules[o.rule], text, m)
  }

  /** The risks for a list of matching patterns, one per pattern, in the same order. */
  function FindingsOf(rules: seq<RuleDefinition>, exec: (Pattern, string) -> Option<Span>, text: string, os: seq<Origin>): (r: seq<DetectedRisk>)
    requires IsFirstMatcher(exec)
    requires forall k :: 0 <= k < |os| ==> Matches(rules, exec, text, os[k])
    ensures |r| == |os|
    ensures forall k :: 0 <= k < |os| ==> r[k] == FindingAt(rules, exec, text, os[k])
  {
    if os == [] then []
    else FindingsOf(rules, exec, text, os[..|os| - 1]) + [FindingAt(rules, exec, text, os[|os| - 1])]
  }

  lemma {:induction false} FindingsOfAppend(rules: seq<RuleDefinition>, exec: (Pattern, string) -> Option<Span>, text: string, a: seq<Origin>, b: seq<Origin>)
    requires IsFirstMatcher(exec)
    requires forall k :: 0 <= k < |a| ==> Matches(rules, exec, text, a[k])
    requires forall k :: 0 <= k < |b| ==> Matches(rules, exec, text, b[k])
    ensures forall k :: 0 <= k < |a + b| ==> Matches(rules, exec, text, (a + b)[k])
    ensures FindingsOf(rules, exec, text, a + b) == FindingsOf(rules, exec, text, a) + FindingsOf(rules, exec, text, b)
  {
    assert forall k :: 0 <= k < |a + b| ==> (a + b)[k] == (if k < |a| then a[k] else b[k - |a|]);
  }

  /** The risks that the first `n` rules of `rules` report on `text`. */
  function Findings(rules: seq<RuleDefinition>, exec: (Pattern, string) -> Option<Span>, text: string, n: nat): seq<DetectedRisk>
    requires IsFirstMatcher(exec) && n <= |rules|
  {
    FindingsOf(rules, exec, text, Origins(rules, exec, text, n))
  }

  /** The matching patterns of the first `i` rules and of the first `j` patterns of rule `i`. */
  function Scanned(rules: seq<RuleDefinition>, exec: (Pattern, string) -> Option<Span>, text: string, i: nat, j: nat): (r: seq<Origin>)
    requires i < |rules| && j <= |rules[i].patterns|
    ensures forall k :: 0 <= k < |r| ==> Matches(rules, exec, text, r[k])
  {
    var a := Origins(rules, exec, text, i);
    var b := PatternOrigins(rules, exec, text, i, j);
    assert forall k :: 0 <= k < |a + b| ==> (a + b)[k] == (if k < |a| then a[k] else b[k - |a|]);
    a + b
  }

  /** Before any pattern of rule `i` is looked at, the risks are those of the rules before it. */
  lemma ScannedNone(rules: seq<RuleDefinition>, exec: (Pattern, string) -> Option<Span>, text: string, i: nat)
    requires IsFirstMatcher(exec) && i < |rules|
    ensures FindingsOf(rules, exec, text, Scanned(rules, exec, text, i, 0)) == Findings(rules, exec, text, i)
  {
    assert Scanned(rules, exec, text, i, 0) == Origins(rules, exec, text, i) + [];
    assert Origins(rules, exec, text, i) + [] == Origins(rules, exec, text, i);
  }

  /** After every pattern of rule `i`, the risks are those of the first i + 1 rules. */
  lemma ScannedAll(rules: seq<RuleDefinition>, exec: (Pattern, string) -> Option<Span>, text: string, i: nat)
    requires IsFirstMatcher(exec) && i < |rules|
    ensures FindingsOf(rules, exec, text, Scanned(rules, exec, text, i, |rules[i].patterns|)) == Findings(rules, exec, text, i + 1)
  {
    assert Scanned(rules, exec, text, i, |rules[i].patterns|) == Origins(rules, exec, text, i + 1);
  }

  /** Looking at one more pattern adds its risk when it matches, and nothing otherwise. */
  lemma ScannedStep(rules: seq<RuleDefinition>, exec: (Pattern, string) -> Option<Span>, text: string, i: nat, j: nat)
    requires IsFirstMatcher(exec) && i < |rules| && j < |rules[i].patterns|
    ensures exec(rules[i].patterns[j], text).Some? ==>
      FindingsOf(rules, exec, text, Scanned(rules, exec, text, i, j + 1)) ==
      FindingsOf(rules, exec, text, Scanned(rules, exec, text, i, j)) + [FindingOf(rules[i], text, exec(rules[i].patterns[j], text).value)]
    ensures exec(rules[i].patterns[j], text).None? ==>
      FindingsOf(rules, exec, text, Scanned(rules, exec, text, i, j + 1)) == FindingsOf(rules, exec, text, Scanned(rules, exec, text, i, j))
  {
    var s := Scanned(rules, exec, text, i, j);
    if exec(rules[i].patterns[j], text).Some? {
      assert Scanned(rules, exec, text, i, j + 1) == s + [Origin(i, j)];
      FindingsOfAppend(rules, exec, text, s, [Origin(i, j)]);
      assert FindingsOf(rules, exec, text, [Origin(i, j)]) == [FindingAt(rules, exec, text, Origin(i, j))];
    } else {
      assert Scanned(rules, exec, text, i, j + 1) == s;
    }
  }

  /** The risks once `soFar` has been extended by the matching patterns among the first `j`
      patterns of rule `i`: the state of analyzeHousingRules' inner loop. */
  function Progress(rules: seq<RuleDefinition>, exec: (Pattern, string) -> Option<Span>, text: string, i: nat, j: nat, soFar: seq<DetectedRisk>): seq<DetectedRisk>
    requires IsFirstMatcher(exec) && i < |rules| && j <= |rules[i].patterns|
  {
    if j == 0 then soFar
    else
      var m := exec(rules[i].patterns[j - 1], text);
      Progress(rules, exec, text, i, j - 1, soFar) + (if m.Some? then [FindingOf(rules[i], text, m.value)] else [])
  }

  /** Starting from the risks of the rules before `i`, the inner loop's state is the list of
      risks of everything scanned so far. */
  lemma {:induction false} ProgressScanned(rules: seq<RuleDefinition>, exec: (Pattern, string) -> Option<Span>, text: string, i: nat, j: nat)
    requires IsFirstMatcher(exec) && i < |rules| && j <= |rules[i].patterns|
    ensures Progress(rules, exec, text, i, j, Findings(rules, exec, text, i)) == FindingsOf(rules, exec, text, Scanned(rules, exec, text, i, j))
  {
    if j == 0 {
      ScannedNone(rules, exec, text, i);
    } else {
      ProgressScanned(rules, exec, text, i, j - 1);
      ScannedStep(rules, exec, text, i, j - 1);
    }
  }

  /** The inner loop of analyzeHousingRules: appends the risks of the matching patterns of
      rule `i` to the risks of the rules before it. */
  method ApplyRule(rules: seq<RuleDefinition>, i: nat, text: string, exec: (Pattern, string) -> Option<Span>, soFar: seq<DetectedRisk>)
    returns (findings: seq<DetectedRisk>)
    requires IsFirstMatcher(exec) && i < |rules|
    requires soFar == Findings(rules, exec, text, i)
    ensures findings == Findings(rules, exec, text, i + 1)
  {
    var rule := rules[i];
    findings := soFar;
    for j := 0 to |rule.patterns|
      invariant findings == Progress(rules, exec, text, i, j, soFar)
    {
      var match_ := exec(rule.patterns[j], text);
      if match_.Some? {
        findings := findings + [FindingOf(rule, text, match_.value)];
      }
    }
    ProgressScanned(rules, exec, text, i, |rule.patterns|);
    ScannedAll(rules, exec, text, i);
  }

  /** analyzeHousingRules: for each rule and each of its patterns, in order, reports one
      risk when the pattern matches. */
  method AnalyzeHousingRules(text: string, exec: (Pattern, string) -> Option<Span>) returns (findings: seq<DetectedRisk>)
    requires IsFirstMatcher(exec)
    ensures findings == Findings(HousingRuleSet, exec, text, |HousingRuleSet|)
  {
    var rules := HousingRuleSet;
    findings := [];
    for i := 0 to |rules|
      invariant findings == Findings(rules, exec, text, i)
    {
      findings := ApplyRule(rules, i, text, exec, findings);
    }
  }

  lemma {:induction false} PatternOriginsOrdered(rules: seq<RuleDefinition>, exec: (Pattern, string) -> Option<Span>, text: string, i: nat, m: nat)
    requires i < |rules| && m <= |rules[i].patterns|
    ensures forall k :: 0 < k < |PatternOrigins(rules, exec, text, i, m)| ==>
      PatternOrigins(rules, exec, text, i, m)[k - 1].pattern < PatternOrigins(rules, exec, text, i, m)[k].pattern
  {
    if m > 0 {
      PatternOriginsOrdered(rules, exec, text, i, m - 1);
    }
  }

  /** Findings come in catalogue order: by rule, then by pattern within a rule. */
  lemma {:induction false} OriginsOrdered(rules: seq<RuleDefinition>, exec: (Pattern, string) -> Option<Span>, text: string, n: nat)
    requires n <= |rules|
    ensures forall k :: 0 < k < |Origins(rules, exec, text, n)| ==>
      Before(Origins(rules, exec, text, n)[k - 1], Origins(rules, exec, text, n)[k])
  {
    if n > 0 {
      OriginsOrdered(rules, exec, text, n - 1);
      PatternOriginsOrdered(rules, exec, text, n - 1, |rules[n - 1].patterns|);
    }
  }

  lemma {:induction false} PatternOriginsComplete(rules: seq<RuleDefinition>, exec: (Pattern, string) -> Option<Span>, text: string, i: nat, m: nat, j: nat)
    requires i < |rules| && j < m <= |rules[i].patterns|
    requires exec(rules[i].patterns[j], text).Some?
    ensures Origin(i, j) in PatternOrigins(rules, exec, text, i, m)
  {
    if j < m - 1 {
      PatternOriginsComplete(rules, exec, text, i, m - 1, j);
    }
  }

  /** Every pattern that matches yields a finding: nothing is deduplicated or skipped. */
  lemma {:induction false} OriginsComplete(rules: seq<RuleDefinition>, exec: (Pattern, string) -> Option<Span>, text: string, n: nat, o: Origin)
    requires n <= |rules| && o.rule < n && Matches(rules, exec, text, o)
    ensures o in Origins(rules, exec, text, n)
  {
    var a := Origins(rules, exec, text, n - 1);
    var b := PatternOrigins(rules, exec, text, n - 1, |rules[n - 1].patterns|);
    assert Origins(rules, exec, text, n) == a + b;
    if o.rule == n - 1 {
      PatternOriginsComplete(rules, exec, text, n - 1, |rules[n - 1].patterns|, o.pattern);
      assert o in b;
    } else {
      OriginsComplete(rules, exec, text, n - 1, o);
      assert o in a;
    }
  }

  /** There are never more findings than patterns. */
  lemma {:induction false} OriginsBound(rules: seq<RuleDefinition>, exec: (Pattern, string) -> Option<Span>, text: string, n: nat)
    requires n <= |rules|
    ensures |Origins(rules, exec, text, n)| <= PatternCount(rules, n)
  {
    if n > 0 {
      OriginsBound(rules, exec, text, n - 1);
    }
  }

  /** A risk carries the id, severity and texts of `rule`, is marked as coming from a rule,
      and points at exactly the part of `text` it quotes. */
  predicate ReportedBy(f: DetectedRisk, rule: RuleDefinition, text: string) {
    && f.id == rule.id && f.severity == rule.severity && f.title == rule.title
    && f.description == rule.description && f.recommendation == rule.recommendation
    && f.source == Rule
    && 0 <= f.clause.startIndex <= f.clause.endIndex <= |text|
    && f.clause.text == text[f.clause.startIndex..f.clause.endIndex]
  }

  /** Finding k is reported by the rule whose pattern produced it. */
  lemma FindingsReported(rules: seq<RuleDefinition>, exec: (Pattern, string) -> Option<Span>, text: string, n: nat)
    requires IsFirstMatcher(exec) && n <= |rules|
    ensures |Findings(rules, exec, text, n)| == |Origins(rules, exec, text, n)|
    ensures forall k :: 0 <= k < |Findings(rules, exec, text, n)| ==>
      ReportedBy(Findings(rules, exec, text, n)[k], rules[Origins(rules, exec, text, n)[k].rule], text)
  {
  }

  lemma HousingPatternCount()
    ensures PatternCount(HousingRuleSet, 3) == 5
  {
    assert PatternCount(HousingRuleSet, 1) == 2;
    assert PatternCount(HousingRuleSet, 2) == 4;
  }

  /** The housing rules report at most five risks, each reported by one of the three rules. */
  lemma HousingFindings(text: string, exec: (Pattern, string) -> Option<Span>)
    requires IsFirstMatcher(exec)
    ensures |Findings(HousingRuleSet, exec, text, 3)| <= 5
    ensures forall k :: 0 <= k < |Findings(HousingRuleSet, exec, text, 3)| ==>
      exists i :: 0 <= i < 3 && ReportedBy(Findings(HousingRuleSet, exec, text, 3)[k], HousingRuleSet[i], text)
  {
    var rules := HousingRuleSet;
    OriginsBound(rules, exec, text, 3);
    HousingPatternCount();
    FindingsReported(rules, exec, text, 3);
    var fs := Findings(rules, exec, text, 3);
    var os := Origins(rules, exec, text, 3);
    forall k | 0 <= k < |fs|
      ensures exists i :: 0 <= i < 3 && ReportedBy(fs[k], rules[i], text)
    {
      assert ReportedBy(fs[k], rules[os[k].rule], text);
    }
  }

  /** When the first rule has two patterns and both match, the first two findings are
      both that rule's, whatever the later rules report. */
  lemma {:induction false} FirstRuleReportedTwice(rules: seq<RuleDefinition>, exec: (Pattern, string) -> Option<Span>, text: string, n: nat)
    requires IsFirstMatcher(exec) && 1 <= n <= |rules| && |rules[0].patterns| == 2
    requires exec(rules[0].patterns[0], text).Some? && exec(rules[0].patterns[1], text).Some?
    ensures |Findings(rules, exec, text, n)| >= 2
    ensures Findings(rules, exec, text, n)[0].id == rules[0].id
    ensures Findings(rules, exec, text, n)[1].id == rules[0].id
    decreases n
  {
    if n == 1 {
      assert PatternOrigins(rules, exec, text, 0, 1) == [Origin(0, 0)];
      assert PatternOrigins(rules, exec, text, 0, 2) == [Origin(0, 0), Origin(0, 1)];
      assert Origins(rules, exec, text, 1) == [Origin(0, 0), Origin(0, 1)];
    } else {
      FirstRuleReportedTwice(rules, exec, text, n - 1);
      var a := Origins(rules, exec, text, n - 1);
      var b := PatternOrigins(rules, exec, text, n - 1, |rules[n - 1].patterns|);
      assert Origins(rules, exec, text, n) == a + b;
      FindingsOfAppend(rules, exec, text, a, b);
    }
  }

  /** When both patterns of the deposit-refund rule match, it is reported twice, as the
      first two findings. */
  lemma RefundDelayReportedTwice(text: string, exec: (Pattern, string) -> Option<Span>)
    requires IsFirstMatcher(exec)
    requires exec(HousingRuleSet[0].patterns[0], text).Some? && exec(HousingRuleSet[0].patterns[1], text).Some?
    ensures |Findings(HousingRuleSet, exec, text, 3)| >= 2
    ensures Findings(HousingRuleSet, exec, text, 3)[0].id == "housing-refund-delay"
    ensures Findings(HousingRuleSet, exec, text, 3)[1].id == "housing-refund-delay"
  {
    FirstRuleReportedTwice(HousingRuleSet, exec, text, 3);
  }
}
