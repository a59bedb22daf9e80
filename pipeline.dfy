/** The deterministic contract-analysis pipeline: text cleaning, chunking by article or
    paragraph, contract classification, rule-based clause analysis, risk detection,
    scoring, recommendations and summary, run in that order by `Process`. `lower` stands
    for str.lower and `find` for the regex engine's list of matches of a pattern. */
module Pipeline {
  import opened Text
  import opened Regex
  import opened Articles

  // ---------------------------------------------------------------- _clean_text

  /** The length of the match of `Page \d+` at position j, 0 when there is none. */
  function PageNumberMatch(s: string, j: nat): (n: nat)
    ensures n == 0 || j + n <= |s|
    ensures n > 0 ==> j + 5 < |s| && s[j..j + 5] == "Page " && IsDigit(s[j + 5])
  {
    if j + 5 <= |s| && s[j..j + 5] == "Page " then
      var d := Run(s, j + 5, IsDigit);
      if d > 0 then 5 + d else 0
    else 0
  }

  /** The length of the match of `\s+` at position j. */
  function SpaceRunMatch(s: string, j: nat): (n: nat)
    ensures n == 0 || j + n <= |s|
    ensures j < |s| ==> (n > 0 <==> IsPySpace(s[j]))
    ensures j + n >= |s| || !IsPySpace(s[j + n])
  {
    if j <= |s| then Run(s, j, IsPySpace) else 0
  }

  /** The length of the match of `\n\s*\n` at position j. */
  function ParagraphBreakMatch(s: string, j: nat): (n: nat)
    ensures n == 0 || j + n <= |s|
    ensures n > 0 ==> j < |s| && s[j] == '\n'
  {
    NewlineRunMatch(s, j, 2, IsPySpace)
  }

  /** A space, or a character that is not whitespace. */
  predicate SpaceOrVisible(c: char) {
    c == ' ' || !IsPySpace(c)
  }

  /** The text after the page numbers are removed and every whitespace run is collapsed to
      one space. */
  function Collapsed(text: string): string {
    var t := SubFrom(text, 0, PageNumberMatch, "");
    SubFrom(t, 0, SpaceRunMatch, " ")
  }

  /** _clean_text: removes `Page \d+`, collapses whitespace runs to one space, turns blank
      lines into paragraph breaks and strips the result. */
  function CleanText(text: string): string {
    var t := Collapsed(text);
    Strip(SubFrom(t, 0, ParagraphBreakMatch, "\n\n"))
  }

  /** After collapsing, no two whitespace characters are adjacent and the only whitespace
      left is ' '. */
  lemma CollapsedSpaces(text: string)
    ensures NoAdjacent(Collapsed(text), IsPySpace)
    ensures All(Collapsed(text), SpaceOrVisible)
  {
    var t := SubFrom(text, 0, PageNumberMatch, "");
    assert NoAdjacent(Collapsed(text), IsPySpace) by {
      SubFromCollapses(t, 0, SpaceRunMatch, IsPySpace, ' ');
    }
    SubFromKeeps(t, 0, SpaceRunMatch, " ", SpaceOrVisible);
  }

  /** Once whitespace is collapsed no newline is left, so the blank-line substitution
      (`\n\s*\n` to a paragraph break) never matches and changes nothing. */
  lemma ParagraphBreakNoOp(text: string)
    ensures '\n' !in Collapsed(text)
    ensures SubFrom(Collapsed(text), 0, ParagraphBreakMatch, "\n\n") == Collapsed(text)
  {
    var t := Collapsed(text);
    CollapsedSpaces(text);
    NoNewline(t);
    SubFromNoMatch(t, 0, ParagraphBreakMatch, "\n\n");
  }

  /** A text whose only whitespace is ' ' has no newline. */
  lemma NoNewline(t: string)
    requires All(t, SpaceOrVisible)
    ensures '\n' !in t
    ensures forall j :: 0 <= j < |t| ==> t[j] != '\n'
  {
    forall j | 0 <= j < |t| ensures t[j] != '\n' {
      assert SpaceOrVisible(t[j]);
    }
  }

  /** The cleaned text holds no newline and no two adjacent whitespace characters, its only
      whitespace is ' ', and it neither starts nor ends with whitespace. */
  lemma CleanTextShape(text: string)
    ensures CleanText(text) == Strip(Collapsed(text))
    ensures '\n' !in CleanText(text)
    ensures NoAdjacent(CleanText(text), IsPySpace)
    ensures All(CleanText(text), SpaceOrVisible)
    ensures Stripped(CleanText(text))
  {
    var t := Collapsed(text);
    ParagraphBreakNoOp(text);
    CollapsedSpaces(text);
    StripByKeeps(t, IsPySpace, IsPySpace);
    StripByKeeps(t, IsPySpace, SpaceOrVisible);
    assert CleanText(text) == StripBy(t, IsPySpace);
    NoNewline(CleanText(text));
  }

  // ---------------------------------------------------------------- _smart_chunk

  /** The article marker `(Article\s+\d+(?:\.\d+)?|ARTICLE\s+[IVX]+)`, one capturing group. */
  const ArticleMarker := Pattern(@"(Article\s+\d+(?:\.\d+)?|ARTICLE\s+[IVX]+)", false)

  /** The chunks of _smart_chunk: re.search is true exactly when the engine reports a match,
      and re.split cuts around the matches it reports. */
  function SmartChunks(text: string, find: (Pattern, string) -> seq<Span>): seq<string>
    requires IsFinder(find)
  {
    var spans := find(ArticleMarker, text);
    if spans != [] then
      var result := Recombined(SplitAround(text, spans, 0));
      if result != [] then result else [text]
    else LongParagraphs(SplitOn(text, "\n\n"))
  }

  /** _smart_chunk. */
  method SmartChunk(text: string, find: (Pattern, string) -> seq<Span>) returns (chunks: seq<string>)
    requires IsFinder(find)
    ensures chunks == SmartChunks(text, find)
  {
    var spans := find(ArticleMarker, text);
    if spans != [] {
      var pieces := SplitAround(text, spans, 0);
      var result := Recombine(pieces);
      chunks := if result != [] then result else [text];
    } else {
      var paragraphs := SplitOn(text, "\n\n");
      chunks := LongParagraphs(paragraphs);
    }
  }

  /** With an article marker, there is one chunk per marker, in order: the marker, a space
      and the text up to the next marker (so the `[text]` fallback is never taken);
      without one, the chunks are the long stripped paragraphs. */
  lemma SmartChunksCases(text: string, find: (Pattern, string) -> seq<Span>)
    requires IsFinder(find)
    ensures var spans := find(ArticleMarker, text);
      spans != [] ==>
        && |SmartChunks(text, find)| == |spans|
        && forall j :: 0 <= j < |spans| ==>
             SmartChunks(text, find)[j] == text[spans[j].start..spans[j].end] + " " + Following(text, spans, j)
    ensures find(ArticleMarker, text) == [] ==> SmartChunks(text, find) == LongParagraphs(SplitOn(text, "\n\n"))
  {
    var spans := find(ArticleMarker, text);
    if spans != [] {
      ArticleChunks(text, spans);
    }
  }

  // ---------------------------------------------------------------- _classify_contract

  const LeaseKeywords := ["bail", "loyer", "locataire", "bailleur"]
  const FixedTermKeywords := ["cdd", "durée déterminée", "contrat de travail"]
  const PermanentKeywords := ["cdi", "durée indéterminée"]
  const SaleKeywords := ["vente", "vendeur", "acheteur"]

  /** The keyword groups, in the order they are checked, and the type each one gives; the last
      type is the default. */
  const ContractGroups: seq<seq<string>> := [LeaseKeywords, FixedTermKeywords, PermanentKeywords, SaleKeywords]
  const ContractTypes: seq<string> :=
    ["Bail d'habitation", "Contrat de travail CDD", "Contrat de travail CDI", "Contrat de vente", "Contrat de prestation"]

  /** _classify_contract. */
  function ClassifyContract(textSample: string, lower: string -> string): string {
    var textLower := lower(textSample);
    if ContainsAny(textLower, LeaseKeywords) then "Bail d'habitation"
    else if ContainsAny(textLower, FixedTermKeywords) then "Contrat de travail CDD"
    else if ContainsAny(textLower, PermanentKeywords) then "Contrat de travail CDI"
    else if ContainsAny(textLower, SaleKeywords) then "Contrat de vente"
    else "Contrat de prestation"
  }

  /** The type is the one of the first keyword group with a keyword in the lower-cased
      sample, and "Contrat de prestation" when no group has one. */
  lemma ClassifyContractFirstGroup(textSample: string, lower: string -> string)
    ensures ClassifyContract(textSample, lower) == ContractTypes[FirstGroup(lower(textSample), ContractGroups)]
  {
    var s := lower(textSample);
    var groups := ContractGroups;
    var g := FirstGroup(s, groups);
    assert groups[0] == LeaseKeywords && groups[1] == FixedTermKeywords;
    assert groups[2] == PermanentKeywords && groups[3] == SaleKeywords;
    if g > 0 { assert !ContainsAny(s, groups[0]); }
    if g > 1 { assert !ContainsAny(s, groups[1]); }
    if g > 2 { assert !ContainsAny(s, groups[2]); }
    if g > 3 { assert !ContainsAny(s, groups[3]); }
  }

  // ---------------------------------------------------------------- _analyze_clause_simple

  datatype RiskLevel = High | Medium | Low

  const HighKeywords := ["interdit", "illégal", "abusif", "non conforme"]
  const MediumKeywords := ["attention", "déséquilibre", "ambigu"]

  /** risk_keywords, in the dictionary's order. */
  const RiskKeywords: seq<(RiskLevel, seq<string>)> := [(High, HighKeywords), (Medium, MediumKeywords), (Low, [])]

  /** The level of the first entry of `table` with a keyword in `s`, 'low' when there is none. */
  function FirstLevel(s: string, table: seq<(RiskLevel, seq<string>)>): RiskLevel
    decreases |table|
  {
    if table == [] then Low
    else if ContainsAny(s, table[0].1) then table[0].0
    else FirstLevel(s, table[1..])
  }

  /** The risk level of a lower-cased clause. */
  function RiskLevelOf(clauseLower: string): RiskLevel {
    FirstLevel(clauseLower, RiskKeywords)
  }

  /** A clause is 'high' exactly when it has a high keyword, 'medium' exactly when it has a
      medium keyword and no high one, and 'low' otherwise. */
  lemma RiskLevelCases(clauseLower: string)
    ensures RiskLevelOf(clauseLower) == High <==> ContainsAny(clauseLower, HighKeywords)
    ensures RiskLevelOf(clauseLower) == Medium <==> !ContainsAny(clauseLower, HighKeywords) && ContainsAny(clauseLower, MediumKeywords)
    ensures RiskLevelOf(clauseLower) == Low <==> !ContainsAny(clauseLower, HighKeywords) && !ContainsAny(clauseLower, MediumKeywords)
  {
    var t := RiskKeywords;
    assert t[0] == (High, HighKeywords);
    assert t[1..][0] == (Medium, MediumKeywords);
    assert t[1..][1..][0] == (Low, []) && t[1..][1..][1..] == [];
    assert !ContainsAny(clauseLower, []);
    assert FirstLevel(clauseLower, t[1..][1..]) == Low;
    assert FirstLevel(clauseLower, t[1..]) == if ContainsAny(clauseLower, MediumKeywords) then Medium else Low;
    assert FirstLevel(clauseLower, t) == if ContainsAny(clauseLower, HighKeywords) then High else FirstLevel(clauseLower, t[1..]);
  }

  /** clause_text: the first 200 characters and "..." for a longer clause, the clause itself
      otherwise. */
  function Preview(clauseText: string): (r: string)
    ensures |clauseText| <= 200 ==> r == clauseText
    ensures |clauseText| > 200 ==> |r| == 203 && r[..200] == clauseText[..200] && r[200..] == "..."
  {
    if |clauseText| > 200 then clauseText[..200] + "..." else clauseText
  }

  datatype ClauseAnalysis = ClauseAnalysis(
    clauseNumber: int,
    clauseText: string,
    fullText: string,
    resume: string,
    implications: string,
    risques: string,
    conformite: string,
    recommandation: string,
    riskLevel: RiskLevel)

  /** The fixed texts of a rule-based clause analysis. */
  const Implications := "Cette clause définit les obligations des parties."
  const NoRiskText := "Aucun risque majeur détecté"
  const AttentionText := "Clause nécessitant une attention particulière"
  const ConformText := "Conforme au droit français"
  const CheckText := "Vérification juridique recommandée"
  const AcceptableText := "Clause acceptable"
  const LawyerText := "Consulter un avocat pour validation"

  /** The analysis of a clause at a given risk level. */
  function ClauseAnalysisOf(clauseText: string, contractType: string, clauseNum: int, level: RiskLevel): (a: ClauseAnalysis)
    ensures a.clauseNumber == clauseNum && a.fullText == clauseText && a.riskLevel == level
    ensures a.clauseText == Preview(clauseText)
  {
    var low := level == Low;
    ClauseAnalysis(
      clauseNum,
      Preview(clauseText),
      clauseText,
      "Clause " + IntToString(clauseNum) + " du contrat de type " + contractType,
      Implications,
      if low then NoRiskText else AttentionText,
      if low then ConformText else CheckText,
      if low then AcceptableText else LawyerText,
      level)
  }

  /** _analyze_clause_simple: the loop over risk_keywords stops at the first level with a
      keyword in the lower-cased clause. */
  method AnalyzeClauseSimple(clauseText: string, contractType: string, clauseNum: int, lower: string -> string)
    returns (a: ClauseAnalysis)
    ensures a == ClauseAnalysisOf(clauseText, contractType, clauseNum, RiskLevelOf(lower(clauseText)))
  {
    var riskKeywords := RiskKeywords;
    var clauseLower := lower(clauseText);
    var riskLevel := Low;
    var k := 0;
    while k < |riskKeywords|
      invariant 0 <= k <= |riskKeywords|
      invariant riskLevel == Low && FirstLevel(clauseLower, riskKeywords[k..]) == RiskLevelOf(clauseLower)
      decreases |riskKeywords| - k
    {
      assert riskKeywords[k..][1..] == riskKeywords[k + 1..];
      if ContainsAny(clauseLower, riskKeywords[k].1) {
        riskLevel := riskKeywords[k].0;
        break;
      }
      k := k + 1;
    }
    a := ClauseAnalysisOf(clauseText, contractType, clauseNum, riskLevel);
  }

  // ---------------------------------------------------------------- _detect_risks

  datatype Risk = Risk(clauseNumber: int, clausePreview: string, issue: string, severity: RiskLevel, recommendation: string)

  /** The risk entry made from a clause analysis. */
  function RiskOf(c: ClauseAnalysis): (r: Risk)
    ensures r.clauseNumber == c.clauseNumber && r.clausePreview == c.clauseText && r.severity == c.riskLevel
  {
    Risk(c.clauseNumber, c.clauseText, c.risques, c.riskLevel, c.recommandation)
  }

  /** The number of clauses at `level`. */
  function ClauseCount(clauses: seq<ClauseAnalysis>, level: RiskLevel): (n: nat)
    ensures n <= |clauses|
  {
    if clauses == [] then 0
    else ClauseCount(clauses[..|clauses| - 1], level) + (if clauses[|clauses| - 1].riskLevel == level then 1 else 0)
  }

  /** The number of risks of severity `level`. */
  function RiskCount(risks: seq<Risk>, level: RiskLevel): (n: nat)
    ensures n <= |risks|
  {
    if risks == [] then 0
    else RiskCount(risks[..|risks| - 1], level) + (if risks[|risks| - 1].severity == level then 1 else 0)
  }

  /** The risks of the 'high' and 'medium' clauses, in clause order. */
  function RisksOf(clauses: seq<ClauseAnalysis>): (r: seq<Risk>)
    ensures |r| <= |clauses|
    ensures forall k :: 0 <= k < |r| ==> r[k].severity != Low
  {
    if clauses == [] then []
    else
      var c := clauses[|clauses| - 1];
      RisksOf(clauses[..|clauses| - 1]) + (if c.riskLevel != Low then [RiskOf(c)] else [])
  }

  /** The risks are as many as the 'high' and 'medium' clauses, and have as many of each
      severity as there are clauses of that level. */
  lemma {:induction false} RisksOfCounts(clauses: seq<ClauseAnalysis>)
    ensures |RisksOf(clauses)| == ClauseCount(clauses, High) + ClauseCount(clauses, Medium)
    ensures RiskCount(RisksOf(clauses), High) == ClauseCount(clauses, High)
    ensures RiskCount(RisksOf(clauses), Medium) == ClauseCount(clauses, Medium)
  {
    if clauses != [] {
      var c := clauses[|clauses| - 1];
      var front := clauses[..|clauses| - 1];
      var init := RisksOf(front);
      RisksOfCounts(front);
      assert ClauseCount(clauses, High) == ClauseCount(front, High) + (if c.riskLevel == High then 1 else 0);
      assert ClauseCount(clauses, Medium) == ClauseCount(front, Medium) + (if c.riskLevel == Medium then 1 else 0);
      if c.riskLevel != Low {
        var r := init + [RiskOf(c)];
        assert RisksOf(clauses) == r;
        assert r[..|r| - 1] == init && r[|r| - 1].severity == c.riskLevel;
        assert RiskCount(r, High) == RiskCount(init, High) + (if c.riskLevel == High then 1 else 0);
        assert RiskCount(r, Medium) == RiskCount(init, Medium) + (if c.riskLevel == Medium then 1 else 0);
      } else {
        assert RisksOf(clauses) == init;
      }
    }
  }

  /** Risk detection distributes over concatenation of the clause list: it keeps exactly the
      'high' and 'medium' clauses, in order. */
  lemma {:induction false} RisksOfAppend(a: seq<ClauseAnalysis>, b: seq<ClauseAnalysis>)
    ensures RisksOf(a + b) == RisksOf(a) + RisksOf(b)
    decreases |b|
  {
    if b == [] {
      assert a + b == a;
    } else {
      var init := b[..|b| - 1];
      RisksOfAppend(a, init);
      assert (a + b)[..|a + b| - 1] == a + init;
      assert (a + b)[|a + b| - 1] == b[|b| - 1];
    }
  }

  /** Every clause count adds up: each clause is 'high', 'medium' or 'low'. */
  lemma {:induction false} ClauseCountsSum(clauses: seq<ClauseAnalysis>)
    ensures ClauseCount(clauses, High) + ClauseCount(clauses, Medium) + ClauseCount(clauses, Low) == |clauses|
  {
    if clauses != [] {
      ClauseCountsSum(clauses[..|clauses| - 1]);
    }
  }

  /** _detect_risks. */
  method DetectRisks(clauses: seq<ClauseAnalysis>) returns (risks: seq<Risk>)
    ensures risks == RisksOf(clauses)
  {
    risks := [];
    for i := 0 to |clauses|
      invariant risks == RisksOf(clauses[..i])
    {
      assert clauses[..i + 1][..i] == clauses[..i];
      var clause := clauses[i];
      if clause.riskLevel == High || clause.riskLevel == Medium {
        risks := risks + [RiskOf(clause)];
      }
    }
    assert clauses[..|clauses|] == clauses;
  }

  // ---------------------------------------------------------------- _calculate_score

  datatype PipelineScore = PipelineScore(
    globalScore: int,
    conformity: int,
    balance: int,
    clarity: int,
    totalClauses: int,
    highRisks: int,
    mediumRisks: int,
    lowRisks: int)

  /** max(0, 100 - (high * 25 + medium * 10)). */
  function Conformity(high: nat, medium: nat): (c: int)
    ensures 0 <= c <= 100
    ensures high == 0 && medium == 0 ==> c == 100
    ensures high >= 4 ==> c == 0
  {
    var raw := 100 - (high * 25 + medium * 10);
    if raw < 0 then 0 else raw
  }

  /** int(conformity * 0.5 + balance * 0.3 + clarity * 0.2), with balance 85 and clarity 80. */
  function GlobalScore(conformity: int): int
    requires conformity >= 0
  {
    ((conformity as real) * 0.5 + 85.0 * 0.3 + 80.0 * 0.2).Floor
  }

  /** The global score is (conformity + 83) / 2, so it lies between 41 and 91. */
  lemma GlobalScoreClosedForm(conformity: int)
    requires 0 <= conformity <= 100
    ensures GlobalScore(conformity) == (conformity + 83) / 2
    ensures 41 <= GlobalScore(conformity) <= 91
  {
    var q := (conformity + 83) / 2;
    assert (conformity as real) * 0.5 + 85.0 * 0.3 + 80.0 * 0.2 == ((conformity + 83) as real) / 2.0;
    assert (q as real) <= ((conformity + 83) as real) / 2.0 < (q as real) + 1.0;
  }

  /** _calculate_score. */
  function ScoreOf(clauses: seq<ClauseAnalysis>, risks: seq<Risk>): (s: PipelineScore)
    ensures 0 <= s.conformity <= 100 && s.balance == 85 && s.clarity == 80
    ensures s.totalClauses == |clauses| && s.highRisks == RiskCount(risks, High) && s.mediumRisks == RiskCount(risks, Medium)
    ensures s.lowRisks == s.totalClauses - s.highRisks - s.mediumRisks
    ensures 41 <= s.globalScore <= 91
  {
    var high := RiskCount(risks, High);
    var medium := RiskCount(risks, Medium);
    var conformity := Conformity(high, medium);
    GlobalScoreClosedForm(conformity);
    PipelineScore(GlobalScore(conformity), conformity, 85, 80, |clauses|, high, medium, |clauses| - high - medium)
  }

  /** On the risks detected from the clauses, low_risks is the number of 'low' clauses. */
  lemma DetectedLowRisks(clauses: seq<ClauseAnalysis>)
    ensures ScoreOf(clauses, RisksOf(clauses)).lowRisks == ClauseCount(clauses, Low)
  {
    ClauseCountsSum(clauses);
    RisksOfCounts(clauses);
  }

  // ---------------------------------------------------------------- _generate_summary / _generate_recommendations

  function Summary(clauseCount: nat): string {
    "Contrat analysé avec " + NatToString(clauseCount) + " clauses identifiées. Analyse IA en cours de développement."
  }

  datatype Recommendation = Recommendation(priority: string, action: string, detail: string)

  const NoRiskRecommendation := Recommendation("info", "Contrat globalement conforme", "Aucun risque majeur détecté.")

  /** The recommendation for one risk: urgent for 'high', important for 'medium', none for
      any other severity. */
  function RecommendationFor(risk: Risk): (r: seq<Recommendation>)
    ensures |r| == (if risk.severity == Low then 0 else 1)
    ensures r != [] ==> r[0].priority == (if risk.severity == High then "urgent" else "important")
  {
    var clause := "Clause " + IntToString(risk.clauseNumber) + ": ";
    match risk.severity
    case High => [Recommendation("urgent", "Consulter un avocat", clause + risk.issue)]
    case Medium => [Recommendation("important", "Demander une modification", clause + risk.recommendation)]
    case Low => []
  }

  /** The recommendations for a list of risks, in risk order. */
  function RiskRecommendations(risks: seq<Risk>): (r: seq<Recommendation>)
    ensures |r| <= |risks|
  {
    if risks == [] then []
    else RiskRecommendations(risks[..|risks| - 1]) + RecommendationFor(risks[|risks| - 1])
  }

  /** When no risk is 'low', there is one recommendation per risk, recommendation k being
      the one for risk k. */
  lemma {:induction false} RiskRecommendationsAt(risks: seq<Risk>)
    requires forall k :: 0 <= k < |risks| ==> risks[k].severity != Low
    ensures |RiskRecommendations(risks)| == |risks|
    ensures forall k :: 0 <= k < |risks| ==> [RiskRecommendations(risks)[k]] == RecommendationFor(risks[k])
    decreases |risks|
  {
    if risks != [] {
      var init := risks[..|risks| - 1];
      var last := RecommendationFor(risks[|risks| - 1]);
      RiskRecommendationsAt(init);
      var front := RiskRecommendations(init);
      var r := front + last;
      assert |last| == 1;
      forall k | 0 <= k < |risks|
        ensures [r[k]] == RecommendationFor(risks[k])
      {
        if k < |init| {
          assert r[k] == front[k] && risks[k] == init[k];
        } else {
          assert k == |risks| - 1;
          assert r[k] == last[0] && [last[0]] == last;
        }
      }
    }
  }

  /** The recommendations of _generate_recommendations. */
  function RecommendationsOf(risks: seq<Risk>): seq<Recommendation> {
    if risks == [] then [NoRiskRecommendation] else RiskRecommendations(risks)
  }

  /** Without risks there is exactly the one 'info' recommendation; when there are risks and
      none is 'low', recommendation k is the one for risk k: 'urgent' for a 'high' risk and
      'important' for a 'medium' one. */
  lemma RecommendationsShape(risks: seq<Risk>)
    requires forall k :: 0 <= k < |risks| ==> risks[k].severity != Low
    ensures risks == [] ==> RecommendationsOf(risks) == [NoRiskRecommendation]
    ensures risks != [] ==> |RecommendationsOf(risks)| == |risks|
    ensures risks != [] ==> forall k :: 0 <= k < |risks| ==>
      && [RecommendationsOf(risks)[k]] == RecommendationFor(risks[k])
      && RecommendationsOf(risks)[k].priority == (if risks[k].severity == High then "urgent" else "important")
  {
    RiskRecommendationsAt(risks);
  }

  /** _generate_recommendations. */
  method GenerateRecommendations(risks: seq<Risk>) returns (recommendations: seq<Recommendation>)
    ensures recommendations == RecommendationsOf(risks)
  {
    recommendations := [];
    if |risks| == 0 {
      recommendations := recommendations + [NoRiskRecommendation];
    } else {
      for i := 0 to |risks|
        invariant recommendations == RiskRecommendations(risks[..i])
      {
        assert risks[..i + 1][..i] == risks[..i];
        var risk := risks[i];
        var detail := "Clause " + IntToString(risk.clauseNumber) + ": ";
        if risk.severity == High {
          recommendations := recommendations + [Recommendation("urgent", "Consulter un avocat", detail + risk.issue)];
        } else if risk.severity == Medium {
          recommendations := recommendations + [Recommendation("important", "Demander une modification", detail + risk.recommendation)];
        }
      }
      assert risks[..|risks|] == risks;
    }
  }

  // ---------------------------------------------------------------- process

  datatype PipelineResult = PipelineResult(
    contractType: string,
    summary: string,
    clauses: seq<ClauseAnalysis>,
    risks: seq<Risk>,
    score: PipelineScore,
    recommendations: seq<Recommendation>,
    totalClauses: nat,
    analyzedClauses: nat,
    highRiskCount: nat,
    mediumRiskCount: nat)

  /** The rule-based analysis of a chunk given its clause number. */
  function Analyser(contractType: string, lower: string -> string): (string, int) -> ClauseAnalysis {
    (chunk, clauseNum) => ClauseAnalysisOf(chunk, contractType, clauseNum, RiskLevelOf(lower(chunk)))
  }

  /** The clauses are the analyses of the first chunks, clause i being chunk i numbered i + 1. */
  predicate AnalysedChunks(clauses: seq<ClauseAnalysis>, chunks: seq<string>, analyse: (string, int) -> ClauseAnalysis) {
    && |clauses| <= |chunks|
    && forall i :: 0 <= i < |clauses| ==> clauses[i] == analyse(chunks[i], i + 1)
  }

  /** Appending the analysis of the next chunk keeps the clauses the analyses of a prefix. */
  lemma AnalysedChunksStep(clauses: seq<ClauseAnalysis>, chunks: seq<string>, analyse: (string, int) -> ClauseAnalysis, a: ClauseAnalysis)
    requires AnalysedChunks(clauses, chunks, analyse) && |clauses| < |chunks|
    requires a == analyse(chunks[|clauses|], |clauses| + 1)
    ensures AnalysedChunks(clauses + [a], chunks, analyse)
  {
    var r := clauses + [a];
    forall i | 0 <= i < |r|
      ensures r[i] == analyse(chunks[i], i + 1)
    {
      if i < |clauses| {
        assert r[i] == clauses[i];
      }
    }
  }

  /** The loop of process over `chunks[:5]`, clause numbers counting from 1. */
  method AnalyzeChunks(chunks: seq<string>, contractType: string, lower: string -> string)
    returns (clausesAnalysis: seq<ClauseAnalysis>)
    ensures |clausesAnalysis| == (if |chunks| < 5 then |chunks| else 5)
    ensures AnalysedChunks(clausesAnalysis, chunks, Analyser(contractType, lower))
  {
    var first := SliceTo(chunks, 5);
    clausesAnalysis := [];
    for i := 0 to |first|
      invariant |clausesAnalysis| == i && AnalysedChunks(clausesAnalysis, chunks, Analyser(contractType, lower))
    {
      assert first[i] == chunks[i];
      var analysis := AnalyzeClauseSimple(first[i], contractType, i + 1, lower);
      AnalysedChunksStep(clausesAnalysis, chunks, Analyser(contractType, lower), analysis);
      clausesAnalysis := clausesAnalysis + [analysis];
    }
  }

  /** process: clean, chunk, classify the first 1000 cleaned characters, analyse at most the
      first five chunks, then detect risks, score, recommend and summarise. */
  method Process(text: string, lower: string -> string, find: (Pattern, string) -> seq<Span>) returns (r: PipelineResult)
    requires IsFinder(find)
    ensures var chunks := SmartChunks(CleanText(text), find);
      && r.contractType == ClassifyContract(SliceTo(CleanText(text), 1000), lower)
      && r.totalClauses == |chunks|
      && |r.clauses| == (if |chunks| < 5 then |chunks| else 5)
      && AnalysedChunks(r.clauses, chunks, Analyser(r.contractType, lower))
      && r.analyzedClauses == |r.clauses|
    ensures r.risks == RisksOf(r.clauses)
    ensures r.score == ScoreOf(r.clauses, r.risks)
    ensures r.recommendations == RecommendationsOf(r.risks)
    ensures r.summary == Summary(|r.clauses|)
    ensures r.highRiskCount == RiskCount(r.risks, High) && r.mediumRiskCount == RiskCount(r.risks, Medium)
  {
    var cleanedText := CleanText(text);
    var chunks := SmartChunk(cleanedText, find);
    var contractType := ClassifyContract(SliceTo(cleanedText, 1000), lower);
    var clausesAnalysis := AnalyzeChunks(chunks, contractType, lower);
    var risks := DetectRisks(clausesAnalysis);
    var score := ScoreOf(clausesAnalysis, risks);
    var recommendations := GenerateRecommendations(risks);
    var summary := Summary(|clausesAnalysis|);
    r := PipelineResult(contractType, summary, clausesAnalysis, risks, score, recommendations,
      |chunks|, |clausesAnalysis|, RiskCount(risks, High), RiskCount(risks, Medium));
  }
}
