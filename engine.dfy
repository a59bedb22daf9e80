/** The analysis engine: a relevance gate that rejects texts that are too short or carry too
    little legal vocabulary, then the housing rules (for housing leases only), then the
    findings of the AI service when it is enabled, scored together into a report. */
module AnalysisEngine {
  import opened Wrappers
  import opened Text
  import opened Regex
  import opened AnalysisTypes
  import opened Scoring
  import opened HousingRules

  /** The words whose presence marks a text as a contract. */
  const LegalKeywords: seq<string> := [
    "contrat", "bail", "convention", "accord",
    "article", "parties", "signature", "loi",
    "code civil", "conditions générales", "loyer",
    "prix", "durée", "résiliation", "objet",
    "entre les soussignés"
  ]

  const TooShort := "Le texte est trop court pour être analysé."
  const NoLegalVocabulary := "Aucun vocabulaire juridique détecté."
  const RejectionPrefix := "Le document ne semble pas être un contrat valide. "

  /** The outcome of the relevance gate; a rejection always carries its reason. */
  datatype Relevance = Relevance(isValid: bool, reason: Option<string>)

  /** How many of `keywords` occur in `lowerText`. */
  function KeywordCount(lowerText: string, keywords: seq<string>): (n: nat)
    ensures n <= |keywords|
  {
    if keywords == [] then 0
    else KeywordCount(lowerText, keywords[..|keywords| - 1]) + (if Contains(lowerText, keywords[|keywords| - 1]) then 1 else 0)
  }

  /** The keywords of `keywords` that occur in `lowerText`. */
  function FoundKeywords(lowerText: string, keywords: seq<string>): set<string> {
    set k | k in keywords && Contains(lowerText, k)
  }

  predicate Distinct(keywords: seq<string>) {
    forall i, j :: 0 <= i < j < |keywords| ==> keywords[i] != keywords[j]
  }

  /** For a list without repetitions, the count is the number of distinct keywords found. */
  lemma {:induction false} KeywordCountDistinct(lowerText: string, keywords: seq<string>)
    requires Distinct(keywords)
    ensures KeywordCount(lowerText, keywords) == |FoundKeywords(lowerText, keywords)|
    decreases |keywords|
  {
    if keywords != [] {
      var init := keywords[..|keywords| - 1];
      var last := keywords[|keywords| - 1];
      KeywordCountDistinct(lowerText, init);
      assert last !in init;
      assert keywords == init + [last];
      if Contains(lowerText, last) {
        assert FoundKeywords(lowerText, keywords) == FoundKeywords(lowerText, init) + {last};
      } else {
        assert FoundKeywords(lowerText, keywords) == FoundKeywords(lowerText, init);
      }
    }
  }

  /** The relevance verdict on `text`, keyword tests being made on its lower-cased form. */
  function RelevanceOf(text: string, lower: string -> string): Relevance {
    var count := KeywordCount(lower(text), LegalKeywords);
    if |text| < 50 then Relevance(false, Some(TooShort))
    else if count < 2 then Relevance(false, Some(NoLegalVocabulary))
    else Relevance(true, None)
  }

  /** A text shorter than 50 characters is rejected as too short whatever it contains; a
      longer one is accepted exactly when at least two distinct legal keywords occur in it,
      and otherwise rejected for lack of legal vocabulary. */
  lemma RelevanceCases(text: string, lower: string -> string)
    ensures |text| < 50 ==> RelevanceOf(text, lower) == Relevance(false, Some(TooShort))
    ensures |text| >= 50 && |FoundKeywords(lower(text), LegalKeywords)| < 2 ==>
      RelevanceOf(text, lower) == Relevance(false, Some(NoLegalVocabulary))
    ensures RelevanceOf(text, lower).isValid <==> |text| >= 50 && |FoundKeywords(lower(text), LegalKeywords)| >= 2
    ensures !RelevanceOf(text, lower).isValid ==> RelevanceOf(text, lower).reason.Some?
  {
    KeywordCountDistinct(lower(text), LegalKeywords);
  }

  /** validateContractRelevance. */
  method ValidateContractRelevance(text: string, lower: string -> string) returns (r: Relevance)
    ensures r == RelevanceOf(text, lower)
    ensures !r.isValid ==> r.reason.Some?
  {
    var lowerText := lower(text);
    var legalKeywords := LegalKeywords;
    var matchCount := 0;
    for i := 0 to |legalKeywords|
      invariant matchCount == KeywordCount(lowerText, legalKeywords[..i])
    {
      assert legalKeywords[..i + 1][..i] == legalKeywords[..i];
      if Contains(lowerText, legalKeywords[i]) {
        matchCount := matchCount + 1;
      }
    }
    assert legalKeywords[..|legalKeywords|] == legalKeywords;
    if |text| < 50 {
      return Relevance(false, Some(TooShort));
    }
    if matchCount < 2 {
      return Relevance(false, Some(NoLegalVocabulary));
    }
    return Relevance(true, None);
  }

  /** The rule findings: the housing rules for a housing lease ('housing' or 'baux'), none
      for any other contract type. */
  function RuleRisks(text: string, contractType: string, exec: (Pattern, string) -> Option<Span>): seq<DetectedRisk>
    requires IsFirstMatcher(exec)
  {
    if contractType == "housing" || contractType == "baux" then Findings(HousingRuleSet, exec, text, |HousingRuleSet|)
    else []
  }

  /** The risks of a report: the rule findings, then the AI findings when AI is enabled. */
  function AllRisks(text: string, config: AnalysisConfig, exec: (Pattern, string) -> Option<Span>,
                    ai: (string, string) -> seq<DetectedRisk>): seq<DetectedRisk>
    requires IsFirstMatcher(exec)
  {
    RuleRisks(text, config.contractType, exec) + (if config.enableAi then ai(text, config.contractType) else [])
  }

  function Summary(riskCount: nat): string {
    "Analyse terminée. " + NatToString(riskCount) + " points d'attention détectés."
  }

  /** The report on an accepted text. */
  function ReportOf(text: string, config: AnalysisConfig, exec: (Pattern, string) -> Option<Span>,
                    ai: (string, string) -> seq<DetectedRisk>, startTime: int, endTime: int, now: int): (rep: AnalysisReport)
    requires IsFirstMatcher(exec)
    ensures rep.risks == AllRisks(text, config, exec, ai)
    ensures rep.score == ScoreOf(rep.risks) && 0 <= rep.score.total <= 100
    ensures rep.summary == Summary(|rep.risks|)
    ensures rep.contractType == config.contractType && rep.documentId == None
    ensures rep.processedAt == now && rep.processingTimeMs == endTime - startTime
  {
    var risks := AllRisks(text, config, exec, ai);
    AnalysisReport(None, config.contractType, ScoreOf(risks), risks, Summary(|risks|), now, endTime - startTime)
  }

  /** analyze: `exec` is the regex engine, `ai` the AI service, `startTime`/`endTime` the
      clock readings taken before and after the work and `now` the report's timestamp.
      A rejected text gives an error (the thrown exception) and no report; an accepted one
      gives the report on it. */
  method Analyze(text: string, config: AnalysisConfig, lower: string -> string,
                 exec: (Pattern, string) -> Option<Span>, ai: (string, string) -> seq<DetectedRisk>,
                 startTime: int, endTime: int, now: int)
    returns (r: Result<AnalysisReport, string>)
    requires IsFirstMatcher(exec)
    ensures !RelevanceOf(text, lower).isValid ==>
      r == Failure(RejectionPrefix + RelevanceOf(text, lower).reason.value)
    ensures RelevanceOf(text, lower).isValid ==> r == Success(ReportOf(text, config, exec, ai, startTime, endTime, now))
  {
    var relevanceCheck := ValidateContractRelevance(text, lower);
    if !relevanceCheck.isValid {
      return Failure(RejectionPrefix + relevanceCheck.reason.value);
    }
    var allRisks := CollectRisks(text, config, exec, ai);
    var score := CalculateScore(allRisks);
    r := Success(AnalysisReport(None, config.contractType, score, allRisks, Summary(|allRisks|), now, endTime - startTime));
  }

  /** Steps 1 and 2 of analyze: the rule findings, then the AI findings. */
  method CollectRisks(text: string, config: AnalysisConfig, exec: (Pattern, string) -> Option<Span>,
                      ai: (string, string) -> seq<DetectedRisk>) returns (allRisks: seq<DetectedRisk>)
    requires IsFirstMatcher(exec)
    ensures allRisks == AllRisks(text, config, exec, ai)
  {
    var ruleRisks: seq<DetectedRisk> := [];
    if config.contractType == "housing" || config.contractType == "baux" {
      ruleRisks := AnalyzeHousingRules(text, exec);
    }
    assert ruleRisks == RuleRisks(text, config.contractType, exec);
    allRisks := ruleRisks;
    if config.enableAi {
      var aiRisks := ai(text, config.contractType);
      allRisks := allRisks + aiRisks;
    }
  }

  /** Only housing leases get rule findings; with AI disabled a report has none of the AI
      service's findings. */
  lemma RuleRisksOnlyForHousing(text: string, config: AnalysisConfig, exec: (Pattern, string) -> Option<Span>,
                                ai: (string, string) -> seq<DetectedRisk>)
    requires IsFirstMatcher(exec)
    ensures config.contractType != "housing" && config.contractType != "baux" ==>
      AllRisks(text, config, exec, ai) == (if config.enableAi then ai(text, config.contractType) else [])
    ensures !config.enableAi ==> AllRisks(text, config, exec, ai) == RuleRisks(text, config.contractType, exec)
    ensures forall k :: 0 <= k < |RuleRisks(text, config.contractType, exec)| ==> RuleRisks(text, config.contractType, exec)[k].source == Rule
  {
    FindingsReported(HousingRuleSet, exec, text, |HousingRuleSet|);
  }
}
