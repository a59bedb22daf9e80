/** Keyword-based contract-type detection over a list of contract-type definitions, with the
    legal references of each type. `lower` stands for str.lower. */
module ContractDetector {
  import opened Wrappers
  import opened Text

  datatype ContractCategory =
    | DailyHousing | DailyConsumption | DailyInsurance | Employment | Freelance | Commercial
    | DigitalIp | RealEstateConstruction | TransportLeisure | HighRisk | International | Subcontracting

  /** The enum's value. */
  function CategoryValue(c: ContractCategory): string {
    match c
    case DailyHousing => "Logement"
    case DailyConsumption => "Consommation"
    case DailyInsurance => "Assurances"
    case Employment => "Travail Salarié"
    case Freelance => "Freelance/Indépendants"
    case Commercial => "Commercial & Business"
    case DigitalIp => "Numérique & Propriété Intellectuelle"
    case RealEstateConstruction => "Immobilier & Construction"
    case TransportLeisure => "Transport & Loisirs"
    case HighRisk => "Contrats à Risque Élevé"
    case International => "Contrats Internationaux"
    case Subcontracting => "Sous-traitance"
  }

  datatype LegalReference = LegalReference(code: string, article: string, title: string, summary: string, relevanceScore: real)

  datatype ContractTypeDefinition = ContractTypeDefinition(key: string, name: string, category: ContractCategory, keywords: seq<string>, legalCodes: seq<string>, priority: int)

  /** An entry of the scores list. */
  datatype Candidate = Candidate(key: string, name: string, category: ContractCategory, confidence: real, matches: seq<string>)

  datatype Detection = Detection(key: string, confidence: real, name: string, category: ContractCategory)

  /** An entry of get_all_contract_types. */
  datatype TypeSummary = TypeSummary(key: string, name: string, category: string, keywordsCount: nat)

  const DefaultDetection := Detection("prestation_services", 0.5, "Contrat de Prestation de Services", Freelance)

  // ---------------------------------------------------------------- detection

  /** The keywords whose lower-cased form occurs in the lower-cased text, in order. */
  function MatchedKeywords(keywords: seq<string>, textLower: string, lower: string -> string): (r: seq<string>)
    ensures |r| <= |keywords|
    ensures forall k :: 0 <= k < |r| ==> r[k] in keywords && Contains(textLower, lower(r[k]))
    ensures r == [] <==> forall k :: 0 <= k < |keywords| ==> !Contains(textLower, lower(keywords[k]))
  {
    if keywords == [] then []
    else
      var init := keywords[..|keywords| - 1];
      var last := keywords[|keywords| - 1];
      assert forall k :: 0 <= k < |init| ==> init[k] == keywords[k];
      MatchedKeywords(init, textLower, lower) + (if Contains(textLower, lower(last)) then [last] else [])
  }

  function MinReal(a: real, b: real): real {
    if a <= b then a else b
  }

  /** The candidate of a definition: present with at least one matched keyword, with confidence
      min(1.0, matches / keywords * priority). */
  function CandidateOf(d: ContractTypeDefinition, textLower: string, lower: string -> string): (r: Option<Candidate>)
    ensures r.Some? <==> MatchedKeywords(d.keywords, textLower, lower) != []
    ensures r.Some? ==> r.value.key == d.key && r.value.name == d.name && r.value.category == d.category
    ensures r.Some? ==> r.value.matches == MatchedKeywords(d.keywords, textLower, lower)
    ensures r.Some? ==> r.value.confidence <= 1.0
    ensures r.Some? && d.priority >= 1 ==> r.value.confidence > 0.0
  {
    var matches := MatchedKeywords(d.keywords, textLower, lower);
    if |matches| > 0 then
      var confidence := (|matches| as real / |d.keywords| as real) * d.priority as real;
      PositiveConfidence(|matches|, |d.keywords|, d.priority);
      Some(Candidate(d.key, d.name, d.category, MinReal(1.0, confidence), matches))
    else None
  }

  lemma PositiveConfidence(m: nat, n: nat, p: int)
    requires 0 < m <= n
    ensures p >= 1 ==> (m as real / n as real) * p as real > 0.0
  {
    if p >= 1 {
      var q := m as real / n as real;
      assert q * (n as real) == m as real;
      assert q > 0.0;
      assert q * (p as real) >= q;
    }
  }

  /** The scores list after the loop over the definitions, where `candidate` scores one. */
  function Candidates(defs: seq<ContractTypeDefinition>, candidate: ContractTypeDefinition -> Option<Candidate>): (r: seq<Candidate>)
    ensures |r| <= |defs|
  {
    if defs == [] then []
    else
      var c := candidate(defs[|defs| - 1]);
      Candidates(defs[..|defs| - 1], candidate) + (if c.Some? then [c.value] else [])
  }

  /** Every candidate is the candidate of a definition, and there is one exactly when some
      definition has one. */
  lemma {:induction false} CandidatesSpec(defs: seq<ContractTypeDefinition>, candidate: ContractTypeDefinition -> Option<Candidate>)
    ensures forall c :: c in Candidates(defs, candidate) ==> exists d :: d in defs && candidate(d) == Some(c)
    ensures Candidates(defs, candidate) == [] <==> forall d :: d in defs ==> candidate(d).None?
  {
    if defs != [] {
      var init := defs[..|defs| - 1];
      CandidatesSpec(init, candidate);
      assert defs == init + [defs[|defs| - 1]];
    }
  }

  /** The candidate of each definition for a text. */
  function Scorer(textLower: string, lower: string -> string): ContractTypeDefinition -> Option<Candidate> {
    d => CandidateOf(d, textLower, lower)
  }

  /** max(scores, key=confidence): the first candidate of greatest confidence. */
  function BestIndex(cands: seq<Candidate>): (b: nat)
    requires cands != []
    ensures b < |cands|
    ensures forall k :: 0 <= k < |cands| ==> cands[k].confidence <= cands[b].confidence
    ensures forall k :: 0 <= k < b ==> cands[k].confidence < cands[b].confidence
  {
    if |cands| == 1 then 0
    else
      var b := BestIndex(cands[..|cands| - 1]);
      if cands[|cands| - 1].confidence > cands[b].confidence then |cands| - 1 else b
  }

  /** The result of detect_contract_type. */
  function Detected(defs: seq<ContractTypeDefinition>, text: string, lower: string -> string): Detection {
    var scores := Candidates(defs, Scorer(lower(text), lower));
    if scores == [] then DefaultDetection
    else
      var best := scores[BestIndex(scores)];
      Detection(best.key, best.confidence, best.name, best.category)
  }

  /** With no keyword matching any type the default service contract is returned; otherwise the
      first candidate of greatest confidence, of a definition that matched, with confidence in
      (0, 1] when priorities are positive. */
  lemma DetectedSpec(defs: seq<ContractTypeDefinition>, text: string, lower: string -> string)
    ensures var r := Detected(defs, text, lower);
      var scores := Candidates(defs, Scorer(lower(text), lower));
      && ((forall d :: d in defs ==> MatchedKeywords(d.keywords, lower(text), lower) == []) ==> r == DefaultDetection)
      && (scores != [] ==>
          && (exists d :: d in defs && MatchedKeywords(d.keywords, lower(text), lower) != [] && r.key == d.key && r.name == d.name && r.category == d.category)
          && (forall k :: 0 <= k < |scores| ==> scores[k].confidence <= r.confidence)
          && r.confidence <= 1.0
          && ((forall d :: d in defs ==> d.priority >= 1) ==> r.confidence > 0.0))
  {
    var scorer := Scorer(lower(text), lower);
    assert forall d :: scorer(d) == CandidateOf(d, lower(text), lower);
    var scores := Candidates(defs, scorer);
    CandidatesSpec(defs, scorer);
    if scores != [] {
      var best := scores[BestIndex(scores)];
      assert best in scores;
      var d :| d in defs && CandidateOf(d, lower(text), lower) == Some(best);
    }
  }

  // ---------------------------------------------------------------- references and listing

  /** The position of the first definition with the key, or the length when there is none. */
  function FirstWithKey(defs: seq<ContractTypeDefinition>, key: string): (i: nat)
    ensures i <= |defs|
    ensures forall j :: 0 <= j < i ==> defs[j].key != key
    ensures i < |defs| ==> defs[i].key == key
  {
    if defs == [] then 0
    else if defs[0].key == key then 0
    else 1 + FirstWithKey(defs[1..], key)
  }

  /** The first definition with the key, as next(...) finds it. */
  function FindDefinition(defs: seq<ContractTypeDefinition>, key: string): (r: Option<ContractTypeDefinition>)
    ensures r.None? <==> forall k :: 0 <= k < |defs| ==> defs[k].key != key
    ensures r.Some? ==> r.value.key == key && r.value == defs[FirstWithKey(defs, key)]
  {
    var i := FirstWithKey(defs, key);
    if i < |defs| then Some(defs[i]) else None
  }

  /** The references of the known codes, in the order of the codes. */
  function CodeReferences(codes: seq<string>, db: map<string, seq<LegalReference>>): seq<LegalReference> {
    if codes == [] then []
    else
      var last := codes[|codes| - 1];
      CodeReferences(codes[..|codes| - 1], db) + (if last in db then db[last] else [])
  }

  /** The references of two code lists are concatenated; a single code gives its own references
      or none. */
  lemma {:induction false} CodeReferencesAppend(a: seq<string>, b: seq<string>, db: map<string, seq<LegalReference>>)
    ensures CodeReferences(a + b, db) == CodeReferences(a, db) + CodeReferences(b, db)
    ensures CodeReferences([], db) == []
    decreases |b|
  {
    if b == [] {
      assert a + b == a;
    } else {
      var b' := b[..|b| - 1];
      CodeReferencesAppend(a, b', db);
      assert (a + b)[..|a + b| - 1] == a + b';
    }
  }

  lemma CodeReferencesSingle(code: string, db: map<string, seq<LegalReference>>)
    ensures CodeReferences([code], db) == if code in db then db[code] else []
  {
    assert [code][..0] == [];
  }

  /** The result of get_legal_references. */
  function LegalReferencesFor(defs: seq<ContractTypeDefinition>, db: map<string, seq<LegalReference>>, key: string): (r: seq<LegalReference>)
    ensures |r| <= 6
    ensures (forall k :: 0 <= k < |defs| ==> defs[k].key != key) ==> r == []
    ensures FindDefinition(defs, key).Some? ==> r == SliceTo(CodeReferences(FindDefinition(defs, key).value.legalCodes, db), 6)
  {
    var d := FindDefinition(defs, key);
    if d.None? then [] else SliceTo(CodeReferences(d.value.legalCodes, db), 6)
  }

  /** get_all_contract_types: one entry per definition, in order. */
  function AllContractTypes(defs: seq<ContractTypeDefinition>): (r: seq<TypeSummary>)
    ensures |r| == |defs|
    ensures forall k :: 0 <= k < |defs| ==>
      r[k] == TypeSummary(defs[k].key, defs[k].name, CategoryValue(defs[k].category), |defs[k].keywords|)
  {
    if defs == [] then []
    else
      var init := defs[..|defs| - 1];
      var d := defs[|defs| - 1];
      assert forall k :: 0 <= k < |init| ==> init[k] == defs[k];
      AllContractTypes(init) + [TypeSummary(d.key, d.name, CategoryValue(d.category), |d.keywords|)]
  }

  /** The detector over its definitions and references database. */
  datatype Detector = Detector(contractTypes: seq<ContractTypeDefinition>, legalReferences: map<string, seq<LegalReference>>) {

    /** The keyword loop of detect_contract_type for one definition. */
    static method MatchKeywords(keywords: seq<string>, textLower: string, lower: string -> string) returns (score: nat, matches: seq<string>)
      ensures matches == MatchedKeywords(keywords, textLower, lower) && score == |matches|
    {
      score := 0;
      matches := [];
      for i := 0 to |keywords|
        invariant matches == MatchedKeywords(keywords[..i], textLower, lower) && score == |matches|
      {
        assert keywords[..i + 1][..i] == keywords[..i] && keywords[..i + 1][i] == keywords[i];
        var keyword := keywords[i];
        if Contains(textLower, lower(keyword)) {
          score := score + 1;
          matches := matches + [keyword];
        }
      }
      assert keywords[..|keywords|] == keywords;
    }

    /** The body of the definition loop of detect_contract_type: a candidate when a keyword
        matched. */
    static method ScoreDefinition(contractDef: ContractTypeDefinition, textLower: string, lower: string -> string)
      returns (r: Option<Candidate>)
      ensures r == Scorer(textLower, lower)(contractDef)
    {
      assert Scorer(textLower, lower)(contractDef) == CandidateOf(contractDef, textLower, lower);
      var score, matches := MatchKeywords(contractDef.keywords, textLower, lower);
      if score > 0 {
        var confidence := (score as real / |contractDef.keywords| as real) * contractDef.priority as real;
        assert confidence == (|MatchedKeywords(contractDef.keywords, textLower, lower)| as real / |contractDef.keywords| as real) * contractDef.priority as real;
        r := Some(Candidate(contractDef.key, contractDef.name, contractDef.category, MinReal(1.0, confidence), matches));
        assert CandidateOf(contractDef, textLower, lower).Some?;
        assert CandidateOf(contractDef, textLower, lower).value.matches == matches;
        assert CandidateOf(contractDef, textLower, lower).value.confidence == MinReal(1.0, confidence);
        assert r == CandidateOf(contractDef, textLower, lower);
        return;
      }
      assert MatchedKeywords(contractDef.keywords, textLower, lower) == [];
      return None;
    }

    /** detect_contract_type. */
    method DetectContractType(text: string, lower: string -> string) returns (r: Detection)
      ensures r == Detected(contractTypes, text, lower)
    {
      var textLower := lower(text);
      var scores: seq<Candidate> := [];
      for i := 0 to |contractTypes|
        invariant scores == Candidates(contractTypes[..i], Scorer(textLower, lower))
      {
        assert contractTypes[..i + 1][..i] == contractTypes[..i] && contractTypes[..i + 1][i] == contractTypes[i];
        var candidate := ScoreDefinition(contractTypes[i], textLower, lower);
        if candidate.Some? {
          scores := scores + [candidate.value];
        }
      }
      assert contractTypes[..|contractTypes|] == contractTypes;
      if scores == [] {
        return DefaultDetection;
      }
      var best := scores[BestIndex(scores)];
      r := Detection(best.key, best.confidence, best.name, best.category);
    }

    /** get_legal_references. */
    method GetLegalReferences(contractKey: string) returns (r: seq<LegalReference>)
      ensures r == LegalReferencesFor(contractTypes, legalReferences, contractKey)
    {
      var contractDef := FindDefinition(contractTypes, contractKey);
      if contractDef.None? {
        return [];
      }
      var codes := contractDef.value.legalCodes;
      var references: seq<LegalReference> := [];
      for i := 0 to |codes|
        invariant references == CodeReferences(codes[..i], legalReferences)
      {
        assert codes[..i + 1][..i] == codes[..i];
        var code := codes[i];
        if code in legalReferences {
          references := references + legalReferences[code];
        }
      }
      assert codes[..|codes|] == codes;
      r := SliceTo(references, 6);
    }
  }

  /** ComprehensiveContractDetector(): the definitions with the embedded references database. */
  function NewDetector(contractTypes: seq<ContractTypeDefinition>): (r: Detector)
    ensures r.contractTypes == contractTypes && r.legalReferences == LegalDatabase
  {
    Detector(contractTypes, LegalDatabase)
  }

  /** The embedded references database. */
  const LegalDatabase: map<string, seq<LegalReference>> := map[
    "loi_89_462" := [
      LegalReference("Loi 89-462", "Article 1", "Bail d'habitation",
        "Régit les locations à usage d'habitation", 1.0)],
    "code_travail_cdi" := [
      LegalReference("Code du Travail", "L1221-1", "Contrat de travail",
        "Règles applicables au CDI", 1.0),
      LegalReference("Code du Travail", "L1231-1", "Rupture CDI",
        "Liberté de rupture du CDI sous conditions (licenciement, démission)", 1.0)],
    "code_assurances" := [
      LegalReference("Code des Assurances", "L112-1", "Contrat d'assurance",
        "Le contrat doit être rédigé par écrit, en français et en caractères apparents.", 1.0),
      LegalReference("Code des Assurances", "L113-1", "Obligations",
        "Obligation de payer la prime et de déclarer les risques exacts.", 1.0),
      LegalReference("Code des Assurances", "L113-2", "Déclaration",
        "L'assuré doit déclarer tout sinistre de nature à entraîner la garantie.", 1.0),
      LegalReference("Code des Assurances", "L113-12", "Résiliation",
        "Droit de résiliation annuelle à l'échéance avec préavis de 2 mois.", 1.0),
      LegalReference("Code des Assurances", "L113-15-2", "Loi Hamon",
        "Droit de résiliation infra-annuelle après 1 an de contrat (auto/habitation).", 1.0)],
    "code_consommation" := [
      LegalReference("Code de la Consommation", "L221-18", "Droit de Rétractation",
        "Délai de 14 jours pour se rétracter d'un contrat conclu à distance ou hors établissement.", 1.0),
      LegalReference("Code de la Consommation", "L217-4", "Garantie de Conformité",
        "Le vendeur doit livrer un bien conforme au contrat et répond des défauts de conformité existant lors de la délivrance (2 ans).", 1.0),
      LegalReference("Code de la Consommation", "L212-1", "Clauses Abusives",
        "Sont abusives les clauses qui créent un déséquilibre significatif entre les droits et obligations des parties.", 1.0),
      LegalReference("Code de la Consommation", "L215-1", "Loi Chatel",
        "Le professionnel doit informer le consommateur de la possibilité de ne pas reconduire un contrat tacitement reconductible.", 1.0),
      LegalReference("Code de la Consommation", "L312-1", "Loi Scrivener (Crédit)",
        "Obligation d'information précontractuelle et maintien de l'offre de crédit pendant 15 jours.", 1.0)],
    "code_route" := [
      LegalReference("Code de la Route", "L211-1", "Obligation d'assurance",
        "Tout véhicule terrestre à moteur doit être assuré (RC obligatoire).", 1.0)],
    "code_securite_sociale" := [
      LegalReference("Code de la Sécurité Sociale", "L871-1", "Contrat Responsable",
        "Respect des plafonds et planchers de remboursement pour la fiscalité avantageuse.", 1.0)]]
}
