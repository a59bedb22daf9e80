/** The legal retrieval service: keyword-weighted scoring of the embedded legal articles
    against a query, a stable sort by score, top-k selection, and the enrichment of a clause
    analysis with the best references. `lower` stands for str.lower. */
module Rag {
  import opened Wrappers
  import opened Text

  /** One article of the knowledge base. */
  datatype Article = Article(source: string, article: string, title: string, content: string, keywords: seq<string>, category: string)

  /** A search hit: the article's fields unchanged plus relevance_score. */
  datatype Hit = Hit(article: Article, relevanceScore: nat)

  /** One reference of an enrichment. */
  datatype Reference = Reference(source: string, article: string, title: string, summary: string)

  datatype Enrichment = Enrichment(hasReferences: bool, references: seq<Reference>, legalContext: string)

  const NoReferenceText := "Aucune référence légale spécifique trouvée."

  // ---------------------------------------------------------------- scoring

  /** The number of keywords, counted with repetition, that occur in the lower-cased query. */
  function KeywordHits(keywords: seq<string>, queryLower: string): (n: nat)
    ensures n <= |keywords|
    ensures n == 0 <==> forall k :: 0 <= k < |keywords| ==> !Contains(queryLower, keywords[k])
  {
    if keywords == [] then 0
    else
      var init := keywords[..|keywords| - 1];
      assert forall k :: 0 <= k < |init| ==> init[k] == keywords[k];
      KeywordHits(init, queryLower) + (if Contains(queryLower, keywords[|keywords| - 1]) then 1 else 0)
  }

  /** Some word of the query occurs in the lower-cased content. */
  predicate ContentMatches(contentLower: string, queryWords: seq<string>) {
    exists k :: 0 <= k < |queryWords| && Contains(contentLower, queryWords[k])
  }

  /** The clause type is given, not empty, and is the article's category. */
  predicate CategoryMatches(a: Article, clauseType: Option<string>) {
    clauseType.Some? && clauseType.value != [] && a.category == clauseType.value
  }

  /** The relevance of an article: 2 per keyword found, 3 for the category, 1 when a query word
      occurs in the content. */
  function Score(a: Article, queryLower: string, clauseType: Option<string>, lower: string -> string): (s: nat)
    ensures s == 2 * KeywordHits(a.keywords, queryLower)
      + (if CategoryMatches(a, clauseType) then 3 else 0)
      + (if ContentMatches(lower(a.content), Words(queryLower)) then 1 else 0)
    ensures s > 0 <==> KeywordHits(a.keywords, queryLower) > 0 || CategoryMatches(a, clauseType) || ContentMatches(lower(a.content), Words(queryLower))
    ensures s <= 2 * |a.keywords| + 4
  {
    2 * KeywordHits(a.keywords, queryLower)
      + (if CategoryMatches(a, clauseType) then 3 else 0)
      + (if ContentMatches(lower(a.content), Words(queryLower)) then 1 else 0)
  }

  /** The scoring of every article against one query. */
  function Scorer(queryLower: string, clauseType: Option<string>, lower: string -> string): Article -> nat {
    a => Score(a, queryLower, clauseType, lower)
  }

  /** The hits of the scoring loop, in knowledge-base order: every article with a positive score. */
  function Candidates(articles: seq<Article>, score: Article -> nat): (r: seq<Hit>)
    ensures |r| <= |articles|
    ensures forall k :: 0 <= k < |r| ==> r[k].relevanceScore > 0
  {
    if articles == [] then []
    else
      var a := articles[|articles| - 1];
      Candidates(articles[..|articles| - 1], score) + (if score(a) > 0 then [Hit(a, score(a))] else [])
  }

  /** A candidate is an article with its score, and every article with a positive score is a
      candidate. */
  lemma {:induction false} CandidatesSpec(articles: seq<Article>, score: Article -> nat)
    ensures forall h :: h in Candidates(articles, score) ==>
      h.article in articles && h.relevanceScore == score(h.article) && h.relevanceScore > 0
    ensures forall a :: a in articles && score(a) > 0 ==> Hit(a, score(a)) in Candidates(articles, score)
  {
    if articles != [] {
      var init := articles[..|articles| - 1];
      CandidatesSpec(init, score);
      assert articles == init + [articles[|articles| - 1]];
    }
  }

  // ---------------------------------------------------------------- stable sort by score

  /** Python's stable sort with reverse=True on relevance_score, by insertion: each hit goes
      after every hit whose score is at least its own. */
  function Insert(x: Hit, sorted: seq<Hit>): (r: seq<Hit>)
    ensures |r| == |sorted| + 1
    ensures multiset(r) == multiset(sorted) + multiset{x}
  {
    if sorted == [] then [x]
    else if sorted[0].relevanceScore >= x.relevanceScore then
      assert sorted == [sorted[0]] + sorted[1..];
      [sorted[0]] + Insert(x, sorted[1..])
    else [x] + sorted
  }

  function SortByScore(hits: seq<Hit>): (r: seq<Hit>)
    ensures |r| == |hits|
  {
    if hits == [] then []
    else Insert(hits[|hits| - 1], SortByScore(hits[..|hits| - 1]))
  }

  /** Non-increasing relevance scores. */
  predicate SortedByScore(s: seq<Hit>) {
    forall i, j :: 0 <= i < j < |s| ==> s[i].relevanceScore >= s[j].relevanceScore
  }

  /** The hits with a given score, in order. */
  function WithScore(s: seq<Hit>, v: nat): (r: seq<Hit>)
    ensures forall k :: 0 <= k < |r| ==> r[k].relevanceScore == v
  {
    if s == [] then []
    else (if s[0].relevanceScore == v then [s[0]] else []) + WithScore(s[1..], v)
  }

  lemma {:induction false} WithScoreAppend(a: seq<Hit>, b: seq<Hit>, v: nat)
    ensures WithScore(a + b, v) == WithScore(a, v) + WithScore(b, v)
  {
    if a != [] {
      assert (a + b)[1..] == a[1..] + b;
      WithScoreAppend(a[1..], b, v);
    } else {
      assert a + b == b;
    }
  }

  lemma {:induction false} WithScoreNone(s: seq<Hit>, v: nat)
    requires forall k :: 0 <= k < |s| ==> s[k].relevanceScore < v
    ensures WithScore(s, v) == []
  {
    if s != [] {
      WithScoreNone(s[1..], v);
    }
  }

  /** Inserting under a bound keeps every score under it. */
  lemma {:induction false} InsertBound(x: Hit, sorted: seq<Hit>, b: nat)
    requires x.relevanceScore <= b
    requires forall k :: 0 <= k < |sorted| ==> sorted[k].relevanceScore <= b
    ensures forall k :: 0 <= k < |Insert(x, sorted)| ==> Insert(x, sorted)[k].relevanceScore <= b
  {
    if sorted != [] && sorted[0].relevanceScore >= x.relevanceScore {
      InsertBound(x, sorted[1..], b);
      assert Insert(x, sorted) == [sorted[0]] + Insert(x, sorted[1..]);
    }
  }

  lemma {:induction false} InsertSorted(x: Hit, sorted: seq<Hit>)
    requires SortedByScore(sorted)
    ensures SortedByScore(Insert(x, sorted))
  {
    if sorted != [] && sorted[0].relevanceScore >= x.relevanceScore {
      var rest := sorted[1..];
      InsertSorted(x, rest);
      InsertBound(x, rest, sorted[0].relevanceScore);
      var r := Insert(x, sorted);
      assert r == [sorted[0]] + Insert(x, rest);
      forall i, j | 0 <= i < j < |r|
        ensures r[i].relevanceScore >= r[j].relevanceScore
      {
        assert r[j] == Insert(x, rest)[j - 1];
        if i > 0 {
          assert r[i] == Insert(x, rest)[i - 1];
        }
      }
    }
  }

  /** Inserting a hit into sorted hits adds it after the sorted hits of its own score and leaves
      the other scores alone. */
  lemma {:induction false} InsertWithScore(x: Hit, sorted: seq<Hit>, v: nat)
    requires SortedByScore(sorted)
    ensures WithScore(Insert(x, sorted), v) == WithScore(sorted, v) + (if x.relevanceScore == v then [x] else [])
  {
    if sorted == [] {
    } else if sorted[0].relevanceScore >= x.relevanceScore {
      InsertWithScore(x, sorted[1..], v);
      assert Insert(x, sorted)[1..] == Insert(x, sorted[1..]);
    } else {
      assert Insert(x, sorted) == [x] + sorted;
      assert Insert(x, sorted)[1..] == sorted;
      if x.relevanceScore == v {
        WithScoreNone(sorted, v);
      }
    }
  }

  /** The sort is ordered by non-increasing score. */
  lemma {:induction false} SortByScoreSorted(hits: seq<Hit>)
    ensures SortedByScore(SortByScore(hits))
  {
    if hits != [] {
      var init := hits[..|hits| - 1];
      SortByScoreSorted(init);
      InsertSorted(hits[|hits| - 1], SortByScore(init));
    }
  }

  /** The sort is a permutation. */
  lemma {:induction false} SortByScorePermutation(hits: seq<Hit>)
    ensures multiset(SortByScore(hits)) == multiset(hits)
  {
    if hits != [] {
      var init := hits[..|hits| - 1];
      SortByScorePermutation(init);
      assert hits == init + [hits[|hits| - 1]];
    }
  }

  /** The hits with a score, split off at the last hit. */
  lemma WithScoreLast(s: seq<Hit>, v: nat)
    requires s != []
    ensures WithScore(s, v) == WithScore(s[..|s| - 1], v) + (if s[|s| - 1].relevanceScore == v then [s[|s| - 1]] else [])
  {
    var x := s[|s| - 1];
    assert WithScore([x], v) == (if x.relevanceScore == v then [x] else []) by {
      assert [x][1..] == [];
    }
    WithScoreAppend(s[..|s| - 1], [x], v);
    assert s == s[..|s| - 1] + [x];
  }

  /** The sort is stable: the hits of each score keep their order. */
  lemma {:induction false} SortByScoreStable(hits: seq<Hit>, v: nat)
    ensures WithScore(SortByScore(hits), v) == WithScore(hits, v)
  {
    if hits != [] {
      var init := hits[..|hits| - 1];
      var x := hits[|hits| - 1];
      SortByScoreStable(init, v);
      SortByScoreSorted(init);
      InsertWithScore(x, SortByScore(init), v);
      WithScoreLast(hits, v);
    }
  }

  // ---------------------------------------------------------------- search and enrichment

  /** search_relevant_articles: the candidates sorted by score, cut to top_k (Python slicing, so
      a negative top_k drops that many from the end). */
  function SearchResults(articles: seq<Article>, query: string, clauseType: Option<string>, topK: int, lower: string -> string): seq<Hit> {
    var queryLower := lower(query);
    SliceTo(SortByScore(Candidates(articles, Scorer(queryLower, clauseType, lower))), topK)
  }

  /** The first top_k of the sorted hits: at most top_k, drawn from the hits, in non-increasing
      score order, led by a best hit; with a large enough top_k all hits, with each score's hits
      in their original order. */
  lemma TopHitsSpec(hits: seq<Hit>, topK: int)
    ensures var r := SliceTo(SortByScore(hits), topK);
      && (topK >= 0 ==> |r| <= topK)
      && (forall k :: 0 <= k < |r| ==> r[k] in hits)
      && SortedByScore(r)
      && (topK >= |hits| ==> multiset(r) == multiset(hits) && forall v: nat :: WithScore(r, v) == WithScore(hits, v))
      && (forall h :: h in hits ==> r == [] || h.relevanceScore <= r[0].relevanceScore)
  {
    var sorted := SortByScore(hits);
    SortByScoreSorted(hits);
    SortByScorePermutation(hits);
    forall v: nat
      ensures WithScore(sorted, v) == WithScore(hits, v)
    {
      SortByScoreStable(hits, v);
    }
    var r := SliceTo(sorted, topK);
    forall k | 0 <= k < |r|
      ensures r[k] in hits
    {
      assert r[k] == sorted[k];
      assert sorted[k] in multiset(hits);
    }
    forall h | h in hits
      ensures r == [] || h.relevanceScore <= r[0].relevanceScore
    {
      if r != [] {
        assert h in multiset(sorted);
        var j :| 0 <= j < |sorted| && sorted[j] == h;
        assert r[0] == sorted[0];
      }
    }
  }

  /** The first top_k candidates of any scoring: at most top_k, scored above 0, articles with
      their score, in non-increasing score order, and led by a best-scored article. */
  lemma RankedCandidates(articles: seq<Article>, score: Article -> nat, topK: int)
    ensures var r := SliceTo(SortByScore(Candidates(articles, score)), topK);
      && (topK >= 0 ==> |r| <= topK)
      && (forall k :: 0 <= k < |r| ==> r[k].relevanceScore > 0 && r[k].article in articles && r[k].relevanceScore == score(r[k].article))
      && SortedByScore(r)
      && (forall a :: a in articles && score(a) > 0 ==> r == [] || score(a) <= r[0].relevanceScore)
  {
    var candidates := Candidates(articles, score);
    var r := SliceTo(SortByScore(candidates), topK);
    TopHitsSpec(candidates, topK);
    CandidatesSpec(articles, score);
    forall k | 0 <= k < |r|
      ensures r[k].relevanceScore > 0 && r[k].article in articles && r[k].relevanceScore == score(r[k].article)
    {
      assert r[k] in candidates;
    }
    forall a | a in articles && score(a) > 0
      ensures r == [] || score(a) <= r[0].relevanceScore
    {
      assert Hit(a, score(a)) in candidates;
    }
  }

  /** With a top_k of at least the number of candidates, every article scored above 0 is one of
      them, equal scores in their original order. */
  lemma RankedCandidatesComplete(articles: seq<Article>, score: Article -> nat, topK: int)
    requires topK >= |Candidates(articles, score)|
    ensures var r := SliceTo(SortByScore(Candidates(articles, score)), topK);
      && (forall a :: a in articles && score(a) > 0 ==> Hit(a, score(a)) in r)
      && (forall v: nat :: WithScore(r, v) == WithScore(Candidates(articles, score), v))
  {
    var candidates := Candidates(articles, score);
    TopHitsSpec(candidates, topK);
    CandidatesSpec(articles, score);
    var r := SliceTo(SortByScore(candidates), topK);
    forall a | a in articles && score(a) > 0
      ensures Hit(a, score(a)) in r
    {
      assert Hit(a, score(a)) in multiset(candidates);
    }
  }

  /** The results are at most top_k, scored above 0, articles of the knowledge base with their
      score, in non-increasing score order, and led by a best-scored article. */
  lemma SearchResultsSpec(articles: seq<Article>, query: string, clauseType: Option<string>, topK: int, lower: string -> string)
    ensures var r := SearchResults(articles, query, clauseType, topK, lower);
      var score := Scorer(lower(query), clauseType, lower);
      && (topK >= 0 ==> |r| <= topK)
      && (forall k :: 0 <= k < |r| ==> r[k].relevanceScore > 0 && r[k].article in articles && r[k].relevanceScore == score(r[k].article))
      && SortedByScore(r)
      && (forall a :: a in articles && score(a) > 0 ==> r == [] || score(a) <= r[0].relevanceScore)
  {
    RankedCandidates(articles, Scorer(lower(query), clauseType, lower), topK);
  }

  /** With a large enough top_k every article scored above 0 is returned, equal scores in
      knowledge-base order. */
  lemma SearchResultsComplete(articles: seq<Article>, query: string, clauseType: Option<string>, topK: int, lower: string -> string)
    requires topK >= |Candidates(articles, Scorer(lower(query), clauseType, lower))|
    ensures var r := SearchResults(articles, query, clauseType, topK, lower);
      var score := Scorer(lower(query), clauseType, lower);
      && (forall a :: a in articles && score(a) > 0 ==> Hit(a, score(a)) in r)
      && (forall v: nat :: WithScore(r, v) == WithScore(Candidates(articles, score), v))
  {
    RankedCandidatesComplete(articles, Scorer(lower(query), clauseType, lower), topK);
  }

  /** The reference built from an article: its first 150 characters are the summary. */
  function ReferenceOf(a: Article): (r: Reference)
    ensures r.source == a.source && r.article == a.article && r.title == a.title
    ensures r.summary == SliceTo(a.content, 150) + "..." && |r.summary| <= 153
  {
    Reference(a.source, a.article, a.title, SliceTo(a.content, 150) + "...")
  }

  /** The legal context drawn from the top hit. */
  function ContextOf(a: Article): string {
    "Selon " + a.source + " " + a.article + " (" + a.title + "): " + SliceTo(a.content, 200) + "..."
  }

  /** The result of enrich_clause_analysis for hits found by a two-result search. */
  function EnrichmentOf(hits: seq<Hit>): (r: Enrichment)
    ensures !r.hasReferences <==> hits == []
    ensures hits == [] ==> r == Enrichment(false, [], NoReferenceText)
    ensures |r.references| == |hits|
    ensures forall k :: 0 <= k < |hits| ==> r.references[k] == ReferenceOf(hits[k].article)
    ensures hits != [] ==> r.legalContext == ContextOf(hits[0].article)
  {
    if hits == [] then Enrichment(false, [], NoReferenceText)
    else Enrichment(true, ReferencesOf(hits), ContextOf(hits[0].article))
  }

  function ReferencesOf(hits: seq<Hit>): (r: seq<Reference>)
    ensures |r| == |hits|
    ensures forall k :: 0 <= k < |hits| ==> r[k] == ReferenceOf(hits[k].article)
  {
    if hits == [] then []
    else
      var init := ReferencesOf(hits[..|hits| - 1]);
      init + [ReferenceOf(hits[|hits| - 1].article)]
  }

  /** The service with its knowledge base. */
  class LegalRagService {
    var kbPath: string
    var articles: seq<Article>

    /** __init__: an empty list extended with the embedded knowledge base. */
    constructor (knowledgeBasePath: string)
      ensures kbPath == knowledgeBasePath
      ensures articles == KnowledgeBase && |articles| == 32
    {
      kbPath := knowledgeBasePath;
      articles := [];
      new;
      LoadKnowledgeBase();
    }

    /** load_knowledge_base: appends the embedded articles. */
    method LoadKnowledgeBase()
      modifies this
      ensures articles == old(articles) + KnowledgeBase
      ensures kbPath == old(kbPath)
    {
      articles := articles + KnowledgeBase;
    }

    /** The inner loop of search_relevant_articles: 2 per keyword found in the query. */
    static method KeywordScore(keywords: seq<string>, queryLower: string) returns (score: nat)
      ensures score == 2 * KeywordHits(keywords, queryLower)
    {
      score := 0;
      for i := 0 to |keywords|
        invariant score == 2 * KeywordHits(keywords[..i], queryLower)
      {
        assert keywords[..i + 1][..i] == keywords[..i];
        if Contains(queryLower, keywords[i]) {
          score := score + 2;
        }
      }
      assert keywords[..|keywords|] == keywords;
    }

    /** search_relevant_articles. */
    method SearchRelevantArticles(query: string, clauseType: Option<string>, topK: int, lower: string -> string)
      returns (r: seq<Hit>)
      ensures r == SearchResults(articles, query, clauseType, topK, lower)
    {
      var queryLower := lower(query);
      ghost var score := Scorer(queryLower, clauseType, lower);
      var results: seq<Hit> := [];
      for i := 0 to |articles|
        invariant results == Candidates(articles[..i], score)
      {
        assert articles[..i + 1][..i] == articles[..i];
        var article := articles[i];
        var s := KeywordScore(article.keywords, queryLower);
        if clauseType.Some? && clauseType.value != [] && article.category == clauseType.value {
          s := s + 3;
        }
        if ContentMatches(lower(article.content), Words(queryLower)) {
          s := s + 1;
        }
        assert s == score(article);
        if s > 0 {
          results := results + [Hit(article, s)];
        }
      }
      assert articles[..|articles|] == articles;
      results := SortByScore(results);
      r := SliceTo(results, topK);
    }

    /** The reference loop of enrich_clause_analysis. */
    static method References(hits: seq<Hit>) returns (references: seq<Reference>)
      ensures references == ReferencesOf(hits)
    {
      references := [];
      for i := 0 to |hits|
        invariant references == ReferencesOf(hits[..i])
      {
        assert hits[..i + 1][..i] == hits[..i];
        var article := hits[i].article;
        references := references + [Reference(article.source, article.article, article.title, SliceTo(article.content, 150) + "...")];
      }
      assert hits[..|hits|] == hits;
    }

    /** enrich_clause_analysis. */
    method EnrichClauseAnalysis(clauseText: string, clauseType: string, lower: string -> string)
      returns (r: Enrichment)
      ensures r == EnrichmentOf(SearchResults(articles, clauseText, Some(clauseType), 2, lower))
    {
      var relevantArticles := SearchRelevantArticles(clauseText, Some(clauseType), 2, lower);
      if relevantArticles == [] {
        return Enrichment(false, [], NoReferenceText);
      }
      var references := References(relevantArticles);
      var mainRef := relevantArticles[0].article;
      var legalContext := ContextOf(mainRef);
      r := Enrichment(true, references, legalContext);
    }
  }

  /** An enrichment has at most two references, from the best-scored hits in order, each
      summary being the first 150 characters of the content; with no hit it says so. */
  lemma EnrichmentSpec(articles: seq<Article>, clauseText: string, clauseType: string, lower: string -> string)
    ensures var hits := SearchResults(articles, clauseText, Some(clauseType), 2, lower);
      var r := EnrichmentOf(hits);
      && |r.references| <= 2
      && (hits == [] ==> r == Enrichment(false, [], NoReferenceText))
      && (hits != [] ==> r.hasReferences && r.legalContext == ContextOf(hits[0].article))
      && (forall k :: 0 <= k < |r.references| ==> r.references[k].summary == SliceTo(hits[k].article.content, 150) + "...")
  {
    SearchResultsSpec(articles, clauseText, Some(clauseType), 2, lower);
  }

  /** _get_complete_knowledge_base: 32 articles (its comments announce 35). */
  const KnowledgeBase: seq<Article> := [
    Article("Loi 89-462", "Article 1", "Champ d'application",
      "La présente loi s'applique aux locations de locaux à usage d'habitation ou à usage mixte professionnel et d'habitation. Ne s'applique pas aux locations saisonnières, aux logements de fonction.",
      ["champ", "application", "habitation", "mixte", "exclusion", "saisonnier"], "general"),
    Article("Loi 89-462", "Article 2", "Contenu du contrat",
      "Le contrat de location est établi par écrit et respecte un contrat type. Mentions obligatoires : nom des parties, durée, surface habitable, montant du loyer et dépôt de garantie.",
      ["contrat", "écrit", "mentions", "obligatoire", "surface"], "general"),
    Article("Loi 89-462", "Article 3", "Durée du bail",
      "Le contrat de location est conclu pour une durée minimale de trois ans (personne physique) ou six ans (personne morale). Renouvellement tacite sauf congé.",
      ["durée", "bail", "trois ans", "six ans", "renouvellement"], "duration"),
    Article("Loi 89-462", "Article 3-1", "Bail mobilité",
      "Bail de 1 à 10 mois pour mobilité professionnelle, formation, études. Pas de dépôt de garantie, préavis d'un mois, pas de tacite reconduction.",
      ["mobilité", "court terme", "étudiant", "formation", "préavis"], "duration"),
    Article("Loi 89-462", "Article 4", "Loyer du bail renouvelé",
      "Lors du renouvellement, le bailleur peut proposer un nouveau loyer. En cas de désaccord, le juge fixe le loyer selon les loyers du voisinage.",
      ["renouvellement", "loyer", "augmentation", "juge", "voisinage"], "financial"),
    Article("Loi 89-462", "Article 5", "Préavis du locataire",
      "Le locataire peut résilier avec un préavis de 3 mois (réduit à 1 mois pour mutation, perte d'emploi, RSA, AAH, santé, +60 ans). Notification par LRAR ou huissier.",
      ["préavis", "résiliation", "trois mois", "un mois", "locataire", "mutation"], "termination"),
    Article("Loi 89-462", "Article 6", "Clauses abusives interdites",
      "Sont réputées non écrites : interdiction visiteurs, assurance imposée, dépôt excessif, travaux à charge locataire, entrée sans préavis, résiliation automatique, prélèvement obligatoire, pénalités disproportionnées.",
      ["clause", "abusive", "interdite", "non écrite", "visiteur", "assurance", "pénalité"], "general"),
    Article("Loi 89-462", "Article 7", "Loyer",
      "Le loyer est fixé librement à la conclusion. Révision annuelle possible selon l'IRL. Encadrement possible dans zones tendues.",
      ["loyer", "libre", "révision", "IRL", "encadrement"], "financial"),
    Article("Loi 89-462", "Article 7-1", "Complément de loyer",
      "En zone tendue, complément possible si caractéristiques exceptionnelles (localisation, confort). Justification obligatoire par éléments objectifs.",
      ["complément", "loyer", "zone tendue", "exceptionnel", "justification"], "financial"),
    Article("Loi 89-462", "Article 8", "Charges récupérables",
      "Charges énumérées par décret : eau, chauffage collectif, ascenseur, espaces verts, ordures ménagères.",
      ["charges", "récupérable", "eau", "chauffage", "ordures"], "financial"),
    Article("Loi 89-462", "Article 15", "Congé du bailleur",
      "Le bailleur peut donner congé pour : reprise (lui-même ou proche), vente, motif légitime et sérieux. Préavis de 6 mois par LRAR.",
      ["congé", "bailleur", "reprise", "vente", "six mois", "préavis"], "termination"),
    Article("Loi 89-462", "Article 20", "Révision du loyer",
      "La révision annuelle ne peut excéder la variation de l'IRL. Calcul : Loyer × (IRL trimestre / IRL année précédente).",
      ["révision", "loyer", "IRL", "indice", "annuel"], "financial"),
    Article("Loi 89-462", "Article 22", "Dépôt de garantie",
      "Maximum 1 mois de loyer (vide) ou 2 mois (meublé). Restitution sous 2 mois (1 mois si état des lieux conforme). Dépôt supérieur = abusif.",
      ["dépôt", "garantie", "caution", "mois", "loyer", "restitution"], "financial"),
    Article("Loi 89-462", "Article 24", "Clause résolutoire",
      "Joue uniquement pour : non-paiement loyer/charges, non-paiement dépôt, défaut d'assurance. Procédure : mise en demeure LRAR, 2 mois pour régulariser, puis assignation. Délais de paiement possibles (3 ans).",
      ["clause", "résolutoire", "résiliation", "paiement", "mise en demeure", "délai"], "termination"),
    Article("Loi 89-462", "Article 25", "Travaux",
      "Grosses réparations (gros murs, toiture, structure) = bailleur. Réparations locatives (entretien courant) = locataire. Travaux d'amélioration énergétique possibles avec préavis 6 mois.",
      ["travaux", "réparation", "grosse", "locative", "charge", "bailleur", "locataire"], "general"),
    Article("Loi 89-462", "Article 25-4", "Logement décent",
      "Le bailleur doit remettre un logement décent sans risques pour la sécurité ou la santé. Critères : surface minimale, équipements conformes, performance énergétique.",
      ["décent", "logement", "sécurité", "santé", "surface", "équipement"], "general"),
    Article("Loi 89-462", "Article 25-5", "DPE",
      "Diagnostic de performance énergétique obligatoire à la signature. Interdiction de louer les passoires thermiques (classe G) dès 2025.",
      ["DPE", "diagnostic", "énergétique", "performance", "passoire", "G"], "general"),
    Article("Code Civil", "Article 606", "Grosses réparations",
      "Grosses réparations : gros murs, voûtes, poutres, couvertures entières, murs de soutènement. Toutes autres = entretien. Exemples grosses : murs porteurs, charpente, toiture. Exemples entretien : peinture, joints, jardin.",
      ["grosse", "réparation", "mur", "toiture", "entretien", "charpente"], "general"),
    Article("Code Civil", "Article 1103", "Force obligatoire",
      "Les contrats légalement formés tiennent lieu de loi à ceux qui les ont faits. Un contrat signé doit être respecté par les deux parties.",
      ["force", "obligatoire", "contrat", "loi", "respect"], "general"),
    Article("Code Civil", "Article 1104", "Bonne foi",
      "Les contrats doivent être négociés, formés et exécutés de bonne foi. Disposition d'ordre public. Interdit comportements déloyaux, trompeurs ou abusifs.",
      ["bonne foi", "ordre public", "déloyal", "trompeur", "abusif"], "general"),
    Article("Code Civil", "Article 1171", "Clauses abusives",
      "Toute clause créant un déséquilibre significatif entre droits et obligations est réputée non écrite. Exemples : modification unilatérale loyer, interdiction sous-location sans motif, résiliation automatique.",
      ["clause", "abusive", "déséquilibre", "non écrite", "unilatéral"], "general"),
    Article("Code Civil", "Article 1195", "Imprévision",
      "Si changement de circonstances imprévisible rend l'exécution excessivement onéreuse, renégociation possible. Application : crise économique, catastrophe naturelle.",
      ["imprévision", "renégociation", "circonstances", "crise", "catastrophe"], "general"),
    Article("Code Civil", "Article 1231-1", "Responsabilité contractuelle",
      "Le débiteur est condamné au paiement de dommages-intérêts en cas d'inexécution ou de retard. Base de la responsabilité contractuelle.",
      ["responsabilité", "dommages", "intérêts", "inexécution", "retard"], "general"),
    Article("Code Civil", "Article 1231-5", "Clause pénale",
      "Clause pénale : somme fixée en cas de manquement. Le juge peut modérer si manifestement excessive ou dérisoire. Exemple : 100€/jour pour retard = excessif et réductible.",
      ["clause", "pénale", "pénalité", "juge", "modération", "excessif"], "financial"),
    Article("Code Civil", "Article 1719", "Obligations du bailleur",
      "Le bailleur doit : 1) Délivrer la chose louée (clés, logement conforme), 2) Entretenir en état (grosses réparations, normes), 3) Faire jouir paisiblement (pas de troubles).",
      ["obligation", "bailleur", "délivrance", "entretien", "jouissance", "paisible"], "general"),
    Article("Code Civil", "Article 1720", "Garantie des vices",
      "Le bailleur doit délivrer la chose en bon état et faire toutes réparations nécessaires (hors locatives). Garantit que le logement est habitable.",
      ["garantie", "vice", "bon état", "habitable", "réparation"], "general"),
    Article("Code Civil", "Article 1721", "Garantie des troubles",
      "Le bailleur garantit le preneur contre tous troubles et empêchements à sa jouissance. Protection contre travaux excessifs, nuisances.",
      ["garantie", "trouble", "jouissance", "nuisance", "empêchement"], "general"),
    Article("Code Civil", "Article 1728", "Obligations du locataire",
      "Le preneur doit : 1) User en bon père de famille (usage normal, entretien, pas de dégradations), 2) Payer le loyer et charges aux dates convenues.",
      ["obligation", "locataire", "bon père", "paiement", "loyer", "usage"], "general"),
    Article("Code Civil", "Article 1729", "Réparations locatives",
      "Le preneur est tenu des réparations locatives ou de menu entretien, conformément à la liste par décret. Le locataire assure l'entretien courant.",
      ["réparation", "locative", "entretien", "menu", "locataire"], "general"),
    Article("Code Civil", "Article 1730", "Dégradations",
      "Le preneur répond des dégradations pendant sa jouissance, sauf preuve qu'elles ont eu lieu sans sa faute. Responsable des dommages sauf force majeure.",
      ["dégradation", "responsabilité", "dommage", "faute", "force majeure"], "general"),
    Article("Code Civil", "Article 1735", "Restitution",
      "À la fin du bail, rendre la chose telle que reçue selon état des lieux, excepté vétusté ou force majeure. Importance état des lieux entrée/sortie. Vétusté normale non facturée.",
      ["restitution", "état des lieux", "vétusté", "fin", "bail"], "termination"),
    Article("Code Civil", "Article 1736", "Clause résolutoire",
      "La clause résolutoire doit être expressément prévue au contrat et respecter les conditions légales. Résiliation automatique uniquement si prévue et avec mise en demeure + délais.",
      ["clause", "résolutoire", "résiliation", "automatique", "mise en demeure"], "termination")]
}
