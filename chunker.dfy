/** The smart chunker: cuts a cleaned contract into article chunks (or, failing that, into
    long paragraphs), truncates each chunk to the maximum size, types it by keyword and
    attaches its context line. `lower` stands for str.lower and `find` for the regex
    engine's list of matches of a pattern. */
module Chunker {
  import opened Text
  import opened Regex
  import opened Articles

  /** The article markers, in the order they are tried: `(Article\s+\d+(?:\.\d+)?)`,
      `(ARTICLE\s+[IVX]+)` and `(Clause\s+\d+)`, each one capturing group. */
  const ArticlePatterns: seq<Pattern> := [
    Pattern(@"(Article\s+\d+(?:\.\d+)?)", false),
    Pattern(@"(ARTICLE\s+[IVX]+)", false),
    Pattern(@"(Clause\s+\d+)", false)]

  /** The chunks of the first pattern whose split recombines into at least one chunk, [] when
      there is none: the loop of _chunk_by_articles from `patterns` on. */
  function ArticleChunksFrom(text: string, find: (Pattern, string) -> seq<Span>, patterns: seq<Pattern>): seq<string>
    requires IsFinder(find)
    decreases |patterns|
  {
    if patterns == [] then []
    else
      var spans := find(patterns[0], text);
      var result := if spans != [] then Recombined(SplitAround(text, spans, 0)) else [];
      if result != [] then result else ArticleChunksFrom(text, find, patterns[1..])
  }

  /** The index of the first pattern the engine finds in the text, |patterns| when none. */
  function FirstMatching(text: string, find: (Pattern, string) -> seq<Span>, patterns: seq<Pattern>): (g: nat)
    ensures g <= |patterns|
    ensures g < |patterns| ==> find(patterns[g], text) != []
    ensures forall h :: 0 <= h < g ==> find(patterns[h], text) == []
    decreases |patterns|
  {
    if patterns == [] then 0
    else if find(patterns[0], text) != [] then 0
    else
      var g := FirstMatching(text, find, patterns[1..]);
      assert forall h :: 1 <= h < 1 + g ==> patterns[h] == patterns[1..][h - 1];
      1 + g
  }

  /** The first pattern with a match decides: there is one chunk per match of it, the marker,
      a space and the text up to the next match; with no pattern matching there are none. */
  lemma {:induction false} ArticleChunksCases(text: string, find: (Pattern, string) -> seq<Span>, patterns: seq<Pattern>)
    requires IsFinder(find)
    ensures var g := FirstMatching(text, find, patterns);
      && (g == |patterns| ==> ArticleChunksFrom(text, find, patterns) == [])
      && (g < |patterns| ==>
            var spans := find(patterns[g], text);
            && |ArticleChunksFrom(text, find, patterns)| == |spans|
            && forall j :: 0 <= j < |spans| ==>
                 ArticleChunksFrom(text, find, patterns)[j] == text[spans[j].start..spans[j].end] + " " + Following(text, spans, j))
    decreases |patterns|
  {
    if patterns != [] {
      var spans := find(patterns[0], text);
      assert Ordered(spans, |text|, 0);
      if spans != [] {
        ArticleChunks(text, spans);
      } else {
        ArticleChunksCases(text, find, patterns[1..]);
        var g := FirstMatching(text, find, patterns[1..]);
        if g < |patterns[1..]| {
          assert patterns[1..][g] == patterns[1 + g];
        }
      }
    }
  }

  /** _chunk_by_paragraphs: the stripped paragraphs longer than 50 characters. */
  function ParagraphChunks(text: string): seq<string> {
    LongParagraphs(SplitOn(text, "\n\n"))
  }

  /** Chunk i is the stripped form of the i-th paragraph of the text whose stripped form is
      longer than 50 characters: paragraphs keep their order and each long one gives one
      chunk. */
  lemma ParagraphChunksSpec(text: string)
    ensures var paragraphs := SplitOn(text, "\n\n");
      var idx := LongIndices(paragraphs, Strip, |paragraphs|);
      var r := ParagraphChunks(text);
      && |r| == |idx|
      && (forall i :: 0 <= i < |idx| ==> r[i] == Strip(paragraphs[idx[i]]) && |r[i]| > 50)
      && (forall k :: 0 <= k < |paragraphs| ==> (k in idx <==> |Strip(paragraphs[k])| > 50))
  {
    var paragraphs := SplitOn(text, "\n\n");
    LongIndicesMembers(paragraphs, Strip, |paragraphs|);
  }

  /** The article chunks when there are at least two of them, the paragraph chunks otherwise. */
  function SelectedChunks(text: string, find: (Pattern, string) -> seq<Span>): seq<string>
    requires IsFinder(find)
  {
    var chunks := ArticleChunksFrom(text, find, ArticlePatterns);
    if |chunks| < 2 then ParagraphChunks(text) else chunks
  }

  /** Article chunks are used exactly when the first marker found occurs at least twice;
      otherwise the chunks are the long stripped paragraphs. */
  lemma SelectedChunksCases(text: string, find: (Pattern, string) -> seq<Span>)
    requires IsFinder(find)
    ensures var g := FirstMatching(text, find, ArticlePatterns);
      && (g < 3 && |find(ArticlePatterns[g], text)| >= 2 ==>
            var spans := find(ArticlePatterns[g], text);
            && |SelectedChunks(text, find)| == |spans|
            && forall j :: 0 <= j < |spans| ==>
                 SelectedChunks(text, find)[j] == text[spans[j].start..spans[j].end] + " " + Following(text, spans, j))
      && (g == 3 || |find(ArticlePatterns[g], text)| < 2 ==> SelectedChunks(text, find) == ParagraphChunks(text))
  {
    ArticleChunksCases(text, find, ArticlePatterns);
  }

  /** An empty text has no marker and no long paragraph, so no chunk. */
  lemma EmptyTextNoChunks(find: (Pattern, string) -> seq<Span>)
    requires IsFinder(find)
    ensures SelectedChunks("", find) == []
  {
    var patterns := ArticlePatterns;
    forall k | 0 <= k < |patterns|
      ensures find(patterns[k], "") == []
    {
      OrderedInside(find(patterns[k], ""), 0, 0);
    }
    NoMarkerNoArticles("", find, patterns);
    EmptyTextNoParagraphs();
  }

  /** When no pattern has a match, the pattern loop gives no chunk. */
  lemma {:induction false} NoMarkerNoArticles(text: string, find: (Pattern, string) -> seq<Span>, patterns: seq<Pattern>)
    requires IsFinder(find)
    requires forall k :: 0 <= k < |patterns| ==> find(patterns[k], text) == []
    ensures ArticleChunksFrom(text, find, patterns) == []
    decreases |patterns|
  {
    if patterns != [] {
      assert forall k :: 0 <= k < |patterns[1..]| ==> patterns[1..][k] == patterns[k + 1];
      NoMarkerNoArticles(text, find, patterns[1..]);
    }
  }

  // ---------------------------------------------------------------- _detect_clause_type

  const FinancialKeywords := ["loyer", "montant", "prix", "paiement", "euros", "€"]
  const TerminationKeywords := ["résiliation", "rupture", "fin", "terme"]
  const DurationKeywords := ["durée", "période", "mois", "ans"]
  const GuaranteeKeywords := ["caution", "garantie", "dépôt"]
  const ObligationKeywords := ["obligation", "engagement", "doit", "devra"]

  /** The keyword groups in the order they are checked, and the type each gives; the last type
      is the default. */
  const ClauseGroups: seq<seq<string>> :=
    [FinancialKeywords, TerminationKeywords, DurationKeywords, GuaranteeKeywords, ObligationKeywords]
  const ClauseTypes: seq<string> := ["financial", "termination", "duration", "guarantee", "obligation", "general"]

  /** _detect_clause_type. */
  function DetectClauseType(chunk: string, lower: string -> string): string {
    var chunkLower := lower(chunk);
    if ContainsAny(chunkLower, FinancialKeywords) then "financial"
    else if ContainsAny(chunkLower, TerminationKeywords) then "termination"
    else if ContainsAny(chunkLower, DurationKeywords) then "duration"
    else if ContainsAny(chunkLower, GuaranteeKeywords) then "guarantee"
    else if ContainsAny(chunkLower, ObligationKeywords) then "obligation"
    else "general"
  }

  /** The type is the one of the first keyword group with a keyword in the lower-cased chunk
      (financial, termination, duration, guarantee, obligation), "general" when none has. */
  lemma DetectClauseTypeFirstGroup(chunk: string, lower: string -> string)
    ensures DetectClauseType(chunk, lower) == ClauseTypes[FirstGroup(lower(chunk), ClauseGroups)]
  {
    var s := lower(chunk);
    var groups := ClauseGroups;
    var g := FirstGroup(s, groups);
    assert groups[0] == FinancialKeywords && groups[1] == TerminationKeywords && groups[2] == DurationKeywords;
    assert groups[3] == GuaranteeKeywords && groups[4] == ObligationKeywords;
    if g > 0 { assert !ContainsAny(s, groups[0]); }
    if g > 1 { assert !ContainsAny(s, groups[1]); }
    if g > 2 { assert !ContainsAny(s, groups[2]); }
    if g > 3 { assert !ContainsAny(s, groups[3]); }
    if g > 4 { assert !ContainsAny(s, groups[4]); }
  }

  // ---------------------------------------------------------------- chunk

  /** A chunk longer than `maxSize`: its first `maxSize` characters and "..." (Python's
      `chunk_text[:maxSize]`, so a negative size counts from the end). */
  function Truncated(chunkText: string, maxSize: int): (r: string)
    ensures |chunkText| <= maxSize ==> r == chunkText
    ensures 0 <= maxSize < |chunkText| ==> r == chunkText[..maxSize] + "..." && |r| == maxSize + 3
    ensures maxSize < 0 ==> |r| >= 3 && r[|r| - 3..] == "..." && r[..|r| - 3] <= chunkText
  {
    if |chunkText| > maxSize then SliceTo(chunkText, maxSize) + "..." else chunkText
  }

  /** One entry of chunk's result. */
  datatype ChunkInfo = ChunkInfo(text: string, context: string, clauseNumber: int, clauseType: string, charCount: int)

  /** A SmartChunker, with the contract type it reports and its maximum chunk size. */
  datatype SmartChunker = SmartChunker(contractType: string, maxChunkSize: int)
  {
    /** The entry for chunk i (counting from 0). */
    function InfoOf(i: nat, chunkText: string, lower: string -> string): (c: ChunkInfo)
      ensures c.clauseNumber == i + 1
      ensures c.text == Truncated(chunkText, maxChunkSize) && c.charCount == |c.text|
      ensures c.clauseType == DetectClauseType(c.text, lower)
      ensures c.context == "[Contrat: " + contractType + ", Clause " + NatToString(i + 1) + ", Type: " + c.clauseType + "]"
    {
      var t := Truncated(chunkText, maxChunkSize);
      var clauseType := DetectClauseType(t, lower);
      ChunkInfo(t, "[Contrat: " + contractType + ", Clause " + NatToString(i + 1) + ", Type: " + clauseType + "]", i + 1, clauseType, |t|)
    }

    /** The entry maker of this chunker. */
    function Enricher(lower: string -> string): (nat, string) -> ChunkInfo {
      (i: nat, chunkText: string) => InfoOf(i, chunkText, lower)
    }

    /** chunk: the selected chunks, each truncated, typed and numbered from 1 in order. */
    method Chunk(text: string, lower: string -> string, find: (Pattern, string) -> seq<Span>)
      returns (enrichedChunks: seq<ChunkInfo>)
      requires IsFinder(find)
      ensures Enriched(enrichedChunks, SelectedChunks(text, find), Enricher(lower))
    {
      var chunks := ChunkByArticles(text, find);
      if chunks == [] || |chunks| < 2 {
        chunks := ParagraphChunks(text);
      }
      enrichedChunks := [];
      for i := 0 to |chunks|
        invariant EnrichedPrefix(enrichedChunks, chunks, Enricher(lower)) && |enrichedChunks| == i
      {
        var info := ChunkEntry(i, chunks[i], lower);
        EnrichedStep(enrichedChunks, chunks, Enricher(lower), info);
        enrichedChunks := enrichedChunks + [info];
      }
    }

    /** The body of chunk's loop for chunk i: truncation, typing and the context line. */
    method ChunkEntry(i: nat, chunk: string, lower: string -> string) returns (info: ChunkInfo)
      ensures info == Enricher(lower)(i, chunk)
    {
      var chunkText := chunk;
      if |chunkText| > maxChunkSize {
        chunkText := SliceTo(chunkText, maxChunkSize) + "...";
      }
      var clauseType := DetectClauseType(chunkText, lower);
      info := ChunkInfo(chunkText, "[Contrat: " + contractType + ", Clause " + NatToString(i + 1) + ", Type: " + clauseType + "]",
        i + 1, clauseType, |chunkText|);
      assert info == InfoOf(i, chunk, lower);
    }
  }

  /** The entries are `f` applied to the first chunks and their indices. */
  predicate EnrichedPrefix(infos: seq<ChunkInfo>, chunks: seq<string>, f: (nat, string) -> ChunkInfo) {
    && |infos| <= |chunks|
    && forall i :: 0 <= i < |infos| ==> infos[i] == f(i, chunks[i])
  }

  /** One entry, made by `f`, per chunk, in order. */
  predicate Enriched(infos: seq<ChunkInfo>, chunks: seq<string>, f: (nat, string) -> ChunkInfo) {
    EnrichedPrefix(infos, chunks, f) && |infos| == |chunks|
  }

  lemma EnrichedStep(infos: seq<ChunkInfo>, chunks: seq<string>, f: (nat, string) -> ChunkInfo, c: ChunkInfo)
    requires EnrichedPrefix(infos, chunks, f) && |infos| < |chunks|
    requires c == f(|infos|, chunks[|infos|])
    ensures EnrichedPrefix(infos + [c], chunks, f)
  {
    var r := infos + [c];
    forall i | 0 <= i < |r|
      ensures r[i] == f(i, chunks[i])
    {
      if i < |infos| {
        assert r[i] == infos[i];
      }
    }
  }

  /** The entries of chunk are numbered 1..n in order, each has the length of its text as
      char_count, and that text is the chunk itself or, for a chunk over the maximum size,
      its first maxChunkSize characters and "...". */
  lemma ChunkEntries(chunker: SmartChunker, infos: seq<ChunkInfo>, chunks: seq<string>, lower: string -> string)
    requires Enriched(infos, chunks, chunker.Enricher(lower))
    ensures |infos| == |chunks|
    ensures forall i :: 0 <= i < |infos| ==> infos[i].clauseNumber == i + 1 && infos[i].charCount == |infos[i].text|
    ensures forall i :: 0 <= i < |infos| && |chunks[i]| <= chunker.maxChunkSize ==> infos[i].text == chunks[i]
    ensures forall i :: 0 <= i < |infos| && 0 <= chunker.maxChunkSize < |chunks[i]| ==>
      infos[i].text == chunks[i][..chunker.maxChunkSize] + "..." && |infos[i].text| == chunker.maxChunkSize + 3
  {
    forall i | 0 <= i < |infos|
      ensures infos[i] == chunker.InfoOf(i, chunks[i], lower)
    {
      assert infos[i] == chunker.Enricher(lower)(i, chunks[i]);
    }
  }

  /** _chunk_by_articles: tries the three markers in order and returns the chunks of the first
      one whose split recombines into at least one chunk, [] when none does. */
  method ChunkByArticles(text: string, find: (Pattern, string) -> seq<Span>) returns (result: seq<string>)
    requires IsFinder(find)
    ensures result == ArticleChunksFrom(text, find, ArticlePatterns)
  {
    var patterns := ArticlePatterns;
    for k := 0 to |patterns|
      invariant ArticleChunksFrom(text, find, patterns[k..]) == ArticleChunksFrom(text, find, patterns)
    {
      assert patterns[k..][1..] == patterns[k + 1..];
      var spans := find(patterns[k], text);
      if spans != [] {
        var chunks := SplitAround(text, spans, 0);
        result := Recombine(chunks);
        if result != [] {
          return;
        }
      }
    }
    result := [];
  }

  /** The default chunker: contract type "auto", chunks of at most 1000 characters. */
  const DefaultChunker := SmartChunker("auto", 1000)
}
