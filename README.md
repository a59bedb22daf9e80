# Contract analysis core, modelled in Dafny

This project models the deterministic core of a French contract-analysis application.
The application has two halves: a TypeScript front end and a Python back end.

- **TypeScript risk engine.** A relevance gate checks the text's length and counts its
  legal keywords. A fixed catalogue of housing-lease rules, each a list of regular
  expressions, turns matches into risks. The risks are scored by a penalty that stops at
  0 and mapped to a letter grade; the engine then assembles the report.
- **Python text pipeline.**
  - Text cleaning: page numbers, repeated headers and footers, whitespace, and
    signature and stamp lines.
  - Chunking by article marker or by paragraph, with keyword-priority clause typing.
  - Rule-based clause risk levels, the pipeline's integer scores, and recommendations.
  - Keyword-weighted retrieval of legal articles with a stable top-k.
  - Keyword-based contract-type detection.
  - Upload validation, and the context of the PDF report.
- **OCR post-processing.**
  - The rule-based OCR cleaner: pattern passes, broken-word rejoining and blank-line
    limiting.
  - The paragraph-by-paragraph control flow of the AI OCR refiner, where a refinement
    may fail and the paragraph falls back to the original.
  - The browser's `cleanOCRText` chain of replacements.
- **Upload panel.** The client-side NDJSON stream framer rebuilds lines from the chunks
  of the response body and splits glued `}{` objects. It absorbs per-part errors and
  drives the input / preview / results state machine of the upload panel.

One Dafny module models each core source file:

| module | source |
|---|---|
| AnalysisTypes | src/lib/analysis/types.ts |
| Scoring | src/lib/analysis/scoring.ts |
| HousingRules | src/lib/analysis/rules/housing.ts |
| AnalysisEngine | src/lib/analysis/engine.ts |
| Pipeline | python-ai/pipeline.py |
| Chunker | python-ai/preprocessing/chunker.py |
| Cleaner | python-ai/preprocessing/cleaner.py |
| OcrCleaner | python-ai/extraction/ocr_cleaner.py |
| OcrRefiner | python-ai/extraction/ocr_refiner.py |
| Rag | python-ai/rag_service.py |
| ContractDetector | python-ai/knowledge/contract_detector.py |
| Validator | python-ai/utils/validator.py |
| ReportContext | python-ai/export/pdf_generator.py |
| AutomaticOcr | src/lib/ocr/automatic-ocr.ts |
| UploadSection | src/components/upload/UploadSection.tsx |

Shared modules hold what several files use:
- `Wrappers` holds `Option` and `Result`.
- `Text` holds character classes, strip, split/join, substring tests and number
  formatting, as Python and JavaScript define them.
- `Regex` holds a generic single-pass, left-to-right substitution scanner `SubFrom`. It is
  parameterised by the length of the match at each position. `SubEndsFrom` is its
  variant for a `\1\2` replacement that keeps the first and last characters of each match.
  `Regex` also holds the contract of a regex engine's list of matches, and the pieces of
  `re.split` around them.
- `Articles` holds the article and paragraph chunking shared by the pipeline and the
  chunker.

These primitives are function-valued parameters, each carrying only the property the
model needs:
- the regular-expression engine (`exec`, `find`);
- Unicode lower-casing and `islower` (`lower`, `isLower`);
- NFKC normalisation and the control-character filter;
- JSON parsing;
- the HTTP responses.

Small fixed regular expressions are modelled concretely as matchers, for example
`Page \d+`, `[ \t]+` or the hyphen pattern of `_fix_broken_words`.

Code that works by updating variables in loops is modelled as a method with a loop. Each
such method is proved equal to a specification function, and lemmas state the promised
properties of that function. Two objects update their fields and are classes: the
retrieval service, whose article list is filled at construction, and the upload panel,
with its React state. The contract detector, the OCR refiner and the chunker never change
after construction. They are datatypes whose member functions and methods read their
fields.

## Model

| member | source | states |
|---|---|---|
| Scoring.Penalty | src/lib/analysis/scoring.ts:8-15 | a risk deducts 20, 10, 5 or 2 points for critical, high, medium or low, so always between 2 and 20 |
| Scoring.TotalPenalty | src/lib/analysis/scoring.ts:8-15 | the deductions of n risks together lie between 2n and 20n |
| Scoring.ScoreOf | src/lib/analysis/scoring.ts:3-37 | the total lies in 0..100 and is 100 minus the deductions, or 0 when they exceed 100; the sub-scores are all 0; no risk gives 100 and A; 50 or more risks give 0 and F |
| Scoring.CalculateScore | src/lib/analysis/scoring.ts:3-37 | the deduction loop, the clamp and the grade chain compute exactly ScoreOf |
| Scoring.TotalPenaltyAppend | src/lib/analysis/scoring.ts:8-15 | the deductions of two lists of risks add up |
| Scoring.ScoreOfSingle | src/lib/analysis/scoring.ts:8-18 | a single critical, high, medium or low risk scores 80, 90, 95 or 98 |
| Scoring.ScoreOfAppend | src/lib/analysis/scoring.ts:8-18 | one more risk lowers the total by its deduction, stopping at 0; the total never rises |
| Scoring.ScoreOfExtend | src/lib/analysis/scoring.ts:8-25 | more risks never give a higher total nor a better grade |
| Scoring.GradeMonotone | src/lib/analysis/scoring.ts:21-25 | the grade thresholds 90/80/60/40 make the grade monotone in the total |
| Scoring.GradeOf | src/lib/analysis/scoring.ts:21-25 | defines the grade thresholds; stated by GradeMonotone |
| Scoring.TotalPenaltyPermutation | src/lib/analysis/scoring.ts:8-15 | the deductions do not depend on the order of the risks |
| Scoring.ScoreOfPermutation | src/lib/analysis/scoring.ts:8-25 | the whole score (total, grade, details) does not depend on the order of the risks |
| HousingRules.PatternOrigins | src/lib/analysis/rules/housing.ts:43-45 | the matching patterns of one rule, at most one per pattern, each one matching and belonging to that rule |
| HousingRules.Origins | src/lib/analysis/rules/housing.ts:42-45 | every reported origin is a matching pattern of one of the rules scanned |
| HousingRules.FindingOf | src/lib/analysis/rules/housing.ts:46-58 | a finding copies id, severity, title, description and recommendation from its rule, has source 'rule', and its clause is exactly the matched part of the input: endIndex = startIndex + length and text = input[startIndex..endIndex] |
| HousingRules.FindingsOf | src/lib/analysis/rules/housing.ts:46-58 | one finding per matching pattern, in the same order |
| HousingRules.FindingsOfAppend | src/lib/analysis/rules/housing.ts:42-61 | findings of concatenated origin lists are concatenated findings |
| HousingRules.Scanned | src/lib/analysis/rules/housing.ts:42-45 | the origins seen up to a rule and a pattern all match |
| HousingRules.ScannedNone | src/lib/analysis/rules/housing.ts:42-43 | before any pattern of a rule, the findings are those of the earlier rules |
| HousingRules.ScannedAll | src/lib/analysis/rules/housing.ts:42-61 | after all patterns of a rule, the findings are those of the rules up to it |
| HousingRules.ScannedStep | src/lib/analysis/rules/housing.ts:44-59 | one more pattern adds its finding when exec matches and nothing otherwise |
| HousingRules.ProgressScanned | src/lib/analysis/rules/housing.ts:43-60 | the inner loop's findings are those of everything scanned so far |
| HousingRules.ApplyRule | src/lib/analysis/rules/housing.ts:43-60 | the pattern loop of one rule extends the findings of the earlier rules to those of the rules up to it |
| HousingRules.AnalyzeHousingRules | src/lib/analysis/rules/housing.ts:39-64 | the nested loops give exactly the findings of the whole catalogue |
| HousingRules.PatternOriginsOrdered | src/lib/analysis/rules/housing.ts:43 | within a rule, findings follow pattern order |
| HousingRules.OriginsOrdered | src/lib/analysis/rules/housing.ts:42-43 | findings are ordered by rule, then by pattern within the rule |
| HousingRules.PatternOriginsComplete | src/lib/analysis/rules/housing.ts:44-45 | a matching pattern of a rule is among that rule's origins |
| HousingRules.OriginsComplete | src/lib/analysis/rules/housing.ts:42-45 | every matching pattern gives a finding: nothing is skipped |
| HousingRules.OriginsBound | src/lib/analysis/rules/housing.ts:42-45 | at most one finding per pattern |
| HousingRules.FindingsReported | src/lib/analysis/rules/housing.ts:46-58 | finding k carries the fields of the rule whose pattern produced it and quotes the matched text |
| HousingRules.Findings | src/lib/analysis/rules/housing.ts:39-61 | defines the findings of the first n rules: one per matching pattern, in rule and pattern order; stated by FindingsReported and HousingFindings |
| HousingRules.HousingPatternCount | src/lib/analysis/rules/housing.ts:12-37 | the catalogue has 2 + 2 + 1 = 5 patterns |
| HousingRules.HousingFindings | src/lib/analysis/rules/housing.ts:12-64 | the housing rules report at most five risks, each reported by one of the three rules |
| HousingRules.FirstRuleReportedTwice | src/lib/analysis/rules/housing.ts:42-60 | when both patterns of the first rule match, the first two findings both carry its id: no deduplication |
| HousingRules.RefundDelayReportedTwice | src/lib/analysis/rules/housing.ts:15 | both deposit-refund patterns matching give two 'housing-refund-delay' findings first |
| AnalysisEngine.KeywordCount | src/lib/analysis/engine.ts:67-72 | the match count never exceeds the number of keywords |
| AnalysisEngine.KeywordCountDistinct | src/lib/analysis/engine.ts:58-72 | for a list without repetitions the count is the number of distinct keywords occurring in the lower-cased text |
| AnalysisEngine.RelevanceCases | src/lib/analysis/engine.ts:54-83 | under 50 characters the text is rejected as too short whatever its keywords; otherwise it is accepted iff at least two distinct keywords occur, and else rejected for lack of legal vocabulary; a rejection has a reason |
| AnalysisEngine.RelevanceOf | src/lib/analysis/engine.ts:54-83 | defines the relevance verdict: too short, too few keywords, or relevant; stated by RelevanceCases |
| AnalysisEngine.ValidateContractRelevance | src/lib/analysis/engine.ts:54-83 | the keyword loop and the two guards compute the relevance verdict; a rejection carries a reason |
| AnalysisEngine.ReportOf | src/lib/analysis/engine.ts:39-51 | the report's risks are the rule findings then the AI findings, its score is the score of those risks (in 0..100), its summary states their number, and it keeps the contract type and timings |
| AnalysisEngine.Summary | src/lib/analysis/engine.ts:48 | defines the summary sentence, the number of risks written in decimal; NatToStringValue states that those digits denote the count |
| AnalysisEngine.Analyze | src/lib/analysis/engine.ts:8-52 | a rejected text gives the error with its reason and no report; an accepted text gives the report |
| AnalysisEngine.CollectRisks | src/lib/analysis/engine.ts:20-37 | the pushes build the rule findings followed by the AI findings |
| AnalysisEngine.RuleRisksOnlyForHousing | src/lib/analysis/engine.ts:24-37 | rule findings only for 'housing' or 'baux'; with AI disabled there are no AI findings; every rule finding has source 'rule' |
| AnalysisEngine.RuleRisks | src/lib/analysis/engine.ts:24-27 | defines the rule findings: the housing rules for 'housing' and 'baux', none otherwise; stated by RuleRisksOnlyForHousing |
| AnalysisEngine.AllRisks | src/lib/analysis/engine.ts:20-37 | defines the risk list: rule findings, then AI findings when enabled; CollectRisks computes it |
| Pipeline.PageNumberMatch | python-ai/pipeline.py:92 | a match of `Page \d+` is "Page " followed by digits, within the text |
| Pipeline.SpaceRunMatch | python-ai/pipeline.py:95 | a match of `\s+` starts exactly at whitespace and takes the whole run |
| Pipeline.ParagraphBreakMatch | python-ai/pipeline.py:96 | a match of `\n\s*\n` starts at a newline |
| Pipeline.CleanText | python-ai/pipeline.py:89-98 | defines _clean_text: `Page \d+` removed, whitespace runs collapsed, blank lines to paragraph breaks, then strip; its shape is stated by CleanTextShape |
| Pipeline.CollapsedSpaces | python-ai/pipeline.py:92-95 | after collapsing, no two whitespace characters are adjacent and the only whitespace left is ' ' |
| Pipeline.ParagraphBreakNoOp | python-ai/pipeline.py:95-96 | once whitespace is collapsed no newline is left, so the blank-line substitution changes nothing |
| Pipeline.NoNewline | python-ai/pipeline.py:95 | a text whose only whitespace is ' ' has no newline |
| Pipeline.CleanTextShape | python-ai/pipeline.py:89-98 | the cleaned text has no newline, no two adjacent whitespace characters, only ' ' as whitespace, and no leading or trailing whitespace |
| Pipeline.SmartChunk | python-ai/pipeline.py:100-116 | the search / split / recombine branch and the paragraph branch compute SmartChunks |
| Pipeline.SmartChunks | python-ai/pipeline.py:100-116 | defines the chunks of _smart_chunk: articles when a marker is found, long paragraphs otherwise; its cases are stated by SmartChunksCases |
| Pipeline.SmartChunksCases | python-ai/pipeline.py:100-116 | with article markers there is one chunk per marker, in order, each the marker, a space and the text up to the next marker (so the `[text]` fallback is never taken); without any, the long stripped paragraphs |
| Pipeline.ClassifyContractFirstGroup | python-ai/pipeline.py:118-131 | the type is that of the first keyword group, in the fixed order, with a keyword in the lower-cased sample, and "Contrat de prestation" when none has |
| Pipeline.ClassifyContract | python-ai/pipeline.py:118-131 | defines _classify_contract: the keyword groups tried in order on the lower-cased sample; stated by ClassifyContractFirstGroup |
| Pipeline.RiskLevelOf | python-ai/pipeline.py:158-170 | defines the level of a clause: the first level of the table with a keyword in it; stated by RiskLevelCases |
| Pipeline.RiskLevelCases | python-ai/pipeline.py:158-170 | 'high' iff a high keyword occurs; 'medium' iff no high keyword but a medium one; 'low' otherwise |
| Pipeline.Preview | python-ai/pipeline.py:175 | a clause over 200 characters becomes its first 200 and "..." (203 in all); a shorter one is kept as it is |
| Pipeline.ClauseAnalysisOf | python-ai/pipeline.py:172-183 | the analysis keeps the clause number, full text and level, and its preview is Preview of the clause |
| Pipeline.AnalyzeClauseSimple | python-ai/pipeline.py:152-183 | the level loop with its break computes the first-level risk of the lower-cased clause |
| Pipeline.RiskOf | python-ai/pipeline.py:191-197 | a risk keeps the clause number, preview and level as severity |
| Pipeline.ClauseCount | python-ai/pipeline.py:204-205 | a count never exceeds the number of clauses |
| Pipeline.RiskCount | python-ai/pipeline.py:204-205 | a count never exceeds the number of risks |
| Pipeline.RisksOf | python-ai/pipeline.py:185-199 | at most one risk per clause, and none of severity 'low' |
| Pipeline.RisksOfCounts | python-ai/pipeline.py:185-199 | as many risks as 'high' and 'medium' clauses, with as many of each severity as clauses at that level |
| Pipeline.RisksOfAppend | python-ai/pipeline.py:189-197 | risk detection keeps exactly the high and medium clauses, in order: it distributes over concatenation |
| Pipeline.ClauseCountsSum | python-ai/pipeline.py:228 | every clause is 'high', 'medium' or 'low' |
| Pipeline.DetectRisks | python-ai/pipeline.py:185-199 | the loop computes RisksOf |
| Pipeline.Conformity | python-ai/pipeline.py:208 | conformity lies in 0..100, is 100 without risks and 0 from four high risks on |
| Pipeline.GlobalScoreClosedForm | python-ai/pipeline.py:211-217 | the global score int(0.5c + 0.3 * 85 + 0.2 * 80) equals (c + 83) div 2 and lies in 41..91 |
| Pipeline.GlobalScore | python-ai/pipeline.py:211-217 | defines int(0.5c + 0.3 * 85 + 0.2 * 80); its closed form and range are stated by GlobalScoreClosedForm |
| Pipeline.ScoreOf | python-ai/pipeline.py:201-230 | conformity in 0..100, balance 85, clarity 80, high/medium counts from the risks, low = total - high - medium, global score in 41..91 |
| Pipeline.DetectedLowRisks | python-ai/pipeline.py:185-230 | on risks detected from the clauses, low_risks is the number of low clauses |
| Pipeline.RecommendationFor | python-ai/pipeline.py:247-259 | one 'urgent' entry for a high risk, one 'important' entry for a medium one, none otherwise |
| Pipeline.RiskRecommendations | python-ai/pipeline.py:247-259 | at most one recommendation per risk |
| Pipeline.RiskRecommendationsAt | python-ai/pipeline.py:247-259 | with no low risk, recommendation k is the one for risk k |
| Pipeline.RecommendationsShape | python-ai/pipeline.py:236-261 | no risk gives exactly the one 'info' entry; otherwise one entry per risk in order, 'urgent' for high and 'important' for medium |
| Pipeline.RecommendationsOf | python-ai/pipeline.py:236-261 | defines _generate_recommendations: the info entry without risks, the per-risk entries otherwise; stated by RecommendationsShape |
| Pipeline.Summary | python-ai/pipeline.py:232-234 | defines the summary sentence with the clause count written in decimal |
| Pipeline.GenerateRecommendations | python-ai/pipeline.py:236-261 | the branch and loop compute RecommendationsOf |
| Pipeline.AnalysedChunksStep | python-ai/pipeline.py:55-58 | appending the next chunk's analysis keeps the clauses the analyses of a prefix |
| Pipeline.AnalyzeChunks | python-ai/pipeline.py:54-58 | at most the first five chunks are analysed, clause i being chunk i numbered i + 1 |
| Pipeline.Process | python-ai/pipeline.py:36-87 | the stages run in order: classification of the first 1000 cleaned characters, analysis of at most five chunks while total_clauses counts all chunks, then risks, score, recommendations, summary and risk counts from those |
| Articles.Recombined | python-ai/pipeline.py:109-111 | one chunk per odd piece with a successor: piece 2k+1, a space, piece 2k+2 |
| Articles.Recombine | python-ai/preprocessing/chunker.py:73-78 | the stepping loop computes Recombined |
| Articles.ArticleChunks | python-ai/preprocessing/chunker.py:70-81 | splitting around k ordered matches and recombining gives k chunks, each the marker, a space and the text up to the next match |
| Articles.LongPieces | python-ai/preprocessing/chunker.py:91 | at most one result per piece, each longer than 50 characters |
| Articles.LongPiecesMembers | python-ai/preprocessing/chunker.py:91 | a text is a result iff it is the image, longer than 50 characters, of some piece |
| Articles.LongPiecesAppend | python-ai/preprocessing/chunker.py:91 | the filtered pieces of a concatenation are those of the first part followed by those of the second |
| Articles.LongPiecesSingle | python-ai/preprocessing/chunker.py:91 | one piece gives its image when that is longer than 50 characters, nothing otherwise |
| Articles.LongIndices | python-ai/preprocessing/chunker.py:91 | the positions below n of the pieces whose image is longer than 50 characters, strictly increasing and all below n |
| Articles.LongIndicesMembers | python-ai/preprocessing/chunker.py:91 | a position below n is listed iff the image of its piece is longer than 50 characters |
| Articles.LongPiecesAt | python-ai/preprocessing/chunker.py:91 | result i for the first n pieces is the image of the i-th listed position, and there are as many results as positions: order and multiplicity are kept |
| Articles.LongParagraphs | python-ai/preprocessing/chunker.py:85-91 | every result is stripped and longer than 50 characters; a text is a result iff it is such a stripped paragraph; result i is the stripped form of the i-th paragraph whose stripped form is longer than 50 characters, so order and repetitions are kept |
| Chunker.ParagraphChunks | python-ai/preprocessing/chunker.py:85-91 | defines _chunk_by_paragraphs: the stripped paragraphs longer than 50 characters; stated by ParagraphChunksSpec |
| Chunker.ParagraphChunksSpec | python-ai/preprocessing/chunker.py:85-91 | chunk i is the stripped form of the i-th paragraph whose stripped form is longer than 50 characters, and a paragraph gives a chunk iff its stripped form is that long |
| Articles.EmptyTextNoParagraphs | python-ai/preprocessing/chunker.py:90-91 | an empty text has no long paragraph |
| Chunker.FirstMatching | python-ai/preprocessing/chunker.py:70-71 | the index of the first pattern the engine finds in the text, every earlier one finding nothing |
| Chunker.ArticleChunksFrom | python-ai/preprocessing/chunker.py:63-83 | defines the pattern loop of _chunk_by_articles: the recombined pieces of the first pattern that yields any, [] when none does; stated by ArticleChunksCases |
| Chunker.ArticleChunksCases | python-ai/preprocessing/chunker.py:58-83 | the first pattern with a match decides: one chunk per match, marker, space and following text; no pattern matching gives [] |
| Chunker.ChunkByArticles | python-ai/preprocessing/chunker.py:58-83 | the pattern loop with its early return computes the chunks of the first pattern that yields any |
| Chunker.SelectedChunksCases | python-ai/preprocessing/chunker.py:33-37 | article chunks are used exactly when the first marker found occurs at least twice; otherwise the long stripped paragraphs |
| Chunker.SelectedChunks | python-ai/preprocessing/chunker.py:33-37 | defines the chunk choice: article chunks when there are two, paragraphs otherwise; stated by SelectedChunksCases |
| Chunker.EmptyTextNoChunks | python-ai/preprocessing/chunker.py:33-37 | an empty text gives no chunk |
| Chunker.NoMarkerNoArticles | python-ai/preprocessing/chunker.py:70-83 | when no marker pattern has a match, the pattern loop gives no chunk |
| Chunker.DetectClauseTypeFirstGroup | python-ai/preprocessing/chunker.py:93-121 | the type is that of the first group in the order financial, termination, duration, guarantee, obligation with a keyword in the lower-cased chunk, else 'general' |
| Chunker.DetectClauseType | python-ai/preprocessing/chunker.py:93-121 | defines _detect_clause_type: the keyword groups tried in order; stated by DetectClauseTypeFirstGroup |
| Chunker.Truncated | python-ai/preprocessing/chunker.py:43-44 | a chunk over the maximum size becomes its first maxSize characters and "..."; a shorter one is unchanged |
| Chunker.SmartChunker.InfoOf | python-ai/preprocessing/chunker.py:43-54 | clause number i + 1, the truncated text with char_count its length, its type, and the context "[Contrat: type, Clause i+1, Type: clause type]" |
| Chunker.SmartChunker.Chunk | python-ai/preprocessing/chunker.py:16-56 | one entry per selected chunk, in order, each the InfoOf of that chunk and its index |
| Chunker.SmartChunker.ChunkEntry | python-ai/preprocessing/chunker.py:41-54 | the truncation, typing and context line of one loop step build exactly the InfoOf entry of that chunk and index |
| Chunker.EnrichedStep | python-ai/preprocessing/chunker.py:41-54 | appending the next entry keeps the entries those of a prefix |
| Chunker.Enriched | python-ai/preprocessing/chunker.py:40-56 | defines "one entry per chunk, made from the chunk and its index, in order"; Chunk ensures it and ChunkEntries states the entries |
| Chunker.ChunkEntries | python-ai/preprocessing/chunker.py:40-56 | entries numbered 1..n consecutively, char_count equal to the text's length, the text unchanged or truncated to maxSize plus "..." |
| Cleaner.Occurrences | python-ai/preprocessing/cleaner.py:75-78 | a count never exceeds the number of lines |
| Cleaner.CountsOfSpec | python-ai/preprocessing/cleaner.py:74-78 | the counts hold exactly the stripped lines longer than 10 characters that occur, each with its number of occurrences |
| Cleaner.CountsOfStep | python-ai/preprocessing/cleaner.py:75-78 | one step of the counting loop adds one to the count of a long stripped line and leaves short ones out |
| Cleaner.RepeatedKeysSpec | python-ai/preprocessing/cleaner.py:81 | a stripped line is repeated iff it is longer than 10 characters and occurs more than 3 times |
| Cleaner.Unrepeated | python-ai/preprocessing/cleaner.py:84 | a line is kept iff it is one of the lines and its stripped form is not repeated |
| Cleaner.UnrepeatedMembers | python-ai/preprocessing/cleaner.py:84 | a line is kept iff it is one of the lines and its stripped form is not repeated |
| Cleaner.UnrepeatedAppend | python-ai/preprocessing/cleaner.py:84 | the kept lines of a concatenation are those of the first part followed by those of the second |
| Cleaner.UnrepeatedSingle | python-ai/preprocessing/cleaner.py:84 | one line is kept when its stripped form is not repeated and dropped otherwise |
| Cleaner.KeptIndices | python-ai/preprocessing/cleaner.py:84 | the positions below n of the lines whose stripped form is not repeated, strictly increasing and all below n |
| Cleaner.KeptIndicesMembers | python-ai/preprocessing/cleaner.py:84 | a position below n is listed iff the stripped form of its line is not repeated |
| Cleaner.UnrepeatedAt | python-ai/preprocessing/cleaner.py:84 | kept line i of the first n lines is the line at the i-th listed position, and there are as many kept lines as positions |
| Cleaner.JoinUnrepeatedShorter | python-ai/preprocessing/cleaner.py:84-86 | joining the kept lines gives no longer a text than joining all of them |
| Cleaner.KeptLinesSpec | python-ai/preprocessing/cleaner.py:66-86 | a line survives iff it is not a header or footer, so a line whose stripped form has at most 10 characters always survives |
| Cleaner.KeptLinesOrder | python-ai/preprocessing/cleaner.py:66-86 | the kept lines are the lines that are not headers or footers, in their original order and with their repetitions: kept line i is the line at the i-th position holding a non-repeated line |
| Cleaner.KeptLines | python-ai/preprocessing/cleaner.py:66-86 | defines the lines _remove_headers_footers keeps; stated by KeptLinesSpec, KeptLinesOrder and KeptLinesShorter |
| Cleaner.CountsOf | python-ai/preprocessing/cleaner.py:74-78 | defines line_counts after the counting loop; stated by CountsOfSpec |
| Cleaner.KeptLinesShorter | python-ai/preprocessing/cleaner.py:71-86 | removing headers and footers never lengthens the text |
| Cleaner.CountLines | python-ai/preprocessing/cleaner.py:74-78 | the counting loop computes the counts of CountsOfSpec |
| Cleaner.RemoveHeadersFooters | python-ai/preprocessing/cleaner.py:66-86 | the result is the kept lines joined by newlines |
| Cleaner.PageMarkMatch | python-ai/preprocessing/cleaner.py:35 | a match is "page" in any case, whitespace and digits; "page", a whitespace character and a digit always match |
| Cleaner.FractionMatch | python-ai/preprocessing/cleaner.py:36 | a match of `\d+\s*/\s*\d+` starts and ends with a digit |
| Cleaner.BlankRunMatch | python-ai/preprocessing/cleaner.py:39 | a match of `[ \t]+` starts exactly at a blank and takes the whole run |
| Cleaner.ExcessNewlinesMatch | python-ai/preprocessing/cleaner.py:40 | a match of `\n\s*\n\s*\n+` has at least two characters |
| Cleaner.LabelLineMatch | python-ai/preprocessing/cleaner.py:43-44 | a label match is the word in any case, a colon after optional whitespace, and runs to the end of the line; the word directly followed by ':' always matches |
| Cleaner.LabelMatch | python-ai/preprocessing/cleaner.py:43-44 | one matcher per label word, matching where LabelLineMatch does, for "signature" and "cachet" |
| Cleaner.QuoteCallMatch | python-ai/preprocessing/cleaner.py:48 | the second quote replacement looks for the 15-character text between the triple quotes; a match is exactly one such occurrence |
| Cleaner.QuoteCallWithin | python-ai/preprocessing/cleaner.py:48 | every match of the quote call lies inside the text |
| Cleaner.QuotesUnchanged | python-ai/preprocessing/cleaner.py:47-48 | text without that 15-character text leaves step 5 unchanged |
| Cleaner.QuoteCallReplaced | python-ai/preprocessing/cleaner.py:48 | step 5 turns `a, "'").replace(b` into `a'b` |
| Cleaner.Reduction | python-ai/preprocessing/cleaner.py:55 | 0 for an empty original, in 0..100 when the text got no longer, 0 when nothing was removed |
| Cleaner.WithoutMarks | python-ai/preprocessing/cleaner.py:35-36 | defines step 2: the page-mark pass, then the fraction pass |
| Cleaner.SpacesNormalised | python-ai/preprocessing/cleaner.py:39-40 | defines step 3: the blank-run pass, then the newline-run pass; stated by SpacesNormalisedBlanks |
| Cleaner.WithoutLabels | python-ai/preprocessing/cleaner.py:43-44 | defines step 4: the signature pass, then the stamp pass; stated by WithoutLabelsBlanks and WithoutLabelsLeavesOut |
| Cleaner.QuotesNormalised | python-ai/preprocessing/cleaner.py:47-48 | defines step 5: each occurrence of QuoteCallText replaced by an apostrophe; stated by QuotesUnchanged and QuoteCallReplaced |
| Cleaner.CleanedText | python-ai/preprocessing/cleaner.py:29-51 | defines the text clean returns: steps 1 to 5, then strip; stated by CleanedShorter, CleanedShape, CleanedWithoutLabels and CleanEmpty |
| Cleaner.Clean | python-ai/preprocessing/cleaner.py:12-64 | the text is the cleaned text, original_length the input's length, cleaned_length the output's, and reduction_percent their Reduction |
| Cleaner.CleanedShorter | python-ai/preprocessing/cleaner.py:29-55 | no pass lengthens the text, the 15-character quote call becoming one apostrophe included, so the reduction lies in 0..100 |
| Cleaner.BlankPassBlanks | python-ai/preprocessing/cleaner.py:39 | after the blank pass no tab is left and no two blanks are adjacent |
| Cleaner.PassKeepsBlanks | python-ai/preprocessing/cleaner.py:40-44 | a later pass whose replacement has no blank keeps "no tab, no adjacent blanks" |
| Cleaner.SpacesNormalisedBlanks | python-ai/preprocessing/cleaner.py:39-40 | after the whitespace step no tab is left and no two blanks are adjacent |
| Cleaner.WithoutLabelsBlanks | python-ai/preprocessing/cleaner.py:43-44 | removing signature and stamp lines keeps both properties |
| Cleaner.LabelPassBlanks | python-ai/preprocessing/cleaner.py:43-44 | removing matches that each end a line keeps both properties |
| Cleaner.LabelsQuotesBlanks | python-ai/preprocessing/cleaner.py:43-48 | the label and quote steps keep "no tab and no two adjacent blanks" |
| Cleaner.CleanedShape | python-ai/preprocessing/cleaner.py:39-51 | the cleaned text is stripped, holds no tab and no two adjacent blanks (the apostrophe of step 5 is not a blank) |
| Cleaner.NoFold | python-ai/preprocessing/cleaner.py:43-44 | a character that is neither in the word nor an upper-case letter matches no letter of the word under IGNORECASE |
| Cleaner.FoldedStep | python-ai/preprocessing/cleaner.py:43-44 | a word occurs at i, ignoring case, iff its first character does and the rest of it follows |
| Cleaner.FoldedShift | python-ai/preprocessing/cleaner.py:43-44 | an occurrence past a prefix is an occurrence in the rest of the text |
| Cleaner.KeptCharStep | python-ai/preprocessing/cleaner.py:43-48 | a character a pass keeps, at a position where the word does not start, forms no occurrence with what follows |
| Cleaner.RemovalLeavesOut | python-ai/preprocessing/cleaner.py:43-44 | a pass removing matches that end at a newline or at the end, and that start at no newline, leaves no occurrence of a newline-free word it matches everywhere |
| Cleaner.RemovedStep | python-ai/preprocessing/cleaner.py:43-44 | after a removed match the scan goes on at a newline, so no occurrence spans the removal |
| Cleaner.NewlineFirst | python-ai/preprocessing/cleaner.py:43-44 | a scan going on at an unmatched newline starts no part of a newline-free word |
| Cleaner.ReplacementLeavesOut | python-ai/preprocessing/cleaner.py:48 | a pass whose replacement has no upper-case letter and no letter of the word forms no occurrence of the word |
| Cleaner.ReplacedStep | python-ai/preprocessing/cleaner.py:48 | a replacement in front forms no occurrence |
| Cleaner.LabelColonMatched | python-ai/preprocessing/cleaner.py:43-44 | the label directly followed by ':' is always matched |
| Cleaner.LabelPassLeavesOut | python-ai/preprocessing/cleaner.py:43-44 | a label pass leaves no occurrence of a newline-free word it matches everywhere |
| Cleaner.LineRemovalLeavesOut | python-ai/preprocessing/cleaner.py:43-44 | RemovalLeavesOut for a whole text |
| Cleaner.LabelMatchFacts | python-ai/preprocessing/cleaner.py:43-44 | label matches stay inside the text, run to the end of their line and start at no newline |
| Cleaner.LabelMatchEnds | python-ai/preprocessing/cleaner.py:43-44 | `.*` stops at the newline or at the end of the text |
| Cleaner.LabelMatchNotAtNewlines | python-ai/preprocessing/cleaner.py:43-44 | no label match starts at a newline |
| Cleaner.LabelNotAtNewline | python-ai/preprocessing/cleaner.py:43-44 | a label starts with a letter, so not at a newline |
| Cleaner.LabelCovers | python-ai/preprocessing/cleaner.py:43-44 | the pass matches wherever LabelLineMatch does |
| Cleaner.FoldedSlice | python-ai/preprocessing/cleaner.py:51 | an occurrence in a slice is one in the text |
| Cleaner.AbsentSlice | python-ai/preprocessing/cleaner.py:51 | a slice of a text without the word is without it |
| Cleaner.LabelPassRemoves | python-ai/preprocessing/cleaner.py:43-44 | a label pass removes every occurrence of the label followed by ':', in any case |
| Cleaner.LabelPassKeepsOut | python-ai/preprocessing/cleaner.py:43-44 | a label pass forms no occurrence of a newline-free word that was absent |
| Cleaner.WithoutLabelsLeavesOut | python-ai/preprocessing/cleaner.py:43-44 | step 4 leaves no "signature:" and no "cachet:" in any case |
| Cleaner.QuotesLeaveOut | python-ai/preprocessing/cleaner.py:47-48 | step 5's apostrophe forms no occurrence of a word without an apostrophe |
| Cleaner.StripLeavesOut | python-ai/preprocessing/cleaner.py:51 | the final strip forms no occurrence |
| Cleaner.LabelsQuotesLeaveOut | python-ai/preprocessing/cleaner.py:43-51 | steps 4 and 5 and the strip leave no "signature:" and no "cachet:" |
| Cleaner.CleanedWithoutLabels | python-ai/preprocessing/cleaner.py:43-44 | the cleaned text holds no "Signature:" and no "Cachet:", in any case, as python-ai/tests/test_cleaner.py:35-41 expects |
| Cleaner.RejoinedTail | python-ai/preprocessing/cleaner.py:35 | the page pass keeps "ge 2" at the end of "PaPage 1ge 2" |
| Cleaner.RejoinedMark | python-ai/preprocessing/cleaner.py:35 | "Page 1" inside "PaPage 1ge 2" is matched |
| Cleaner.RejoinedHead | python-ai/preprocessing/cleaner.py:35 | nothing is matched at the first two positions of "PaPage 1ge 2" |
| Cleaner.RejoinedResultMatched | python-ai/preprocessing/cleaner.py:35 | "Page 2" is one whole page mark |
| Cleaner.PageMarkRejoined | python-ai/preprocessing/cleaner.py:35 | the single page pass turns "PaPage 1ge 2" into "Page 2", a page mark it would remove, so page numbers can remain |
| Cleaner.CleanEmpty | python-ai/preprocessing/cleaner.py:29-55 | empty input gives empty text and reduction 0 |
| OcrCleaner.RunPasses | python-ai/extraction/ocr_cleaner.py:105-130 | at most one correction per pass, each the label of one of the passes |
| OcrCleaner.NoCorrectionNoChange | python-ai/extraction/ocr_cleaner.py:106-110 | with no correction recorded no pass changed the text |
| OcrCleaner.HyphenMatch | python-ai/extraction/ocr_cleaner.py:171 | a match of the hyphen pattern is at least four characters long and starts and ends with a letter of [a-zà-ÿ] |
| OcrCleaner.HyphenMatchSpec | python-ai/extraction/ocr_cleaner.py:171 | a match is a letter, a hyphen, whitespace holding a line break, and a letter; where a letter and a hyphen do not start a match, the whitespace after them holds no line break or no letter follows it |
| OcrCleaner.HyphenJoined | python-ai/extraction/ocr_cleaner.py:171 | defines the hyphen pass: each match replaced by its two letters; stated by HyphenJoinedNewlines, HyphenJoinedNoHyphen and HyphenJoinedExample |
| OcrCleaner.HyphenJoinedNewlines | python-ai/extraction/ocr_cleaner.py:171 | the hyphen pass never adds a line break |
| OcrCleaner.HyphenJoinedNoHyphen | python-ai/extraction/ocr_cleaner.py:171 | a text without a hyphen is left unchanged |
| OcrCleaner.HyphenExampleMatches | python-ai/extraction/ocr_cleaner.py:167-171 | in "ges-\ntionnaire" the pattern matches "s-\nt" and nowhere else |
| OcrCleaner.ExampleJoined | python-ai/extraction/ocr_cleaner.py:167-171 | a substitution matching that example as the hyphen pattern does gives "gestionnaire" |
| OcrCleaner.HyphenJoinedExample | python-ai/extraction/ocr_cleaner.py:167-171 | the documented example: "ges-\ntionnaire" becomes "gestionnaire" |
| OcrCleaner.ApplyPasses | python-ai/extraction/ocr_cleaner.py:106-130 | the pass loop computes the text and corrections of RunPasses: one correction per pass that changed the text, in pass order |
| OcrCleaner.Merged | python-ai/extraction/ocr_cleaner.py:175-194 | rejoining never increases the line count and at most halves it |
| OcrCleaner.MergedNone | python-ai/extraction/ocr_cleaner.py:178-194 | when no line is merged, the lines are the right-stripped input lines |
| OcrCleaner.MergedHead | python-ai/extraction/ocr_cleaner.py:182-193 | the first line is merged with the second exactly when it is non-empty, shorter than 50, ends lower-case and the next line starts lower-case |
| OcrCleaner.MergedFrom | python-ai/extraction/ocr_cleaner.py:178-194 | from position i, the line there is merged with the next one (which is consumed) only when it is not the last and is mergeable |
| OcrCleaner.BrokenWordsFixed | python-ai/extraction/ocr_cleaner.py:164-196 | defines the text after _fix_broken_words: the hyphen pass, then the broken lines merged; stated by BrokenWordsFixedLines and the Merged lemmas |
| OcrCleaner.MergeStep | python-ai/extraction/ocr_cleaner.py:178-194 | one step of the loop: the lines gathered so far followed by the merged rest stay the same whether line i is taken alone or with line i + 1 |
| OcrCleaner.MergeBrokenLines | python-ai/extraction/ocr_cleaner.py:175-194 | the while loop over i computes Merged |
| OcrCleaner.FixBrokenWords | python-ai/extraction/ocr_cleaner.py:164-196 | the hyphen pass, the split, the merge loop and the join compute BrokenWordsFixed |
| OcrCleaner.MergedNoNewline | python-ai/extraction/ocr_cleaner.py:175-194 | rejoining lines free of line breaks gives lines free of line breaks |
| OcrCleaner.BrokenWordsFixedLines | python-ai/extraction/ocr_cleaner.py:164-196 | _fix_broken_words never gives more lines than the text had: the hyphen pass removes line breaks, and the loop only merges lines |
| OcrCleaner.LineBreaksKeepText | python-ai/extraction/ocr_cleaner.py:209-216 | every non-blank line is kept, in order |
| OcrCleaner.LineBreaksBlankRuns | python-ai/extraction/ocr_cleaner.py:205-216 | the kept lines never hold three blank lines in a row, and blank_count describes their end |
| OcrCleaner.AppendKeepsRuns | python-ai/extraction/ocr_cleaner.py:213-216 | keeping a blank line only while blank_count is at most 2 keeps runs short |
| OcrCleaner.LineBreaksState | python-ai/extraction/ocr_cleaner.py:205-216 | defines the kept lines and blank_count after the loop; stated by LineBreaksKeepText and LineBreaksBlankRuns |
| OcrCleaner.KeepBlankRuns | python-ai/extraction/ocr_cleaner.py:206-216 | the counter loop computes the kept lines of LineBreaksState |
| OcrCleaner.LineBreaksNormalized | python-ai/extraction/ocr_cleaner.py:198-218 | defines the text after _normalize_line_breaks; stated by LineBreaksKeepText and LineBreaksBlankRuns |
| OcrCleaner.NormalizeLineBreaks | python-ai/extraction/ocr_cleaner.py:198-218 | split, loop and join compute LineBreaksNormalized |
| OcrCleaner.Mismatches | python-ai/extraction/ocr_cleaner.py:230 | the differing positions of a prefix are at most its length |
| OcrCleaner.NoMismatches | python-ai/extraction/ocr_cleaner.py:230 | no differing position means equal prefixes |
| OcrCleaner.CharDiff | python-ai/extraction/ocr_cleaner.py:229-231 | defines the differing positions of the common prefix plus the length difference; stated by CharDiffPositive |
| OcrCleaner.CharDiffPositive | python-ai/extraction/ocr_cleaner.py:229-231 | the character difference is 0 exactly when the texts are equal |
| OcrCleaner.MismatchesSame | python-ai/extraction/ocr_cleaner.py:230 | a text does not differ from itself |
| OcrCleaner.ImprovementScore | python-ai/extraction/ocr_cleaner.py:220-239 | the score lies in 0..100; it is 0 for equal texts or an empty original and positive otherwise |
| OcrCleaner.CleanText | python-ai/extraction/ocr_cleaner.py:76-146 | the guard, normalisation, the three pass loops, broken words, blank lines and strip compute OcrCleaned |
| OcrCleaner.OcrCleaned | python-ai/extraction/ocr_cleaner.py:86-142 | defines the result of clean_text: unchanged for blank input, the passes otherwise; stated by OcrCleanedSpec |
| OcrCleaner.CleanedNonBlank | python-ai/extraction/ocr_cleaner.py:96-142 | defines clean_text on a text that is not blank: normalisation, the three pass groups, broken words, blank lines, strip, and the corrections in pass order; stated by OcrCleanedSpec |
| OcrCleaner.OcrCleanedSpec | python-ai/extraction/ocr_cleaner.py:76-146 | the original is the input; blank input comes back unchanged with no correction and score 0; otherwise the output is stripped; the score lies in 0..100 and is positive iff the output differs from a non-empty input; at most one correction per pass plus normalisation |
| OcrRefiner.NewRefiner | python-ai/extraction/ocr_refiner.py:19-33 | a new refiner keeps the configured token and the fixed prompt |
| OcrRefiner.DetectChanges | python-ai/extraction/ocr_refiner.py:139-166 | no change iff the texts are equal; at most two entries; the last is the text entry holding the first 100 characters of both, each a prefix of its text |
| OcrRefiner.DetectChangesEntries | python-ai/extraction/ocr_refiner.py:143-157 | a structure entry appears iff the texts differ and their word counts differ; it is then the first entry, high severity, with both counts |
| OcrRefiner.StructureFirst | python-ai/extraction/ocr_refiner.py:150-164 | an optional structure entry followed by a text entry: present iff the counts differ, and first |
| OcrRefiner.Confidence | python-ai/extraction/ocr_refiner.py:168-183 | 1.0 iff the texts are equal; for differing texts 0.5 iff min/max length is below 0.9, and 0.8 when it is at least 0.9 (so 0.8 for equal lengths) |
| OcrRefiner.Fallback | python-ai/extraction/ocr_refiner.py:185-194 | refined equals original equals the text, no change, confidence 0.0, AI not used |
| OcrRefiner.Refiner.ParagraphOutcome | python-ai/extraction/ocr_refiner.py:63-81 | blank paragraphs, paragraphs from the sixth on without a token and failed requests keep the paragraph with no change; changes are recorded iff the paragraph changed, and a changed paragraph is the model's answer; a non-blank paragraph that is not skipped and whose request succeeds becomes the model's answer, with the changes DetectChanges finds between the two |
| OcrRefiner.Refiner.RefineAt | python-ai/extraction/ocr_refiner.py:64-81 | the two skips and the try/except compute ParagraphOutcome |
| OcrRefiner.Refiner.RefineParagraphs | python-ai/extraction/ocr_refiner.py:63-81 | the loop computes the refined paragraphs and all changes of RefinedParagraphs |
| OcrRefiner.Refiner.RefineText | python-ai/extraction/ocr_refiner.py:35-91 | the guard, split, loop and join compute Refined |
| OcrRefiner.Refiner.Refined | python-ai/extraction/ocr_refiner.py:35-91 | defines the result of refine_text: the fallback without a token over 1000 characters, the refined paragraphs joined otherwise; stated by RefinedSpec |
| OcrRefiner.RefinedParagraphs | python-ai/extraction/ocr_refiner.py:59-81 | exactly one output paragraph per input paragraph |
| OcrRefiner.RefinedParagraphsAt | python-ai/extraction/ocr_refiner.py:63-81 | output paragraph k is the outcome of paragraph k |
| OcrRefiner.RefinedParagraphsChanged | python-ai/extraction/ocr_refiner.py:78-90 | changes are recorded exactly when some paragraph was altered, given outcomes that record changes iff they alter |
| OcrRefiner.ParagraphsSpec | python-ai/extraction/ocr_refiner.py:59-83 | one output per paragraph; blank, free-tier-skipped and failed paragraphs are copied; altered paragraphs are the model's answer; a non-blank, non-skipped paragraph whose request succeeds is replaced by the model's answer; no change iff no paragraph altered |
| OcrRefiner.RefinedSpec | python-ai/extraction/ocr_refiner.py:35-95 | without token a text over 1000 characters falls back unchanged with confidence 0 and the model unused; otherwise the refined paragraphs are joined back, used_ai holds iff some paragraph changed, and the confidence compares the whole texts |
| OcrRefiner.DifferingPairs | python-ai/extraction/ocr_refiner.py:213-214 | no differing pair iff the compared lines agree |
| OcrRefiner.DiffBlocksCount | python-ai/extraction/ocr_refiner.py:213-219 | five diff lines per differing pair |
| OcrRefiner.DiffBlocksPrefix | python-ai/extraction/ocr_refiner.py:213-219 | the blocks only grow as more pairs are compared: those of the first k pairs begin those of the first n |
| OcrRefiner.DiffBlocksAt | python-ai/extraction/ocr_refiner.py:213-219 | the block of differing pair k comes after the blocks of the differing pairs before it and reads "**Ligne k+1 :**", "```diff", "- " and the original line, "+ " and the refined line, and the closing fence |
| OcrRefiner.ComparedPairs | python-ai/extraction/ocr_refiner.py:213 | zip of the first five lines compares at most five pairs, and no more than either text has |
| OcrRefiner.DiffLinesSpec | python-ai/extraction/ocr_refiner.py:196-221 | equal texts give the header and the no-change line; otherwise the header then one block per differing pair among the first five: at most 26 lines, just the header when those pairs agree |
| OcrRefiner.DiffLines | python-ai/extraction/ocr_refiner.py:196-221 | defines the markdown diff; stated by DiffLinesSpec |
| OcrRefiner.DiffBlocks | python-ai/extraction/ocr_refiner.py:213-219 | defines the blocks of the differing line pairs; stated by DiffBlocksCount and DiffBlocksAt |
| OcrRefiner.GenerateDiff | python-ai/extraction/ocr_refiner.py:196-221 | the appends of the loop give the lines of DiffLines, joined by newlines |
| Rag.KeywordHits | python-ai/rag_service.py:328-330 | at most one hit per keyword; none iff no keyword occurs in the lower-cased query |
| Rag.Score | python-ai/rag_service.py:325-338 | 2 per keyword found, plus 3 for a non-empty matching clause type, plus 1 when some query word occurs in the content; positive iff one of the three matches |
| Rag.Candidates | python-ai/rag_service.py:323-344 | only positively scored hits, never more than the articles |
| Rag.CandidatesSpec | python-ai/rag_service.py:323-344 | every candidate is an article with its score above 0, and every article scored above 0 is a candidate |
| Rag.Insert | python-ai/rag_service.py:347 | inserting one hit adds exactly that hit |
| Rag.SortByScore | python-ai/rag_service.py:347 | sorting keeps the length |
| Rag.WithScore | python-ai/rag_service.py:347 | the hits of one score hold only that score |
| Rag.WithScoreAppend | python-ai/rag_service.py:347 | the hits of one score distribute over concatenation |
| Rag.WithScoreNone | python-ai/rag_service.py:347 | hits all below a score have none of that score |
| Rag.InsertBound | python-ai/rag_service.py:347 | insertion keeps an upper bound on the scores |
| Rag.InsertSorted | python-ai/rag_service.py:347 | insertion into a list sorted by decreasing score keeps it sorted |
| Rag.InsertWithScore | python-ai/rag_service.py:347 | insertion puts the new hit after the equal-score hits already there |
| Rag.SortByScoreSorted | python-ai/rag_service.py:347 | the sort with reverse=True gives non-increasing scores |
| Rag.SortByScorePermutation | python-ai/rag_service.py:347 | the sort is a permutation |
| Rag.WithScoreLast | python-ai/rag_service.py:347 | the hits of one score of a list split at its last element |
| Rag.SortByScoreStable | python-ai/rag_service.py:347 | the sort is stable: the hits of each score keep their order, as Python's sort promises also with reverse=True |
| Rag.TopHitsSpec | python-ai/rag_service.py:346-348 | the first top_k of the sorted hits: at most top_k, all from the hits, sorted, led by a best one, and for a top_k of all hits the stable permutation |
| Rag.RankedCandidates | python-ai/rag_service.py:323-348 | at most top_k results, each an article with its positive score, sorted, led by a best-scored article |
| Rag.RankedCandidatesComplete | python-ai/rag_service.py:323-348 | with a top_k of at least the candidate count, every positively scored article is returned, equal scores in knowledge-base order |
| Rag.SearchResultsSpec | python-ai/rag_service.py:308-348 | the same, for the lower-cased query and its word split |
| Rag.SearchResultsComplete | python-ai/rag_service.py:308-348 | the same completeness, for the query |
| Rag.SearchResults | python-ai/rag_service.py:308-348 | defines search_relevant_articles; stated by SearchResultsSpec and SearchResultsComplete |
| Rag.ReferenceOf | python-ai/rag_service.py:372-377 | source, article and title copied; the summary is the first 150 characters of the content plus "...", at most 153 characters |
| Rag.EnrichmentOf | python-ai/rag_service.py:363-387 | no references iff no hit, then the fixed no-reference text; otherwise one reference per hit in order, and the context from the first hit |
| Rag.ContextOf | python-ai/rag_service.py:380-381 | defines the legal context line of the top hit, its content cut to 200 characters |
| Rag.ReferencesOf | python-ai/rag_service.py:370-377 | one reference per hit, in order |
| Rag.LegalRagService.constructor | python-ai/rag_service.py:26-30 | keeps the path and loads exactly the 32 embedded articles |
| Rag.LegalRagService.LoadKnowledgeBase | python-ai/rag_service.py:32-37 | appends the embedded knowledge base to the article list and changes nothing else |
| Rag.LegalRagService.KeywordScore | python-ai/rag_service.py:325-330 | the keyword loop adds 2 per keyword found |
| Rag.LegalRagService.SearchRelevantArticles | python-ai/rag_service.py:308-348 | the loops, sort and slice compute SearchResults over the loaded articles |
| Rag.LegalRagService.References | python-ai/rag_service.py:370-377 | the reference loop computes ReferencesOf |
| Rag.LegalRagService.EnrichClauseAnalysis | python-ai/rag_service.py:350-387 | computes the enrichment of the top 2 results for the clause type |
| Rag.EnrichmentSpec | python-ai/rag_service.py:350-387 | at most two references; none and the fixed text iff no hit; otherwise the context from the best hit and each summary the first 150 characters of its article |
| ContractDetector.MatchedKeywords | python-ai/knowledge/contract_detector.py:837-841 | the matched keywords are drawn from the definition's keywords, each found lower-cased in the text; none iff no keyword is found |
| ContractDetector.CandidateOf | python-ai/knowledge/contract_detector.py:833-851 | a candidate iff some keyword matched; it carries the definition's key, name and category, the matched keywords, and a confidence capped at 1.0 that is positive for a positive priority |
| ContractDetector.PositiveConfidence | python-ai/knowledge/contract_detector.py:845 | a positive fraction of keywords times a positive priority is positive |
| ContractDetector.Candidates | python-ai/knowledge/contract_detector.py:833-851 | at most one candidate per definition |
| ContractDetector.CandidatesSpec | python-ai/knowledge/contract_detector.py:833-851 | every candidate comes from a definition; there is none iff no definition matched |
| ContractDetector.BestIndex | python-ai/knowledge/contract_detector.py:858 | max with a key: a candidate of greatest confidence, the first of them |
| ContractDetector.DetectedSpec | python-ai/knowledge/contract_detector.py:823-859 | with no keyword matching any type the default service contract; otherwise the first candidate of greatest confidence, from a definition that matched, with confidence at most 1.0 and positive when all priorities are |
| ContractDetector.Detected | python-ai/knowledge/contract_detector.py:823-860 | defines the result of detect_contract_type; stated by DetectedSpec |
| ContractDetector.FirstWithKey | python-ai/knowledge/contract_detector.py:865 | the index of the first definition with the key, or the length when there is none |
| ContractDetector.FindDefinition | python-ai/knowledge/contract_detector.py:865 | no definition iff no key matches; otherwise the first definition with the key |
| ContractDetector.CodeReferencesAppend | python-ai/knowledge/contract_detector.py:871-873 | the collected references distribute over a concatenation of codes |
| ContractDetector.CodeReferencesSingle | python-ai/knowledge/contract_detector.py:871-873 | one code contributes its references when it is in the database, nothing otherwise |
| ContractDetector.CodeReferences | python-ai/knowledge/contract_detector.py:871-873 | defines the references collected over the codes; stated by CodeReferencesAppend and CodeReferencesSingle |
| ContractDetector.LegalReferencesFor | python-ai/knowledge/contract_detector.py:862-875 | at most six references; none for an unknown key; otherwise the first six of the references of the definition's codes, in order |
| ContractDetector.AllContractTypes | python-ai/knowledge/contract_detector.py:877-887 | one summary per definition, in order, with its key, name, category value and keyword count |
| ContractDetector.Detector.MatchKeywords | python-ai/knowledge/contract_detector.py:836-841 | the keyword loop computes the matched keywords and counts them |
| ContractDetector.Detector.ScoreDefinition | python-ai/knowledge/contract_detector.py:834-851 | one pass of the definition loop computes CandidateOf |
| ContractDetector.Detector.DetectContractType | python-ai/knowledge/contract_detector.py:823-859 | the loop and the best-match choice compute Detected |
| ContractDetector.Detector.GetLegalReferences | python-ai/knowledge/contract_detector.py:862-875 | the lookup and loop compute LegalReferencesFor |
| ContractDetector.NewDetector | python-ai/knowledge/contract_detector.py:50-52 | a detector holds the given definitions and the legal database |
| Validator.ValidateFile | python-ai/utils/validator.py:25-59 | valid exactly when there is no error message |
| Validator.LastPiece | python-ai/utils/validator.py:52 | the last piece of a split on one character holds none of it and ends the text; it is shorter than the text iff the character occurs, and then follows an occurrence |
| Validator.ExtensionSpec | python-ai/utils/validator.py:52 | no dot gives the empty extension; otherwise the extension is the dot-free end of the lower-cased path, right after its last dot when that has one |
| Validator.Extension | python-ai/utils/validator.py:52 | defines the extension expression; stated by ExtensionSpec and ExtensionOfName |
| Validator.MimeMessage | python-ai/utils/validator.py:48 | defines the MIME error message |
| Validator.ExtensionMessage | python-ai/utils/validator.py:56 | defines the extension error message |
| Validator.DotFreeTail | python-ai/utils/validator.py:52 | a dot-free tail puts no dot at any of its positions |
| Validator.ExtensionOfName | python-ai/utils/validator.py:52 | the extension of a lower-case name "base.e" with a dot-free e is e |
| Validator.ValidateFileValid | python-ai/utils/validator.py:37-59 | valid iff the size is at most 50 MiB, the MIME type is allowed and "." plus the extension is allowed |
| Validator.ValidateFileTooLarge | python-ai/utils/validator.py:37-42 | over 50 MiB the error is "Fichier trop volumineux (max 50 MB)", whatever the type and name |
| Validator.TooLargeMessageText | python-ai/utils/validator.py:41 | the size limit is written as 50 MB and the message says the file is too large |
| Validator.ValidateFileMime | python-ai/utils/validator.py:44-49 | within the size, a refused MIME type gives its own message, before the extension is looked at |
| Validator.ValidateFileExtension | python-ai/utils/validator.py:51-57 | with size and type accepted, a refused extension gives the extension message with its text |
| Validator.ValidateFileMimeFirstExample | python-ai/utils/validator.py:37-49 | "file.exe" sent as application/octet-stream is refused by the MIME check |
| ReportContext.CountSeverity | python-ai/export/pdf_generator.py:91-95 | a level count never exceeds the number of risks |
| ReportContext.RiskCountsPartition | python-ai/export/pdf_generator.py:91-95 | the three level counts plus the risks of any other or no severity make up the whole list |
| ReportContext.CountSeveritySpec | python-ai/export/pdf_generator.py:91-95 | a count is positive iff some risk has that severity, and total iff all have |
| ReportContext.UrgentRecommendationsBound | python-ai/export/pdf_generator.py:98-102 | at most one recommendation per risk, none when no risk is high or medium |
| ReportContext.UrgentRecommendationsAll | python-ai/export/pdf_generator.py:98-102 | when all risks are high or medium, their recommendations in order, '' for a missing one |
| ReportContext.UrgentRecommendationsMembers | python-ai/export/pdf_generator.py:98-102 | every urgent risk contributes its recommendation, and each recommendation comes from an urgent risk |
| ReportContext.UrgentRecommendationsAppend | python-ai/export/pdf_generator.py:98-102 | the comprehension distributes over concatenation, keeping the order of the risks |
| ReportContext.UrgentRecommendationsSingle | python-ai/export/pdf_generator.py:98-102 | one risk contributes its recommendation ('' when missing) if high or medium, nothing otherwise |
| ReportContext.UrgentIndices | python-ai/export/pdf_generator.py:100-101 | the positions of the high and medium risks below n, strictly increasing, each urgent position present |
| ReportContext.UrgentRecommendationsAt | python-ai/export/pdf_generator.py:98-102 | recommendation i of the first n risks is that of the i-th urgent one among them, with as many recommendations as urgent risks |
| ReportContext.UrgentRecommendations | python-ai/export/pdf_generator.py:98-102 | defines the recommendations of the high and medium risks; order and multiplicity are stated by UrgentRecommendationsAt and UrgentRecommendationsAppend |
| ReportContext.TopRecommendationsSpec | python-ai/export/pdf_generator.py:98-102 | at most three recommendations, exactly those of the urgent risks among the first three: recommendation i is that of the i-th urgent risk among them, in risk order |
| ReportContext.TopRecommendationsMixedExample | python-ai/export/pdf_generator.py:98-102 | risks high A, low B, medium C give the recommendations A then C |
| ReportContext.PrepareContextSpec | python-ai/export/pdf_generator.py:81-116 | missing keys take their defaults ("Inconnu", empty dicts and lists), risks and clauses pass through, the totals are their lengths and the three counts never exceed the total |
| ReportContext.PrepareContext | python-ai/export/pdf_generator.py:81-116 | defines _prepare_context; stated by PrepareContextSpec |
| AutomaticOcr.BlankRunMatch | src/lib/ocr/automatic-ocr.ts:153 | `[ \t]+` matches at a position iff a space or tab is there, and runs to the last one |
| AutomaticOcr.ExcessBreaksMatch | src/lib/ocr/automatic-ocr.ts:154 | a match of the line-break pattern stays inside the text |
| AutomaticOcr.EndOfLine | src/lib/ocr/automatic-ocr.ts:157 | `.*$` reaches the first line terminator or the end, crossing no terminator |
| AutomaticOcr.PageLineMatch | src/lib/ocr/automatic-ocr.ts:157 | a page-line match stays inside the text |
| AutomaticOcr.LastLineEnd | src/lib/ocr/automatic-ocr.ts:158 | the backtracking of `\s*` before `$`: the last position of a range where `$` matches, or none when none does |
| AutomaticOcr.DigitLineMatch | src/lib/ocr/automatic-ocr.ts:158 | a digit-line match stays inside the text |
| AutomaticOcr.CleanOcrText | src/lib/ocr/automatic-ocr.ts:141-164 | the trimmed result neither starts nor ends with whitespace |
| AutomaticOcr.SubFromSame | src/lib/ocr/automatic-ocr.ts:149-150 | a pass that puts back exactly the one character it matched leaves the text as it is |
| AutomaticOcr.AccentsUnchanged | src/lib/ocr/automatic-ocr.ts:149-150 | the two accent passes give back their input |
| AutomaticOcr.PassKeepsClean | src/lib/ocr/automatic-ocr.ts:153-158 | a pass whose replacement has no pipe and no backslash keeps a text free of both |
| AutomaticOcr.ArtifactsReplaced | src/lib/ocr/automatic-ocr.ts:145-146 | after the first two passes no pipe and no backslash is left |
| AutomaticOcr.PipesReplaced | src/lib/ocr/automatic-ocr.ts:145 | defines the pipe pass; stated by ArtifactsReplaced |
| AutomaticOcr.BackslashesReplaced | src/lib/ocr/automatic-ocr.ts:146 | defines the backslash pass; stated by ArtifactsReplaced |
| AutomaticOcr.AccentsReplaced | src/lib/ocr/automatic-ocr.ts:149-150 | defines the accent passes; stated by AccentsUnchanged |
| AutomaticOcr.SpacingNormalized | src/lib/ocr/automatic-ocr.ts:153-154 | defines the whitespace passes; stated by LaterPassesKeepClean |
| AutomaticOcr.PageLinesEmptied | src/lib/ocr/automatic-ocr.ts:157-158 | defines the page-line passes; stated by LineEmptied |
| AutomaticOcr.LaterPassesKeepClean | src/lib/ocr/automatic-ocr.ts:153-158 | the spacing and page-line passes keep the text free of both |
| AutomaticOcr.CleanOcrTextNoArtifacts | src/lib/ocr/automatic-ocr.ts:141-164 | the cleaned text holds no pipe and no backslash |
| AutomaticOcr.NoArtifactIn | src/lib/ocr/automatic-ocr.ts:145-146 | a text all of whose characters are neither contains neither |
| AutomaticOcr.PageLineMatchSpec | src/lib/ocr/automatic-ocr.ts:157 | a page line matches iff "Page", at least one whitespace and at least one digit start at a line start; the match then ends at the end of the digits' line |
| AutomaticOcr.DigitLineMatchSound | src/lib/ocr/automatic-ocr.ts:158 | a digit-line match starts with a digit at a line start, holds only digits and whitespace, and ends where `$` matches |
| AutomaticOcr.DigitLineMatchComplete | src/lib/ocr/automatic-ocr.ts:158 | a line of digits followed only by spaces and tabs is matched at least to its end |
| AutomaticOcr.LineEmptied | src/lib/ocr/automatic-ocr.ts:157-158 | at a match, the line passes drop the whole match and continue after it |
| UploadSection.DropCrs | src/components/upload/UploadSection.tsx:65 | dropping the `\r` of `\r?\n` keeps one line per piece |
| UploadSection.DropCrsAppend | src/components/upload/UploadSection.tsx:65 | dropping the `\r` distributes over concatenation |
| UploadSection.SplitLines | src/components/upload/UploadSection.tsx:65 | the split always has a last piece to pop |
| UploadSection.SplitLinesParts | src/components/upload/UploadSection.tsx:65-66 | the split is the complete lines followed by the tail that is kept in the buffer |
| UploadSection.GlueCons | src/components/upload/UploadSection.tsx:63-65 | the pieces of a concatenation, glued at the seam, peel off a leading piece |
| UploadSection.GlueHead | src/components/upload/UploadSection.tsx:63-65 | gluing commutes with a character put in front of the first piece |
| UploadSection.SplitOnAppend | src/components/upload/UploadSection.tsx:63-65 | splitting a concatenation gives the pieces of both halves with the last of the first glued to the first of the second |
| UploadSection.PieceCount | src/components/upload/UploadSection.tsx:65 | one piece more than occurrences of the separator |
| UploadSection.OnePiece | src/components/upload/UploadSection.tsx:65 | a text without line break is one piece |
| UploadSection.GlueLast | src/components/upload/UploadSection.tsx:63-65 | only the last piece of the first half takes part in the glue |
| UploadSection.PiecesStep | src/components/upload/UploadSection.tsx:63-66 | the pieces of the whole text so far are the complete pieces before the chunk followed by the pieces of the old buffer plus the chunk |
| UploadSection.CompleteLinesStep | src/components/upload/UploadSection.tsx:63-66 | the lines handled after a chunk are those already handled followed by the complete lines of buffer plus chunk |
| UploadSection.TailStep | src/components/upload/UploadSection.tsx:63-66 | the buffer after a chunk is the tail of the whole text received so far |
| UploadSection.TailNoNewline | src/components/upload/UploadSection.tsx:66 | the retained buffer holds no line break |
| UploadSection.CompleteLinesUnterminated | src/components/upload/UploadSection.tsx:59-66 | text after the last line break adds no handled line, so an unterminated last line is never parsed |
| UploadSection.CompleteLinesTerminated | src/components/upload/UploadSection.tsx:63-66 | a line break completes exactly the buffered line, without its `\r` |
| UploadSection.JointMatch | src/components/upload/UploadSection.tsx:75 | a `}{` match stays inside the text |
| UploadSection.NewlinesAdded | src/components/upload/UploadSection.tsx:75 | the replacement adds exactly one line break per `}{` |
| UploadSection.NoJoints | src/components/upload/UploadSection.tsx:74 | a text without `}{` has no joint |
| UploadSection.FixConcatenatedSpec | src/components/upload/UploadSection.tsx:73-80 | a line with k occurrences of `}{` gives k+1 parts without line breaks; the parts concatenated give back the line; every part but the last ends with `}` and every part but the first starts with `{`; a line without any `}{` is its own single part |
| UploadSection.SplitSubstitution | src/components/upload/UploadSection.tsx:75 | replacing every `}{` by `}\n{` and splitting on line breaks cuts the text only between a `}` and a `{` and loses nothing |
| UploadSection.JointStep | src/components/upload/UploadSection.tsx:75 | at a `}{` the split gains a part boundary exactly between the two braces |
| UploadSection.OtherStep | src/components/upload/UploadSection.tsx:75 | any other character joins the first part and keeps the boundaries |
| UploadSection.JointParts | src/components/upload/UploadSection.tsx:75 | a `}\n{` in front splits off a part `}` |
| UploadSection.SplitJoint | src/components/upload/UploadSection.tsx:75 | a part `}` before a `{` joined to the first part keeps the concatenation and the boundaries |
| UploadSection.PrependStep | src/components/upload/UploadSection.tsx:75 | a character other than a line break in front joins the first part, keeping the concatenation and the boundaries |
| UploadSection.PrependToFirst | src/components/upload/UploadSection.tsx:75 | prepending to the first part prepends to the concatenation and keeps the boundaries |
| UploadSection.CloseBefore | src/components/upload/UploadSection.tsx:75 | a part `}` before parts starting with `{` keeps the boundaries |
| UploadSection.SplitOnOther | src/components/upload/UploadSection.tsx:75 | `split('\n')` joins a leading non-newline character to its first piece |
| UploadSection.SplitOnNewline | src/components/upload/UploadSection.tsx:75 | `split('\n')` of a text starting with a line break starts with an empty piece |
| UploadSection.ConcatCons | src/components/upload/UploadSection.tsx:63 | concatenating pieces with one in front puts that piece in front |
| UploadSection.FixConcatenated | src/components/upload/UploadSection.tsx:73-78 | defines fixConcatenated; stated by FixConcatenatedSpec |
| UploadSection.DispatchIgnores | src/components/upload/UploadSection.tsx:83-119 | a part that fails to parse, an 'error' message or an unknown type leaves the state as it is; only 'ocr_complete' changes the retained OCR text |
| UploadSection.Dispatch | src/components/upload/UploadSection.tsx:86-114 | defines the switch on one part; stated by DispatchIgnores, OcrCompleteThenComplete and ProgressAppends |
| UploadSection.OcrCompleteThenComplete | src/components/upload/UploadSection.tsx:100-111 | 'ocr_complete' shows and keeps the full text; a later 'complete' shows it again, or "Texte extrait." when empty |
| UploadSection.ProgressAppends | src/components/upload/UploadSection.tsx:90-107 | progress messages only append to the displayed text and keep the OCR text |
| UploadSection.DispatchPartsAppend | src/components/upload/UploadSection.tsx:82-120 | handling parts one list after another is handling the concatenation |
| UploadSection.FailedPartSkipped | src/components/upload/UploadSection.tsx:83-119 | a part that fails or carries an error is skipped and the later parts are still handled |
| UploadSection.DispatchLinesAppend | src/components/upload/UploadSection.tsx:68-121 | handling lines one list after another is handling the concatenation |
| UploadSection.DispatchLines | src/components/upload/UploadSection.tsx:68-121 | defines the handling of the lines in order; stated by DispatchLinesAppend and BlankLinesSkipped |
| UploadSection.StreamResult | src/components/upload/UploadSection.tsx:54-122 | defines the effect of the whole stream: the complete lines handled in order |
| UploadSection.ResponseText | src/components/upload/UploadSection.tsx:40-137 | defines the text processFile leaves for each response |
| UploadSection.ExtractionError | src/components/upload/UploadSection.tsx:127-137 | defines the catch message for an error |
| UploadSection.BlankLinesSkipped | src/components/upload/UploadSection.tsx:69-70 | a line that is blank after trimming is skipped |
| UploadSection.Panel.constructor | src/components/upload/UploadSection.tsx:13-23 | the initial state: input step, nothing processing, no file, preview, text or report |
| UploadSection.Panel.HandlePart | src/components/upload/UploadSection.tsx:83-119 | the try block and switch on one part compute Dispatch on the displayed and the retained text |
| UploadSection.Panel.HandleParts | src/components/upload/UploadSection.tsx:82-120 | the part loop computes DispatchParts |
| UploadSection.Panel.HandleLines | src/components/upload/UploadSection.tsx:68-121 | the line loop with trim, skip and split computes DispatchLines |
| UploadSection.Panel.ReadStream | src/components/upload/UploadSection.tsx:54-122 | the read loop handles exactly the complete lines of all chunks, in order, and leaves the text after the last line break, which holds none, in the buffer |
| UploadSection.Panel.ShowResponse | src/components/upload/UploadSection.tsx:36-137 | from the connecting text, the failure message for each failed response or the stream's result |
| UploadSection.Panel.ProcessFile | src/components/upload/UploadSection.tsx:25-141 | preview step, processing over, the file set, an image preview only for image types, and the text ResponseText gives |
| UploadSection.Panel.HandleAnalyzeClick | src/components/upload/UploadSection.tsx:168-219 | with a report: results and no request, the text, report and analysing flag unchanged; with missing or blank text: no request and nothing changed; otherwise the text is sent, the started line appended, then the report stored with the success line and the results step, or the failure line with the error message, and the analysing flag cleared |
| UploadSection.Panel.Reset | src/components/upload/UploadSection.tsx:221-227 | back to the input step with file, preview, text and report cleared, and the processing flags kept |
| Text.LStrip | python-ai/preprocessing/cleaner.py:51 | the left strip is a suffix of the text that does not start with a stripped character |
| Text.LStripRemoved | python-ai/preprocessing/cleaner.py:51 | every character the left strip removes is a stripped character |
| Text.RStrip | python-ai/preprocessing/cleaner.py:51 | the right strip is a prefix of the text that does not end with a stripped character |
| Text.RStripRemoved | python-ai/preprocessing/cleaner.py:51 | every character the right strip removes is a stripped character |
| Text.LeadingCount | python-ai/preprocessing/cleaner.py:51 | the count of leading stripped characters is where the left strip starts |
| Text.StripBy | python-ai/preprocessing/cleaner.py:51 | the stripped text is a contiguous piece of the text, after its leading stripped characters, neither starting nor ending with one |
| Text.Trim | src/lib/ocr/automatic-ocr.ts:161 | defines String.prototype.trim as a strip of JavaScript white space and line terminators; stated by the StripBy lemmas |
| Text.StripByEmpty | python-ai/preprocessing/chunker.py:91 | nothing is left iff every character is stripped |
| Text.LStripAll | python-ai/preprocessing/chunker.py:91 | a text made only of stripped characters strips to nothing |
| Text.SliceKeepsAll | python-ai/preprocessing/cleaner.py:51 | a piece of a text keeps a property of all its characters |
| Text.SliceKeepsNoAdjacent | python-ai/preprocessing/cleaner.py:51 | a piece of a text keeps "no two adjacent characters satisfy p" |
| Text.NoAdjacentCons | python-ai/preprocessing/cleaner.py:39 | a character put in front keeps "no two adjacent" when it and the old first character are not both of the class |
| Text.StripByKeeps | python-ai/preprocessing/cleaner.py:51 | stripping keeps both properties |
| Text.Strip | python-ai/preprocessing/cleaner.py:51 | str.strip() never lengthens and leaves no whitespace at either end |
| Text.ContainsAt | python-ai/utils/validator.py:41 | a substring found at a position is contained |
| Text.ContainsWitness | python-ai/utils/validator.py:41 | a contained substring occurs at some position |
| Text.ContainsInside | python-ai/utils/validator.py:41 | a concatenation contains its middle part |
| Text.FirstGroup | python-ai/preprocessing/chunker.py:100-116 | the first keyword group with a keyword in the text, no earlier group having one, or the number of groups when none has |
| Text.Run | src/lib/ocr/automatic-ocr.ts:153 | a maximal run of characters with a property, from a position |
| Text.SplitOn | python-ai/preprocessing/cleaner.py:71 | a split always gives at least one piece |
| Text.JoinCons | python-ai/preprocessing/cleaner.py:86 | joining with a leading piece puts that piece and the separator in front |
| Text.JoinPrepend | python-ai/preprocessing/cleaner.py:86 | a character put in front of the first piece goes in front of the joined text |
| Text.JoinSplitOn | python-ai/preprocessing/cleaner.py:71-86 | joining the pieces of a split with the same separator gives back the text |
| Text.Join | python-ai/preprocessing/cleaner.py:86 | defines str.join; stated by JoinCons, JoinSplitOn and JoinCharCount |
| Text.CharCount | python-ai/extraction/ocr_cleaner.py:175 | the number of occurrences of a character is at most the length of the text |
| Text.CharCountAppend | python-ai/extraction/ocr_cleaner.py:175 | occurrences of a character add over concatenation |
| Text.CharCountAbsent | python-ai/extraction/ocr_cleaner.py:175 | a character that does not occur has count 0 |
| Text.CharCountSplit | python-ai/extraction/ocr_cleaner.py:175 | occurrences in a suffix are those before a cut plus those after it |
| Text.SplitOnCharCount | python-ai/extraction/ocr_cleaner.py:175 | splitting on one character gives one piece more than the text has of it |
| Text.JoinCharCount | python-ai/extraction/ocr_cleaner.py:196 | joining pieces free of a character with that character puts exactly one between each two pieces |
| Text.SplitOnCharPieces | python-ai/preprocessing/cleaner.py:71 | no piece of a split on one character contains it |
| Text.WordLength | python-ai/rag_service.py:337 | the leading word of str.split() is a maximal run of non-space characters |
| Text.Words | python-ai/rag_service.py:337 | defines str.split() without arguments: the maximal runs of non-space characters; stated by WordLength |
| Text.DigitChar | python-ai/utils/validator.py:41 | the character written for a value below ten is a digit whose value is that number |
| Text.DigitValue | python-ai/utils/validator.py:41 | the value of a digit character is below ten |
| Text.NatToString | python-ai/utils/validator.py:41 | str(n) and `${n}` on a natural number are a non-empty run of digits that starts with 0 only for 0 |
| Text.NatToStringValue | python-ai/utils/validator.py:41 | the digits written for n, read back as a decimal numeral, denote n |
| Text.NatToStringInjective | python-ai/utils/validator.py:41 | different numbers are written differently |
| Text.IntToString | src/components/upload/UploadSection.tsx:48 | `${n}` and str(n) on an integer start with a minus sign exactly when n is negative; the rest is digits, and the numeral denotes n |
| Text.SliceTo | python-ai/rag_service.py:348 | s[:n]: a prefix of length n clipped to the text, counted from the end for a negative n |
| Regex.SubFromShorter | python-ai/preprocessing/cleaner.py:35-44 | a substitution whose replacement is never longer than its match never lengthens the text |
| Regex.LiteralMatch | python-ai/preprocessing/cleaner.py:48 | str.replace finds its argument at a position exactly when the text holds it there; the match is the argument's length |
| Regex.SubFromChars | python-ai/preprocessing/cleaner.py:35-44 | every character of the result comes from the text or from the replacement |
| Regex.SubFromNoMatch | python-ai/preprocessing/cleaner.py:35-44 | a pattern that matches nowhere leaves the text as it is |
| Regex.SubFromKeeps | python-ai/preprocessing/cleaner.py:35-44 | a property of every unmatched character and of the replacement holds of the whole result |
| Regex.SubFromCollapses | python-ai/preprocessing/cleaner.py:39 | replacing every maximal run by one character of the run's class leaves no two adjacent |
| Regex.CollapseMatched | python-ai/preprocessing/cleaner.py:39 | a run replaced by its one character, in front of a result not starting with that class, leaves no two adjacent |
| Regex.CollapseKept | python-ai/preprocessing/cleaner.py:39 | a character outside the class, in front of a result with no two adjacent, keeps it so |
| Regex.SubFromNoAdjacent | python-ai/preprocessing/cleaner.py:39-44 | a later substitution keeps "no two adjacent" when its replacement has no such character |
| Regex.SubEndsFromStep | python-ai/extraction/ocr_cleaner.py:171 | a match whose two ends are not c adds no c beyond what the text after it gives |
| Regex.SubEndsFromKeep | python-ai/extraction/ocr_cleaner.py:171 | an unmatched character keeps the count bound |
| Regex.SubEndsFromCount | python-ai/extraction/ocr_cleaner.py:171 | a `\1\2` substitution whose matches never begin or end with c never adds a c |
| Regex.SubEndsFromNoMatch | python-ai/extraction/ocr_cleaner.py:171 | a pattern that matches nowhere leaves the text as it is |
| Regex.LastNewlineEnd | python-ai/preprocessing/cleaner.py:40 | the position after the last line break of a range, none following it |
| Regex.TwoNewlines | python-ai/preprocessing/cleaner.py:40 | a whitespace run from a line break holding a second one ends its last line break at least two on |
| Regex.NewlineRunMatch | python-ai/preprocessing/cleaner.py:40 | a match of a line-break-run pattern starts with a line break and is at least two long |
| Regex.OrderedInside | python-ai/preprocessing/chunker.py:72 | a non-empty list of ordered matches starts inside the text, and an empty text has none |
| Regex.SplitAroundLength | python-ai/preprocessing/chunker.py:72 | re.split with one group around k matches gives 2k+1 pieces |
| Regex.SplitAroundAt | python-ai/preprocessing/chunker.py:72 | piece 2j+1 is match j and piece 2j+2 the text after it |
| Regex.FollowingTail | python-ai/preprocessing/chunker.py:72 | the text after match j is the text after match j - 1 of the matches that follow the first |
| Regex.SplitAroundShape | python-ai/preprocessing/chunker.py:72 | both together, for every match |

## Left out

- Regular-expression engine: the patterns of the housing rules, of the article markers and of the OCR cleaner passes go through the parameters `exec`, `find` and the pass matchers; only their match contracts are modelled, not backtracking.
- Unicode case mapping: `str.lower`, `toLowerCase` and `islower` are the parameters `lower` and `isLower`. IGNORECASE in the small concrete matchers folds ASCII letters only.
- `_normalize_unicode` (python-ai/extraction/ocr_cleaner.py:148-162) is the parameter `normalize`: it stands for both the NFKC normalisation and the filter that drops Unicode category C characters other than newline and tab (lines 156-160).
- `\d` is the ASCII digits; Python's `\d` also accepts other Unicode decimal digits.
- JavaScript string lengths and indices count UTF-16 code units; the model counts code points. Texts outside the Basic Multilingual Plane differ.
- Floating point: confidences, the improvement score and `reduction_percent` are exact `real`s, and Python's rounding to two decimals is not modelled. The pipeline's global score is exact: `int(0.5c + 41.5)` equals `(c + 83) / 2` for every conformity c in 0..100, which is the range `max(0, 100 - ...)` gives (python-ai/pipeline.py:208). Outside that range `int` truncates toward zero and the two differ (c = -84 gives 0 against -1).
- HTTP and the hosted model: `_refine_paragraph` is the parameter `api`. It returns None where the request raises and the generated text otherwise, so its headers, parameters, timeout and JSON shape are not modelled.
- The outer `except` of `refine_text` (python-ai/extraction/ocr_refiner.py:93-95) is not modelled: with `_refine_paragraph` an oracle, nothing in the modelled body raises.
- The AI service of the TypeScript engine is the parameter `ai`.
- The two fetches of the upload panel are the outcomes `ExtractResponse` and `analyze`. JSON.parse is the parameter `parse`.
- `TextDecoder` streaming: the body arrives as already decoded chunks, so a multi-byte character split across reads is not modelled.
- Reader failures in the middle of the stream are not modelled.
- Clocks: `Date.now`, `new Date()` and `datetime.now()` are parameters (`startTime`, `endTime`, `now`, `today`); the report date's formatting is left out.
- `URL.createObjectURL` is the parameter `previewUrl`.
- Logging, `console`, `alert` and `logger` calls are left out.
- `setTimeout`: the 800 ms delay before the results step is taken as immediate.
- Panel state that only the rendering reads is not modelled: `activeTab`, `processingStatus` and `processingProgress`, plus `processCameraCapture` and `handleTextSubmit`, which only call `processFile`.
- `UploadSection.Panel.ProcessFile`: the `catch` branch for a thrown value that is not an `Error` (the generic extraction message) is not modelled, because every failure the modelled request produces is an `Error`.
- React batching: state setters take effect in program order.
- `_extract_entities` (python-ai/pipeline.py:133-150) is not part of this model. Its `set()`-based order is unspecified, so the modelled pipeline result has no `entities` field.
- PDF rendering (`generate_report`, jinja2, pdfkit) is not part of this model; only `_prepare_context` is.
- The JSON values of `_prepare_context` are string dictionaries: only `severity` and `recommendation` are read.
- The timing fields of the analysis report are opaque integers.
- python-ai/knowledge/contract_detector.py does not compile as written: the list closed at line 704 is followed by a `def` whose body goes on with list items, an IndentationError at line 709. The model is of the file with lines 706-774 removed, taking the evident intent that the second `_build_legal_database` (lines 776-821) is the legal database.
- Contract-type detection is proved for any definitions list. The hundred-odd definitions of `_build_contract_database` are a parameter rather than a constant.
- `HousingRules` and `Rag` embed their catalogues. The knowledge base has 32 articles, although the comments at python-ai/rag_service.py:4-5,20,33,45 announce 35.
- The first quote replacement at python-ai/preprocessing/cleaner.py:47 puts a double quote in place of itself and is the identity. The second, at line 48, is modelled as Python reads it (`QuoteCallMatch`).
- The quote classes at python-ai/extraction/ocr_cleaner.py:62-63 are modelled as written.
- The relevance gate at src/lib/analysis/engine.ts:78-80 needs 2 keywords, while the comment at line 66 says 3; the model follows the code.
- python-ai/tests/test_validator.py:51-59 expects the extension message for `file.exe` sent as `application/octet-stream`. The MIME check comes first, so the code gives the MIME message; the model follows the code (`Validator.ValidateFileMimeFirstExample`).
- `Cleaner.CleanedText`: no lemma states that no "Page N" or "Page N/M" remains, which python-ai/tests/test_cleaner.py:16-23 checks on one text. Step 2 removes page marks in one pass, so the text around a removed mark can form a new one: `Cleaner.PageMarkRejoined` shows "PaPage 1ge 2" becoming "Page 2". The removal of "Signature:" and "Cachet:" is stated, by `Cleaner.CleanedWithoutLabels`.
- `Pipeline.CleanText`: removing `Page \d+` in one pass can join the text around a removed match into a new "Page N". The model computes the single pass exactly, but no lemma claims that no page number remains.
