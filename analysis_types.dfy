/** The records that the TypeScript analysis engine passes around: a risk severity, the
    clause a risk points at, a detected risk (from a deterministic rule or from the AI
    service), the score with its letter grade, the report and the engine configuration. */
module AnalysisTypes {
  import opened Wrappers

  datatype Severity = Low | Medium | High | Critical

  /** The part of the analysed text a risk refers to. */
  datatype ExtractedClause = ExtractedClause(text: string, startIndex: int, endIndex: int)

  /** Whether a risk comes from a deterministic rule or from the AI service. */
  datatype RiskSource = Rule | Ai

  datatype DetectedRisk = DetectedRisk(
    id: string,
    severity: Severity,
    title: string,
    description: string,
    recommendation: string,
    clause: ExtractedClause,
    source: RiskSource)

  datatype Grade = A | B | C | D | F

  /** Sub-scores, documented as such but never computed by the engine. */
  datatype ScoreDetails = ScoreDetails(legal: int, financial: int, clarity: int)

  /** `total` is documented as lying in 0..100. */
  datatype AnalysisScore = AnalysisScore(total: int, details: ScoreDetails, grade: Grade)

  /** `processedAt` is the wall-clock time of the report, kept as an opaque number. */
  datatype AnalysisReport = AnalysisReport(
    documentId: Option<string>,
    contractType: string,
    score: AnalysisScore,
    risks: seq<DetectedRisk>,
    summary: string,
    processedAt: int,
    processingTimeMs: int)

  datatype AnalysisConfig = AnalysisConfig(enableAi: bool, contractType: string)
}
