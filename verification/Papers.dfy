/** The questions and papers the stages exchange. Go's float64 is `real`. */
module Papers {
  import opened Wrappers

  // Why a mark was given: the sentences the graders format, with the values
  // they format into them.
  datatype Reason =
    | Matches
    | DoesNotMatch
    | NotANumber
    | OutsideTolerance(parsed: real, expected: real, tolerance: real, kind: string)
    | ValueAndUnit(parsed: real, unit: string)
    | ValueWithoutUnit(parsed: real, unit: string)
    | WithinTolerance(parsed: real, expected: real, tolerance: real, kind: string)
    | NoStepMatched
    | EveryStepMatched(steps: nat)
    | SomeStepsMatched(matched: seq<nat>, missed: seq<nat>)
    | CriteriaMatched(hits: nat, of: nat, total: real, maxMarks: real)
    | NothingWritten
    | NotInGuide
    | NeedsModel
    | GradingFailed
    | Said(text: string)

  datatype AnswerFlag = BlankAnswer | LowReadConfidence | GradingFailedFlag

  datatype TranscribedQuestion = TranscribedQuestion(
    section: Option<string>, questionNo: string, maxMarks: real,
    studentAnswer: string, readConfidence: real)

  datatype GradedQuestion = GradedQuestion(
    questionNo: string, section: Option<string>, maxMarks: real, awardedMarks: real,
    studentAnswer: string, justification: Reason, confidence: real,
    flags: seq<AnswerFlag>, feedback: string)

  datatype GradedPaper = GradedPaper(
    questions: seq<GradedQuestion>, sectionTotals: map<string, real>,
    total: real, maxTotal: real, score100: real)

  function Clamp(v: real, lo: real, hi: real): real {
    if v < lo then lo else if v > hi then hi else v
  }
}
