/** The submission states, the table of allowed edges, and the transition
    function that decides what an event does in a state. */
module StateMachine {
  import opened Wrappers

  datatype State =
    | Uploaded | Queued | SplittingPages | ExtractingMetadata
    | Transcribing | TranscriptionReviewRequired
    | Grading | GradingReviewRequired
    | TeacherReview | Approved | Published | Exported
    | Failed | Archived

  datatype Event =
    | SubmitExam | ApplyFix | RetryStage | ApproveForGrading
    | StageSucceeded | StageFailed | FlaggedForReview
    | ApproveByTeacher | Publish | Export | Regrade

  datatype QualityFlag = LowReadConfidence | ChecksumMismatch | BlankOverThreshold | StructuralAnomaly

  function Transitions(s: State): set<State> {
    match s
    case Uploaded => {Queued, Failed}
    case Queued => {SplittingPages, Failed}
    case SplittingPages => {ExtractingMetadata, Failed}
    case ExtractingMetadata => {Transcribing, Failed}
    case Transcribing => {Grading, GradingReviewRequired, TranscriptionReviewRequired, Failed}
    case TranscriptionReviewRequired => {Transcribing, Grading, Failed}
    case Grading => {GradingReviewRequired, TeacherReview, Failed}
    case GradingReviewRequired => {Grading, Failed}
    case TeacherReview => {Approved, Grading, Failed}
    case Approved => {Published, Grading, Failed}
    case Published => {Exported, Archived, Grading, Failed}
    case Exported => {Archived, Grading, Failed}
    case Failed => {}
    case Archived => {}
  }

  predicate CanTransition(src: State, dst: State) {
    dst in Transitions(src)
  }

  function StageSucceededNext(cur: State, flags: seq<QualityFlag>): Option<State> {
    match cur
    case Queued => Some(SplittingPages)
    case SplittingPages => Some(ExtractingMetadata)
    case ExtractingMetadata => Some(Transcribing)
    case Transcribing => if |flags| > 0 then Some(TranscriptionReviewRequired) else Some(Grading)
    case Grading => Some(TeacherReview)
    case TeacherReview => Some(TeacherReview)
    case _ => None
  }

  function ComputeNext(cur: State, ev: Event, flags: seq<QualityFlag>): Option<State> {
    match ev
    case SubmitExam => if cur.Uploaded? || cur.Queued? then Some(Queued) else None
    case StageFailed => Some(Failed)
    case StageSucceeded => StageSucceededNext(cur, flags)
    case FlaggedForReview => if cur.Transcribing? then Some(TranscriptionReviewRequired) else None
    case ApplyFix => if cur.TranscriptionReviewRequired? then Some(Transcribing) else None
    case RetryStage =>
      if cur.TranscriptionReviewRequired? then Some(Transcribing)
      else if cur.GradingReviewRequired? then Some(Grading)
      else None
    case ApproveForGrading => if cur.TranscriptionReviewRequired? then Some(Grading) else None
    case ApproveByTeacher => if cur.TeacherReview? then Some(Approved) else None
    case Publish => if cur.Approved? then Some(Published) else None
    case Export => if cur.Published? then Some(Exported) else None
    case Regrade =>
      if cur.Approved? || cur.Published? || cur.Exported? || cur.GradingReviewRequired? then Some(Grading)
      else None
  }

  // None is an error; a state equal to cur is the idempotent no-op.
  function NextState(cur: State, ev: Event, flags: seq<QualityFlag>): Option<State> {
    var next := ComputeNext(cur, ev, flags);
    if next.None? then None
    else if next.value == cur then Some(cur)
    else if CanTransition(cur, next.value) then next
    else None
  }

  // Quality gates -----------------------------------------------------------

  datatype TranscribeFlags = TranscribeFlags(
    questionCount: int, lowReadConfidence: int, blankAnswers: int,
    checksumOk: bool, checksumDifference: Option<real>)

  datatype Tunables = Tunables(blankThreshold: int, expectedQuestions: int, questionCountTol: int)

  const DEFAULT_TUNABLES := Tunables(0, 0, 2)

  function EvaluateGates(tf: TranscribeFlags, tun: Tunables): (flags: seq<QualityFlag>)
    ensures LowReadConfidence in flags <==> tf.lowReadConfidence > 0
    ensures ChecksumMismatch in flags <==>
            !tf.checksumOk || (tf.checksumDifference.Some? && tf.checksumDifference.value != 0.0)
    ensures BlankOverThreshold in flags <==> tf.blankAnswers > tun.blankThreshold
    ensures StructuralAnomaly in flags <==>
            tun.expectedQuestions > 0 &&
            !(-tun.questionCountTol <= tf.questionCount - tun.expectedQuestions <= tun.questionCountTol)
  {
    var diff := tf.questionCount - tun.expectedQuestions;
    (if tf.lowReadConfidence > 0 then [LowReadConfidence] else []) +
    (if !tf.checksumOk || (tf.checksumDifference.Some? && tf.checksumDifference.value != 0.0)
     then [ChecksumMismatch] else []) +
    (if tf.blankAnswers > tun.blankThreshold then [BlankOverThreshold] else []) +
    (if tun.expectedQuestions > 0 && (if diff < 0 then -diff else diff) > tun.questionCountTol
     then [StructuralAnomaly] else [])
  }

  // Order of the states along the pipeline -----------------------------------

  // How many advances a submission can still make before a loop-back event.
  function RankLeft(s: State): nat {
    match s
    case Uploaded => 12
    case Queued => 11
    case SplittingPages => 10
    case ExtractingMetadata => 9
    case Transcribing => 8
    case TranscriptionReviewRequired => 7
    case GradingReviewRequired => 6
    case Grading => 5
    case TeacherReview => 4
    case Approved => 3
    case Published => 2
    case Exported => 1
    case Failed => 0
    case Archived => 0
  }

  predicate LoopsBack(ev: Event) {
    ev.ApplyFix? || ev.RetryStage? || ev.Regrade?
  }

  // Every event but three only moves a submission forward.
  lemma OnlyThreeEventsLoopBack(cur: State, ev: Event, flags: seq<QualityFlag>)
    requires NextState(cur, ev, flags).Some? && NextState(cur, ev, flags).value != cur
    ensures !LoopsBack(ev) ==> RankLeft(NextState(cur, ev, flags).value) < RankLeft(cur)
    ensures cur != Failed && cur != Archived
    ensures NextState(cur, ev, flags).value != Archived
    ensures NextState(cur, ev, flags).value != GradingReviewRequired
  {
  }

  predicate Takes(cur: State, ev: Event, flags: seq<QualityFlag>, next: State) {
    cur != next && ComputeNext(cur, ev, flags) == Some(next)
  }

  // The event that takes a submission from one state to another, if one does
  function EventBetween(cur: State, next: State): Event {
    match next
    case Queued => SubmitExam
    case Transcribing => if cur == TranscriptionReviewRequired then ApplyFix else StageSucceeded
    case TranscriptionReviewRequired => FlaggedForReview
    case Grading =>
      if cur == Transcribing then StageSucceeded
      else if cur == TranscriptionReviewRequired then ApproveForGrading
      else Regrade
    case Approved => ApproveByTeacher
    case Published => Publish
    case Exported => Export
    case _ => StageSucceeded
  }

  lemma TakenIsEdge(cur: State, ev: Event, flags: seq<QualityFlag>, next: State)
    requires Takes(cur, ev, flags, next)
    ensures next == Failed || CanTransition(cur, next)
    ensures next != Archived && next != GradingReviewRequired && !(cur == TeacherReview && next == Grading)
  {
  }

  // The transition table against the events: every state but failed and archived
  // can fail, some edges lead where no event does, and every other edge of the
  // table is one some event takes.
  lemma EdgesAreTaken(cur: State, next: State)
    ensures CanTransition(cur, next) <==>
            match next
            case Failed => cur != Failed && cur != Archived
            case Archived => cur == Published || cur == Exported
            case GradingReviewRequired => cur == Transcribing || cur == Grading
            case _ => (cur == TeacherReview && next == Grading) || exists ev, flags :: Takes(cur, ev, flags, next)
    ensures (exists ev, flags :: Takes(cur, ev, flags, next)) ==> next != Archived && next != GradingReviewRequired
    ensures cur == TeacherReview && next == Grading ==> !exists ev, flags :: Takes(cur, ev, flags, next)
  {
    if CanTransition(cur, next) && next != Failed && next != Archived && next != GradingReviewRequired
       && !(cur == TeacherReview && next == Grading) {
      assert Takes(cur, EventBetween(cur, next), [], next);
    }
    if exists ev, flags :: Takes(cur, ev, flags, next) {
      var ev, flags :| Takes(cur, ev, flags, next);
      TakenIsEdge(cur, ev, flags, next);
    }
  }

  lemma FailsFromAnywhere(cur: State, flags: seq<QualityFlag>)
    ensures NextState(cur, StageFailed, flags) == if cur == Archived then None else Some(Failed)
  {
  }
}
