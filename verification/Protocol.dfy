/** One step of the message protocol, on values: the submission rows, every
    message ever published with the place it is in now, and what a consumer
    does with one delivery when any call it makes may fail. */
module Protocol {
  import opened Wrappers
  import opened StateMachine

  datatype Stage =
    | SSubmit | SSubmitExam | SRender | STranscribe | SGrade | SApprove | SPublish | SExport | SFeedback
    | SRenderResult | STranscribeResult | SGradeResult | SPublishResult | SExportResult | SFeedbackResult
    | SRegrade | SApproveForGrading | SApplyFix | SRetryStage | SFlaggedForReview
    | SOther(name: string)

  // A submission id that does not parse, or a position in the table of rows.
  datatype SubmissionRef = Unparsable(text: string) | Id(n: nat)

  datatype Envelope = Envelope(
    tenant: string, principal: string, submission: SubmissionRef, batch: string,
    stage: Stage, attempt: int, correlation: string, payload: string)

  datatype Row = Row(tenant: string, state: State, sourcePdf: Option<string>, failedStage: Option<Stage>)

  datatype Queue = RenderQ | TranscribeQ | GradeQ | FeedbackQ | CommandsQ | ResultsQ

  // Live: in a work queue. Dead: in its dead-letter queue. Settled: acknowledged or dropped.
  datatype Place = Live(q: Queue) | Dead(q: Queue) | Settled

  datatype Body = Malformed | Parsed(env: Envelope)

  // count is the broker's x-delivery-count
  datatype Msg = Msg(place: Place, body: Body, count: nat)

  datatype System = System(rows: seq<Row>, mail: seq<Msg>, maxAttempts: int)

  // How a remote call ends: it may take effect and still report an error.
  datatype Call = Succeeds | Fails | FailsAfterEffect

  // The outcome of every call one delivery may make.
  datatype Faults = Faults(
    getFails: bool,                     // GetSubmission
    sidecar: Option<TranscribeFlags>,   // the flags sidecar, None when fetching or decoding fails
    write: Call,                        // SetSubmissionState or FailSubmission
    publish: Call,                      // the follow-up message
    work: Call,                         // a stage worker, up to and including its result message
    resultKey: string)                  // the object key a worker's result points to

  datatype Action =
    | Deliver(i: nat, f: Faults)        // some consumer receives message i
    | Send(q: Queue, env: Envelope)     // a new message from outside

  function StageToEvent(s: Stage): Option<Event> {
    match s
    case SRenderResult | STranscribeResult | SGradeResult | SPublishResult | SExportResult => Some(StageSucceeded)
    case SSubmit | SSubmitExam => Some(SubmitExam)
    case SApproveForGrading => Some(ApproveForGrading)
    case SApprove => Some(ApproveByTeacher)
    case SPublish => Some(Publish)
    case SExport => Some(Export)
    case SApplyFix => Some(ApplyFix)
    case SRetryStage => Some(RetryStage)
    case SFlaggedForReview => Some(FlaggedForReview)
    case SRegrade => Some(Regrade)
    case _ => None
  }

  // The orchestrator --------------------------------------------------------

  // What handling an envelope does: the rows after it, the message it
  // published, and whether the handler returned nil.
  datatype Reaction = Reaction(rows: seq<Row>, sent: Option<(Queue, Envelope)>, ok: bool)

  function DispatchTarget(next: State): Option<(Queue, Stage)> {
    match next
    case Queued => Some((RenderQ, SRender))
    case SplittingPages | ExtractingMetadata => Some((ResultsQ, SRenderResult))
    case Transcribing => Some((TranscribeQ, STranscribe))
    case Grading => Some((GradeQ, SGrade))
    case _ => None
  }

  function Dispatch(orig: Envelope, row: Row, next: State): Option<(Queue, Envelope)> {
    match DispatchTarget(next)
    case None => None
    case Some((q, stage)) =>
      var payload := if next.Queued? && row.sourcePdf.Some? then row.sourcePdf.value else orig.payload;
      Some((q, orig.(tenant := row.tenant, stage := stage, attempt := orig.attempt + 1, payload := payload)))
  }

  function Known(rows: seq<Row>, s: SubmissionRef): bool {
    s.Id? && s.n < |rows|
  }

  function FlagsFor(env: Envelope, f: Faults): seq<QualityFlag> {
    if env.stage.STranscribeResult? && f.sidecar.Some? then EvaluateGates(f.sidecar.value, DEFAULT_TUNABLES) else []
  }

  // The state HandleEnvelope moves the row to, None when it errs or drops the envelope.
  function Decision(row: Row, env: Envelope, f: Faults): Option<State> {
    var ev := StageToEvent(env.stage);
    if env.tenant != row.tenant || ev.None? then None
    else if env.stage.STranscribeResult? && f.sidecar.None? then None
    else NextState(row.state, ev.value, FlagsFor(env, f))
  }

  // The half of HandleEnvelope after GetSubmission: it decides by the row it
  // read, and writes the state of row n whatever that is by now.
  function Finish(rows: seq<Row>, n: nat, read: Row, env: Envelope, f: Faults): Reaction
    requires n < |rows|
  {
    var next := Decision(read, env, f);
    if env.tenant != read.tenant then Reaction(rows, None, true)
    else if next.None? then Reaction(rows, None, false)
    else if next.value == read.state then Reaction(rows, None, true)
    else if f.write.Fails? then Reaction(rows, None, false)
    else
      var written := rows[n := rows[n].(state := next.value)];
      var target := Dispatch(env, read, next.value);
      if f.write.FailsAfterEffect? then Reaction(written, None, false)
      else if target.None? then Reaction(written, None, true)
      else Reaction(written, if f.publish.Fails? then None else target, f.publish.Succeeds?)
  }

  function Handle(rows: seq<Row>, env: Envelope, f: Faults): Reaction {
    if !Known(rows, env.submission) || f.getFails then Reaction(rows, None, false)
    else Finish(rows, env.submission.n, rows[env.submission.n], env, f)
  }

  // The dead-letter consumer of the three stage queues: no tenant check and
  // no look at the current state.
  function StageOf(q: Queue): Option<Stage> {
    match q
    case RenderQ => Some(SRender)
    case TranscribeQ => Some(STranscribe)
    case GradeQ => Some(SGrade)
    case _ => None
  }

  function HandleDead(rows: seq<Row>, q: Queue, env: Envelope, f: Faults): Reaction {
    if !Known(rows, env.submission) || f.write.Fails? then Reaction(rows, None, false)
    else
      var n := env.submission.n;
      Reaction(rows[n := rows[n].(state := Failed, failedStage := StageOf(q))], None, f.write.Succeeds?)
  }

  // The stage workers -------------------------------------------------------

  function ResultStage(q: Queue): Option<Stage> {
    match q
    case RenderQ => Some(SRenderResult)
    case TranscribeQ => Some(STranscribeResult)
    case GradeQ => Some(SGradeResult)
    case FeedbackQ => Some(SFeedbackResult)
    case _ => None
  }

  function Work(rows: seq<Row>, q: Queue, env: Envelope, f: Faults): Reaction
    requires ResultStage(q).Some?
  {
    Reaction(rows,
             if f.work.Fails? then None
             else Some((ResultsQ, env.(stage := ResultStage(q).value, payload := f.resultKey))),
             f.work.Succeeds?)
  }

  // The queue ----------------------------------------------------------------

  // A dead-letter queue is a classic queue: it carries no x-delivery-count.
  function DeliveryCount(m: Msg): nat {
    if m.place.Live? then m.count else 0
  }

  // A rejected message without requeue: dead-lettered, or dropped when it
  // already is in a dead-letter queue.
  function Reject(m: Msg): Msg {
    m.(place := if m.place.Live? then Dead(m.place.q) else Settled)
  }

  function Settle(m: Msg, ok: bool, maxAttempts: int): Msg {
    if m.body.Malformed? then Reject(m)
    else if ok then m.(place := Settled)
    else if DeliveryCount(m) + 1 >= maxAttempts then Reject(m)
    else if m.place.Live? then m.(count := m.count + 1)
    else m
  }

  function Posted(sent: Option<(Queue, Envelope)>): seq<Msg> {
    match sent
    case None => []
    case Some((q, env)) => [Msg(Live(q), Parsed(env), 0)]
  }

  // Does anyone consume from this place?
  predicate Consumed(p: Place) {
    p.Live? || (p.Dead? && StageOf(p.q).Some?)
  }

  function React(sys: System, m: Msg, f: Faults): Reaction
    requires Consumed(m.place)
  {
    if m.body.Malformed? then Reaction(sys.rows, None, false)
    else if m.place.Dead? then HandleDead(sys.rows, m.place.q, m.body.env, f)
    else if ResultStage(m.place.q).Some? then Work(sys.rows, m.place.q, m.body.env, f)
    else Handle(sys.rows, m.body.env, f)
  }

  predicate Enabled(sys: System, a: Action) {
    a.Deliver? ==> a.i < |sys.mail| && Consumed(sys.mail[a.i].place)
  }

  function Step(sys: System, a: Action): System
    requires Enabled(sys, a)
  {
    match a
    case Send(q, env) => sys.(mail := sys.mail + [Msg(Live(q), Parsed(env), 0)])
    case Deliver(i, f) =>
      var m := sys.mail[i];
      var r := React(sys, m, f);
      System(r.rows, sys.mail[i := Settle(m, r.ok, sys.maxAttempts)] + Posted(r.sent), sys.maxAttempts)
  }

  // Every action of the list is possible when its turn comes.
  predicate CanRun(sys: System, acts: seq<Action>)
    decreases |acts|
  {
    acts == [] || (Enabled(sys, acts[0]) && CanRun(Step(sys, acts[0]), acts[1..]))
  }

  function Run(sys: System, acts: seq<Action>): System
    requires CanRun(sys, acts)
    decreases |acts|
  {
    if acts == [] then sys else Run(Step(sys, acts[0]), acts[1..])
  }

  // Every change of a row's state is an edge of the state machine taken for an
  // envelope of that submission and tenant, or a failure from a dead-letter queue.
  ghost predicate TakesEdge(sys: System, a: Action, s: nat) {
    && s < |sys.rows| && a.Deliver? && Enabled(sys, a)
    && var m := sys.mail[a.i];
    && m.body.Parsed? && m.body.env.submission == Id(s)
    && m.place.Live? && ResultStage(m.place.q).None?
    && m.body.env.tenant == sys.rows[s].tenant
    && Decision(sys.rows[s], m.body.env, a.f) == Some(Step(sys, a).rows[s].state)
  }

  ghost predicate DeadLetterFails(sys: System, a: Action, s: nat) {
    && s < |sys.rows| && a.Deliver? && Enabled(sys, a)
    && var m := sys.mail[a.i];
    && m.body.Parsed? && m.body.env.submission == Id(s)
    && m.place.Dead? && StageOf(m.place.q).Some?
    && Step(sys, a).rows[s].state == Failed
  }

  lemma HandleChange(rows: seq<Row>, env: Envelope, f: Faults, s: nat)
    requires s < |rows|
    ensures var r := Handle(rows, env, f);
            && |r.rows| == |rows| && r.rows[s].tenant == rows[s].tenant
            && (r.rows[s].state != rows[s].state ==>
                  && env.submission == Id(s) && env.tenant == rows[s].tenant
                  && Decision(rows[s], env, f) == Some(r.rows[s].state))
  {
  }

  lemma DeadChange(rows: seq<Row>, q: Queue, env: Envelope, f: Faults, s: nat)
    requires s < |rows|
    ensures var r := HandleDead(rows, q, env, f);
            && |r.rows| == |rows| && r.rows[s].tenant == rows[s].tenant
            && (r.rows[s].state != rows[s].state ==> env.submission == Id(s) && r.rows[s].state == Failed)
  {
  }

  lemma StateChange(sys: System, a: Action, s: nat)
    requires Enabled(sys, a) && s < |sys.rows|
    ensures |Step(sys, a).rows| == |sys.rows|
    ensures Step(sys, a).rows[s].tenant == sys.rows[s].tenant
    ensures Step(sys, a).rows[s].state != sys.rows[s].state ==> TakesEdge(sys, a, s) || DeadLetterFails(sys, a, s)
  {
    if a.Deliver? {
      var m := sys.mail[a.i];
      if m.body.Parsed? {
        if m.place.Dead? {
          DeadChange(sys.rows, m.place.q, m.body.env, a.f, s);
        } else if ResultStage(m.place.q).None? {
          HandleChange(sys.rows, m.body.env, a.f, s);
        }
      }
    }
  }
}
