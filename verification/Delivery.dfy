/** What one delivery does, read off its message, its row and the calls that
    fail: which state it enters, what it posts and where the message ends up.
    The tables here stand on their own beside the transition function. */
module Delivery {
  import opened Wrappers
  import opened StateMachine
  import opened Protocol

  // The five stage results, which are one event to the orchestrator
  predicate IsResult(stage: Stage) {
    || stage == SRenderResult || stage == STranscribeResult || stage == SGradeResult
    || stage == SPublishResult || stage == SExportResult
  }

  // No doubtful reading, no checksum trouble, no blank answer: by default a
  // transcript is not measured against an expected number of questions.
  predicate CleanTranscript(tf: TranscribeFlags) {
    && tf.lowReadConfidence <= 0 && tf.blankAnswers <= 0
    && tf.checksumOk && (tf.checksumDifference.Some? ==> tf.checksumDifference.value == 0.0)
  }

  // A result the orchestrator can take up: a transcript's flags are readable.
  predicate Readable(env: Envelope, f: Faults) {
    IsResult(env.stage) && (env.stage == STranscribeResult ==> f.sidecar.Some?)
  }

  predicate Unflagged(env: Envelope, f: Faults) {
    env.stage == STranscribeResult ==> f.sidecar.Some? && CleanTranscript(f.sidecar.value)
  }

  // The messages that take a row of the envelope's tenant into state x
  predicate LeadsTo(state: State, env: Envelope, f: Faults, x: State) {
    match x
    case Queued => state == Uploaded && (env.stage == SSubmit || env.stage == SSubmitExam)
    case SplittingPages => state == Queued && Readable(env, f)
    case ExtractingMetadata => state == SplittingPages && Readable(env, f)
    case Transcribing =>
      || (state == ExtractingMetadata && Readable(env, f))
      || (state == TranscriptionReviewRequired && (env.stage == SApplyFix || env.stage == SRetryStage))
    case TranscriptionReviewRequired =>
      state == Transcribing && (env.stage == SFlaggedForReview || (Readable(env, f) && !Unflagged(env, f)))
    case Grading =>
      || (state == Transcribing && Readable(env, f) && Unflagged(env, f))
      || (state == TranscriptionReviewRequired && env.stage == SApproveForGrading)
      || (state == GradingReviewRequired && (env.stage == SRetryStage || env.stage == SRegrade))
      || ((state == Approved || state == Published || state == Exported) && env.stage == SRegrade)
    case TeacherReview => state == Grading && Readable(env, f)
    case Approved => state == TeacherReview && env.stage == SApprove
    case Published => state == Approved && env.stage == SPublish
    case Exported => state == Published && env.stage == SExport
    case _ => false
  }

  // The messages a row is content with as it is
  predicate Repeats(state: State, env: Envelope, f: Faults) {
    || (state == Queued && (env.stage == SSubmit || env.stage == SSubmitExam))
    || (state == TeacherReview && Readable(env, f))
  }

  lemma GatesByDefault(tf: TranscribeFlags)
    ensures EvaluateGates(tf, DEFAULT_TUNABLES) == [] <==> CleanTranscript(tf)
  {
    var flags := EvaluateGates(tf, DEFAULT_TUNABLES);
    if flags != [] {
      assert flags[0] in flags;
    }
  }

  lemma FlagsByDefault(env: Envelope, f: Faults)
    requires Readable(env, f)
    ensures FlagsFor(env, f) == [] <==> Unflagged(env, f)
  {
    if env.stage == STranscribeResult {
      GatesByDefault(f.sidecar.value);
    }
  }

  lemma DecidesResult(row: Row, env: Envelope, f: Faults, x: State)
    requires row.state != x && IsResult(env.stage)
    ensures Decision(row, env, f) == Some(x) <==> env.tenant == row.tenant && LeadsTo(row.state, env, f, x)
  {
    if Readable(env, f) {
      FlagsByDefault(env, f);
    }
  }

  lemma DecidesCommand(row: Row, env: Envelope, f: Faults, x: State)
    requires row.state != x && !IsResult(env.stage)
    ensures Decision(row, env, f) == Some(x) <==> env.tenant == row.tenant && LeadsTo(row.state, env, f, x)
  {
  }

  lemma Decides(row: Row, env: Envelope, f: Faults, x: State)
    requires row.state != x
    ensures Decision(row, env, f) == Some(x) <==> env.tenant == row.tenant && LeadsTo(row.state, env, f, x)
  {
    if IsResult(env.stage) {
      DecidesResult(row, env, f, x);
    } else {
      DecidesCommand(row, env, f, x);
    }
  }

  lemma Stays(row: Row, env: Envelope, f: Faults)
    ensures Decision(row, env, f) == Some(row.state) <==> env.tenant == row.tenant && Repeats(row.state, env, f)
  {
  }

  // Entering a state -----------------------------------------------------------------

  // Message i is at the orchestrator, for submission s.
  predicate ForOrchestrator(sys: System, i: nat, s: nat) {
    && i < |sys.mail| && (sys.mail[i].place == Live(CommandsQ) || sys.mail[i].place == Live(ResultsQ))
    && sys.mail[i].body.Parsed? && sys.mail[i].body.env.submission == Id(s)
  }

  // It is a dead letter of one of the three stages, for submission s.
  predicate StageDeadLetter(sys: System, i: nat, s: nat) {
    && i < |sys.mail|
    && (|| sys.mail[i].place == Dead(RenderQ) || sys.mail[i].place == Dead(TranscribeQ)
        || sys.mail[i].place == Dead(GradeQ))
    && sys.mail[i].body.Parsed? && sys.mail[i].body.env.submission == Id(s)
  }

  lemma HandleEnters(rows: seq<Row>, env: Envelope, f: Faults, s: nat, x: State)
    requires s < |rows| && env.submission == Id(s) && rows[s].state != x
    ensures var r := Handle(rows, env, f);
            |r.rows| == |rows| &&
            (r.rows[s].state == x <==>
               !f.getFails && f.write != Fails && env.tenant == rows[s].tenant && LeadsTo(rows[s].state, env, f, x))
  {
    Decides(rows[s], env, f, x);
  }

  // Exactly which deliveries take a submission into a state, for every state
  lemma EntersExactly(sys: System, i: nat, f: Faults, s: nat, x: State)
    requires Enabled(sys, Deliver(i, f)) && s < |sys.rows| && sys.rows[s].state != x
    ensures |Step(sys, Deliver(i, f)).rows| == |sys.rows|
    ensures Step(sys, Deliver(i, f)).rows[s].state == x <==>
              || (&& ForOrchestrator(sys, i, s) && !f.getFails && f.write != Fails
                  && var env := sys.mail[i].body.env;
                  && env.tenant == sys.rows[s].tenant && LeadsTo(sys.rows[s].state, env, f, x))
              || (x == Failed && StageDeadLetter(sys, i, s) && f.write != Fails)
  {
    if ForOrchestrator(sys, i, s) {
      OrchestratorHandles(sys, i, f, s);
      HandleEnters(sys.rows, sys.mail[i].body.env, f, s, x);
    } else {
      OnlyTheState(sys, i, f, s);
    }
  }

  lemma OrchestratorHandles(sys: System, i: nat, f: Faults, s: nat)
    requires Enabled(sys, Deliver(i, f)) && ForOrchestrator(sys, i, s)
    ensures Step(sys, Deliver(i, f)).rows == Handle(sys.rows, sys.mail[i].body.env, f).rows
  {
  }

  lemma HandleLeaves(rows: seq<Row>, env: Envelope, f: Faults, s: nat)
    requires s < |rows|
    ensures var r := Handle(rows, env, f);
            && |r.rows| == |rows| && r.rows[s] == rows[s].(state := r.rows[s].state)
            && (env.submission != Id(s) ==> r.rows[s] == rows[s])
  {
  }

  function StageName(q: Queue): Stage
    requires q == RenderQ || q == TranscribeQ || q == GradeQ
  {
    if q == RenderQ then SRender else if q == TranscribeQ then STranscribe else SGrade
  }

  // The rest of the row: only a dead letter records a stage, its own.
  lemma OnlyTheState(sys: System, i: nat, f: Faults, s: nat)
    requires Enabled(sys, Deliver(i, f)) && s < |sys.rows|
    ensures |Step(sys, Deliver(i, f)).rows| == |sys.rows|
    ensures var row, row' := sys.rows[s], Step(sys, Deliver(i, f)).rows[s];
            if StageDeadLetter(sys, i, s) then
              row' == (if f.write == Fails then row
                       else row.(state := Failed, failedStage := Some(StageName(sys.mail[i].place.q))))
            else if ForOrchestrator(sys, i, s) then row' == row.(state := row'.state)
            else row' == row
  {
    var m := sys.mail[i];
    if m.body.Parsed? && m.place.Live? && ResultStage(m.place.q).None? {
      HandleLeaves(sys.rows, m.body.env, f, s);
    }
  }

  // Posting --------------------------------------------------------------------------

  // Where the follow-up of a state goes, as which stage, if it has one
  predicate FollowsUp(x: State, q: Queue, stage: Stage) {
    match x
    case Queued => q == RenderQ && stage == SRender
    case SplittingPages | ExtractingMetadata => q == ResultsQ && stage == SRenderResult
    case Transcribing => q == TranscribeQ && stage == STranscribe
    case Grading => q == GradeQ && stage == SGrade
    case _ => false
  }

  // The envelope of a follow-up: the row's tenant, one attempt more, and the
  // payload of its cause, but for rendering the row's own PDF when it has one.
  predicate IsFollowUp(env: Envelope, cause: Envelope, row: Row, x: State) {
    && env.tenant == row.tenant && env.attempt == cause.attempt + 1
    && env.payload == (if x == Queued && row.sourcePdf.Some? then row.sourcePdf.value else cause.payload)
    && env.principal == cause.principal && env.submission == cause.submission
    && env.batch == cause.batch && env.correlation == cause.correlation
  }

  lemma PostsFollowUp(sys: System, i: nat, f: Faults, s: nat)
    requires Enabled(sys, Deliver(i, f)) && s < |sys.rows| && ForOrchestrator(sys, i, s)
    ensures var sent, x := React(sys, sys.mail[i], f).sent, Step(sys, Deliver(i, f)).rows[s].state;
            && (sent.Some? <==>
                  && x != sys.rows[s].state && x in {Queued, SplittingPages, ExtractingMetadata, Transcribing, Grading}
                  && f.write == Succeeds && f.publish != Fails)
            && (sent.Some? ==>
                  && FollowsUp(x, sent.value.0, sent.value.1.stage)
                  && IsFollowUp(sent.value.1, sys.mail[i].body.env, sys.rows[s], x))
  {
  }

  // A worker posts its result to results.q, a dead letter posts nothing.
  lemma WorkersPostResults(sys: System, i: nat, f: Faults)
    requires Enabled(sys, Deliver(i, f))
    requires sys.mail[i].place != Live(CommandsQ) && sys.mail[i].place != Live(ResultsQ)
    ensures var m, sent := sys.mail[i], React(sys, sys.mail[i], f).sent;
            && (sent.Some? <==> m.body.Parsed? && m.place.Live? && f.work != Fails)
            && (sent.Some? ==>
                  sent.value == (ResultsQ, m.body.env.(
                    stage := (match m.place.q
                              case RenderQ => SRenderResult
                              case TranscribeQ => STranscribeResult
                              case GradeQ => SGradeResult
                              case _ => SFeedbackResult),
                    payload := f.resultKey)))
  {
  }

  // What is sent, from outside or as a follow-up, is one live message with all its
  // attempts to come; from outside nothing else changes.
  lemma SentIsFresh(sys: System, a: Action)
    requires Enabled(sys, a)
    ensures var sys' := Step(sys, a);
            var sent := if a.Send? then Some((a.q, a.env)) else React(sys, sys.mail[a.i], a.f).sent;
            && sys'.maxAttempts == sys.maxAttempts
            && |sys'.mail| == |sys.mail| + (if sent.Some? then 1 else 0)
            && (sent.Some? ==>
                  var m := sys'.mail[|sys.mail|];
                  m.place == Live(sent.value.0) && m.body == Parsed(sent.value.1) && m.count == 0)
            && (a.Send? ==> sys'.rows == sys.rows && sys'.mail[..|sys.mail|] == sys.mail)
  {
  }

  // Where the message ends up ----------------------------------------------------------

  // The handler of an envelope for a row of state returns nil.
  predicate Served(state: State, tenantMatches: bool, env: Envelope, f: Faults) {
    && !f.getFails
    && (|| !tenantMatches
        || Repeats(state, env, f)
        || (exists x ::
              && x != state && LeadsTo(state, env, f, x) && f.write == Succeeds
              && (x in {Queued, SplittingPages, ExtractingMetadata, Transcribing, Grading} ==> f.publish == Succeeds)))
  }

  lemma HandledWhenServed(rows: seq<Row>, env: Envelope, f: Faults, s: nat)
    requires s < |rows| && env.submission == Id(s)
    ensures Handle(rows, env, f).ok <==> Served(rows[s].state, env.tenant == rows[s].tenant, env, f)
  {
    var row := rows[s];
    Stays(row, env, f);
    forall x | x != row.state
      ensures Decision(row, env, f) == Some(x) <==> env.tenant == row.tenant && LeadsTo(row.state, env, f, x)
    {
      Decides(row, env, f, x);
    }
  }

  // Does the consumer of message i succeed?
  predicate Succeeded(sys: System, i: nat, f: Faults)
    requires i < |sys.mail|
  {
    var m := sys.mail[i];
    && m.body.Parsed?
    && match m.place
       case Live(q) =>
         if q == CommandsQ || q == ResultsQ then
           && m.body.env.submission.Id? && m.body.env.submission.n < |sys.rows|
           && var row := sys.rows[m.body.env.submission.n];
           Served(row.state, m.body.env.tenant == row.tenant, m.body.env, f)
         else f.work == Succeeds
       case Dead(q) => m.body.env.submission.Id? && m.body.env.submission.n < |sys.rows| && f.write == Succeeds
       case Settled => false
  }

  // Success settles a message. A failure costs a live one an attempt, and the last
  // attempt, or an unreadable body, sends it to its dead-letter queue; a dead
  // letter stays for another delivery, unless one attempt is all there is.
  lemma EndsUp(sys: System, i: nat, f: Faults)
    requires Enabled(sys, Deliver(i, f))
    ensures |Step(sys, Deliver(i, f)).mail| >= |sys.mail|
    ensures var m, m', mx := sys.mail[i], Step(sys, Deliver(i, f)).mail[i], sys.maxAttempts;
            && m'.body == m.body
            && (Succeeded(sys, i, f) ==> m'.place == Settled)
            && (!Succeeded(sys, i, f) && m.place.Live? ==>
                  if m.body.Malformed? || m.count + 1 >= mx then m'.place == Dead(m.place.q)
                  else m'.place == m.place && m'.count == m.count + 1)
            && (!Succeeded(sys, i, f) && m.place.Dead? ==>
                  if m.body.Malformed? || mx <= 1 then m'.place == Settled else m' == m)
    ensures forall j :: 0 <= j < |sys.mail| && j != i ==> Step(sys, Deliver(i, f)).mail[j] == sys.mail[j]
  {
    var m := sys.mail[i];
    if m.body.Parsed? && m.body.env.submission.Id? && m.body.env.submission.n < |sys.rows| {
      HandledWhenServed(sys.rows, m.body.env, f, m.body.env.submission.n);
    }
  }

  // So a fresh message is dead-lettered after exactly maxAttempts failures.
  function Failing(m: Msg, times: nat, mx: int): Msg {
    if times == 0 then m else Settle(Failing(m, times - 1, mx), false, mx)
  }

  lemma {:induction false} DeadAfterMaxAttempts(m: Msg, times: nat, mx: int)
    requires m.body.Parsed? && m.place.Live? && m.count == 0 && times <= mx
    ensures Failing(m, times, mx).place == if times == 0 || times < mx then m.place else Dead(m.place.q)
    ensures times < mx ==> Failing(m, times, mx) == m.(count := times)
  {
    if times > 0 {
      DeadAfterMaxAttempts(m, times - 1, mx);
    }
  }
}
