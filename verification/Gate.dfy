/** The teacher-approval gate, for every order of deliveries: duplicated,
    reordered, injected from outside, with any call failing, and dead letters
    at any time. A delivery is handled as one step; module Races is about
    handlers that overlap. */
module Gate {
  import opened Wrappers
  import opened StateMachine
  import opened Protocol

  function Enters(pre: State, post: State, x: State): nat {
    if post == x && pre != x then 1 else 0
  }

  // How often the run moves submission s into state x.
  function Entries(sys: System, acts: seq<Action>, s: nat, x: State): nat
    requires CanRun(sys, acts) && s < |sys.rows|
    decreases |acts|
  {
    if acts == [] then 0 else
      var next := Step(sys, acts[0]);
      StateChange(sys, acts[0], s);
      Enters(sys.rows[s].state, next.rows[s].state, x) + Entries(next, acts[1..], s, x)
  }

  // What the state of a submission says about its entry counts so far into
  // grading, teacher_review and approved.
  ghost predicate Counts(state: State, grading: nat, review: nat, approved: nat) {
    match state
    case Grading => grading == approved + 1 && review == approved
    case TeacherReview => grading == review == approved + 1
    case Approved | Published | Exported => grading == review == approved && approved > 0
    case Failed => approved <= review <= grading <= approved + 1
    case GradingReviewRequired | Archived => false
    case _ => grading == review == approved == 0
  }

  // One entry more for the state a step moves to
  ghost predicate CountsAfter(pre: State, post: State, grading: nat, review: nat, approved: nat) {
    Counts(post,
           grading + Enters(pre, post, Grading),
           review + Enters(pre, post, TeacherReview),
           approved + Enters(pre, post, Approved))
  }

  lemma EdgeCounts(pre: State, ev: Event, flags: seq<QualityFlag>, grading: nat, review: nat, approved: nat)
    requires Counts(pre, grading, review, approved) && NextState(pre, ev, flags).Some?
    ensures CountsAfter(pre, NextState(pre, ev, flags).value, grading, review, approved)
  {
  }

  lemma StepCounts(sys: System, a: Action, s: nat, grading: nat, review: nat, approved: nat)
    requires Enabled(sys, a) && s < |sys.rows|
    requires Counts(sys.rows[s].state, grading, review, approved)
    ensures s < |Step(sys, a).rows|
    ensures CountsAfter(sys.rows[s].state, Step(sys, a).rows[s].state, grading, review, approved)
  {
    StateChange(sys, a, s);
    if Step(sys, a).rows[s].state != sys.rows[s].state && TakesEdge(sys, a, s) {
      var env := sys.mail[a.i].body.env;
      EdgeCounts(sys.rows[s].state, StageToEvent(env.stage).value, FlagsFor(env, a.f), grading, review, approved);
    }
  }

  lemma {:induction false} RunCounts(sys: System, acts: seq<Action>, s: nat, grading: nat, review: nat, approved: nat)
    requires CanRun(sys, acts) && s < |sys.rows|
    requires Counts(sys.rows[s].state, grading, review, approved)
    ensures s < |Run(sys, acts).rows|
    ensures Counts(Run(sys, acts).rows[s].state,
                   grading + Entries(sys, acts, s, Grading),
                   review + Entries(sys, acts, s, TeacherReview),
                   approved + Entries(sys, acts, s, Approved))
    decreases |acts|
  {
    if acts != [] {
      StepCounts(sys, acts[0], s, grading, review, approved);
      var pre, next := sys.rows[s].state, Step(sys, acts[0]);
      var post := next.rows[s].state;
      RunCounts(next, acts[1..], s,
                grading + Enters(pre, post, Grading),
                review + Enters(pre, post, TeacherReview),
                approved + Enters(pre, post, Approved));
    }
  }

  // The gate: every approval follows its own teacher review, which follows its
  // own grading, and grading is at most one ahead.
  lemma ApprovalGate(sys: System, acts: seq<Action>, s: nat)
    requires CanRun(sys, acts) && s < |sys.rows| && sys.rows[s].state == Uploaded
    ensures var g, t := Entries(sys, acts, s, Grading), Entries(sys, acts, s, TeacherReview);
            var p := Entries(sys, acts, s, Approved);
            p <= t <= g <= p + 1
    ensures s < |Run(sys, acts).rows|
    ensures Run(sys, acts).rows[s].state != Archived && Run(sys, acts).rows[s].state != GradingReviewRequired
    ensures Run(sys, acts).rows[s].state in {Approved, Published, Exported} ==> Entries(sys, acts, s, Approved) > 0
  {
    RunCounts(sys, acts, s, 0, 0, 0);
  }

  // The one state and the one command from which a human decision is entered
  function DecisionOf(x: State): Option<(State, Stage)> {
    match x
    case Approved => Some((TeacherReview, SApprove))
    case Published => Some((Approved, SPublish))
    case Exported => Some((Published, SExport))
    case _ => None
  }

  lemma DecidesAlone(row: Row, env: Envelope, f: Faults, x: State)
    requires DecisionOf(x).Some? && row.state != x && Decision(row, env, f) == Some(x)
    ensures DecisionOf(x) == Some((row.state, env.stage))
  {
  }

  // Only an approve envelope of the right tenant crosses the gate, and only
  // from teacher_review; publish and export follow in the same way.
  lemma OnlyTheTeacherApproves(sys: System, a: Action, s: nat, x: State)
    requires Enabled(sys, a) && s < |sys.rows| && DecisionOf(x).Some?
    ensures |Step(sys, a).rows| == |sys.rows|
    ensures Step(sys, a).rows[s].state == x && sys.rows[s].state != x ==>
              TakesEdge(sys, a, s) && DecisionOf(x) == Some((sys.rows[s].state, sys.mail[a.i].body.env.stage))
  {
    StateChange(sys, a, s);
    if TakesEdge(sys, a, s) && Step(sys, a).rows[s].state == x && sys.rows[s].state != x {
      DecidesAlone(sys.rows[s], sys.mail[a.i].body.env, a.f, x);
    }
  }

  lemma {:induction false} FailedIsFinal(sys: System, acts: seq<Action>, s: nat)
    requires CanRun(sys, acts) && s < |sys.rows| && sys.rows[s].state == Failed
    ensures s < |Run(sys, acts).rows| && Run(sys, acts).rows[s].state == Failed
    decreases |acts|
  {
    if acts != [] {
      StateChange(sys, acts[0], s);
      FailedIsFinal(Step(sys, acts[0]), acts[1..], s);
    }
  }

  // Exactly what moves a submission into grading: note that any of the five
  // result stages will do from transcribing, and that the quality flags are
  // looked at for transcribe.result alone.
  ghost predicate EntersGrading(row: Row, env: Envelope, f: Faults) {
    && env.tenant == row.tenant
    && match row.state
       case Transcribing =>
         && StageToEvent(env.stage) == Some(StageSucceeded)
         && (env.stage == STranscribeResult ==>
               f.sidecar.Some? && EvaluateGates(f.sidecar.value, DEFAULT_TUNABLES) == [])
       case TranscriptionReviewRequired => env.stage == SApproveForGrading
       case GradingReviewRequired => env.stage == SRetryStage || env.stage == SRegrade
       case Approved | Published | Exported => env.stage == SRegrade
       case _ => false
  }

  lemma GradingEntries(sys: System, i: nat, f: Faults, s: nat)
    requires Enabled(sys, Deliver(i, f)) && s < |sys.rows| && sys.rows[s].state != Grading
    ensures var m := sys.mail[i];
            |Step(sys, Deliver(i, f)).rows| == |sys.rows| &&
            (Step(sys, Deliver(i, f)).rows[s].state == Grading <==>
              && m.body.Parsed? && m.body.env.submission == Id(s) && m.place.Live? && ResultStage(m.place.q).None?
              && !f.getFails && !f.write.Fails? && EntersGrading(sys.rows[s], m.body.env, f))
  {
    var m := sys.mail[i];
    StateChange(sys, Deliver(i, f), s);
    if m.body.Parsed? {
      DecidesGrading(sys.rows[s], m.body.env, f);
    }
  }

  lemma DecidesGrading(row: Row, env: Envelope, f: Faults)
    requires row.state != Grading
    ensures Decision(row, env, f) == Some(Grading) <==> EntersGrading(row, env, f)
  {
  }

  // And exactly what moves one into teacher_review: again any result stage will
  // do, whoever graded.
  ghost predicate EntersReview(row: Row, env: Envelope, f: Faults) {
    && row.state == Grading && env.tenant == row.tenant
    && StageToEvent(env.stage) == Some(StageSucceeded)
    && (env.stage == STranscribeResult ==> f.sidecar.Some?)
  }

  lemma DecidesReview(row: Row, env: Envelope, f: Faults)
    requires row.state != TeacherReview
    ensures Decision(row, env, f) == Some(TeacherReview) <==> EntersReview(row, env, f)
  {
  }

  lemma ReviewEntries(sys: System, i: nat, f: Faults, s: nat)
    requires Enabled(sys, Deliver(i, f)) && s < |sys.rows| && sys.rows[s].state != TeacherReview
    ensures var m := sys.mail[i];
            |Step(sys, Deliver(i, f)).rows| == |sys.rows| &&
            (Step(sys, Deliver(i, f)).rows[s].state == TeacherReview <==>
              && m.body.Parsed? && m.body.env.submission == Id(s) && m.place.Live? && ResultStage(m.place.q).None?
              && !f.getFails && !f.write.Fails? && EntersReview(sys.rows[s], m.body.env, f))
  {
    var m := sys.mail[i];
    StateChange(sys, Deliver(i, f), s);
    if m.body.Parsed? {
      DecidesReview(sys.rows[s], m.body.env, f);
    }
  }

  // Anomalies outside the single-token assumption ---------------------------

  function Clean(sidecar: Option<TranscribeFlags>): Faults {
    Faults(false, sidecar, Succeeds, Succeeds, Succeeds, "")
  }

  // A second render.result skips the quality gates, however bad the transcript.
  lemma DuplicateRenderResultSkipsGates(row: Row, env: Envelope, worst: TranscribeFlags)
    requires row.state == Transcribing && env.tenant == row.tenant && env.submission == Id(0)
    requires env.stage == SRenderResult
    ensures var sys := System([row], [Msg(Live(ResultsQ), Parsed(env), 0)], 3);
            Step(sys, Deliver(0, Clean(Some(worst)))).rows[0].state == Grading
  {
  }

  // A publish that fails after the state was written makes the retry of
  // transcribe.result count as the grading result: teacher_review is reached
  // and nothing was ever sent to the grade queue.
  lemma LostPublishSkipsGrading(row: Row, env: Envelope, clean: TranscribeFlags, maxAttempts: int)
    requires row.state == Transcribing && env.tenant == row.tenant && env.submission == Id(0)
    requires env.stage == STranscribeResult && maxAttempts > 1
    requires EvaluateGates(clean, DEFAULT_TUNABLES) == []
    ensures var sys := System([row], [Msg(Live(ResultsQ), Parsed(env), 0)], maxAttempts);
            var acts := [Deliver(0, Clean(Some(clean)).(publish := Fails)), Deliver(0, Clean(Some(clean)))];
            && CanRun(sys, acts)
            && Run(sys, acts).rows == [row.(state := TeacherReview)]
            && |Run(sys, acts).mail| == 1
  {
    var f := Clean(Some(clean));
    var sys := System([row], [Msg(Live(ResultsQ), Parsed(env), 0)], maxAttempts);
    var first, second := Deliver(0, f.(publish := Fails)), Deliver(0, f);
    var mid := Step(sys, first);
    assert mid.rows[0].state == Grading && mid.mail == [Msg(Live(ResultsQ), Parsed(env), 1)];
    var last := Step(mid, second);
    assert last.rows == [row.(state := TeacherReview)] && |last.mail| == 1;
    assert [first, second][1..] == [second] && [second][1..] == [];
    assert Run(mid, [second]) == Run(last, []);
    assert CanRun(mid, [second]);
  }
}
