/** No submission is left behind: in orderly runs a submission the pipeline is
    working on always has its message in flight, unless a result of it was
    dead-lettered, and then it is stuck for good. */
module Progress {
  import opened Wrappers
  import opened StateMachine
  import opened Protocol
  import opened Token
  import Gate

  // The states in which no human is waited for and nothing is finished.
  predicate Working(state: State) {
    state.Queued? || state.SplittingPages? || state.ExtractingMetadata? || state.Transcribing? || state.Grading?
  }

  // A token that will not be dropped for naming another tenant
  ghost predicate Carrier(sys: System, s: nat, i: nat) {
    && i < |sys.mail| && s < |sys.rows|
    && TokenOf(sys.mail[i], s) && sys.mail[i].body.env.tenant == sys.rows[s].tenant
  }

  ghost predicate Carried(sys: System, s: nat) {
    s < |sys.rows| && (Working(sys.rows[s].state) ==> exists i: nat :: Carrier(sys, s, i))
  }

  // The delivery that uses up the last attempt of a stage result
  ghost predicate LosesResult(sys: System, a: Action, s: nat) {
    && a.Deliver? && Enabled(sys, a) && TokenOf(sys.mail[a.i], s)
    && a.i < |Step(sys, a).mail| && Step(sys, a).mail[a.i].place.Dead? && !IsToken(Step(sys, a).mail[a.i])
  }

  ghost predicate LosesNoResult(sys: System, acts: seq<Action>, s: nat)
    requires CanRun(sys, acts)
    decreases |acts|
  {
    acts == [] || (!LosesResult(sys, acts[0], s) && LosesNoResult(Step(sys, acts[0]), acts[1..], s))
  }

  // A message the step does not touch stays where it is.
  lemma OthersStay(sys: System, i: nat, f: Faults, k: nat)
    requires Enabled(sys, Deliver(i, f)) && k < |sys.mail| && k != i
    ensures |Step(sys, Deliver(i, f)).mail| >= |sys.mail| && Step(sys, Deliver(i, f)).mail[k] == sys.mail[k]
  {
  }

  // Entering a working state dispatches its message.
  lemma WorkIsDispatched(env: Envelope, row: Row, next: State)
    requires Working(next)
    ensures Dispatch(env, row, next).Some?
    ensures var (q, out) := Dispatch(env, row, next).value;
            out.tenant == row.tenant && out.submission == env.submission && IsToken(Msg(Live(q), Parsed(out), 0))
  {
  }

  lemma HandlerCarries(sys: System, i: nat, f: Faults, s: nat)
    requires Enabled(sys, Deliver(i, f)) && Orderly(Deliver(i, f)) && Solo(sys, s) && Carried(sys, s)
    requires var m := sys.mail[i]; m.body.Parsed? && m.place.Live? && ResultStage(m.place.q).None?
    requires sys.mail[i].body.env.submission == Id(s) && !LosesResult(sys, Deliver(i, f), s)
    ensures Carried(Step(sys, Deliver(i, f)), s)
  {
    var m, next := sys.mail[i], Step(sys, Deliver(i, f));
    var env := m.body.env;
    var r := Handle(sys.rows, env, f);
    var row := sys.rows[s];
    assert next.mail == sys.mail[i := Settle(m, r.ok, sys.maxAttempts)] + Posted(r.sent);
    if r.rows[s].state != row.state {
      if Working(r.rows[s].state) {
        WorkIsDispatched(env, row, r.rows[s].state);
        assert Carrier(next, s, |sys.mail|);
      }
    } else if Working(row.state) {
      var k: nat :| Carrier(sys, s, k);
      if k != i {
        OthersStay(sys, i, f, k);
        assert Carrier(next, s, k);
      } else {
        assert !r.ok;
        assert Carrier(next, s, i);
      }
    }
  }

  lemma WorkerCarries(sys: System, i: nat, f: Faults, s: nat)
    requires Enabled(sys, Deliver(i, f)) && Orderly(Deliver(i, f)) && Carried(sys, s)
    requires var m := sys.mail[i]; m.body.Parsed? && m.place.Live? && ResultStage(m.place.q).Some?
    requires sys.mail[i].body.env.submission == Id(s)
    ensures Carried(Step(sys, Deliver(i, f)), s)
  {
    var m, next := sys.mail[i], Step(sys, Deliver(i, f));
    var r := Work(sys.rows, m.place.q, m.body.env, f);
    assert next.mail == sys.mail[i := Settle(m, r.ok, sys.maxAttempts)] + Posted(r.sent);
    if Working(sys.rows[s].state) {
      var k: nat :| Carrier(sys, s, k);
      if k != i {
        OthersStay(sys, i, f, k);
        assert Carrier(next, s, k);
      } else if r.ok {
        assert Carrier(next, s, |sys.mail|);
      } else {
        assert Carrier(next, s, i);
      }
    }
  }

  lemma DeadCarries(sys: System, i: nat, f: Faults, s: nat)
    requires Enabled(sys, Deliver(i, f)) && Orderly(Deliver(i, f)) && Carried(sys, s) && sys.maxAttempts > 1
    requires sys.mail[i].body.Parsed? && sys.mail[i].place.Dead? && sys.mail[i].body.env.submission == Id(s)
    ensures Carried(Step(sys, Deliver(i, f)), s)
  {
    var m, next := sys.mail[i], Step(sys, Deliver(i, f));
    var r := HandleDead(sys.rows, m.place.q, m.body.env, f);
    assert next.mail == sys.mail[i := Settle(m, r.ok, sys.maxAttempts)];
    if !r.ok && Working(sys.rows[s].state) {
      var k: nat :| Carrier(sys, s, k);
      assert Carrier(next, s, k);
    }
  }

  lemma ForeignCarries(sys: System, i: nat, f: Faults, s: nat)
    requires Enabled(sys, Deliver(i, f)) && Carried(sys, s)
    requires sys.mail[i].body.Parsed? ==> sys.mail[i].body.env.submission != Id(s)
    ensures Carried(Step(sys, Deliver(i, f)), s)
  {
    assert React(sys, sys.mail[i], f).rows[s] == sys.rows[s];
    if Working(sys.rows[s].state) {
      var k: nat :| Carrier(sys, s, k);
      OthersStay(sys, i, f, k);
      assert Carrier(Step(sys, Deliver(i, f)), s, k);
    }
  }

  lemma CarriedStep(sys: System, a: Action, s: nat)
    requires Enabled(sys, a) && Orderly(a) && Solo(sys, s) && Carried(sys, s) && sys.maxAttempts > 1
    requires !LosesResult(sys, a, s)
    ensures Carried(Step(sys, a), s)
  {
    if a.Send? {
      if Working(sys.rows[s].state) {
        var k: nat :| Carrier(sys, s, k);
        assert Carrier(Step(sys, a), s, k);
      }
    } else {
      var m := sys.mail[a.i];
      if m.body.Malformed? || m.body.env.submission != Id(s) {
        ForeignCarries(sys, a.i, a.f, s);
      } else if m.place.Dead? {
        DeadCarries(sys, a.i, a.f, s);
      } else if ResultStage(m.place.q).Some? {
        WorkerCarries(sys, a.i, a.f, s);
      } else {
        HandlerCarries(sys, a.i, a.f, s);
      }
    }
  }

  // A lost result leaves the submission without a message,
  lemma LosingStrands(sys: System, a: Action, s: nat)
    requires Enabled(sys, a) && Orderly(a) && Solo(sys, s) && LosesResult(sys, a, s)
    ensures Stranded(Step(sys, a), s)
  {
    SoloStep(sys, a, s);
    var m := sys.mail[a.i];
    assert !React(sys, m, a.f).ok;
  }

  ghost predicate Stranded(sys: System, s: nat) {
    && Solo(sys, s) && Working(sys.rows[s].state)
    && forall i :: 0 <= i < |sys.mail| ==> !TokenOf(sys.mail[i], s)
  }

  lemma OnlyResultsMove(row: Row, env: Envelope, f: Faults)
    requires Working(row.state)
    ensures Decision(row, env, f).Some? && Decision(row, env, f).value != row.state && !env.stage.SFlaggedForReview? ==>
              StageToEvent(env.stage) == Some(StageSucceeded)
  {
  }

  lemma StrandedStays(sys: System, a: Action, s: nat)
    requires Enabled(sys, a) && Orderly(a) && Stranded(sys, s)
    ensures s < |Step(sys, a).rows| && Step(sys, a).rows[s].state == sys.rows[s].state
  {
    StateChange(sys, a, s);
    if a.Deliver? && sys.mail[a.i].body.Parsed? {
      OnlyResultsMove(sys.rows[s], sys.mail[a.i].body.env, a.f);
    }
  }

  lemma StrandedStep(sys: System, a: Action, s: nat)
    requires Enabled(sys, a) && Orderly(a) && Stranded(sys, s)
    ensures Stranded(Step(sys, a), s) && Step(sys, a).rows[s].state == sys.rows[s].state
  {
    SoloStep(sys, a, s);
    StrandedStays(sys, a, s);
    if a.Deliver? {
      var m := sys.mail[a.i];
      var r := React(sys, m, a.f);
      SettledToken(m, r.ok, sys.maxAttempts, s);
    }
  }

  // and no orderly run ever moves it again.
  lemma {:induction false} StrandedForever(sys: System, acts: seq<Action>, s: nat)
    requires CanRun(sys, acts) && OrderlyRun(acts) && Stranded(sys, s)
    ensures Stranded(Run(sys, acts), s) && Run(sys, acts).rows[s].state == sys.rows[s].state
    decreases |acts|
  {
    if acts != [] {
      StrandedStep(sys, acts[0], s);
      StrandedForever(Step(sys, acts[0]), acts[1..], s);
    }
  }

  lemma StrandedIsNotCarried(sys: System, s: nat)
    requires Stranded(sys, s)
    ensures !Carried(sys, s)
  {
  }

  // Exactly: at the end of an orderly run the submission's message is in flight,
  // or it is not needed, if and only if no result of it was dead-lettered.
  lemma {:induction false} CarriedIffNoResultLost(sys: System, acts: seq<Action>, s: nat)
    requires CanRun(sys, acts) && OrderlyRun(acts) && Solo(sys, s) && Carried(sys, s) && sys.maxAttempts > 1
    ensures Carried(Run(sys, acts), s) <==> LosesNoResult(sys, acts, s)
    decreases |acts|
  {
    if acts != [] {
      SoloStep(sys, acts[0], s);
      if LosesResult(sys, acts[0], s) {
        LosingStrands(sys, acts[0], s);
        StrandedForever(Step(sys, acts[0]), acts[1..], s);
        StrandedIsNotCarried(Run(sys, acts), s);
      } else {
        CarriedStep(sys, acts[0], s);
        CarriedIffNoResultLost(Step(sys, acts[0]), acts[1..], s);
      }
    }
  }

  // Nothing of the submission is left to deliver.
  ghost predicate Quiet(sys: System, s: nat) {
    forall i :: 0 <= i < |sys.mail| && sys.mail[i].body.Parsed? && sys.mail[i].body.env.submission == Id(s) ==>
      !Consumed(sys.mail[i].place)
  }

  // So once its messages are used up, an uploaded submission waits for a human,
  // has been handled to the end, or has failed.
  lemma RestsWhereItMay(sys: System, acts: seq<Action>, s: nat)
    requires CanRun(sys, acts) && OrderlyRun(acts) && sys.maxAttempts > 1
    requires s < |sys.rows| && sys.rows[s].state == Uploaded
    requires forall i :: 0 <= i < |sys.mail| && sys.mail[i].body.Parsed? ==> sys.mail[i].body.env.submission != Id(s)
    requires LosesNoResult(sys, acts, s) && Quiet(Run(sys, acts), s)
    ensures s < |Run(sys, acts).rows|
    ensures Run(sys, acts).rows[s].state in
              {Uploaded, TranscriptionReviewRequired, TeacherReview, Approved, Published, Exported, Failed}
  {
    SoloAtStart(sys, s);
    SingleToken(sys, acts, s);
    CarriedIffNoResultLost(sys, acts, s);
    Gate.ApprovalGate(sys, acts, s);
  }
}
