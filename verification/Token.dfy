/** The single token: when no worker or result message is duplicated, nothing
    fails between writing the state and publishing, and nobody sends
    flagged_for_review, a submission has at most one pipeline message in
    flight and that message belongs to its current state. */
module Token {
  import opened Wrappers
  import opened StateMachine
  import opened Protocol
  import Gate

  // A message that can carry the pipeline on: work, a stage result, or a
  // dead letter that will fail the submission.
  ghost predicate IsToken(m: Msg) {
    && m.body.Parsed?
    && match m.place
       case Settled => false
       case Dead(q) => StageOf(q).Some?
       case Live(q) =>
         || StageOf(q).Some?
         || (ResultStage(q).None? && StageToEvent(m.body.env.stage) == Some(StageSucceeded))
  }

  ghost predicate TokenOf(m: Msg, s: nat) {
    IsToken(m) && m.body.env.submission == Id(s)
  }

  ghost predicate StageFits(stage: Stage, state: State) {
    match stage
    case SRender => state.Queued?
    case SRenderResult => state.Queued? || state.SplittingPages? || state.ExtractingMetadata?
    case STranscribe | STranscribeResult => state.Transcribing?
    case SGrade | SGradeResult => state.Grading?
    case _ => false
  }

  // The stage a token stands for: its queue's, or the one its result names
  ghost function TokenStage(m: Msg): Stage
    requires IsToken(m)
  {
    if StageOf(m.place.q).Some? then StageOf(m.place.q).value else m.body.env.stage
  }

  ghost predicate Flagging(m: Msg, s: nat) {
    m.body.Parsed? && m.body.env.submission == Id(s) && m.place.Live? && m.body.env.stage.SFlaggedForReview?
  }

  ghost predicate Solo(sys: System, s: nat) {
    && s < |sys.rows|
    && sys.rows[s].state != GradingReviewRequired
    && (forall i :: 0 <= i < |sys.mail| && TokenOf(sys.mail[i], s) ==>
          StageFits(TokenStage(sys.mail[i]), sys.rows[s].state))
    && (forall i, j :: 0 <= i < j < |sys.mail| && TokenOf(sys.mail[i], s) ==> !TokenOf(sys.mail[j], s))
    && (forall i :: 0 <= i < |sys.mail| ==> !Flagging(sys.mail[i], s))
  }

  // The assumption on one action
  ghost predicate Orderly(a: Action) {
    match a
    case Deliver(i, f) => !f.work.FailsAfterEffect? && !f.write.FailsAfterEffect? && f.publish.Succeeds?
    case Send(q, env) =>
      && !env.stage.SFlaggedForReview?
      && (q.FeedbackQ? || (q.CommandsQ? && StageToEvent(env.stage) != Some(StageSucceeded)))
  }

  ghost predicate OrderlyRun(acts: seq<Action>) {
    forall k :: 0 <= k < |acts| ==> Orderly(acts[k])
  }

  // A message that stops being the token or keeps what it stands for
  lemma SettledToken(m: Msg, ok: bool, mx: int, s: nat)
    ensures var m' := Settle(m, ok, mx);
            && (TokenOf(m', s) ==> TokenOf(m, s) && TokenStage(m') == TokenStage(m))
            && (ok && m.body.Parsed? ==> !TokenOf(m', s))
            && (Flagging(m', s) ==> Flagging(m, s))
  {
  }

  // The new row and the posted message fit each other.
  lemma HandleFits(rows: seq<Row>, env: Envelope, f: Faults, s: nat)
    requires s < |rows| && Orderly(Deliver(0, f)) && env.submission == Id(s)
    requires rows[s].state != GradingReviewRequired && !env.stage.SFlaggedForReview?
    requires StageToEvent(env.stage) == Some(StageSucceeded) ==> StageFits(env.stage, rows[s].state)
    ensures var r := Handle(rows, env, f);
            && |r.rows| == |rows| && r.rows[s].state != GradingReviewRequired
            && (r.rows[s].state == rows[s].state ==> r.sent.None?)
            && (r.rows[s].state != rows[s].state ==> r.ok)
            && (r.sent.Some? ==>
                  var m := Msg(Live(r.sent.value.0), Parsed(r.sent.value.1), 0);
                  TokenOf(m, s) && StageFits(TokenStage(m), r.rows[s].state) && !Flagging(m, s))
  {
    var r := Handle(rows, env, f);
    if r.sent.Some? {
      var next := Decision(rows[s], env, f).value;
      assert r.sent == Dispatch(env, rows[s], next);
    }
  }

  // A state in which a token may wait changes only by that token's own result.
  lemma TokenGuards(row: Row, env: Envelope, f: Faults)
    requires row.state.Queued? || row.state.SplittingPages? || row.state.ExtractingMetadata?
             || row.state.Transcribing? || row.state.Grading?
    requires !env.stage.SFlaggedForReview?
    requires Decision(row, env, f).Some? && Decision(row, env, f).value != row.state
    ensures StageToEvent(env.stage) == Some(StageSucceeded)
  {
  }

  lemma HandleStep(sys: System, i: nat, f: Faults, s: nat)
    requires Enabled(sys, Deliver(i, f)) && Orderly(Deliver(i, f)) && Solo(sys, s)
    requires var m := sys.mail[i]; m.body.Parsed? && m.place.Live? && ResultStage(m.place.q).None?
    requires sys.mail[i].body.env.submission == Id(s)
    ensures Solo(Step(sys, Deliver(i, f)), s)
  {
    var m := sys.mail[i];
    var env := m.body.env;
    var r := Handle(sys.rows, env, f);
    assert !Flagging(m, s);
    assert StageToEvent(env.stage) == Some(StageSucceeded) ==> TokenOf(m, s);
    HandleFits(sys.rows, env, f, s);
    SettledToken(m, r.ok, sys.maxAttempts, s);
    if r.rows[s].state != sys.rows[s].state {
      forall j | 0 <= j < |sys.mail| && j != i ensures !TokenOf(sys.mail[j], s) {
        if TokenOf(sys.mail[j], s) {
          TokenGuards(sys.rows[s], env, f);
        }
      }
    }
  }

  lemma DeadStep(sys: System, i: nat, f: Faults, s: nat)
    requires Enabled(sys, Deliver(i, f)) && Orderly(Deliver(i, f)) && Solo(sys, s)
    requires sys.mail[i].body.Parsed? && sys.mail[i].place.Dead?
    requires sys.mail[i].body.env.submission == Id(s)
    ensures Solo(Step(sys, Deliver(i, f)), s)
  {
    var m := sys.mail[i];
    assert TokenOf(m, s);
    var r := HandleDead(sys.rows, m.place.q, m.body.env, f);
    SettledToken(m, r.ok, sys.maxAttempts, s);
    assert Step(sys, Deliver(i, f)).mail == sys.mail[i := Settle(m, r.ok, sys.maxAttempts)];
  }

  lemma WorkStep(sys: System, i: nat, f: Faults, s: nat)
    requires Enabled(sys, Deliver(i, f)) && Orderly(Deliver(i, f)) && Solo(sys, s)
    requires var m := sys.mail[i]; m.body.Parsed? && m.place.Live? && ResultStage(m.place.q).Some?
    requires sys.mail[i].body.env.submission == Id(s)
    ensures Solo(Step(sys, Deliver(i, f)), s)
  {
    var m := sys.mail[i];
    var r := Work(sys.rows, m.place.q, m.body.env, f);
    SettledToken(m, r.ok, sys.maxAttempts, s);
    assert StageOf(m.place.q).Some? ==> TokenOf(m, s);
  }

  // Changing one message into nothing more, and posting nothing of s
  lemma SoloUpdate(sys: System, next: System, i: nat, m: Msg, posted: seq<Msg>, s: nat)
    requires Solo(sys, s) && i < |sys.mail| && next.mail == sys.mail[i := m] + posted
    requires s < |next.rows| && next.rows[s].state == sys.rows[s].state
    requires TokenOf(m, s) ==> TokenOf(sys.mail[i], s) && TokenStage(m) == TokenStage(sys.mail[i])
    requires Flagging(m, s) ==> Flagging(sys.mail[i], s)
    requires forall k :: 0 <= k < |posted| ==> !TokenOf(posted[k], s) && !Flagging(posted[k], s)
    ensures Solo(next, s)
  {
  }

  lemma ForeignReaction(sys: System, m: Msg, f: Faults, s: nat)
    requires Consumed(m.place) && s < |sys.rows|
    requires m.body.Parsed? ==> m.body.env.submission != Id(s)
    ensures var r := React(sys, m, f);
            && |r.rows| == |sys.rows| && r.rows[s] == sys.rows[s]
            && (r.sent.Some? ==> r.sent.value.1.submission != Id(s))
  {
  }

  // Messages of other submissions, and messages nobody can read
  lemma ForeignStep(sys: System, i: nat, f: Faults, s: nat)
    requires Enabled(sys, Deliver(i, f)) && Solo(sys, s)
    requires sys.mail[i].body.Parsed? ==> sys.mail[i].body.env.submission != Id(s)
    ensures Solo(Step(sys, Deliver(i, f)), s)
  {
    var m := sys.mail[i];
    var r := React(sys, m, f);
    ForeignReaction(sys, m, f, s);
    SettledToken(m, r.ok, sys.maxAttempts, s);
    SoloUpdate(sys, Step(sys, Deliver(i, f)), i, Settle(m, r.ok, sys.maxAttempts), Posted(r.sent), s);
  }

  lemma SoloStep(sys: System, a: Action, s: nat)
    requires Enabled(sys, a) && Orderly(a) && Solo(sys, s)
    ensures Solo(Step(sys, a), s)
  {
    if a.Deliver? {
      var m := sys.mail[a.i];
      if m.body.Malformed? || m.body.env.submission != Id(s) {
        ForeignStep(sys, a.i, a.f, s);
      } else if m.place.Dead? {
        DeadStep(sys, a.i, a.f, s);
      } else if ResultStage(m.place.q).Some? {
        WorkStep(sys, a.i, a.f, s);
      } else {
        HandleStep(sys, a.i, a.f, s);
      }
    }
  }

  // The invariant over whole runs, for each submission on its own
  lemma {:induction false} SingleToken(sys: System, acts: seq<Action>, s: nat)
    requires CanRun(sys, acts) && OrderlyRun(acts) && Solo(sys, s)
    ensures Solo(Run(sys, acts), s)
    decreases |acts|
  {
    if acts != [] {
      SoloStep(sys, acts[0], s);
      SingleToken(Step(sys, acts[0]), acts[1..], s);
    }
  }

  // It holds when a submission is uploaded and nothing was sent for it yet.
  lemma SoloAtStart(sys: System, s: nat)
    requires s < |sys.rows| && sys.rows[s].state == Uploaded
    requires forall i :: 0 <= i < |sys.mail| && sys.mail[i].body.Parsed? ==> sys.mail[i].body.env.submission != Id(s)
    ensures Solo(sys, s)
  {
  }

  // So grading is entered by a transcribe.result without quality flags, by
  // approve_for_grading or by regrade, and in no other way.
  lemma GradingIsEarned(sys: System, acts: seq<Action>, s: nat, i: nat, f: Faults)
    requires CanRun(sys, acts) && OrderlyRun(acts) && Solo(sys, s)
    requires Enabled(Run(sys, acts), Deliver(i, f))
    ensures var now := Run(sys, acts);
            var m := now.mail[i];
            |Step(now, Deliver(i, f)).rows| == |now.rows| && s < |now.rows| &&
            (now.rows[s].state != Grading && Step(now, Deliver(i, f)).rows[s].state == Grading ==>
              m.body.Parsed? &&
              ((m.body.env.stage == STranscribeResult && f.sidecar.Some?
                && EvaluateGates(f.sidecar.value, DEFAULT_TUNABLES) == [])
               || m.body.env.stage == SApproveForGrading || m.body.env.stage == SRegrade))
  {
    SingleToken(sys, acts, s);
    var now := Run(sys, acts);
    var m := now.mail[i];
    StateChange(now, Deliver(i, f), s);
    if now.rows[s].state != Grading {
      Gate.GradingEntries(now, i, f, s);
      assert (m.body.Parsed? && m.body.env.submission == Id(s) && m.place.Live? && ResultStage(m.place.q).None?
              && StageToEvent(m.body.env.stage) == Some(StageSucceeded)) ==> TokenOf(m, s);
    }
  }

  // And a dead letter fails the stage the submission is really in.
  lemma DeadLettersAreCurrent(sys: System, acts: seq<Action>, s: nat, i: nat)
    requires CanRun(sys, acts) && OrderlyRun(acts) && Solo(sys, s)
    requires var now := Run(sys, acts); i < |now.mail| && now.mail[i].place.Dead? && TokenOf(now.mail[i], s)
    ensures var now := Run(sys, acts);
            s < |now.rows| &&
            match now.mail[i].place.q
            case RenderQ => now.rows[s].state == Queued
            case TranscribeQ => now.rows[s].state == Transcribing
            case GradeQ => now.rows[s].state == Grading
            case _ => false
  {
    SingleToken(sys, acts, s);
  }
}
