/** In orderly runs teacher_review is earned: every entry into grading sends one
    grade request, every such request is worked on successfully at most once, and
    every entry into teacher_review uses up one such success. */
module Earned {
  import opened Wrappers
  import opened StateMachine
  import opened Protocol
  import opened Token
  import Gate

  // Does the action post a grade request for s?
  predicate Requests(sys: System, a: Action, s: nat)
    requires Enabled(sys, a)
  {
    && a.Deliver?
    && var sent := React(sys, sys.mail[a.i], a.f).sent;
    && sent.Some? && sent.value.0 == GradeQ && sent.value.1.submission == Id(s)
  }

  // Is it a successful run of the grade worker on s?
  predicate Grades(sys: System, a: Action, s: nat)
    requires Enabled(sys, a)
  {
    && a.Deliver?
    && var m := sys.mail[a.i];
    && m.body.Parsed? && m.body.env.submission == Id(s) && m.place == Live(GradeQ) && React(sys, m, a.f).ok
  }

  function One(b: bool): nat {
    if b then 1 else 0
  }

  function Requested(sys: System, acts: seq<Action>, s: nat): nat
    requires CanRun(sys, acts)
    decreases |acts|
  {
    if acts == [] then 0
    else One(Requests(sys, acts[0], s)) + Requested(Step(sys, acts[0]), acts[1..], s)
  }

  function Graded(sys: System, acts: seq<Action>, s: nat): nat
    requires CanRun(sys, acts)
    decreases |acts|
  {
    if acts == [] then 0
    else One(Grades(sys, acts[0], s)) + Graded(Step(sys, acts[0]), acts[1..], s)
  }

  ghost predicate HasToken(sys: System, s: nat, stage: Stage) {
    exists i :: 0 <= i < |sys.mail| && TokenOf(sys.mail[i], s) && TokenStage(sys.mail[i]) == stage
  }

  ghost function Waiting(sys: System, s: nat, stage: Stage): nat {
    One(HasToken(sys, s, stage))
  }

  // How the counts so far compare, a request or a result still in flight included.
  ghost predicate Tally(sys: System, s: nat, requested: nat, graded: nat, grading: nat, review: nat) {
    && grading == requested
    && graded + Waiting(sys, s, SGrade) <= requested
    && review + Waiting(sys, s, SGradeResult) <= graded
  }

  // One step ----------------------------------------------------------------------

  // A token after a delivery was there before, or was posted.
  lemma TokensFromPosting(sys: System, i: nat, f: Faults, s: nat, stage: Stage)
    requires Enabled(sys, Deliver(i, f))
    ensures HasToken(Step(sys, Deliver(i, f)), s, stage) ==>
              var sent := React(sys, sys.mail[i], f).sent;
              || HasToken(sys, s, stage)
              || (sent.Some? && var p := Msg(Live(sent.value.0), Parsed(sent.value.1), 0);
                  TokenOf(p, s) && TokenStage(p) == stage)
  {
    var m, next := sys.mail[i], Step(sys, Deliver(i, f));
    var r := React(sys, m, f);
    SettledToken(m, r.ok, sys.maxAttempts, s);
    if HasToken(next, s, stage) {
      var k :| 0 <= k < |next.mail| && TokenOf(next.mail[k], s) && TokenStage(next.mail[k]) == stage;
      assert next.mail == sys.mail[i := Settle(m, r.ok, sys.maxAttempts)] + Posted(r.sent);
      if k < |sys.mail| {
        assert TokenOf(sys.mail[k], s) && TokenStage(sys.mail[k]) == stage;
      }
    }
  }

  // What a reaction posts for s is a grade request, a grade result or neither.
  lemma PostedStage(sys: System, i: nat, f: Faults, s: nat)
    requires Enabled(sys, Deliver(i, f))
    ensures var sent := React(sys, sys.mail[i], f).sent;
            sent.Some? ==>
              var p := Msg(Live(sent.value.0), Parsed(sent.value.1), 0);
              && (TokenOf(p, s) && TokenStage(p) == SGrade <==> Requests(sys, Deliver(i, f), s))
              && (TokenOf(p, s) && TokenStage(p) == SGradeResult ==>
                    Grades(sys, Deliver(i, f), s) || f.work.FailsAfterEffect?)
  {
  }

  // Grading is requested exactly when it is entered.
  lemma RequestedOnEntry(sys: System, i: nat, f: Faults, s: nat)
    requires Enabled(sys, Deliver(i, f)) && Orderly(Deliver(i, f)) && s < |sys.rows|
    ensures |Step(sys, Deliver(i, f)).rows| == |sys.rows|
    ensures Requests(sys, Deliver(i, f), s) <==>
              sys.rows[s].state != Grading && Step(sys, Deliver(i, f)).rows[s].state == Grading
  {
    StateChange(sys, Deliver(i, f), s);
  }

  // Entering teacher_review takes the grade result, and leaves no token.
  lemma ReviewTakesResult(sys: System, i: nat, f: Faults, s: nat)
    requires Enabled(sys, Deliver(i, f)) && Orderly(Deliver(i, f)) && Solo(sys, s)
    requires |Step(sys, Deliver(i, f)).rows| == |sys.rows|
    requires sys.rows[s].state != TeacherReview && Step(sys, Deliver(i, f)).rows[s].state == TeacherReview
    ensures sys.mail[i].body.Parsed? && sys.mail[i].body.env.stage == SGradeResult
    ensures HasToken(sys, s, SGradeResult) && !HasToken(Step(sys, Deliver(i, f)), s, SGradeResult)
  {
    var m, next := sys.mail[i], Step(sys, Deliver(i, f));
    Gate.ReviewEntries(sys, i, f, s);
    assert TokenOf(m, s);
    SoloStep(sys, Deliver(i, f), s);
  }

  // No token appears but the one a delivery posts.
  lemma NoStrayToken(sys: System, a: Action, s: nat, stage: Stage)
    requires Enabled(sys, a) && Orderly(a) && (stage == SGrade || stage == SGradeResult)
    ensures HasToken(Step(sys, a), s, stage) ==>
              || HasToken(sys, s, stage)
              || (if stage == SGrade then Requests(sys, a, s) else Grades(sys, a, s))
  {
    match a
    case Deliver(i, f) =>
      TokensFromPosting(sys, i, f, s, stage);
      PostedStage(sys, i, f, s);
    case Send(q, env) =>
      var next := Step(sys, a);
      if HasToken(next, s, stage) {
        var k :| 0 <= k < |next.mail| && TokenOf(next.mail[k], s) && TokenStage(next.mail[k]) == stage;
        assert TokenOf(sys.mail[k], s) && TokenStage(sys.mail[k]) == stage;
      }
  }

  lemma TallyStep(sys: System, a: Action, s: nat, requested: nat, graded: nat, grading: nat, review: nat)
    requires Enabled(sys, a) && Orderly(a) && Solo(sys, s) && Tally(sys, s, requested, graded, grading, review)
    ensures s < |Step(sys, a).rows|
    ensures Tally(Step(sys, a), s,
                  requested + One(Requests(sys, a, s)), graded + One(Grades(sys, a, s)),
                  grading + Gate.Enters(sys.rows[s].state, Step(sys, a).rows[s].state, Grading),
                  review + Gate.Enters(sys.rows[s].state, Step(sys, a).rows[s].state, TeacherReview))
  {
    NoStrayToken(sys, a, s, SGrade);
    NoStrayToken(sys, a, s, SGradeResult);
    StateChange(sys, a, s);
    match a
    case Send(q, env) =>
    case Deliver(i, f) =>
      RequestedOnEntry(sys, i, f, s);
      if sys.rows[s].state != TeacherReview && Step(sys, a).rows[s].state == TeacherReview {
        ReviewTakesResult(sys, i, f, s);
      }
  }

  // Whole runs ----------------------------------------------------------------------

  lemma {:induction false} RunTally(
      sys: System, acts: seq<Action>, s: nat, requested: nat, graded: nat, grading: nat, review: nat)
    requires CanRun(sys, acts) && OrderlyRun(acts) && Solo(sys, s)
    requires Tally(sys, s, requested, graded, grading, review)
    ensures Tally(Run(sys, acts), s,
                  requested + Requested(sys, acts, s), graded + Graded(sys, acts, s),
                  grading + Gate.Entries(sys, acts, s, Grading),
                  review + Gate.Entries(sys, acts, s, TeacherReview))
    decreases |acts|
  {
    if acts != [] {
      var a, next := acts[0], Step(sys, acts[0]);
      SoloStep(sys, a, s);
      TallyStep(sys, a, s, requested, graded, grading, review);
      RunTally(next, acts[1..], s,
               requested + One(Requests(sys, a, s)), graded + One(Grades(sys, a, s)),
               grading + Gate.Enters(sys.rows[s].state, next.rows[s].state, Grading),
               review + Gate.Enters(sys.rows[s].state, next.rows[s].state, TeacherReview));
    }
  }

  // A submission reaches teacher_review at most as often as the grade worker
  // succeeded on it, and the worker succeeds at most as often as it was asked,
  // which is once for every entry into grading.
  lemma ReviewIsEarned(sys: System, acts: seq<Action>, s: nat)
    requires CanRun(sys, acts) && OrderlyRun(acts)
    requires s < |sys.rows| && sys.rows[s].state == Uploaded
    requires forall i :: 0 <= i < |sys.mail| && sys.mail[i].body.Parsed? ==> sys.mail[i].body.env.submission != Id(s)
    ensures Gate.Entries(sys, acts, s, TeacherReview) <= Graded(sys, acts, s)
    ensures Graded(sys, acts, s) <= Requested(sys, acts, s) == Gate.Entries(sys, acts, s, Grading)
  {
    SoloAtStart(sys, s);
    RunTally(sys, acts, s, 0, 0, 0, 0);
  }

  // And each single entry is the work of a grade.result.
  lemma OnlyGradeResultEntersReview(sys: System, acts: seq<Action>, s: nat, i: nat, f: Faults)
    requires CanRun(sys, acts) && OrderlyRun(acts) && Solo(sys, s)
    requires Enabled(Run(sys, acts), Deliver(i, f)) && Orderly(Deliver(i, f))
    ensures var now := Run(sys, acts);
            && |Step(now, Deliver(i, f)).rows| == |now.rows| && s < |now.rows|
            && (now.rows[s].state != TeacherReview && Step(now, Deliver(i, f)).rows[s].state == TeacherReview ==>
                  now.mail[i].body.Parsed? && now.mail[i].body.env.stage == SGradeResult)
  {
    SingleToken(sys, acts, s);
    var now := Run(sys, acts);
    StateChange(now, Deliver(i, f), s);
    if now.rows[s].state != TeacherReview && Step(now, Deliver(i, f)).rows[s].state == TeacherReview {
      ReviewTakesResult(now, i, f, s);
    }
  }
}
