/** Without new messages from outside, the system comes to rest: a bound on
    the number of deliveries, whatever fails and wherever it fails. */
module Drain {
  import opened Wrappers
  import opened StateMachine
  import opened Protocol

  // Deliveries a live message has left, the current one included.
  function Left(m: Msg, maxAttempts: int): nat {
    if maxAttempts - m.count >= 1 then maxAttempts - m.count else 1
  }

  function Fresh(maxAttempts: int): nat {
    if maxAttempts >= 1 then maxAttempts else 1
  }

  predicate IsLoopBack(m: Msg) {
    && m.place.Live? && ResultStage(m.place.q).None? && m.body.Parsed?
    && StageToEvent(m.body.env.stage).Some? && LoopsBack(StageToEvent(m.body.env.stage).value)
  }

  // The most a freshly published message can weigh
  function FreshWeight(maxAttempts: int): nat {
    var r := Fresh(maxAttempts);
    r * (r + 1) + 1
  }

  // A worker's delivery may post a fresh result and still fail.
  function Weight(m: Msg, maxAttempts: int): nat {
    match m.place
    case Settled => 0
    case Dead(q) => if StageOf(q).Some? then 1 else 0
    case Live(q) =>
      if ResultStage(q).Some? then Left(m, maxAttempts) * (Fresh(maxAttempts) + 1) + 1
      else Left(m, maxAttempts)
  }

  // An advance may post one message; a loop-back may also undo every advance.
  function PerAdvance(maxAttempts: int): nat { FreshWeight(maxAttempts) + 1 }

  function PerLoopBack(maxAttempts: int): nat { 13 * PerAdvance(maxAttempts) + FreshWeight(maxAttempts) }

  function Potential(m: Msg, maxAttempts: int): nat {
    Weight(m, maxAttempts) + (if IsLoopBack(m) then PerLoopBack(maxAttempts) * Left(m, maxAttempts) else 0)
  }

  function MailPotential(mail: seq<Msg>, maxAttempts: int): nat {
    if mail == [] then 0 else Potential(mail[0], maxAttempts) + MailPotential(mail[1..], maxAttempts)
  }

  function RanksLeft(rows: seq<Row>): nat {
    if rows == [] then 0 else RankLeft(rows[0].state) + RanksLeft(rows[1..])
  }

  // The bound: what the messages can still cause plus what the rows can.
  function Measure(sys: System): nat {
    MailPotential(sys.mail, sys.maxAttempts) + PerAdvance(sys.maxAttempts) * RanksLeft(sys.rows)
  }

  lemma {:induction false} MailUpdate(mail: seq<Msg>, i: nat, m: Msg, mx: int)
    requires i < |mail|
    ensures MailPotential(mail[i := m], mx) == MailPotential(mail, mx) - Potential(mail[i], mx) + Potential(m, mx)
  {
    if i == 0 {
      assert mail[i := m][1..] == mail[1..];
    } else {
      assert mail[i := m][1..] == mail[1..][i - 1 := m];
      MailUpdate(mail[1..], i - 1, m, mx);
    }
  }

  lemma {:induction false} MailAppend(mail: seq<Msg>, m: Msg, mx: int)
    ensures MailPotential(mail + [m], mx) == MailPotential(mail, mx) + Potential(m, mx)
  {
    if mail == [] {
      assert mail + [m] == [m];
    } else {
      assert (mail + [m])[1..] == mail[1..] + [m];
      MailAppend(mail[1..], m, mx);
    }
  }

  lemma {:induction false} RanksUpdate(rows: seq<Row>, i: nat, r: Row)
    requires i < |rows|
    ensures RanksLeft(rows[i := r]) == RanksLeft(rows) - RankLeft(rows[i].state) + RankLeft(r.state)
  {
    if i == 0 {
      assert rows[i := r][1..] == rows[1..];
    } else {
      assert rows[i := r][1..] == rows[1..][i - 1 := r];
      RanksUpdate(rows[1..], i - 1, r);
    }
  }

  // A delivery to the dead-letter consumer that does not succeed
  predicate FailedDeadLetter(sys: System, a: Action) {
    && a.Deliver? && Enabled(sys, a)
    && var m := sys.mail[a.i];
    && m.place.Dead? && m.body.Parsed? && !React(sys, m, a.f).ok
  }

  // What a delivery adds by posting, in units of weight
  function PostedPotential(sent: Option<(Queue, Envelope)>, mx: int): nat {
    match sent
    case None => 0
    case Some((q, env)) => Potential(Msg(Live(q), Parsed(env), 0), mx)
  }

  lemma DeliverMeasure(sys: System, i: nat, f: Faults)
    requires Enabled(sys, Deliver(i, f))
    ensures var m, mx := sys.mail[i], sys.maxAttempts;
            var r := React(sys, m, f);
            Measure(Step(sys, Deliver(i, f))) ==
            MailPotential(sys.mail, mx) - Potential(m, mx) + Potential(Settle(m, r.ok, mx), mx)
            + PostedPotential(r.sent, mx) + PerAdvance(mx) * RanksLeft(r.rows)
  {
    var m, mx := sys.mail[i], sys.maxAttempts;
    var r := React(sys, m, f);
    var settled := sys.mail[i := Settle(m, r.ok, mx)];
    MailUpdate(sys.mail, i, Settle(m, r.ok, mx), mx);
    if r.sent.Some? {
      MailAppend(settled, Posted(r.sent)[0], mx);
      assert Posted(r.sent) == [Posted(r.sent)[0]];
    } else {
      assert settled + Posted(r.sent) == settled;
    }
  }

  // The row a reaction writes, in units of rank
  lemma ReactRows(sys: System, m: Msg, f: Faults)
    requires Consumed(m.place)
    ensures var r := React(sys, m, f);
            && (r.sent.Some? && ResultStage(m.place.q).None? ==>
                  RanksLeft(r.rows) != RanksLeft(sys.rows) || IsLoopBack(m))
            && (!IsLoopBack(m) ==> RanksLeft(r.rows) <= RanksLeft(sys.rows))
            && RanksLeft(r.rows) <= RanksLeft(sys.rows) + 12
  {
    var r := React(sys, m, f);
    if m.body.Parsed? && Known(sys.rows, m.body.env.submission) {
      var n := m.body.env.submission.n;
      OneRow(sys, m, f);
      RowRank(sys, m, f);
      RanksUpdate(sys.rows, n, r.rows[n]);
    } else {
      assert r.rows == sys.rows;
    }
  }

  lemma RowRank(sys: System, m: Msg, f: Faults)
    requires Consumed(m.place) && m.body.Parsed? && Known(sys.rows, m.body.env.submission)
    ensures var n := m.body.env.submission.n;
            var r := React(sys, m, f);
            && n < |r.rows|
            && (!IsLoopBack(m) ==> RankLeft(r.rows[n].state) <= RankLeft(sys.rows[n].state))
            && (r.sent.Some? && ResultStage(m.place.q).None? && !IsLoopBack(m) ==>
                  RankLeft(r.rows[n].state) < RankLeft(sys.rows[n].state))
  {
    var n := m.body.env.submission.n;
    OneRow(sys, m, f);
    var r := React(sys, m, f);
    if m.place.Live? && ResultStage(m.place.q).None? && r.rows[n].state != sys.rows[n].state {
      OnlyThreeEventsLoopBack(sys.rows[n].state, StageToEvent(m.body.env.stage).value, FlagsFor(m.body.env, f));
    }
  }

  // A reaction touches the row of the envelope's submission only, and a
  // handler that posts has advanced it.
  lemma OneRow(sys: System, m: Msg, f: Faults)
    requires Consumed(m.place) && m.body.Parsed? && Known(sys.rows, m.body.env.submission)
    ensures var n := m.body.env.submission.n;
            var r := React(sys, m, f);
            && |r.rows| == |sys.rows| && r.rows == sys.rows[n := r.rows[n]]
            && (r.sent.Some? && ResultStage(m.place.q).None? ==> r.rows[n].state != sys.rows[n].state)
            && (m.place.Dead? ==> r.rows[n].state == sys.rows[n].state || r.rows[n].state == Failed)
            && (m.place.Live? && ResultStage(m.place.q).Some? ==> r.rows == sys.rows)
  {
  }

  lemma {:induction false} LeftMul(left: nat, left': nat, k: nat)
    requires left' + 1 <= left
    ensures k * left' + k <= k * left
    decreases left
  {
    if left > left' + 1 {
      LeftMul(left - 1, left', k);
      assert k * left == k * (left - 1) + k;
    } else {
      assert k * left == k * (left' + 1) == k * left' + k;
    }
  }

  // A settled message has an attempt less, or is out of its queue.
  lemma SettledKind(m: Msg, ok: bool, mx: int)
    requires Consumed(m.place) && (m.place.Dead? ==> ok || m.body.Malformed?)
    ensures var m' := Settle(m, ok, mx);
            if m'.place == m.place then m.place.Live? && m'.body == m.body && Left(m', mx) + 1 == Left(m, mx)
            else Potential(m', mx) <= (if m.place.Live? && ResultStage(m.place.q).Some? then 1 else 0)
  {
  }

  // Settling a message costs potential: enough to pay for what it posted.
  lemma SettleCost(m: Msg, ok: bool, mx: int)
    requires Consumed(m.place) && (m.place.Dead? ==> ok || m.body.Malformed?)
    ensures Potential(Settle(m, ok, mx), mx) + 1 <= Potential(m, mx)
    ensures IsLoopBack(m) ==> Potential(Settle(m, ok, mx), mx) + 1 + PerLoopBack(mx) <= Potential(m, mx)
    ensures m.place.Live? && ResultStage(m.place.q).Some? ==>
              Potential(Settle(m, ok, mx), mx) + 1 + Fresh(mx) <= Potential(m, mx)
  {
    var m' := Settle(m, ok, mx);
    SettledKind(m, ok, mx);
    if m'.place == m.place {
      assert IsLoopBack(m') == IsLoopBack(m);
      LeftMul(Left(m, mx), Left(m', mx), Fresh(mx) + 1);
      LeftMul(Left(m, mx), Left(m', mx), PerLoopBack(mx));
    } else {
      LeftMul(Left(m, mx), 0, Fresh(mx) + 1);
      LeftMul(Left(m, mx), 0, PerLoopBack(mx));
    }
  }

  lemma PostedCost(sys: System, m: Msg, f: Faults)
    requires Consumed(m.place)
    ensures var r := React(sys, m, f);
            && PostedPotential(r.sent, sys.maxAttempts) <= FreshWeight(sys.maxAttempts)
            && (m.place.Live? && ResultStage(m.place.q).Some? ==>
                  PostedPotential(r.sent, sys.maxAttempts) <= Fresh(sys.maxAttempts))
  {
    var r := React(sys, m, f);
    if r.sent.Some? {
      var (q, env) := r.sent.value;
      PostsNoLoopBack(sys, m, f);
      FreshCost(q, env, sys.maxAttempts);
    }
  }

  // No consumer publishes a loop-back command, and workers publish results.
  lemma PostsNoLoopBack(sys: System, m: Msg, f: Faults)
    requires Consumed(m.place) && React(sys, m, f).sent.Some?
    ensures var (q, env) := React(sys, m, f).sent.value;
            && !IsLoopBack(Msg(Live(q), Parsed(env), 0))
            && (m.place.Live? && ResultStage(m.place.q).Some? ==> q == ResultsQ)
  {
  }

  lemma FreshCost(q: Queue, env: Envelope, mx: int)
    requires !IsLoopBack(Msg(Live(q), Parsed(env), 0))
    ensures Potential(Msg(Live(q), Parsed(env), 0), mx) <= FreshWeight(mx)
    ensures q == ResultsQ ==> Potential(Msg(Live(q), Parsed(env), 0), mx) <= Fresh(mx)
  {
    LeftMul(Fresh(mx) + 1, 1, Fresh(mx));
  }

  lemma RankCost(before: nat, after: nat, mx: int)
    ensures after + 1 <= before ==> PerAdvance(mx) * after + PerAdvance(mx) <= PerAdvance(mx) * before
    ensures after <= before ==> PerAdvance(mx) * after <= PerAdvance(mx) * before
    ensures after <= before + 12 ==> PerAdvance(mx) * after <= PerAdvance(mx) * before + 12 * PerAdvance(mx)
  {
    Scale(before, after, PerAdvance(mx));
  }

  lemma Scale(before: nat, after: nat, k: nat)
    ensures after + 1 <= before ==> k * after + k <= k * before
    ensures after <= before ==> k * after <= k * before
    ensures after <= before + 12 ==> k * after <= k * before + 12 * k
  {
    if after < before {
      LeftMul(before, after, k);
    }
    if after < before + 12 {
      LeftMul(before + 12, after, k);
    }
    assert k * (before + 12) == k * before + 12 * k;
  }

  // Every delivery uses up part of the bound. Only a failing dead-letter
  // consumer may leave it as it was.
  lemma DeliveryDescends(sys: System, i: nat, f: Faults)
    requires Enabled(sys, Deliver(i, f))
    ensures !FailedDeadLetter(sys, Deliver(i, f)) ==> Measure(Step(sys, Deliver(i, f))) < Measure(sys)
    ensures Measure(Step(sys, Deliver(i, f))) <= Measure(sys)
  {
    var m, mx := sys.mail[i], sys.maxAttempts;
    var r := React(sys, m, f);
    DeliverMeasure(sys, i, f);
    ReactRows(sys, m, f);
    PostedCost(sys, m, f);
    RankCost(RanksLeft(sys.rows), RanksLeft(r.rows), mx);
    if !FailedDeadLetter(sys, Deliver(i, f)) {
      SettleCost(m, r.ok, mx);
    }
  }

  // Counting deliveries along a run ------------------------------------------

  predicate Draining(acts: seq<Action>) {
    forall k :: 0 <= k < |acts| ==> acts[k].Deliver?
  }

  // The deliveries of a run that are not a failed dead-letter handling
  function Progress(sys: System, acts: seq<Action>): nat
    requires CanRun(sys, acts)
    decreases |acts|
  {
    if acts == [] then 0
    else (if FailedDeadLetter(sys, acts[0]) then 0 else 1) + Progress(Step(sys, acts[0]), acts[1..])
  }

  // Drain: in every run without new messages from outside, with any call
  // failing anywhere, the deliveries are at most Measure of the start, not
  // counting dead-letter handlings that fail.
  lemma {:induction false} Drains(sys: System, acts: seq<Action>)
    requires CanRun(sys, acts) && Draining(acts)
    ensures Progress(sys, acts) + Measure(Run(sys, acts)) <= Measure(sys)
    decreases |acts|
  {
    if acts != [] {
      DeliveryDescends(sys, acts[0].i, acts[0].f);
      Drains(Step(sys, acts[0]), acts[1..]);
    }
  }

  predicate DeadLettersSucceed(sys: System, acts: seq<Action>)
    requires CanRun(sys, acts)
    decreases |acts|
  {
    acts == [] || (!FailedDeadLetter(sys, acts[0]) && DeadLettersSucceed(Step(sys, acts[0]), acts[1..]))
  }

  lemma {:induction false} HandledDrains(sys: System, acts: seq<Action>)
    requires CanRun(sys, acts) && Draining(acts) && DeadLettersSucceed(sys, acts)
    ensures |acts| <= Measure(sys)
  {
    AllProgress(sys, acts);
    Drains(sys, acts);
  }

  lemma {:induction false} AllProgress(sys: System, acts: seq<Action>)
    requires CanRun(sys, acts) && DeadLettersSucceed(sys, acts)
    ensures Progress(sys, acts) == |acts|
    decreases |acts|
  {
    if acts != [] {
      AllProgress(Step(sys, acts[0]), acts[1..]);
    }
  }

  // When dead letters are handled -----------------------------------------------

  // Every message that can be read names a submission in the table.
  ghost predicate AllKnown(sys: System) {
    forall i :: 0 <= i < |sys.mail| && sys.mail[i].body.Parsed? ==> Known(sys.rows, sys.mail[i].body.env.submission)
  }

  // Every FailSubmission the run asks for succeeds.
  predicate FailuresWritten(sys: System, acts: seq<Action>)
    requires CanRun(sys, acts)
    decreases |acts|
  {
    acts == [] ||
    (&& (acts[0].Deliver? && sys.mail[acts[0].i].place.Dead? ==> acts[0].f.write.Succeeds?)
     && FailuresWritten(Step(sys, acts[0]), acts[1..]))
  }

  lemma KnownStep(sys: System, i: nat, f: Faults)
    requires Enabled(sys, Deliver(i, f)) && AllKnown(sys)
    ensures AllKnown(Step(sys, Deliver(i, f)))
  {
    var m, next := sys.mail[i], Step(sys, Deliver(i, f));
    var r := React(sys, m, f);
    PostsItsOwn(sys, m, f);
    assert next.mail == sys.mail[i := Settle(m, r.ok, sys.maxAttempts)] + Posted(r.sent);
  }

  // A reaction keeps the table's size and posts for the submission it handled.
  lemma PostsItsOwn(sys: System, m: Msg, f: Faults)
    requires Consumed(m.place)
    ensures var r := React(sys, m, f);
            && |r.rows| == |sys.rows|
            && (r.sent.Some? ==> m.body.Parsed? && r.sent.value.1.submission == m.body.env.submission)
  {
  }

  lemma {:induction false} KnownSucceeds(sys: System, acts: seq<Action>)
    requires CanRun(sys, acts) && Draining(acts) && AllKnown(sys) && FailuresWritten(sys, acts)
    ensures DeadLettersSucceed(sys, acts)
    decreases |acts|
  {
    if acts != [] {
      KnownStep(sys, acts[0].i, acts[0].f);
      KnownSucceeds(Step(sys, acts[0]), acts[1..]);
    }
  }

  // Hence, when every message names a known submission and every failure can be
  // recorded, a run without new messages has at most Measure steps.
  lemma DrainsWithin(sys: System, acts: seq<Action>)
    requires CanRun(sys, acts) && Draining(acts) && AllKnown(sys) && FailuresWritten(sys, acts)
    ensures |acts| <= Measure(sys)
  {
    KnownSucceeds(sys, acts);
    HandledDrains(sys, acts);
  }

  // Poison -----------------------------------------------------------------------

  // A dead letter of a stage whose submission is unknown
  ghost predicate Poison(sys: System, i: nat) {
    && i < |sys.mail| && sys.mail[i].place.Dead? && StageOf(sys.mail[i].place.q).Some?
    && sys.mail[i].body.Parsed? && !Known(sys.rows, sys.mail[i].body.env.submission)
  }

  ghost predicate Poisoned(sys: System) {
    exists i: nat :: Poison(sys, i)
  }

  // It is redelivered without end, because a dead-letter queue counts no deliveries.
  lemma {:induction false} PoisonNeverDrains(sys: System, i: nat, f: Faults, acts: seq<Action>)
    requires sys.maxAttempts > 1 && Poison(sys, i)
    requires forall k :: 0 <= k < |acts| ==> acts[k] == Deliver(i, f)
    ensures CanRun(sys, acts) && Run(sys, acts) == sys && Progress(sys, acts) == 0
    ensures f.write.Succeeds? ==> FailuresWritten(sys, acts)
    decreases |acts|
  {
    if acts != [] {
      var a := acts[0];
      var m := sys.mail[i];
      assert sys.mail[i := m] + [] == sys.mail;
      assert Step(sys, a) == sys;
      PoisonNeverDrains(sys, i, f, acts[1..]);
    }
  }

  // The runs the bound is about
  ghost predicate Undisturbed(sys: System, acts: seq<Action>) {
    Draining(acts) && CanRun(sys, acts) && FailuresWritten(sys, acts)
  }

  lemma {:induction false} UndisturbedAppend(sys: System, a: seq<Action>, b: seq<Action>)
    requires Undisturbed(sys, a) && Undisturbed(Run(sys, a), b)
    ensures Undisturbed(sys, a + b)
    decreases |a|
  {
    if a == [] {
      assert a + b == b;
    } else {
      assert (a + b)[1..] == a[1..] + b;
      UndisturbedAppend(Step(sys, a[0]), a[1..], b);
      assert Draining(a + b);
    }
  }

  ghost predicate PoisonFree(sys: System, acts: seq<Action>)
    requires CanRun(sys, acts)
    decreases |acts|
  {
    !Poisoned(sys) && (acts == [] || PoisonFree(Step(sys, acts[0]), acts[1..]))
  }

  lemma {:induction false} PoisonFreeSucceeds(sys: System, acts: seq<Action>)
    requires CanRun(sys, acts) && FailuresWritten(sys, acts) && PoisonFree(sys, acts)
    ensures DeadLettersSucceed(sys, acts)
    decreases |acts|
  {
    if acts != [] {
      var a := acts[0];
      if a.Deliver? {
        assert !Poison(sys, a.i);
      }
      PoisonFreeSucceeds(Step(sys, a), acts[1..]);
    }
  }

  lemma {:induction false} FirstPoison(sys: System, acts: seq<Action>) returns (front: seq<Action>)
    requires Undisturbed(sys, acts) && !PoisonFree(sys, acts)
    ensures Undisturbed(sys, front) && Poisoned(Run(sys, front))
    decreases |acts|
  {
    if Poisoned(sys) {
      front := [];
    } else {
      var rest := FirstPoison(Step(sys, acts[0]), acts[1..]);
      front := [acts[0]] + rest;
      assert front[1..] == rest;
    }
  }

  ghost predicate Longer(sys: System, acts: seq<Action>, n: nat) {
    Undisturbed(sys, acts) && |acts| >= n
  }

  // Some run takes n steps.
  ghost predicate Lasts(sys: System, n: nat) {
    exists acts :: Longer(sys, acts, n)
  }

  ghost predicate Reaches(sys: System, acts: seq<Action>) {
    Undisturbed(sys, acts) && Poisoned(Run(sys, acts))
  }

  lemma PoisonProlongs(sys: System, acts: seq<Action>, n: nat) returns (more: seq<Action>)
    requires sys.maxAttempts > 1 && Reaches(sys, acts)
    ensures Longer(sys, more, n)
  {
    var end := Run(sys, acts);
    AttemptsKept(sys, acts);
    var i: nat :| Poison(end, i);
    var f := Faults(false, None, Succeeds, Succeeds, Succeeds, "");
    var again := seq(n, _ => Deliver(i, f));
    PoisonNeverDrains(end, i, f, again);
    UndisturbedAppend(sys, acts, again);
    more := acts + again;
  }

  lemma {:induction false} AttemptsKept(sys: System, acts: seq<Action>)
    requires CanRun(sys, acts)
    ensures Run(sys, acts).maxAttempts == sys.maxAttempts
    decreases |acts|
  {
    if acts != [] {
      AttemptsKept(Step(sys, acts[0]), acts[1..]);
    }
  }

  lemma LastingReachesPoison(sys: System, acts: seq<Action>) returns (front: seq<Action>)
    requires Longer(sys, acts, Measure(sys) + 1)
    ensures Reaches(sys, front)
  {
    if PoisonFree(sys, acts) {
      PoisonFreeSucceeds(sys, acts);
      HandledDrains(sys, acts);
      assert false;
    } else {
      front := FirstPoison(sys, acts);
    }
  }

  // Exactly: with failures that can be recorded, runs without new messages are
  // unbounded if and only if one of them reaches a dead letter of an unknown
  // submission.
  lemma EndlessIffPoison(sys: System)
    requires sys.maxAttempts > 1
    ensures (forall n: nat :: Lasts(sys, n)) <==> exists acts :: Reaches(sys, acts)
  {
    if exists acts :: Reaches(sys, acts) {
      var acts :| Reaches(sys, acts);
      forall n: nat
        ensures Lasts(sys, n)
      {
        var more := PoisonProlongs(sys, acts, n);
      }
    }
    if forall n: nat :: Lasts(sys, n) {
      assert Lasts(sys, Measure(sys) + 1);
      var acts :| Longer(sys, acts, Measure(sys) + 1);
      var front := LastingReachesPoison(sys, acts);
    }
  }

  // Attempts of one message ---------------------------------------------------

  function AttemptsLeft(sys: System, i: nat): nat {
    if i < |sys.mail| && sys.mail[i].place.Live? then Left(sys.mail[i], sys.maxAttempts) else 0
  }

  // Deliveries of message i from its work queue
  function Attempts(sys: System, acts: seq<Action>, i: nat): nat
    requires CanRun(sys, acts)
    decreases |acts|
  {
    if acts == [] then 0
    else (if acts[0].Deliver? && acts[0].i == i && sys.mail[i].place.Live? then 1 else 0)
         + Attempts(Step(sys, acts[0]), acts[1..], i)
  }

  // A message leaves its queue for good after at most the attempts it has
  // left: MaxAttempts for one just published.
  lemma {:induction false} AttemptsBounded(sys: System, acts: seq<Action>, i: nat)
    requires CanRun(sys, acts) && i < |sys.mail|
    ensures Attempts(sys, acts, i) + AttemptsLeft(Run(sys, acts), i) <= AttemptsLeft(sys, i)
    ensures sys.mail[i].count == 0 ==> Attempts(sys, acts, i) <= Fresh(sys.maxAttempts)
    decreases |acts|
  {
    if acts != [] {
      AttemptsBounded(Step(sys, acts[0]), acts[1..], i);
    }
  }

  // Strays ---------------------------------------------------------------------

  // A readable message of an unknown submission in a stage queue, or already in
  // its dead-letter queue
  ghost predicate Stray(sys: System, i: nat) {
    && i < |sys.mail| && sys.mail[i].body.Parsed? && !Known(sys.rows, sys.mail[i].body.env.submission)
    && !sys.mail[i].place.Settled? && StageOf(sys.mail[i].place.q).Some?
  }

  ghost predicate HasStray(sys: System) {
    exists i: nat :: Stray(sys, i)
  }

  // Handlers post for known submissions only, and workers only to results.q.
  lemma PostsNoStray(sys: System, m: Msg, f: Faults)
    requires Consumed(m.place)
    ensures var sent := React(sys, m, f).sent;
            sent.Some? && StageOf(sent.value.0).Some? ==> Known(sys.rows, sent.value.1.submission)
  {
  }

  lemma StrayWasThere(sys: System, i: nat, f: Faults)
    requires Enabled(sys, Deliver(i, f)) && HasStray(Step(sys, Deliver(i, f)))
    ensures HasStray(sys)
  {
    var m, next := sys.mail[i], Step(sys, Deliver(i, f));
    var r := React(sys, m, f);
    PostsItsOwn(sys, m, f);
    PostsNoStray(sys, m, f);
    var j: nat :| Stray(next, j);
    assert next.mail == sys.mail[i := Settle(m, r.ok, sys.maxAttempts)] + Posted(r.sent);
    if j < |sys.mail| {
      assert Stray(sys, j);
    }
  }

  lemma {:induction false} PoisonWasStray(sys: System, acts: seq<Action>)
    requires Reaches(sys, acts)
    ensures HasStray(sys)
    decreases |acts|
  {
    if acts == [] {
      var i: nat :| Poison(sys, i);
      assert Stray(sys, i);
    } else {
      assert Reaches(Step(sys, acts[0]), acts[1..]);
      PoisonWasStray(Step(sys, acts[0]), acts[1..]);
      StrayWasThere(sys, acts[0].i, acts[0].f);
    }
  }

  // Work that keeps failing carries a stray to the dead-letter queue.
  lemma {:induction false} StrayBecomesPoison(sys: System, i: nat) returns (acts: seq<Action>)
    requires Stray(sys, i)
    ensures Reaches(sys, acts)
    decreases AttemptsLeft(sys, i)
  {
    if sys.mail[i].place.Dead? {
      acts := [];
      assert Poison(Run(sys, acts), i);
    } else {
      var a := Deliver(i, Faults(false, None, Succeeds, Succeeds, Fails, ""));
      var next := Step(sys, a);
      assert next.rows == sys.rows && next.mail[i] == Settle(sys.mail[i], false, sys.maxAttempts);
      var rest := StrayBecomesPoison(next, i);
      acts := [a] + rest;
      assert acts[1..] == rest;
    }
  }

  // What to look for at the start: runs without new messages are unbounded exactly
  // when such a stray is there.
  lemma EndlessIffStray(sys: System)
    requires sys.maxAttempts > 1
    ensures (forall n: nat :: Lasts(sys, n)) <==> HasStray(sys)
  {
    EndlessIffPoison(sys);
    if HasStray(sys) {
      var i: nat :| Stray(sys, i);
      var acts := StrayBecomesPoison(sys, i);
    }
    if exists acts :: Reaches(sys, acts) {
      var acts :| Reaches(sys, acts);
      PoisonWasStray(sys, acts);
    }
  }

  // feedback.result -------------------------------------------------------------

  // It maps to no event: handling it succeeds only when it is dropped for naming
  // another tenant.
  lemma FeedbackResultHandled(rows: seq<Row>, env: Envelope, f: Faults)
    requires env.stage == SFeedbackResult
    ensures Handle(rows, env, f).rows == rows && Handle(rows, env, f).sent == None
    ensures Handle(rows, env, f).ok <==>
              Known(rows, env.submission) && !f.getFails && env.tenant != rows[env.submission.n].tenant
  {
  }

  // A feedback.result of the right tenant, in results.q or dead-lettered there
  ghost predicate Doomed(sys: System, i: nat) {
    && i < |sys.mail| && sys.mail[i].body.Parsed?
    && (sys.mail[i].place == Live(ResultsQ) || sys.mail[i].place == Dead(ResultsQ))
    && var env := sys.mail[i].body.env;
    && env.stage == SFeedbackResult
    && (Known(sys.rows, env.submission) ==> env.tenant == sys.rows[env.submission.n].tenant)
  }

  lemma DoomedStep(sys: System, a: Action, i: nat)
    requires Enabled(sys, a) && Doomed(sys, i)
    ensures Doomed(Step(sys, a), i)
  {
    var env := sys.mail[i].body.env;
    if a.Deliver? {
      PostsItsOwn(sys, sys.mail[a.i], a.f);
      FeedbackResultHandled(sys.rows, env, a.f);
    }
    if Known(sys.rows, env.submission) {
      StateChange(sys, a, env.submission.n);
    }
  }

  // It stays there in every run, and is dead-lettered once it was delivered as
  // often as it has attempts.
  lemma {:induction false} FeedbackResultDies(sys: System, acts: seq<Action>, i: nat)
    requires CanRun(sys, acts) && Doomed(sys, i)
    ensures Doomed(Run(sys, acts), i)
    ensures Attempts(sys, acts, i) >= AttemptsLeft(sys, i) ==> Run(sys, acts).mail[i].place == Dead(ResultsQ)
    decreases |acts|
  {
    AttemptsBounded(sys, acts, i);
    if acts != [] {
      DoomedStep(sys, acts[0], i);
      FeedbackResultDies(Step(sys, acts[0]), acts[1..], i);
    }
  }
}
