/** Handlers that overlap, as runs of one-step deliveries. A handler whose write
    changes nothing counts as one delivery at the moment of its read, one that
    writes as a delivery at the moment of its write; without stale writes that
    run is possible and leads to the same rows and messages. */
module Overlap {
  import opened Wrappers
  import opened StateMachine
  import opened Protocol
  import opened Races
  import Gate
  import Earned
  import Progress
  import Token

  // Did a handler that writes nothing succeed all the same?
  predicate Content(read: Row, env: Envelope, f: Faults) {
    env.tenant != read.tenant || Decision(read, env, f) == Some(read.state)
  }

  lemma WritesNothing(rows: seq<Row>, n: nat, read: Row, env: Envelope, f: Faults)
    requires n < |rows| && !Effective(read, env, f)
    ensures Finish(rows, n, read, env, f) == Reaction(rows, None, Content(read, env, f))
  {
  }

  // The message of a held handler, settled already if the handler writes nothing
  function Early(sys: System, h: Held): Msg
    requires Handled(sys, h.i)
  {
    var m, env := sys.mail[h.i], EnvOf(sys, h.i);
    if Effective(h.read, env, h.f) then m else Settle(m, Content(h.read, env, h.f), sys.maxAttempts)
  }

  // The serial system is ahead of the real one by the held handlers that will
  // write nothing.
  ghost predicate Ahead(a: System, w: World) {
    && Kept(w)
    && a.rows == w.sys.rows && a.maxAttempts == w.sys.maxAttempts && |a.mail| == |w.sys.mail|
    && (forall j: nat :: j < |a.mail| && !Taken(w.held, j) ==> a.mail[j] == w.sys.mail[j])
    && (forall k: nat :: k < |w.held| ==> a.mail[w.held[k].i] == Early(w.sys, w.held[k]))
  }

  lemma NobodyIsAhead(sys: System)
    ensures Ahead(sys, World(sys, []))
  {
  }

  lemma AheadOfNobody(a: System, w: World)
    requires Ahead(a, w) && w.held == []
    ensures a == w.sys
  {
    assert forall j: nat :: j < |a.mail| ==> !Taken(w.held, j);
    assert a.mail == w.sys.mail;
  }

  // The deliveries a move stands for
  function Actions(w: World, m: Move): seq<Action>
    requires Possible(w, m)
  {
    match m
    case Read(i, f) => if Effective(RowOf(w.sys, i), EnvOf(w.sys, i), f) then [] else [Deliver(i, f)]
    case Commit(k) =>
      var h := w.held[k];
      if Effective(h.read, EnvOf(w.sys, h.i), h.f) then [Deliver(h.i, h.f)] else []
    case Whole(a) => [a]
  }

  function Serial(w: World, ms: seq<Move>): seq<Action>
    requires CanPlay(w, ms)
    decreases |ms|
  {
    if ms == [] then [] else Actions(w, ms[0]) + Serial(Advance(w, ms[0]), ms[1..])
  }

  lemma RunOne(a: System, act: Action)
    requires Enabled(a, act)
    ensures CanRun(a, [act]) && Run(a, [act]) == Step(a, act)
  {
    assert [act][1..] == [];
    assert CanRun(Step(a, act), []) && Run(Step(a, act), []) == Step(a, act);
  }

  lemma SameDecision(rows: seq<Row>, n: nat, read: Row, env: Envelope, f: Faults)
    requires n < |rows| && read.state == rows[n].state
    requires read.tenant == rows[n].tenant && read.sourcePdf == rows[n].sourcePdf
    ensures Finish(rows, n, read, env, f) == Finish(rows, n, rows[n], env, f)
  {
    assert Decision(read, env, f) == Decision(rows[n], env, f);
  }

  // One move ---------------------------------------------------------------------------

  // What a move leaves of the other handlers
  lemma EarlyKept(w: World, m: Move, j: nat)
    requires Possible(w, m) && Kept(w) && j < |w.held| && (m.Commit? ==> j != m.k)
    ensures var h, sys' := w.held[j], Advance(w, m).sys;
            && Handled(sys', h.i) && Early(sys', h) == Early(w.sys, h)
            && sys'.mail[h.i] == w.sys.mail[h.i] && sys'.maxAttempts == w.sys.maxAttempts
  {
    KeepsOn(w, m, j);
    MoveLeaves(w, m, w.held[j].i);
  }

  lemma TakenMore(held: seq<Held>, h: Held, j: nat)
    ensures Taken(held + [h], j) <==> Taken(held, j) || j == h.i
  {
    if Taken(held, j) {
      var k :| 0 <= k < |held| && held[k].i == j;
      assert (held + [h])[k].i == j;
    }
    assert (held + [h])[|held|] == h;
  }

  lemma TakenLess(held: seq<Held>, k: nat, j: nat)
    requires k < |held| && Distinct(held)
    ensures Taken(held[..k] + held[k + 1..], j) <==> Taken(held, j) && j != held[k].i
  {
    var rest := held[..k] + held[k + 1..];
    assert forall x :: 0 <= x < |rest| ==> rest[x] == held[if x < k then x else x + 1];
    if Taken(held, j) && j != held[k].i {
      var x :| 0 <= x < |held| && held[x].i == j;
      assert rest[if x < k then x else x - 1].i == j;
    }
  }

  lemma AheadRead(a: System, w: World, i: nat, f: Faults)
    requires Ahead(a, w) && Possible(w, Read(i, f))
    ensures CanRun(a, Actions(w, Read(i, f))) && Ahead(Run(a, Actions(w, Read(i, f))), Advance(w, Read(i, f)))
  {
    StaysKept(w, Read(i, f));
    var row, env := RowOf(w.sys, i), EnvOf(w.sys, i);
    assert a.mail[i] == w.sys.mail[i];
    var w' := Advance(w, Read(i, f));
    forall j: nat ensures Taken(w'.held, j) <==> Taken(w.held, j) || j == i {
      TakenMore(w.held, Held(i, f, row), j);
    }
    if !Effective(row, env, f) {
      WritesNothing(a.rows, env.submission.n, row, env, f);
      RunOne(a, Deliver(i, f));
      assert Step(a, Deliver(i, f)).mail == a.mail[i := Settle(a.mail[i], Content(row, env, f), a.maxAttempts)];
    }
  }

  // The commit of a handler, as far as the message and the other handlers go
  lemma AheadLess(a: System, a': System, w: World, k: nat, reacted: Reaction)
    requires Ahead(a, w) && Possible(w, Commit(k))
    requires var h, w' := w.held[k], Advance(w, Commit(k));
             var settled := Settle(w.sys.mail[h.i], reacted.ok, a.maxAttempts);
             && a'.rows == w'.sys.rows && a'.maxAttempts == a.maxAttempts
             && a'.mail == a.mail[h.i := settled] + Posted(reacted.sent)
             && w'.sys.mail == w.sys.mail[h.i := settled] + Posted(reacted.sent)
    ensures Ahead(a', Advance(w, Commit(k)))
  {
    StaysKept(w, Commit(k));
    var h, w' := w.held[k], Advance(w, Commit(k));
    forall j: nat ensures Taken(w'.held, j) <==> Taken(w.held, j) && j != h.i {
      TakenLess(w.held, k, j);
    }
    forall x: nat | x < |w'.held| ensures a'.mail[w'.held[x].i] == Early(w'.sys, w'.held[x]) {
      var j := if x < k then x else x + 1;
      assert w'.held[x] == w.held[j];
      EarlyKept(w, Commit(k), j);
    }
  }

  lemma AheadCommit(a: System, w: World, k: nat)
    requires Ahead(a, w) && Possible(w, Commit(k)) && forall s: nat :: !Stale(w, Commit(k), s)
    ensures CanRun(a, Actions(w, Commit(k))) && Ahead(Run(a, Actions(w, Commit(k))), Advance(w, Commit(k)))
  {
    var h := w.held[k];
    var env := EnvOf(w.sys, h.i);
    var n := env.submission.n;
    var r := Finish(w.sys.rows, n, h.read, env, h.f);
    assert Keeps(w.sys, h) && a.mail[h.i] == Early(w.sys, h);
    if Effective(h.read, env, h.f) {
      assert !Stale(w, Commit(k), n);
      SameDecision(a.rows, n, h.read, env, h.f);
      RunOne(a, Deliver(h.i, h.f));
      AheadLess(a, Step(a, Deliver(h.i, h.f)), w, k, r);
    } else {
      WritesNothing(w.sys.rows, n, h.read, env, h.f);
      assert a.mail[h.i := Settle(w.sys.mail[h.i], r.ok, a.maxAttempts)] + Posted(r.sent) == a.mail;
      AheadLess(a, a, w, k, r);
    }
  }

  lemma AheadWhole(a: System, w: World, act: Action)
    requires Ahead(a, w) && Possible(w, Whole(act))
    ensures Enabled(a, act) && Ahead(Step(a, act), Advance(w, Whole(act)))
  {
    StaysKept(w, Whole(act));
    forall j: nat | j < |w.held|
      ensures Early(Step(w.sys, act), w.held[j]) == Early(w.sys, w.held[j])
    {
      EarlyKept(w, Whole(act), j);
    }
  }

  lemma AheadMove(a: System, w: World, m: Move)
    requires Ahead(a, w) && Possible(w, m) && forall s: nat :: !Stale(w, m, s)
    ensures CanRun(a, Actions(w, m)) && Ahead(Run(a, Actions(w, m)), Advance(w, m))
  {
    match m
    case Read(i, f) => AheadRead(a, w, i, f);
    case Commit(k) => AheadCommit(a, w, k);
    case Whole(act) =>
      AheadWhole(a, w, act);
      RunOne(a, act);
  }

  // Whole runs ----------------------------------------------------------------------------

  lemma {:induction false} RunAppend(a: System, xs: seq<Action>, ys: seq<Action>)
    requires CanRun(a, xs) && CanRun(Run(a, xs), ys)
    ensures CanRun(a, xs + ys) && Run(a, xs + ys) == Run(Run(a, xs), ys)
    decreases |xs|
  {
    if xs == [] {
      assert xs + ys == ys;
    } else {
      assert (xs + ys)[1..] == xs[1..] + ys;
      RunAppend(Step(a, xs[0]), xs[1..], ys);
    }
  }

  ghost predicate NoneStale(w: World, ms: seq<Move>)
    requires CanPlay(w, ms)
  {
    forall s: nat :: NoStale(w, ms, s)
  }

  lemma NoneStaleRest(w: World, ms: seq<Move>)
    requires ms != [] && CanPlay(w, ms) && NoneStale(w, ms)
    ensures (forall s: nat :: !Stale(w, ms[0], s)) && NoneStale(Advance(w, ms[0]), ms[1..])
  {
    forall s: nat ensures !Stale(w, ms[0], s) && NoStale(Advance(w, ms[0]), ms[1..], s) {
      assert NoStale(w, ms, s);
    }
  }

  lemma {:induction false} StaysAhead(a: System, w: World, ms: seq<Move>)
    requires CanPlay(w, ms) && Ahead(a, w) && NoneStale(w, ms)
    ensures CanRun(a, Serial(w, ms)) && Ahead(Run(a, Serial(w, ms)), Play(w, ms))
    decreases |ms|
  {
    if ms != [] {
      NoneStaleRest(w, ms);
      AheadMove(a, w, ms[0]);
      StaysAhead(Run(a, Actions(w, ms[0])), Advance(w, ms[0]), ms[1..]);
      RunAppend(a, Actions(w, ms[0]), Serial(Advance(w, ms[0]), ms[1..]));
    }
  }

  // Without stale writes the serial run is possible and has the same rows at any
  // moment, and the same messages whenever no handler is between read and write.
  lemma NoStaleRunsAreSerial(sys: System, ms: seq<Move>)
    requires CanPlay(World(sys, []), ms) && NoneStale(World(sys, []), ms)
    ensures var w, serial := World(sys, []), Serial(World(sys, []), ms);
            && CanRun(sys, serial)
            && Run(sys, serial).rows == Play(w, ms).sys.rows
            && (Play(w, ms).held == [] ==> Run(sys, serial) == Play(w, ms).sys)
  {
    var w := World(sys, []);
    NobodyIsAhead(sys);
    StaysAhead(sys, w, ms);
    if Play(w, ms).held == [] {
      AheadOfNobody(Run(sys, Serial(w, ms)), Play(w, ms));
    }
  }

  lemma EntriesOfOne(a: System, acts: seq<Action>, rest: seq<Action>, s: nat, x: State)
    requires |acts| <= 1 && CanRun(a, acts) && CanRun(a, acts + rest) && s < |a.rows|
    ensures CanRun(Run(a, acts), rest) && s < |Run(a, acts).rows|
    ensures Gate.Entries(a, acts + rest, s, x) ==
            Gate.Enters(a.rows[s].state, Run(a, acts).rows[s].state, x) + Gate.Entries(Run(a, acts), rest, s, x)
  {
    if acts == [] {
      assert acts + rest == rest;
    } else {
      RunOne(a, acts[0]);
      StateChange(a, acts[0], s);
      assert acts == [acts[0]] && (acts + rest)[1..] == rest;
    }
  }

  lemma EntriesOfMove(a: System, w: World, ms: seq<Move>, s: nat, x: State) returns (a': System)
    requires ms != [] && CanPlay(w, ms) && Ahead(a, w) && NoneStale(w, ms) && s < |w.sys.rows|
    requires CanRun(a, Serial(w, ms))
    ensures Ahead(a', Advance(w, ms[0])) && NoneStale(Advance(w, ms[0]), ms[1..])
    ensures s < |a'.rows| && CanRun(a', Serial(Advance(w, ms[0]), ms[1..]))
    ensures Gate.Entries(a, Serial(w, ms), s, x) ==
            Gate.Enters(w.sys.rows[s].state, a'.rows[s].state, x)
            + Gate.Entries(a', Serial(Advance(w, ms[0]), ms[1..]), s, x)
  {
    var acts := Actions(w, ms[0]);
    NoneStaleRest(w, ms);
    AheadMove(a, w, ms[0]);
    a' := Run(a, acts);
    EntriesOfOne(a, acts, Serial(Advance(w, ms[0]), ms[1..]), s, x);
  }

  // So a submission enters each state equally often in both.
  lemma {:induction false} SerialEntries(a: System, w: World, ms: seq<Move>, s: nat, x: State)
    requires CanPlay(w, ms) && Ahead(a, w) && NoneStale(w, ms) && s < |w.sys.rows|
    requires CanRun(a, Serial(w, ms))
    ensures Entries(w, ms, s, x) == Gate.Entries(a, Serial(w, ms), s, x)
    decreases |ms|
  {
    if ms != [] {
      var a' := EntriesOfMove(a, w, ms, s, x);
      SerialEntries(a', Advance(w, ms[0]), ms[1..], s, x);
    }
  }

  // Orderly runs ---------------------------------------------------------------------------

  // A handled message that is no stage result
  predicate Commands(sys: System, i: nat) {
    Handled(sys, i) && StageToEvent(sys.mail[i].body.env.stage) != Some(StageSucceeded)
  }

  // Not both are commands for the same submission.
  ghost predicate Apart(sys: System, i: nat, j: nat) {
    Commands(sys, i) && Commands(sys, j) ==> sys.mail[i].body.env.submission != sys.mail[j].body.env.submission
  }

  // Which message a move takes from its queue
  function Takes(m: Move): Option<nat> {
    match m
    case Read(i, f) => Some(i)
    case Commit(k) => None
    case Whole(a) => if a.Deliver? then Some(a.i) else None
  }

  // One consumer reads the commands: no command is taken while a handler of
  // another command for the same submission is between read and write.
  ghost predicate OneCommand(w: World, m: Move) {
    Takes(m).Some? ==> forall k: nat :: k < |w.held| ==> Apart(w.sys, w.held[k].i, Takes(m).value)
  }

  // The assumption on one move: that of the delivery it takes
  ghost predicate OrderlyMove(m: Move) {
    match m
    case Read(i, f) => Token.Orderly(Deliver(i, f))
    case Commit(k) => true
    case Whole(a) => Token.Orderly(a)
  }

  ghost predicate OrderlyMoves(w: World, ms: seq<Move>)
    requires CanPlay(w, ms)
    decreases |ms|
  {
    ms == [] ||
    (OrderlyMove(ms[0]) && OneCommand(w, ms[0]) && OrderlyMoves(Advance(w, ms[0]), ms[1..]))
  }

  ghost predicate AllSolo(sys: System) {
    forall s: nat :: s < |sys.rows| ==> Token.Solo(sys, s)
  }

  // A held handler that will write read the state its row is still in.
  ghost predicate CalmHeld(sys: System, h: Held) {
    && Handled(sys, h.i) && Token.Orderly(Deliver(h.i, h.f))
    && (Effective(h.read, EnvOf(sys, h.i), h.f) ==> h.read.state == RowOf(sys, h.i).state)
  }

  ghost predicate Calm(w: World) {
    forall k: nat :: k < |w.held| ==> CalmHeld(w.sys, w.held[k])
  }

  ghost predicate LoneCommands(w: World) {
    forall j: nat, k: nat :: j < k < |w.held| ==> Apart(w.sys, w.held[j].i, w.held[k].i)
  }

  ghost predicate Steady(a: System, w: World) {
    Ahead(a, w) && AllSolo(a) && Calm(w) && LoneCommands(w)
  }

  // A message the orchestrator would act on
  ghost predicate Acts(a: System, i: nat, s: nat, read: Row, f: Faults) {
    && s < |a.rows| && About(a, i, s) && read.state == a.rows[s].state
    && a.mail[i].place.Live? && ResultStage(a.mail[i].place.q).None?
    && Effective(read, a.mail[i].body.env, f)
  }

  // With a single token, only two commands can both be about to move a row.
  lemma OnlyCommandsMeet(a: System, s: nat, i: nat, read: Row, f: Faults, j: nat)
    requires Acts(a, i, s, read, f) && i != j && Token.Solo(a, s)
    requires About(a, j, s) && Consumed(a.mail[j].place)
    ensures !a.mail[j].place.Dead?
    ensures forall read', f' :: Acts(a, j, s, read', f') ==>
              && StageToEvent(a.mail[i].body.env.stage) != Some(StageSucceeded)
              && StageToEvent(a.mail[j].body.env.stage) != Some(StageSucceeded)
  {
    var mi, mj := a.mail[i], a.mail[j];
    assert !Token.Flagging(mi, s) && !Token.Flagging(mj, s);
    assert StageToEvent(mi.body.env.stage) == Some(StageSucceeded) ==> Token.TokenOf(mi, s);
    if Token.TokenOf(mj, s) {
      Token.TokenGuards(read, mi.body.env, f);
    }
    forall read', f' | Acts(a, j, s, read', f')
      ensures StageToEvent(mi.body.env.stage) != Some(StageSucceeded)
      ensures StageToEvent(mj.body.env.stage) != Some(StageSucceeded)
    {
      if Token.TokenOf(mi, s) {
        Token.TokenGuards(read', mj.body.env, f');
      }
    }
  }

  lemma HeldActs(a: System, w: World, k: nat)
    requires Steady(a, w) && k < |w.held| && Effective(w.held[k].read, EnvOf(w.sys, w.held[k].i), w.held[k].f)
    ensures var h := w.held[k]; Acts(a, h.i, EnvOf(w.sys, h.i).submission.n, h.read, h.f)
    ensures a.mail[w.held[k].i] == w.sys.mail[w.held[k].i]
  {
    assert Keeps(w.sys, w.held[k]);
    assert a.mail[w.held[k].i] == Early(w.sys, w.held[k]);
  }

  // No other move changes the row under a held handler that will write.
  lemma CommitLeavesState(a: System, w: World, c: nat, k: nat, s: nat)
    requires Steady(a, w) && c < |w.held| && k < |w.held| && c != k && Possible(w, Commit(c))
    requires Effective(w.held[k].read, EnvOf(w.sys, w.held[k].i), w.held[k].f) && About(w.sys, w.held[k].i, s)
    ensures s < |Advance(w, Commit(c)).sys.rows|
    ensures Advance(w, Commit(c)).sys.rows[s].state == w.sys.rows[s].state
  {
    var h, other := w.held[k], w.held[c];
    HeldActs(a, w, k);
    CommitChange(w, c, s);
    if About(w.sys, other.i, s) && Effective(other.read, EnvOf(w.sys, other.i), other.f) {
      HeldActs(a, w, c);
      OnlyCommandsMeet(a, s, h.i, h.read, h.f, other.i);
    }
  }

  lemma DeliveryLeavesState(a: System, w: World, i: nat, f: Faults, k: nat, s: nat)
    requires Steady(a, w) && k < |w.held| && Possible(w, Whole(Deliver(i, f))) && OneCommand(w, Whole(Deliver(i, f)))
    requires Effective(w.held[k].read, EnvOf(w.sys, w.held[k].i), w.held[k].f) && About(w.sys, w.held[k].i, s)
    ensures s < |Step(w.sys, Deliver(i, f)).rows|
    ensures Step(w.sys, Deliver(i, f)).rows[s].state == w.sys.rows[s].state
  {
    var h := w.held[k];
    HeldActs(a, w, k);
    StateChange(w.sys, Deliver(i, f), s);
    assert a.mail[i] == w.sys.mail[i] && h.i != i;
    if Step(w.sys, Deliver(i, f)).rows[s].state != w.sys.rows[s].state {
      assert TakesEdge(w.sys, Deliver(i, f), s) ==> Acts(a, i, s, w.sys.rows[s], f);
      OnlyCommandsMeet(a, s, h.i, h.read, h.f, i);
    }
  }

  lemma NothingStale(w: World, m: Move, s: nat)
    requires Possible(w, m) && Kept(w) && Calm(w)
    ensures !Stale(w, m, s)
  {
    if m.Commit? {
      assert Keeps(w.sys, w.held[m.k]);
    }
  }

  // The handlers held on stay calm.
  lemma StaysCalm(a: System, w: World, m: Move, k: nat)
    requires Steady(a, w) && Possible(w, m) && OneCommand(w, m) && k < |w.held| && (m.Commit? ==> m.k != k)
    ensures CalmHeld(Advance(w, m).sys, w.held[k])
    ensures Advance(w, m).sys.mail[w.held[k].i] == w.sys.mail[w.held[k].i]
  {
    var h := w.held[k];
    EarlyKept(w, m, k);
    assert CalmHeld(w.sys, h) && Keeps(w.sys, h);
    var s := EnvOf(w.sys, h.i).submission.n;
    if Effective(h.read, EnvOf(w.sys, h.i), h.f) {
      match m
      case Read(i, f) =>
      case Commit(c) => CommitLeavesState(a, w, c, k, s);
      case Whole(act) =>
        if act.Deliver? {
          DeliveryLeavesState(a, w, act.i, act.f, k, s);
        }
    }
  }

  // Where a handler held after a move stood before it, the new one at the end
  function Was(m: Move, k: nat): nat {
    if m.Commit? && k >= m.k then k + 1 else k
  }

  lemma HeldWas(w: World, m: Move)
    requires Possible(w, m)
    ensures var held' := Advance(w, m).held;
            forall k: nat :: k < |held'| ==>
              && (m.Commit? ==> Was(m, k) != m.k)
              && (if Was(m, k) < |w.held| then held'[k] == w.held[Was(m, k)]
                  else m.Read? && k == |w.held| && held'[k] == Held(m.i, m.f, RowOf(w.sys, m.i)))
  {
  }

  lemma AllStayCalm(a: System, w: World, m: Move)
    requires Steady(a, w) && Possible(w, m) && OneCommand(w, m) && OrderlyMove(m)
    ensures Calm(Advance(w, m))
  {
    var w' := Advance(w, m);
    HeldWas(w, m);
    forall k: nat | k < |w'.held| ensures CalmHeld(w'.sys, w'.held[k]) {
      if Was(m, k) < |w.held| {
        StaysCalm(a, w, m, Was(m, k));
      }
    }
  }

  lemma StaysApart(a: System, w: World, m: Move, j: nat, k: nat)
    requires Steady(a, w) && Possible(w, m) && OneCommand(w, m)
    requires j < k < |w.held| && (m.Commit? ==> m.k != j && m.k != k)
    ensures Apart(Advance(w, m).sys, w.held[j].i, w.held[k].i)
  {
    StaysCalm(a, w, m, j);
    StaysCalm(a, w, m, k);
    assert CalmHeld(w.sys, w.held[j]) && CalmHeld(w.sys, w.held[k]);
    assert Apart(w.sys, w.held[j].i, w.held[k].i);
  }

  lemma AllStayApart(a: System, w: World, m: Move)
    requires Steady(a, w) && Possible(w, m) && OneCommand(w, m)
    ensures LoneCommands(Advance(w, m))
  {
    var w' := Advance(w, m);
    HeldWas(w, m);
    forall j: nat, k: nat | j < k < |w'.held| ensures Apart(w'.sys, w'.held[j].i, w'.held[k].i) {
      if Was(m, k) < |w.held| {
        StaysApart(a, w, m, Was(m, j), Was(m, k));
      } else {
        assert w'.sys == w.sys && Apart(w.sys, w.held[j].i, m.i);
      }
    }
  }

  lemma ActionsOrderly(w: World, m: Move)
    requires Possible(w, m) && OrderlyMove(m) && Calm(w)
    ensures Token.OrderlyRun(Actions(w, m)) && |Actions(w, m)| <= 1
  {
  }

  lemma SoloMove(a: System, acts: seq<Action>)
    requires |acts| <= 1 && CanRun(a, acts) && Token.OrderlyRun(acts) && AllSolo(a)
    ensures AllSolo(Run(a, acts))
  {
    if acts != [] {
      RunOne(a, acts[0]);
      assert acts == [acts[0]];
      forall s: nat | s < |Run(a, acts).rows| ensures Token.Solo(Run(a, acts), s) {
        ReactedRows(a, acts[0]);
        Token.SoloStep(a, acts[0], s);
      }
    }
  }

  lemma ReactedRows(a: System, act: Action)
    requires Enabled(a, act)
    ensures |Step(a, act).rows| == |a.rows|
  {
    if act.Deliver? {
      ReactOwners(a, a.mail[act.i], act.f);
    }
  }

  lemma StaysSteady(a: System, w: World, m: Move)
    requires Steady(a, w) && Possible(w, m) && OrderlyMove(m) && OneCommand(w, m)
    ensures CanRun(a, Actions(w, m)) && Token.OrderlyRun(Actions(w, m))
    ensures Steady(Run(a, Actions(w, m)), Advance(w, m))
  {
    forall s: nat ensures !Stale(w, m, s) {
      NothingStale(w, m, s);
    }
    AheadMove(a, w, m);
    ActionsOrderly(w, m);
    SoloMove(a, Actions(w, m));
    AllStayCalm(a, w, m);
    AllStayApart(a, w, m);
  }

  // With one consumer of the commands, orderly runs of overlapping handlers have
  // no stale write, and the run of single deliveries they stand for is orderly.
  lemma {:induction false} SteadyRuns(a: System, w: World, ms: seq<Move>)
    requires CanPlay(w, ms) && Steady(a, w) && OrderlyMoves(w, ms)
    ensures NoneStale(w, ms) && Token.OrderlyRun(Serial(w, ms))
    decreases |ms|
  {
    if ms != [] {
      var next := Advance(w, ms[0]);
      StaysSteady(a, w, ms[0]);
      SteadyRuns(Run(a, Actions(w, ms[0])), next, ms[1..]);
      forall s: nat ensures NoStale(w, ms, s) {
        NothingStale(w, ms[0], s);
        assert NoStale(next, ms[1..], s);
      }
    }
  }

  lemma OrderlyRunsAreSerial(sys: System, ms: seq<Move>)
    requires CanPlay(World(sys, []), ms) && AllSolo(sys) && OrderlyMoves(World(sys, []), ms)
    ensures var w, serial := World(sys, []), Serial(World(sys, []), ms);
            && NoneStale(w, ms)
            && CanRun(sys, serial) && Token.OrderlyRun(serial)
            && Run(sys, serial).rows == Play(w, ms).sys.rows
            && (Play(w, ms).held == [] ==> Run(sys, serial) == Play(w, ms).sys)
  {
    NobodyIsAhead(sys);
    SteadyRuns(sys, World(sys, []), ms);
    NoStaleRunsAreSerial(sys, ms);
  }

  // So a review is earned however the handlers overlap,
  lemma ReviewIsEarned(sys: System, ms: seq<Move>, s: nat)
    requires CanPlay(World(sys, []), ms) && AllSolo(sys) && OrderlyMoves(World(sys, []), ms)
    requires s < |sys.rows| && sys.rows[s].state == Uploaded
    requires forall i :: 0 <= i < |sys.mail| && sys.mail[i].body.Parsed? ==> sys.mail[i].body.env.submission != Id(s)
    ensures var w, serial := World(sys, []), Serial(World(sys, []), ms);
            && CanRun(sys, serial)
            && Entries(w, ms, s, TeacherReview) <= Earned.Graded(sys, serial, s)
            && Earned.Graded(sys, serial, s) <= Earned.Requested(sys, serial, s) == Entries(w, ms, s, Grading)
  {
    var w := World(sys, []);
    OrderlyRunsAreSerial(sys, ms);
    NobodyIsAhead(sys);
    SerialEntries(sys, w, ms, s, TeacherReview);
    SerialEntries(sys, w, ms, s, Grading);
    Earned.ReviewIsEarned(sys, Serial(w, ms), s);
  }

  // and a submission gets stuck only by losing a result.
  lemma CarriedIffNoResultLost(sys: System, ms: seq<Move>, s: nat)
    requires CanPlay(World(sys, []), ms) && AllSolo(sys) && OrderlyMoves(World(sys, []), ms)
    requires s < |sys.rows| && Progress.Carried(sys, s) && sys.maxAttempts > 1
    requires Play(World(sys, []), ms).held == []
    ensures var w, serial := World(sys, []), Serial(World(sys, []), ms);
            CanRun(sys, serial) &&
            (Progress.Carried(Play(w, ms).sys, s) <==> Progress.LosesNoResult(sys, serial, s))
  {
    OrderlyRunsAreSerial(sys, ms);
    Progress.CarriedIffNoResultLost(sys, Serial(World(sys, []), ms), s);
  }
}
