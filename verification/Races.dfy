/** Handlers that overlap. The commands, the results and the three dead-letter
    queues have a consumer each, so between the read of a submission row by
    HandleEnvelope and its write other handlers may run; the write sets the
    state whatever the row says by then. */
module Races {
  import opened Wrappers
  import opened StateMachine
  import opened Protocol
  import Gate

  // A handler between its read and its write: its message and the row it read
  datatype Held = Held(i: nat, f: Faults, read: Row)

  datatype World = World(sys: System, held: seq<Held>)

  datatype Move =
    | Read(i: nat, f: Faults)   // HandleEnvelope takes message i and reads its row
    | Commit(k: nat)            // handler k writes, dispatches and acknowledges
    | Whole(a: Action)          // anything else, and a handler nobody interrupts

  // Can HandleEnvelope find the row of message i?
  predicate Handled(sys: System, i: nat) {
    && i < |sys.mail|
    && var m := sys.mail[i];
    && m.place.Live? && ResultStage(m.place.q).None?
    && m.body.Parsed? && Known(sys.rows, m.body.env.submission)
  }

  predicate Taken(held: seq<Held>, i: nat) {
    exists k :: 0 <= k < |held| && held[k].i == i
  }

  predicate Possible(w: World, m: Move) {
    match m
    case Read(i, f) => Handled(w.sys, i) && !f.getFails && !Taken(w.held, i)
    case Commit(k) => k < |w.held| && Handled(w.sys, w.held[k].i)
    case Whole(a) => Enabled(w.sys, a) && (a.Deliver? ==> !Taken(w.held, a.i))
  }

  function EnvOf(sys: System, i: nat): Envelope
    requires Handled(sys, i)
  {
    sys.mail[i].body.env
  }

  function RowOf(sys: System, i: nat): Row
    requires Handled(sys, i)
  {
    sys.rows[EnvOf(sys, i).submission.n]
  }

  function Advance(w: World, m: Move): World
    requires Possible(w, m)
  {
    match m
    case Read(i, f) => w.(held := w.held + [Held(i, f, RowOf(w.sys, i))])
    case Whole(a) => w.(sys := Step(w.sys, a))
    case Commit(k) =>
      var h := w.held[k];
      var env := EnvOf(w.sys, h.i);
      var r := Finish(w.sys.rows, env.submission.n, h.read, env, h.f);
      var settled := w.sys.mail[h.i := Settle(w.sys.mail[h.i], r.ok, w.sys.maxAttempts)];
      World(System(r.rows, settled + Posted(r.sent), w.sys.maxAttempts), w.held[..k] + w.held[k + 1..])
  }

  predicate CanPlay(w: World, ms: seq<Move>)
    decreases |ms|
  {
    ms == [] || (Possible(w, ms[0]) && CanPlay(Advance(w, ms[0]), ms[1..]))
  }

  function Play(w: World, ms: seq<Move>): World
    requires CanPlay(w, ms)
    decreases |ms|
  {
    if ms == [] then w else Play(Advance(w, ms[0]), ms[1..])
  }

  // Nothing in between is the step of Protocol.
  lemma ReadThenCommit(w: World, i: nat, f: Faults)
    requires Possible(w, Read(i, f))
    ensures Possible(Advance(w, Read(i, f)), Commit(|w.held|))
    ensures Advance(Advance(w, Read(i, f)), Commit(|w.held|)) == w.(sys := Step(w.sys, Deliver(i, f)))
  {
    var mid := Advance(w, Read(i, f));
    assert mid.held[..|w.held|] + mid.held[|w.held| + 1..] == w.held;
  }

  // Stale writes ---------------------------------------------------------------------

  predicate About(sys: System, i: nat, s: nat) {
    i < |sys.mail| && sys.mail[i].body.Parsed? && sys.mail[i].body.env.submission == Id(s)
  }

  // A write that changes what its handler read
  predicate Effective(read: Row, env: Envelope, f: Faults) {
    && env.tenant == read.tenant && !f.write.Fails?
    && Decision(read, env, f).Some? && Decision(read, env, f).value != read.state
  }

  // Such a write to a row that is no longer in the state its handler read
  predicate Stale(w: World, m: Move, s: nat)
    requires Possible(w, m)
  {
    && m.Commit? && s < |w.sys.rows|
    && var h := w.held[m.k];
    && About(w.sys, h.i, s) && Effective(h.read, EnvOf(w.sys, h.i), h.f)
    && h.read.state != w.sys.rows[s].state
  }

  predicate NoStale(w: World, ms: seq<Move>, s: nat)
    requires CanPlay(w, ms)
    decreases |ms|
  {
    ms == [] || (!Stale(w, ms[0], s) && NoStale(Advance(w, ms[0]), ms[1..], s))
  }

  // What a commit does to the row of s
  lemma CommitChange(w: World, k: nat, s: nat)
    requires Possible(w, Commit(k)) && s < |w.sys.rows|
    ensures var h, rows := w.held[k], Advance(w, Commit(k)).sys.rows;
            var env := EnvOf(w.sys, h.i);
            && |rows| == |w.sys.rows|
            && rows[s] == (if About(w.sys, h.i, s) && Effective(h.read, env, h.f)
                           then w.sys.rows[s].(state := Decision(h.read, env, h.f).value) else w.sys.rows[s])
  {
  }

  lemma RowsKept(w: World, m: Move, s: nat)
    requires Possible(w, m) && s < |w.sys.rows|
    ensures |Advance(w, m).sys.rows| == |w.sys.rows|
  {
    match m
    case Read(i, f) =>
    case Commit(k) => CommitChange(w, k, s);
    case Whole(a) => StateChange(w.sys, a, s);
  }

  // Failed is final, exactly without stale writes --------------------------------------

  // A handler that read failed writes nothing, and nobody writes failed.
  lemma EffectiveLeavesFailed(read: Row, env: Envelope, f: Faults)
    requires Effective(read, env, f)
    ensures read.state != Failed && Decision(read, env, f).value != Failed
  {
  }

  lemma RevivedByStale(w: World, m: Move, s: nat)
    requires Possible(w, m) && s < |w.sys.rows| && w.sys.rows[s].state == Failed
    ensures |Advance(w, m).sys.rows| == |w.sys.rows|
    ensures Advance(w, m).sys.rows[s].state != Failed <==> Stale(w, m, s)
  {
    match m
    case Read(i, f) =>
    case Whole(a) => StateChange(w.sys, a, s);
    case Commit(k) =>
      CommitChange(w, k, s);
      var h := w.held[k];
      if Effective(h.read, EnvOf(w.sys, h.i), h.f) {
        EffectiveLeavesFailed(h.read, EnvOf(w.sys, h.i), h.f);
      }
  }

  predicate StaysFailed(w: World, ms: seq<Move>, s: nat)
    requires CanPlay(w, ms)
    decreases |ms|
  {
    && s < |w.sys.rows| && w.sys.rows[s].state == Failed
    && (ms == [] || StaysFailed(Advance(w, ms[0]), ms[1..], s))
  }

  lemma {:induction false} FailedIsFinalIffNoStale(w: World, ms: seq<Move>, s: nat)
    requires CanPlay(w, ms) && s < |w.sys.rows| && w.sys.rows[s].state == Failed
    ensures StaysFailed(w, ms, s) <==> NoStale(w, ms, s)
    decreases |ms|
  {
    if ms != [] {
      RevivedByStale(w, ms[0], s);
      if !Stale(w, ms[0], s) {
        FailedIsFinalIffNoStale(Advance(w, ms[0]), ms[1..], s);
      }
    }
  }

  // It does happen: the last attempt of a grade request posts its result and
  // still fails, the result is read, the dead letter fails the submission, and
  // the handler of the result then puts it into teacher_review.
  lemma StaleWriteRevives(row: Row, env: Envelope, count: nat, sent: Faults, f: Faults, maxAttempts: int)
    requires row.state == Grading && env.tenant == row.tenant && env.submission == Id(0)
    requires sent.work == FailsAfterEffect && f == Gate.Clean(None) && count + 1 >= maxAttempts
    ensures var w := World(System([row], [Msg(Live(GradeQ), Parsed(env), count)], maxAttempts), []);
            var ms := [Whole(Deliver(0, sent)), Read(1, f), Whole(Deliver(0, f))];
            && CanPlay(w, ms) && |Play(w, ms).sys.rows| == 1 && Play(w, ms).sys.rows[0].state == Failed
            && Possible(Play(w, ms), Commit(0))
            && Advance(Play(w, ms), Commit(0)).sys.rows == [Play(w, ms).sys.rows[0].(state := TeacherReview)]
  {
    var w := World(System([row], [Msg(Live(GradeQ), Parsed(env), count)], maxAttempts), []);
    var result := env.(stage := SGradeResult, payload := sent.resultKey);
    var x := Advance(w, Whole(Deliver(0, sent)));
    assert x.sys.mail == [Msg(Dead(GradeQ), Parsed(env), count), Msg(Live(ResultsQ), Parsed(result), 0)];
    LateWrite(x.sys, row, env, count, result, f);
    PlayThree(w, Whole(Deliver(0, sent)), Read(1, f), Whole(Deliver(0, f)));
  }

  lemma FailedByDeadLetter(sys: System, row: Row, env: Envelope, count: nat, f: Faults)
    requires sys.rows == [row] && |sys.mail| == 2 && sys.mail[0] == Msg(Dead(GradeQ), Parsed(env), count)
    requires env.submission == Id(0) && f.write.Succeeds?
    ensures Step(sys, Deliver(0, f)).rows == [row.(state := Failed, failedStage := Some(SGrade))]
    ensures |Step(sys, Deliver(0, f)).mail| == 2 && Step(sys, Deliver(0, f)).mail[1] == sys.mail[1]
  {
  }

  lemma LateCommit(z: World, row: Row, result: Envelope, f: Faults)
    requires row.state == Grading && f == Gate.Clean(None)
    requires result.tenant == row.tenant && result.submission == Id(0) && result.stage == SGradeResult
    requires |z.sys.rows| == 1 && z.held == [Held(1, f, row)]
    requires |z.sys.mail| == 2 && z.sys.mail[1] == Msg(Live(ResultsQ), Parsed(result), 0)
    ensures Possible(z, Commit(0))
    ensures Advance(z, Commit(0)).sys.rows == [z.sys.rows[0].(state := TeacherReview)]
  {
    assert Decision(row, result, f) == Some(TeacherReview);
    CommitChange(z, 0, 0);
  }

  lemma LateWrite(sys: System, row: Row, env: Envelope, count: nat, result: Envelope, f: Faults)
    requires row.state == Grading && env.tenant == row.tenant && env.submission == Id(0)
    requires result.tenant == row.tenant && result.submission == Id(0) && result.stage == SGradeResult
    requires f == Gate.Clean(None)
    requires sys.rows == [row]
    requires sys.mail == [Msg(Dead(GradeQ), Parsed(env), count), Msg(Live(ResultsQ), Parsed(result), 0)]
    ensures Possible(World(sys, []), Read(1, f))
    ensures var y := Advance(World(sys, []), Read(1, f));
            && Possible(y, Whole(Deliver(0, f)))
            && var z := Advance(y, Whole(Deliver(0, f)));
            && |z.sys.rows| == 1 && z.sys.rows[0].state == Failed && Possible(z, Commit(0))
            && Advance(z, Commit(0)).sys.rows == [z.sys.rows[0].(state := TeacherReview)]
  {
    var y := World(sys, [Held(1, f, row)]);
    assert Advance(World(sys, []), Read(1, f)) == y;
    FailedByDeadLetter(sys, row, env, count, f);
    LateCommit(World(Step(sys, Deliver(0, f)), y.held), row, result, f);
  }

  lemma PlayOne(w: World, m: Move, ms: seq<Move>)
    requires Possible(w, m) && CanPlay(Advance(w, m), ms)
    ensures CanPlay(w, [m] + ms) && Play(w, [m] + ms) == Play(Advance(w, m), ms)
  {
    assert ([m] + ms)[1..] == ms;
  }

  lemma PlayThree(w: World, m: Move, n: Move, o: Move)
    requires Possible(w, m) && Possible(Advance(w, m), n) && Possible(Advance(Advance(w, m), n), o)
    ensures CanPlay(w, [m, n, o]) && Play(w, [m, n, o]) == Advance(Advance(Advance(w, m), n), o)
  {
    var x := Advance(w, m);
    var y := Advance(x, n);
    PlayOne(y, o, []);
    PlayOne(x, n, [o]);
    PlayOne(w, m, [n, o]);
    assert [o] + [] == [o] && [n] + [o] == [n, o] && [m] + [n, o] == [m, n, o];
  }

  // The approval gate without stale writes ----------------------------------------------

  function Entries(w: World, ms: seq<Move>, s: nat, x: State): nat
    requires CanPlay(w, ms) && s < |w.sys.rows|
    decreases |ms|
  {
    if ms == [] then 0 else
      var next := Advance(w, ms[0]);
      RowsKept(w, ms[0], s);
      Gate.Enters(w.sys.rows[s].state, next.sys.rows[s].state, x) + Entries(next, ms[1..], s, x)
  }

  lemma MoveCounts(w: World, m: Move, s: nat, grading: nat, review: nat, approved: nat)
    requires Possible(w, m) && s < |w.sys.rows| && !Stale(w, m, s)
    requires Gate.Counts(w.sys.rows[s].state, grading, review, approved)
    ensures s < |Advance(w, m).sys.rows|
    ensures Gate.CountsAfter(w.sys.rows[s].state, Advance(w, m).sys.rows[s].state, grading, review, approved)
  {
    match m
    case Read(i, f) =>
    case Whole(a) => Gate.StepCounts(w.sys, a, s, grading, review, approved);
    case Commit(k) =>
      CommitChange(w, k, s);
      var h := w.held[k];
      var env := EnvOf(w.sys, h.i);
      if About(w.sys, h.i, s) && Effective(h.read, env, h.f) {
        Gate.EdgeCounts(h.read.state, StageToEvent(env.stage).value, FlagsFor(env, h.f), grading, review, approved);
      }
  }

  lemma {:induction false} RunCounts(w: World, ms: seq<Move>, s: nat, grading: nat, review: nat, approved: nat)
    requires CanPlay(w, ms) && s < |w.sys.rows| && NoStale(w, ms, s)
    requires Gate.Counts(w.sys.rows[s].state, grading, review, approved)
    ensures s < |Play(w, ms).sys.rows|
    ensures Gate.Counts(Play(w, ms).sys.rows[s].state,
                        grading + Entries(w, ms, s, Grading),
                        review + Entries(w, ms, s, TeacherReview),
                        approved + Entries(w, ms, s, Approved))
    decreases |ms|
  {
    if ms != [] {
      MoveCounts(w, ms[0], s, grading, review, approved);
      var pre, next := w.sys.rows[s].state, Advance(w, ms[0]);
      var post := next.sys.rows[s].state;
      RunCounts(next, ms[1..], s,
                grading + Gate.Enters(pre, post, Grading),
                review + Gate.Enters(pre, post, TeacherReview),
                approved + Gate.Enters(pre, post, Approved));
    }
  }

  lemma ApprovalGate(w: World, ms: seq<Move>, s: nat)
    requires CanPlay(w, ms) && s < |w.sys.rows| && w.sys.rows[s].state == Uploaded && NoStale(w, ms, s)
    ensures var g, t := Entries(w, ms, s, Grading), Entries(w, ms, s, TeacherReview);
            var p := Entries(w, ms, s, Approved);
            p <= t <= g <= p + 1
    ensures s < |Play(w, ms).sys.rows|
    ensures Play(w, ms).sys.rows[s].state in {Approved, Published, Exported} ==> Entries(w, ms, s, Approved) > 0
  {
    RunCounts(w, ms, s, 0, 0, 0);
  }

  // Keeping others off the row ------------------------------------------------------------

  // What every handler holds: its own message, still waiting, and the unchanging
  // part of the row. So every handler can commit.
  ghost predicate Keeps(sys: System, h: Held) {
    && Handled(sys, h.i) && !h.f.getFails
    && h.read.tenant == RowOf(sys, h.i).tenant && h.read.sourcePdf == RowOf(sys, h.i).sourcePdf
  }

  ghost predicate Distinct(held: seq<Held>) {
    forall j, k :: 0 <= j < k < |held| ==> held[j].i != held[k].i
  }

  ghost predicate AllKeep(sys: System, held: seq<Held>) {
    forall k :: 0 <= k < |held| ==> Keeps(sys, held[k])
  }

  ghost predicate Kept(w: World) {
    AllKeep(w.sys, w.held) && Distinct(w.held)
  }

  ghost predicate SameOwners(rows: seq<Row>, rows': seq<Row>) {
    && |rows'| == |rows|
    && forall n :: 0 <= n < |rows| ==> rows'[n].tenant == rows[n].tenant && rows'[n].sourcePdf == rows[n].sourcePdf
  }

  // What a move leaves: message j, and the unchanging part of every row
  ghost predicate Leaves(sys: System, sys': System, j: nat) {
    && j < |sys.mail| <= |sys'.mail| && sys'.mail[j] == sys.mail[j]
    && SameOwners(sys.rows, sys'.rows)
  }

  lemma FinishOwners(rows: seq<Row>, n: nat, read: Row, env: Envelope, f: Faults)
    requires n < |rows|
    ensures SameOwners(rows, Finish(rows, n, read, env, f).rows)
  {
  }

  lemma ReactOwners(sys: System, m: Msg, f: Faults)
    requires Consumed(m.place)
    ensures SameOwners(sys.rows, React(sys, m, f).rows)
  {
    if m.body.Parsed? && Known(sys.rows, m.body.env.submission) && m.place.Live? {
      var n := m.body.env.submission.n;
      FinishOwners(sys.rows, n, sys.rows[n], m.body.env, f);
    }
  }

  lemma StepLeaves(sys: System, a: Action, j: nat)
    requires Enabled(sys, a) && j < |sys.mail| && (a.Deliver? ==> a.i != j)
    ensures Leaves(sys, Step(sys, a), j)
  {
    if a.Deliver? {
      ReactOwners(sys, sys.mail[a.i], a.f);
    }
  }

  predicate Spares(w: World, m: Move, j: nat)
    requires Possible(w, m)
  {
    match m
    case Read(i, f) => true
    case Commit(k) => w.held[k].i != j
    case Whole(a) => a.Deliver? ==> a.i != j
  }

  lemma MoveLeaves(w: World, m: Move, j: nat)
    requires Possible(w, m) && j < |w.sys.mail|
    requires Spares(w, m, j)
    ensures Leaves(w.sys, Advance(w, m).sys, j)
  {
    match m
    case Read(i, f) =>
    case Commit(k) =>
      var h := w.held[k];
      var env := EnvOf(w.sys, h.i);
      FinishOwners(w.sys.rows, env.submission.n, h.read, env, h.f);
    case Whole(a) => StepLeaves(w.sys, a, j);
  }

  lemma KeepsOn(w: World, m: Move, j: nat)
    requires Possible(w, m) && Kept(w) && j < |w.held| && (m.Commit? ==> j != m.k)
    ensures Keeps(Advance(w, m).sys, w.held[j])
  {
    assert Keeps(w.sys, w.held[j]);
    MoveLeaves(w, m, w.held[j].i);
  }

  lemma StaysKept(w: World, m: Move)
    requires Possible(w, m) && Kept(w)
    ensures Kept(Advance(w, m))
  {
    var sys' := Advance(w, m).sys;
    forall j | 0 <= j < |w.held| && (m.Commit? ==> j != m.k) ensures Keeps(sys', w.held[j]) {
      KeepsOn(w, m, j);
    }
    match m
    case Read(i, f) =>
    case Commit(k) =>
    case Whole(a) =>
  }

  // A commit whose row is in the state the handler read
  predicate Fresh(w: World, m: Move, s: nat)
    requires Possible(w, m)
  {
    m.Commit? && s < |w.sys.rows| && About(w.sys, w.held[m.k].i, s) ==> w.held[m.k].read.state == w.sys.rows[s].state
  }

  predicate AllFresh(w: World, ms: seq<Move>, s: nat)
    requires CanPlay(w, ms)
    decreases |ms|
  {
    ms == [] || (Fresh(w, ms[0], s) && AllFresh(Advance(w, ms[0]), ms[1..], s))
  }

  ghost predicate Holding(w: World, s: nat) {
    exists k :: 0 <= k < |w.held| && About(w.sys, w.held[k].i, s)
  }

  // No other handler holds a read of s when a move changes the state of s.
  ghost predicate Exclusive(w: World, m: Move, s: nat)
    requires Possible(w, m)
  {
    s < |w.sys.rows| && s < |Advance(w, m).sys.rows| && Advance(w, m).sys.rows[s].state != w.sys.rows[s].state ==>
      !Holding(Advance(w, m), s)
  }

  ghost predicate ExclusiveRun(w: World, ms: seq<Move>, s: nat)
    requires CanPlay(w, ms)
    decreases |ms|
  {
    ms == [] || (Exclusive(w, ms[0], s) && ExclusiveRun(Advance(w, ms[0]), ms[1..], s))
  }

  ghost predicate Current(w: World, s: nat) {
    forall k :: 0 <= k < |w.held| && About(w.sys, w.held[k].i, s) && s < |w.sys.rows| ==>
      w.held[k].read.state == w.sys.rows[s].state
  }

  lemma StaysCurrent(w: World, m: Move, s: nat)
    requires Possible(w, m) && Kept(w) && Current(w, s) && Exclusive(w, m, s)
    ensures Current(Advance(w, m), s)
  {
    if s < |w.sys.rows| {
      RowsKept(w, m, s);
    } else if m.Whole? && m.a.Deliver? {
      ReactOwners(w.sys, w.sys.mail[m.a.i], m.a.f);
    }
    forall j | 0 <= j < |w.held| && (m.Commit? ==> j != m.k) ensures Leaves(w.sys, Advance(w, m).sys, w.held[j].i) {
      MoveLeaves(w, m, w.held[j].i);
    }
  }

  lemma {:induction false} ExclusiveIsFresh(w: World, ms: seq<Move>, s: nat)
    requires CanPlay(w, ms) && Kept(w) && Current(w, s) && ExclusiveRun(w, ms, s)
    ensures AllFresh(w, ms, s) && NoStale(w, ms, s)
    decreases |ms|
  {
    if ms != [] {
      StaysKept(w, ms[0]);
      StaysCurrent(w, ms[0], s);
      ExclusiveIsFresh(Advance(w, ms[0]), ms[1..], s);
    }
  }
}
