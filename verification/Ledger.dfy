/** The teacher-facing handlers as ordered writes to the audit log, the object
    store, the database and the bus. Any write may fail, and any number of
    requests may be under way at once, their writes in any interleaving. */
module Ledger {
  import opened Wrappers
  import opened StateMachine
  import opened Protocol
  import opened Papers
  import opened Totals
  import opened Overlay
  import opened Seqs

  datatype AuditEvent =
    | OverrideQuestion(sub: nat, row: TeacherReview, oldFeedback: string)
    | Approval(sub: nat, total: real, maxTotal: real, score100: real, actor: string)
    | Publication(sub: nat, actor: string)
    | Exportation(sub: nat, actor: string)
    | AppealRegrade(appeal: nat, sub: nat, actor: string)   // the submission is the appeal's

  datatype FinalGrade = FinalGrade(total: real, maxTotal: real, score100: real, approvedBy: string)

  datatype Command = Command(stage: Stage, sub: nat)

  datatype Books = Books(
    audit: seq<AuditEvent>,
    reviews: seq<(nat, TeacherReview)>,
    artifacts: map<nat, GradedPaper>,     // graded.final.json
    finals: map<nat, FinalGrade>,         // final_grade, one row per submission
    commands: seq<Command>,
    underReview: set<nat>)                // appeals marked under_review

  datatype Write =
    | WAudit(event: AuditEvent)
    | WReview(sub: nat, row: TeacherReview)
    | WArtifact(sub: nat, paper: GradedPaper)
    | WFinal(sub: nat, grade: FinalGrade)
    | WCommand(command: Command)
    | WAppeal(appeal: nat)

  function Commit(b: Books, w: Write): Books {
    match w
    case WAudit(event) => b.(audit := b.audit + [event])
    case WReview(sub, row) => b.(reviews := b.reviews + [(sub, row)])
    case WArtifact(sub, paper) => b.(artifacts := b.artifacts[sub := paper])
    case WFinal(sub, grade) => b.(finals := b.finals[sub := grade])
    case WCommand(command) => b.(commands := b.commands + [command])
    case WAppeal(appeal) => b.(underReview := b.underReview + {appeal})
  }

  // A request past its reads and checks: what it read decides its arguments.
  datatype Request =
    | DoOverride(sub: nat, row: TeacherReview, oldFeedback: string)
    | DoApprove(sub: nat, paper: GradedPaper, actor: string)
    | DoPublish(sub: nat, actor: string)
    | DoExport(sub: nat, actor: string)
    | DoRegrade(appeal: nat, sub: nat, actor: string)

  function ApprovalOf(sub: nat, p: GradedPaper, actor: string): AuditEvent {
    Approval(sub, p.total, p.maxTotal, p.score100, actor)
  }

  function Writes(r: Request): seq<Write> {
    match r
    case DoOverride(sub, row, oldFeedback) => [WAudit(OverrideQuestion(sub, row, oldFeedback)), WReview(sub, row)]
    case DoApprove(sub, p, actor) =>
      [WAudit(ApprovalOf(sub, p, actor)), WArtifact(sub, p),
       WFinal(sub, FinalGrade(p.total, p.maxTotal, p.score100, actor)), WCommand(Command(SApprove, sub))]
    case DoPublish(sub, actor) => [WAudit(Publication(sub, actor)), WCommand(Command(SPublish, sub))]
    case DoExport(sub, actor) => [WAudit(Exportation(sub, actor)), WCommand(Command(SExport, sub))]
    case DoRegrade(appeal, sub, actor) =>
      [WAudit(AppealRegrade(appeal, sub, actor)), WCommand(Command(SRegrade, sub)), WAppeal(appeal)]
  }

  // One request on its own: it stops at the first call that reports an error.
  function Serve(b: Books, ws: seq<Write>, calls: nat -> Call, k: nat): Books
    requires k <= |ws|
    decreases |ws| - k
  {
    if k == |ws| then b
    else
      var b' := if calls(k).Fails? then b else Commit(b, ws[k]);
      if calls(k).Succeeds? then Serve(b', ws, calls, k + 1) else b'
  }

  // Interleaved requests -----------------------------------------------------------

  // ListTeacherReviews: a submission's rows, oldest first
  function RowsOf(reviews: seq<(nat, TeacherReview)>, sub: nat): seq<TeacherReview> {
    if reviews == [] then []
    else
      var last := reviews[|reviews| - 1];
      RowsOf(reviews[..|reviews| - 1], sub) + (if last.0 == sub then [last.1] else [])
  }

  datatype Active = Active(req: Request, done: nat)

  datatype World = World(books: Books, active: seq<Active>)

  // Review: an approval that lists the rows of its submission now, over the
  // graded artifact it read.
  datatype Move =
    | Begin(req: Request)
    | Review(sub: nat, graded: GradedPaper, actor: string)
    | Next(i: nat, call: Call)

  predicate Possible(w: World, m: Move) {
    m.Next? ==> m.i < |w.active| && w.active[m.i].done < |Writes(w.active[m.i].req)|
  }

  function Advance(w: World, m: Move): World
    requires Possible(w, m)
  {
    match m
    case Begin(req) => w.(active := w.active + [Active(req, 0)])
    case Review(sub, graded, actor) =>
      var p := Effective(graded, RowsOf(w.books.reviews, sub));
      w.(active := w.active + [Active(DoApprove(sub, p, actor), 0)])
    case Next(i, call) =>
      var a := w.active[i];
      var ws := Writes(a.req);
      World(if call.Fails? then w.books else Commit(w.books, ws[a.done]),
            w.active[i := a.(done := if call.Succeeds? then a.done + 1 else |ws|)])
  }

  // A move is one request's: it begins one, before its first write, or takes one
  // a write further, or to its end when that fails; only then the books change.
  lemma OthersWait(w: World, m: Move, i: nat)
    requires Possible(w, m) && i < |w.active|
    ensures var w' := Advance(w, m);
            && |w'.active| == |w.active| + (if m.Next? then 0 else 1)
            && w'.active[i].req == w.active[i].req
            && (!(m.Next? && m.i == i) ==> w'.active[i] == w.active[i])
            && (m.Next? && m.i == i ==>
                  if m.call.Succeeds? then w'.active[i].done == w.active[i].done + 1
                  else w'.active[i].done == |Writes(w.active[i].req)|)
            && (!m.Next? ==> w'.books == w.books && w'.active[|w.active|].done == 0)
            && (m.Next? && m.call.Fails? ==> w'.books == w.books)
  {
  }

  predicate CanPlay(w: World, ms: seq<Move>)
    decreases |ms|
  {
    ms == [] || (Possible(w, ms[0]) && CanPlay(Advance(w, ms[0]), ms[1..]))
  }

  function Play(w: World, ms: seq<Move>): World
    requires CanPlay(w, ms)
    decreases |ms|
  {
    if ms == [] then w else Play(Advance(w, ms[0]), ms[1..])
  }

  // Dominance -----------------------------------------------------------------------

  // What an audit event allows once: an override row, or a command on the bus.
  datatype Grant = RowOf(sub: nat, row: TeacherReview) | CommandOf(command: Command)

  ghost function Allows(x: Grant): AuditEvent -> bool {
    (e: AuditEvent) =>
      match x
      case RowOf(sub, row) => e.OverrideQuestion? && e.sub == sub && e.row == row
      case CommandOf(c) =>
        match e
        case OverrideQuestion(_, _, _) => false
        case Approval(sub, _, _, _, _) => c == Command(SApprove, sub)
        case Publication(sub, _) => c == Command(SPublish, sub)
        case Exportation(sub, _) => c == Command(SExport, sub)
        case AppealRegrade(_, sub, _) => c == Command(SRegrade, sub)
  }

  // Every request is after one grant, which it uses in this one of its writes.
  function GrantOf(r: Request): Grant {
    match r
    case DoOverride(sub, row, oldFeedback) => RowOf(sub, row)
    case DoApprove(sub, p, actor) => CommandOf(Command(SApprove, sub))
    case DoPublish(sub, actor) => CommandOf(Command(SPublish, sub))
    case DoExport(sub, actor) => CommandOf(Command(SExport, sub))
    case DoRegrade(appeal, sub, actor) => CommandOf(Command(SRegrade, sub))
  }

  function UseAt(r: Request): nat {
    if r.DoApprove? then 3 else 1
  }

  // Audited, and the grant not used yet
  ghost function Owes(x: Grant): Active -> bool {
    (a: Active) => GrantOf(a.req) == x && 1 <= a.done <= UseAt(a.req)
  }

  ghost function IsRow(sub: nat, row: TeacherReview): ((nat, TeacherReview)) -> bool {
    (x: (nat, TeacherReview)) => x == (sub, row)
  }

  ghost function IsCommand(c: Command): Command -> bool {
    (x: Command) => x == c
  }

  // How often a grant has been used
  ghost function Uses(b: Books, x: Grant): nat {
    match x
    case RowOf(sub, row) => Count(b.reviews, IsRow(sub, row))
    case CommandOf(c) => Count(b.commands, IsCommand(c))
  }

  ghost predicate Audited(b: Books, active: seq<Active>, x: Grant) {
    Uses(b, x) + Count(active, Owes(x)) <= Count(b.audit, Allows(x))
  }

  ghost predicate AllAudited(b: Books, active: seq<Active>) {
    forall x :: Audited(b, active, x)
  }

  ghost predicate ApprovedWith(b: Books, sub: nat, total: real, maxTotal: real, score100: real) {
    exists actor :: Approval(sub, total, maxTotal, score100, actor) in b.audit
  }

  ghost predicate PaperAudited(b: Books, sub: nat) {
    sub in b.artifacts ==>
      var p := b.artifacts[sub]; ApprovedWith(b, sub, p.total, p.maxTotal, p.score100)
  }

  ghost predicate FinalAudited(b: Books, sub: nat) {
    sub in b.finals ==>
      var g := b.finals[sub]; ApprovedWith(b, sub, g.total, g.maxTotal, g.score100) && sub in b.artifacts
  }

  // Every final grade and artifact shows an audited approval, a final grade has
  // its artifact, and an approve command its final grade.
  ghost predicate GradesAudited(b: Books) {
    forall sub: nat ::
      PaperAudited(b, sub) && FinalAudited(b, sub) && (Command(SApprove, sub) in b.commands ==> sub in b.finals)
  }

  // What an approval under way has already secured
  ghost predicate Secured(b: Books, a: Active) {
    && a.done <= |Writes(a.req)|
    && (a.req.DoApprove? && 0 < a.done < |Writes(a.req)| ==>
          && ApprovalOf(a.req.sub, a.req.paper, a.req.actor) in b.audit
          && (a.done >= 2 ==> a.req.sub in b.artifacts)
          && (a.done >= 3 ==> a.req.sub in b.finals))
  }

  ghost predicate Sound(w: World) {
    && AllAudited(w.books, w.active)
    && GradesAudited(w.books)
    && (forall i :: 0 <= i < |w.active| ==> Secured(w.books, w.active[i]))
  }

  predicate UsesUp(w: Write, x: Grant) {
    match x
    case RowOf(sub, row) => w == WReview(sub, row)
    case CommandOf(c) => w == WCommand(c)
  }

  lemma UseCount(b: Books, w: Write, x: Grant)
    ensures Uses(Commit(b, w), x) == Uses(b, x) + (if UsesUp(w, x) then 1 else 0)
  {
  }

  // A grant is used only by a request that owes the use, and owing it takes an
  // audit event.
  lemma UsesAreOwed(a: Active, x: Grant)
    requires a.done < |Writes(a.req)|
    ensures var w := Writes(a.req)[a.done];
            && (UsesUp(w, x) <==> GrantOf(a.req) == x && a.done == UseAt(a.req))
            && (w.WAudit? && Allows(x)(w.event) <==> GrantOf(a.req) == x && a.done == 0)
  {
  }

  lemma StaysAudited(w: World, i: nat, call: Call, x: Grant)
    requires Possible(w, Next(i, call)) && Audited(w.books, w.active, x)
    ensures Audited(Advance(w, Next(i, call)).books, Advance(w, Next(i, call)).active, x)
  {
    var a := w.active[i];
    var write := Writes(a.req)[a.done];
    UsesAreOwed(a, x);
    UseCount(w.books, write, x);
    CountUpdate(w.active, i, Advance(w, Next(i, call)).active[i], Owes(x));
  }

  lemma AllStayAudited(w: World, m: Move)
    requires Possible(w, m) && AllAudited(w.books, w.active)
    ensures AllAudited(Advance(w, m).books, Advance(w, m).active)
  {
    forall x ensures Audited(Advance(w, m).books, Advance(w, m).active, x) {
      assert Audited(w.books, w.active, x);
      match m
      case Begin(req) =>
      case Review(sub, graded, actor) =>
      case Next(i, call) => StaysAudited(w, i, call, x);
    }
  }

  lemma GradesStayAudited(w: World, i: nat, call: Call)
    requires Possible(w, Next(i, call)) && Sound(w)
    ensures GradesAudited(Advance(w, Next(i, call)).books)
  {
    assert Secured(w.books, w.active[i]);
    forall sub: nat ensures var b' := Advance(w, Next(i, call)).books;
                            && PaperAudited(b', sub) && FinalAudited(b', sub)
                            && (Command(SApprove, sub) in b'.commands ==> sub in b'.finals) {
      assert PaperAudited(w.books, sub) && FinalAudited(w.books, sub);
    }
  }

  lemma StaysSecured(w: World, i: nat, call: Call, j: nat)
    requires Possible(w, Next(i, call)) && Sound(w) && j < |w.active|
    ensures Secured(Advance(w, Next(i, call)).books, Advance(w, Next(i, call)).active[j])
  {
    assert Secured(w.books, w.active[j]) && Secured(w.books, w.active[i]);
  }

  lemma StaysSound(w: World, m: Move)
    requires Possible(w, m) && Sound(w)
    ensures Sound(Advance(w, m))
  {
    AllStayAudited(w, m);
    if m.Next? {
      GradesStayAudited(w, m.i, m.call);
      forall j | 0 <= j < |w.active| ensures Secured(Advance(w, m).books, Advance(w, m).active[j]) {
        StaysSecured(w, m.i, m.call, j);
      }
    }
  }

  // Audit dominance, for every interleaving and every failure.
  lemma {:induction false} AuditDominates(w: World, ms: seq<Move>)
    requires CanPlay(w, ms) && Sound(w)
    ensures Sound(Play(w, ms))
    decreases |ms|
  {
    if ms != [] {
      StaysSound(w, ms[0]);
      AuditDominates(Advance(w, ms[0]), ms[1..]);
    }
  }

  const NO_BOOKS := Books([], [], map[], map[], [], {})

  // So at any moment there are never more override rows than audit events
  // recording exactly that override, and never more approve, publish, export or
  // regrade commands for a submission than audit events for that step of it;
  // every final grade and every artifact shows the totals of an audited
  // approval; and an approve command has a final grade and an artifact behind it.
  lemma NothingUnaudited(ms: seq<Move>, x: Grant, sub: nat)
    requires CanPlay(World(NO_BOOKS, []), ms)
    ensures var b := Play(World(NO_BOOKS, []), ms).books;
            && Uses(b, x) <= Count(b.audit, Allows(x))
            && (sub in b.artifacts ==>
                  var p := b.artifacts[sub]; ApprovedWith(b, sub, p.total, p.maxTotal, p.score100))
            && (sub in b.finals ==>
                  var g := b.finals[sub]; sub in b.artifacts && ApprovedWith(b, sub, g.total, g.maxTotal, g.score100))
            && (Command(SApprove, sub) in b.commands ==> sub in b.finals)
  {
    AuditDominates(World(NO_BOOKS, []), ms);
    assert PaperAudited(Play(World(NO_BOOKS, []), ms).books, sub);
    assert Audited(Play(World(NO_BOOKS, []), ms).books, Play(World(NO_BOOKS, []), ms).active, x);
  }

  // The row and the artifact of an approval --------------------------------------------

  predicate Shows(g: FinalGrade, p: GradedPaper) {
    g.total == p.total && g.maxTotal == p.maxTotal && g.score100 == p.score100
  }

  predicate Agree(b: Books, sub: nat) {
    sub in b.finals && sub in b.artifacts ==> Shows(b.finals[sub], b.artifacts[sub])
  }

  // Is write k of a request served alone reached, and does it take effect?
  predicate TookEffect(calls: nat -> Call, k: nat) {
    (forall j :: 0 <= j < k ==> calls(j).Succeeds?) && !calls(k).Fails?
  }

  lemma ServedApproval(b: Books, sub: nat, p: GradedPaper, actor: string, calls: nat -> Call)
    ensures var b' := Serve(b, Writes(DoApprove(sub, p, actor)), calls, 0);
            && b'.artifacts == (if TookEffect(calls, 1) then b.artifacts[sub := p] else b.artifacts)
            && b'.finals == (if TookEffect(calls, 2)
                             then b.finals[sub := FinalGrade(p.total, p.maxTotal, p.score100, actor)] else b.finals)
  {
    var ws := Writes(DoApprove(sub, p, actor));
    var b1 := if calls(0).Fails? then b else Commit(b, ws[0]);
    assert Serve(b, ws, calls, 0) == if calls(0).Succeeds? then Serve(b1, ws, calls, 1) else b1;
    var b2 := if calls(1).Fails? then b1 else Commit(b1, ws[1]);
    assert Serve(b1, ws, calls, 1) == if calls(1).Succeeds? then Serve(b2, ws, calls, 2) else b2;
    var b3 := if calls(2).Fails? then b2 else Commit(b2, ws[2]);
    assert Serve(b2, ws, calls, 2) == if calls(2).Succeeds? then Serve(b3, ws, calls, 3) else b3;
    var b4 := if calls(3).Fails? then b3 else Commit(b3, ws[3]);
    assert Serve(b3, ws, calls, 3) == if calls(3).Succeeds? then Serve(b4, ws, calls, 4) else b4;
  }

  // One approval served alone keeps row and artifact together, except when the
  // artifact was overwritten, the row was not, and an older row shows other totals.
  lemma ApprovalKeepsAgreement(b: Books, sub: nat, p: GradedPaper, actor: string, calls: nat -> Call)
    requires Agree(b, sub)
    ensures Agree(Serve(b, Writes(DoApprove(sub, p, actor)), calls, 0), sub) <==>
            (TookEffect(calls, 1) ==> TookEffect(calls, 2) || sub !in b.finals || Shows(b.finals[sub], p))
  {
    ServedApproval(b, sub, p, actor, calls);
    assert TookEffect(calls, 2) ==> TookEffect(calls, 1);
  }

  // A retry mends it: whatever the books said, a row write that takes effect
  // leaves the two in agreement.
  lemma RetryMends(b: Books, sub: nat, p: GradedPaper, actor: string, calls: nat -> Call)
    requires TookEffect(calls, 2)
    ensures Agree(Serve(b, Writes(DoApprove(sub, p, actor)), calls, 0), sub)
  {
    ServedApproval(b, sub, p, actor, calls);
    assert TookEffect(calls, 1);
  }

  // So handling approvals one after the other is not enough: one that succeeds
  // and a later one whose grade row is not written.
  lemma SerialMixesGrades(sub: nat, p: GradedPaper, q: GradedPaper, actor: string)
    requires p.total != q.total
    ensures var b := Serve(NO_BOOKS, Writes(DoApprove(sub, p, actor)), (k: nat) => Succeeds, 0);
            var b' := Serve(b, Writes(DoApprove(sub, q, actor)), (k: nat) => if k == 2 then Fails else Succeeds, 0);
            && sub in b'.finals && b'.finals[sub].total == p.total
            && sub in b'.artifacts && b'.artifacts[sub].total == q.total
  {
    var all := (k: nat) => Succeeds;
    var lost := (k: nat) => if k == 2 then Fails else Succeeds;
    assert TookEffect(all, 2) && TookEffect(all, 1) && TookEffect(lost, 1) && !TookEffect(lost, 2);
    ServedApproval(NO_BOOKS, sub, p, actor, all);
    ServedApproval(Serve(NO_BOOKS, Writes(DoApprove(sub, p, actor)), all, 0), sub, q, actor, lost);
  }

  // The write of a move that took effect, if any
  function Effect(w: World, m: Move): seq<Write>
    requires Possible(w, m)
  {
    match m
    case Begin(req) => []
    case Review(sub, graded, actor) => []
    case Next(i, call) => if call.Fails? then [] else [Writes(w.active[i].req)[w.active[i].done]]
  }

  // The writes of a run that took effect, in order
  function Effects(w: World, ms: seq<Move>): seq<Write>
    requires CanPlay(w, ms)
    decreases |ms|
  {
    if ms == [] then [] else Effect(w, ms[0]) + Effects(Advance(w, ms[0]), ms[1..])
  }

  // What the last artifact write, and the last row write, of sub left
  function LastPaper(b: Books, ws: seq<Write>, sub: nat): Option<GradedPaper> {
    if ws == [] then (if sub in b.artifacts then Some(b.artifacts[sub]) else None) else
      var last := ws[|ws| - 1];
      if last.WArtifact? && last.sub == sub then Some(last.paper) else LastPaper(b, ws[..|ws| - 1], sub)
  }

  function LastRow(b: Books, ws: seq<Write>, sub: nat): Option<FinalGrade> {
    if ws == [] then (if sub in b.finals then Some(b.finals[sub]) else None) else
      var last := ws[|ws| - 1];
      if last.WFinal? && last.sub == sub then Some(last.grade) else LastRow(b, ws[..|ws| - 1], sub)
  }

  lemma {:induction false} LastAfterFirst(b: Books, w: Write, ws: seq<Write>, sub: nat)
    ensures LastPaper(b, [w] + ws, sub) == LastPaper(Commit(b, w), ws, sub)
    ensures LastRow(b, [w] + ws, sub) == LastRow(Commit(b, w), ws, sub)
  {
    var all := [w] + ws;
    if ws == [] {
      assert all[..|all| - 1] == [];
    } else {
      assert all[..|all| - 1] == [w] + ws[..|ws| - 1];
      LastAfterFirst(b, w, ws[..|ws| - 1], sub);
    }
  }

  lemma {:induction false} PlayLeavesTheLast(w: World, ms: seq<Move>, sub: nat)
    requires CanPlay(w, ms)
    ensures var b, ws := Play(w, ms).books, Effects(w, ms);
            && LastPaper(w.books, ws, sub) == (if sub in b.artifacts then Some(b.artifacts[sub]) else None)
            && LastRow(w.books, ws, sub) == (if sub in b.finals then Some(b.finals[sub]) else None)
    decreases |ms|
  {
    if ms != [] {
      var next := Advance(w, ms[0]);
      PlayLeavesTheLast(next, ms[1..], sub);
      if ms[0].Next? && !ms[0].call.Fails? {
        var a := w.active[ms[0].i];
        LastAfterFirst(w.books, Writes(a.req)[a.done], Effects(next, ms[1..]), sub);
      } else {
        assert Effects(w, ms) == Effects(next, ms[1..]);
      }
    }
  }

  // However requests overlap, row and artifact agree exactly when the last row
  // write and the last artifact write that took effect carry equal totals.
  lemma AgreeIffLastWritesDo(w: World, ms: seq<Move>, sub: nat)
    requires CanPlay(w, ms)
    ensures var p, g := LastPaper(w.books, Effects(w, ms), sub), LastRow(w.books, Effects(w, ms), sub);
            Agree(Play(w, ms).books, sub) <==> (p.Some? && g.Some? ==> Shows(g.value, p.value))
  {
    PlayLeavesTheLast(w, ms, sub);
  }

  // What a final grade shows --------------------------------------------------------------

  // The override rows of sub among writes
  function RowsAmong(ws: seq<Write>, sub: nat): seq<TeacherReview> {
    if ws == [] then []
    else (if ws[0].WReview? && ws[0].sub == sub then [ws[0].row] else []) + RowsAmong(ws[1..], sub)
  }

  lemma RowsCommitted(b: Books, w: Write, sub: nat)
    ensures RowsOf(Commit(b, w).reviews, sub) == RowsOf(b.reviews, sub) + RowsAmong([w], sub)
  {
    if w.WReview? {
      var reviews := Commit(b, w).reviews;
      assert reviews[..|reviews| - 1] == b.reviews;
    }
  }

  lemma RowsOfMove(w: World, m: Move, sub: nat)
    requires Possible(w, m)
    ensures RowsOf(Advance(w, m).books.reviews, sub) == RowsOf(w.books.reviews, sub) + RowsAmong(Effect(w, m), sub)
  {
    if m.Next? && !m.call.Fails? {
      var a := w.active[m.i];
      RowsCommitted(w.books, Writes(a.req)[a.done], sub);
    }
  }

  lemma RowsAmongBoth(e: seq<Write>, rest: seq<Write>, sub: nat)
    requires |e| <= 1
    ensures RowsAmong(e + rest, sub) == RowsAmong(e, sub) + RowsAmong(rest, sub)
  {
    if e == [] {
      assert e + rest == rest;
    } else {
      assert (e + rest)[1..] == rest && e[1..] == [];
    }
  }

  lemma {:induction false} RowsGrow(w: World, ms: seq<Move>, sub: nat)
    requires CanPlay(w, ms)
    ensures RowsOf(Play(w, ms).books.reviews, sub) == RowsOf(w.books.reviews, sub) + RowsAmong(Effects(w, ms), sub)
    decreases |ms|
  {
    if ms != [] {
      RowsOfMove(w, ms[0], sub);
      RowsAmongBoth(Effect(w, ms[0]), Effects(Advance(w, ms[0]), ms[1..]), sub);
      RowsGrow(Advance(w, ms[0]), ms[1..], sub);
    }
  }

  // The grade an approval wrote shows the marks as they are in the table now
  // exactly when the rows inserted since it listed them change the marks by
  // nothing altogether; in particular when there are none.
  lemma FinalShowsTheRowsIff(w: World, sub: nat, graded: GradedPaper, actor: string, ms: seq<Move>)
    requires CanPlay(Advance(w, Review(sub, graded, actor)), ms)
    requires var b := Play(Advance(w, Review(sub, graded, actor)), ms).books;
             sub in b.finals && Shows(b.finals[sub], Effective(graded, RowsOf(w.books.reviews, sub)))
    ensures var start := Advance(w, Review(sub, graded, actor));
            var b, since := Play(start, ms).books, RowsAmong(Effects(start, ms), sub);
            var listed := RowsOf(w.books.reviews, sub);
            && RowsOf(b.reviews, sub) == listed + since
            && (Shows(b.finals[sub], Effective(graded, RowsOf(b.reviews, sub))) <==>
                  NetChange(ReviewView(graded, listed).questions, since) == 0.0)
            && (since == [] ==> Shows(b.finals[sub], Effective(graded, RowsOf(b.reviews, sub))))
  {
    var start := Advance(w, Review(sub, graded, actor));
    RowsGrow(start, ms, sub);
    SameTotalsIff(graded, RowsOf(w.books.reviews, sub), RowsAmong(Effects(start, ms), sub));
  }

  // An override that begins after the listing, and the approval's first three writes
  function LateMoves(sub: nat, row: TeacherReview): seq<Move> {
    [Begin(DoOverride(sub, row, [])), Next(1, Succeeds), Next(1, Succeeds)] +
    [Next(0, Succeeds), Next(0, Succeeds), Next(0, Succeeds)]
  }

  lemma LateOverride(sub: nat, p: GradedPaper, row: TeacherReview, actor: string)
    ensures var w := World(NO_BOOKS, [Active(DoApprove(sub, p, actor), 0)]);
            && CanPlay(w, LateMoves(sub, row))
            && RowsOf(Play(w, LateMoves(sub, row)).books.reviews, sub) == [row]
            && sub in Play(w, LateMoves(sub, row)).books.finals
            && Play(w, LateMoves(sub, row)).books.finals[sub].total == p.total
  {
    var s, approve, edit := Succeeds, DoApprove(sub, p, actor), DoOverride(sub, row, []);
    var w, x := World(NO_BOOKS, [Active(approve, 0)]), World(NO_BOOKS, [Active(approve, 0), Active(edit, 0)]);
    var audit := [OverrideQuestion(sub, row, [])];
    var mid := World(NO_BOOKS.(audit := audit, reviews := [(sub, row)]), [Active(approve, 0), Active(edit, 2)]);
    assert Advance(w, Begin(edit)) == x;
    assert Advance(Advance(x, Next(1, s)), Next(1, s)) == mid;
    PlayThree(w, Begin(edit), Next(1, s), Next(1, s));
    var y := Advance(Advance(mid, Next(0, s)), Next(0, s));
    assert y.active == [Active(approve, 2), Active(edit, 2)] && y.books.reviews == [(sub, row)];
    PlayThree(mid, Next(0, s), Next(0, s), Next(0, s));
    PlayAppend(w, [Begin(edit), Next(1, s), Next(1, s)], [Next(0, s), Next(0, s), Next(0, s)]);
    assert [(sub, row)][..0] == [];
  }

  // It does come to that: such an override does not show in the grade.
  lemma LateOverrideIsLost(sub: nat, graded: GradedPaper, row: TeacherReview, actor: string)
    requires var i := PositionOf(graded.questions, row.questionNo);
             i >= 0 && graded.questions[i].awardedMarks != row.newMarks
    ensures var w := Advance(World(NO_BOOKS, []), Review(sub, graded, actor));
            && CanPlay(w, LateMoves(sub, row))
            && RowsOf(Play(w, LateMoves(sub, row)).books.reviews, sub) == [row]
            && sub in Play(w, LateMoves(sub, row)).books.finals
            && Play(w, LateMoves(sub, row)).books.finals[sub].total != Effective(graded, [row]).total
  {
    var w := Advance(World(NO_BOOKS, []), Review(sub, graded, actor));
    assert w == World(NO_BOOKS, [Active(DoApprove(sub, Effective(graded, []), actor), 0)]);
    LateOverride(sub, Effective(graded, []), row, actor);
    OneReviewMoves(graded, row);
  }

  // Two approvals that overlap, every call of which succeeds, can leave one
  // request's row beside the other's artifact.
  lemma OverlapMixesGrades(sub: nat, p: GradedPaper, q: GradedPaper, actor: string)
    requires p.total != q.total
    ensures var w := World(NO_BOOKS, [Active(DoApprove(sub, p, actor), 0), Active(DoApprove(sub, q, actor), 0)]);
            var ms := [Next(0, Succeeds), Next(0, Succeeds), Next(1, Succeeds)] +
                      [Next(1, Succeeds), Next(1, Succeeds), Next(0, Succeeds)];
            && CanPlay(w, ms)
            && sub in Play(w, ms).books.finals && sub in Play(w, ms).books.artifacts
            && Play(w, ms).books.finals[sub].total != Play(w, ms).books.artifacts[sub].total
  {
    var a, b := DoApprove(sub, p, actor), DoApprove(sub, q, actor);
    var s := Succeeds;
    var w := World(NO_BOOKS, [Active(a, 0), Active(b, 0)]);
    var audit := [ApprovalOf(sub, p, actor), ApprovalOf(sub, q, actor)];
    var mid := World(NO_BOOKS.(audit := audit, artifacts := map[sub := p]), [Active(a, 2), Active(b, 1)]);
    var x := Advance(w, Next(0, s));
    assert x.active == [Active(a, 1), Active(b, 0)];
    var y := Advance(x, Next(0, s));
    assert y.active == [Active(a, 2), Active(b, 0)];
    assert Advance(y, Next(1, s)) == mid;
    PlayThree(w, Next(0, s), Next(0, s), Next(1, s));
    var x' := Advance(mid, Next(1, s));
    assert x'.active == [Active(a, 2), Active(b, 2)] && x'.books.artifacts[sub] == q;
    var y' := Advance(x', Next(1, s));
    assert y'.active == [Active(a, 2), Active(b, 3)] && y'.books.artifacts[sub] == q;
    PlayThree(mid, Next(1, s), Next(1, s), Next(0, s));
    PlayAppend(w, [Next(0, s), Next(0, s), Next(1, s)], [Next(1, s), Next(1, s), Next(0, s)]);
  }

  lemma PlayOne(w: World, m: Move, ms: seq<Move>)
    requires Possible(w, m) && CanPlay(Advance(w, m), ms)
    ensures CanPlay(w, [m] + ms) && Play(w, [m] + ms) == Play(Advance(w, m), ms)
  {
    assert ([m] + ms)[1..] == ms;
  }

  lemma PlayThree(w: World, m: Move, n: Move, o: Move)
    requires Possible(w, m) && Possible(Advance(w, m), n) && Possible(Advance(Advance(w, m), n), o)
    ensures CanPlay(w, [m, n, o]) && Play(w, [m, n, o]) == Advance(Advance(Advance(w, m), n), o)
  {
    var x := Advance(w, m);
    var y := Advance(x, n);
    PlayOne(y, o, []);
    PlayOne(x, n, [o]);
    PlayOne(w, m, [n, o]);
    assert [o] + [] == [o] && [n] + [o] == [n, o] && [m] + [n, o] == [m, n, o];
  }

  lemma {:induction false} PlayAppend(w: World, a: seq<Move>, b: seq<Move>)
    requires CanPlay(w, a) && CanPlay(Play(w, a), b)
    ensures CanPlay(w, a + b) && Play(w, a + b) == Play(Play(w, a), b)
    decreases |a|
  {
    if a == [] {
      assert a + b == b;
    } else {
      assert (a + b)[1..] == a[1..] + b;
      PlayAppend(Advance(w, a[0]), a[1..], b);
    }
  }
}
