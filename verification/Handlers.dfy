/** The HTTP handlers as methods over the stores they write, one request at a
    time: each is proved to be the ordered writes Ledger reasons about. */
module Handlers {
  import opened Wrappers
  import opened StateMachine
  import opened Protocol
  import opened Papers
  import opened Totals
  import opened Overlay
  import opened Ledger

  // What the reads of a handler gave: the state of the submission, the graded
  // artifact if it could be read and parsed, and whether the rows were listed.
  datatype Reads = Reads(state: State, graded: Option<GradedPaper>, listed: bool)

  // The writes a PATCH leads to, None when a read or a check ends it first.
  function OverrideRequest(b: Books, sub: nat, r: Reads, no: string, body: Patch, actor: string): Option<Request> {
    if no == [] || r.state != State.TeacherReview || r.graded.None? || !r.listed then None
    else
      var rows := RowsOf(b.reviews, sub);
      match PatchOutcome(r.graded.value, rows, no, body, actor)
      case None => None
      case Some((row, returned)) =>
        var qs := ReviewView(r.graded.value, rows).questions;
        Some(DoOverride(sub, row, qs[FirstPosition(qs, no)].feedback))
  }

  function ApproveRequest(b: Books, sub: nat, r: Reads, actor: string): Option<Request> {
    if r.state != State.TeacherReview || r.graded.None? || !r.listed then None
    else Some(DoApprove(sub, Effective(r.graded.value, RowsOf(b.reviews, sub)), actor))
  }

  function Served(b: Books, req: Option<Request>, calls: nat -> Call): Books {
    if req.None? then b else Serve(b, Writes(req.value), calls, 0)
  }

  class Desk {
    var audit: seq<AuditEvent>
    var reviews: seq<(nat, TeacherReview)>
    var artifacts: map<nat, GradedPaper>
    var finals: map<nat, FinalGrade>
    var commands: seq<Command>
    var underReview: set<nat>

    constructor ()
      ensures View() == NO_BOOKS
    {
      audit, reviews, artifacts, finals, commands, underReview := [], [], map[], map[], [], {};
    }

    function View(): Books
      reads this
    {
      Books(audit, reviews, artifacts, finals, commands, underReview)
    }

    method InsertAuditEvent(event: AuditEvent, call: Call) returns (ok: bool)
      modifies this`audit
      ensures ok == call.Succeeds?
      ensures View() == if call.Fails? then old(View()) else Commit(old(View()), WAudit(event))
    {
      if !call.Fails? { audit := audit + [event]; }
      ok := call.Succeeds?;
    }

    method PublishCommand(command: Command, call: Call) returns (ok: bool)
      modifies this`commands
      ensures ok == call.Succeeds?
      ensures View() == if call.Fails? then old(View()) else Commit(old(View()), WCommand(command))
    {
      if !call.Fails? { commands := commands + [command]; }
      ok := call.Succeeds?;
    }

    method PatchQuestion(sub: nat, r: Reads, no: string, body: Patch, actor: string, calls: nat -> Call)
      returns (updated: Option<GradedQuestion>)
      modifies this
      ensures View() == Served(old(View()), OverrideRequest(old(View()), sub, r, no, body, actor), calls)
      ensures r.state != State.TeacherReview ==> View() == old(View())
      ensures updated.Some? <==>
              OverrideRequest(old(View()), sub, r, no, body, actor).Some? && calls(0).Succeeds? && calls(1).Succeeds?
      ensures updated.Some? ==>
              && PatchOutcome(r.graded.value, RowsOf(old(reviews), sub), no, body, actor).Some?
              && updated.value == PatchOutcome(r.graded.value, RowsOf(old(reviews), sub), no, body, actor).value.1
    {
      updated := None;
      if no == [] || r.state != State.TeacherReview || r.graded.None? || !r.listed {
        return;
      }
      var questions := ReviewView(r.graded.value, RowsOf(reviews, sub)).questions;
      var qIdx := FirstPosition(questions, no);
      if qIdx < 0 {
        return;
      }
      var currentQ := questions[qIdx];
      var row := OverrideRow(currentQ, body, actor);
      ghost var ws := Writes(DoOverride(sub, row, currentQ.feedback));
      ghost var start := View();
      var ok := InsertAuditEvent(OverrideQuestion(sub, row, currentQ.feedback), calls(0));
      if !ok {
        return;
      }
      assert Serve(start, ws, calls, 0) == Serve(View(), ws, calls, 1);
      if !calls(1).Fails? {
        reviews := reviews + [(sub, row)];
      }
      if !calls(1).Succeeds? {
        return;
      }
      assert Serve(start, ws, calls, 0) == Serve(View(), ws, calls, 2);
      updated := Some(currentQ.(awardedMarks := row.newMarks, feedback := row.feedback));
    }

    method Approve(sub: nat, r: Reads, actor: string, calls: nat -> Call) returns (grade: Option<FinalGrade>)
      modifies this
      ensures View() == Served(old(View()), ApproveRequest(old(View()), sub, r, actor), calls)
      ensures r.state != State.TeacherReview ==> View() == old(View())
      ensures grade.Some? <==>
              ApproveRequest(old(View()), sub, r, actor).Some? && forall k :: 0 <= k < 4 ==> calls(k).Succeeds?
      ensures grade.Some? ==> sub in finals && grade.value == finals[sub]
    {
      if r.state != State.TeacherReview || r.graded.None? || !r.listed {
        return None;
      }
      var effective := ReviewView(r.graded.value, RowsOf(reviews, sub));
      effective := RecomputeEffectiveTotals(effective);
      grade := Snapshot(sub, effective, actor, calls);
    }

    // Audit event, graded.final artifact, final_grade row, command
    method Snapshot(sub: nat, effective: GradedPaper, actor: string, calls: nat -> Call)
      returns (grade: Option<FinalGrade>)
      modifies this
      ensures View() == Serve(old(View()), Writes(DoApprove(sub, effective, actor)), calls, 0)
      ensures grade.Some? <==> forall k :: 0 <= k < 4 ==> calls(k).Succeeds?
      ensures grade.Some? ==> sub in finals && grade.value == finals[sub]
    {
      ghost var ws := Writes(DoApprove(sub, effective, actor));
      ghost var start := View();
      var ok := InsertAuditEvent(ApprovalOf(sub, effective, actor), calls(0));
      if !ok {
        return None;
      }
      assert Serve(start, ws, calls, 0) == Serve(View(), ws, calls, 1);
      if !calls(1).Fails? {
        artifacts := artifacts[sub := effective];
      }
      if !calls(1).Succeeds? {
        return None;
      }
      assert Serve(start, ws, calls, 0) == Serve(View(), ws, calls, 2);
      var fg := FinalGrade(effective.total, effective.maxTotal, effective.score100, actor);
      if !calls(2).Fails? {
        finals := finals[sub := fg];
      }
      if !calls(2).Succeeds? {
        return None;
      }
      assert Serve(start, ws, calls, 0) == Serve(View(), ws, calls, 3);
      ok := PublishCommand(Command(SApprove, sub), calls(3));
      if !ok {
        return None;
      }
      assert Serve(start, ws, calls, 0) == Serve(View(), ws, calls, 4);
      grade := Some(fg);
    }

    // Publish and Export: audit, then command.
    method Release(sub: nat, state: State, publish: bool, actor: string, calls: nat -> Call) returns (ok: bool)
      modifies this
      ensures var right := state == (if publish then Approved else Published);
              var req := if publish then DoPublish(sub, actor) else DoExport(sub, actor);
              && View() == Served(old(View()), if right then Some(req) else None, calls)
              && (state != Approved && state != Published ==> View() == old(View()))
              && ok == (right && calls(0).Succeeds? && calls(1).Succeeds?)
    {
      if state != (if publish then Approved else Published) {
        return false;
      }
      ghost var ws := Writes(if publish then DoPublish(sub, actor) else DoExport(sub, actor));
      ghost var start := View();
      ok := InsertAuditEvent(if publish then Publication(sub, actor) else Exportation(sub, actor), calls(0));
      if ok {
        assert Serve(start, ws, calls, 0) == Serve(View(), ws, calls, 1);
        ok := PublishCommand(Command(if publish then SPublish else SExport, sub), calls(1));
      }
    }

    method RegradeAppeal(appeal: Option<(nat, nat)>, actor: string, calls: nat -> Call) returns (ok: bool)
      modifies this
      ensures var req := if appeal.Some? then Some(DoRegrade(appeal.value.0, appeal.value.1, actor)) else None;
              View() == Served(old(View()), req, calls)
      ensures ok == (appeal.Some? && forall k :: 0 <= k < 3 ==> calls(k).Succeeds?)
    {
      if appeal.None? {
        return false;
      }
      var (id, sub) := appeal.value;
      ghost var ws := Writes(DoRegrade(id, sub, actor));
      ghost var start := View();
      ok := InsertAuditEvent(AppealRegrade(id, sub, actor), calls(0));
      if !ok {
        return;
      }
      assert Serve(start, ws, calls, 0) == Serve(View(), ws, calls, 1);
      ok := PublishCommand(Command(SRegrade, sub), calls(1));
      if !ok {
        return;
      }
      assert Serve(start, ws, calls, 0) == Serve(View(), ws, calls, 2);
      if !calls(2).Fails? {
        underReview := underReview + {id};
      }
      ok := calls(2).Succeeds?;
      if ok {
        assert Serve(start, ws, calls, 0) == Serve(View(), ws, calls, 3);
      }
    }
  }

  // What the handlers write, call by call ---------------------------------------------

  // Did calls 0 to k - 1 succeed, and call k take effect?
  predicate Reached(calls: nat -> Call, k: nat) {
    (forall j :: 0 <= j < k ==> calls(j) == Succeeds) && calls(k) != Fails
  }

  lemma ServedTwo(b: Books, ws: seq<Write>, calls: nat -> Call)
    requires |ws| == 2
    ensures var b1 := if Reached(calls, 0) then Commit(b, ws[0]) else b;
            Serve(b, ws, calls, 0) == if Reached(calls, 1) then Commit(b1, ws[1]) else b1
  {
    var b1 := if calls(0).Fails? then b else Commit(b, ws[0]);
    var b2 := if calls(1).Fails? then b1 else Commit(b1, ws[1]);
    assert Serve(b, ws, calls, 0) == if calls(0).Succeeds? then Serve(b1, ws, calls, 1) else b1;
    assert Serve(b1, ws, calls, 1) == if calls(1).Succeeds? then Serve(b2, ws, calls, 2) else b2;
  }

  // An override is written only in teacher_review, for a question the paper has:
  // its audit event first, then its row.
  lemma OverrideWrites(b: Books, sub: nat, r: Reads, no: string, body: Patch, actor: string, calls: nat -> Call)
    ensures var b' := Served(b, OverrideRequest(b, sub, r, no, body, actor), calls);
            if r.state != State.TeacherReview || r.graded.None? || !r.listed || no == "" then b' == b
            else
              var outcome := PatchOutcome(r.graded.value, RowsOf(b.reviews, sub), no, body, actor);
              var qs := ReviewView(r.graded.value, RowsOf(b.reviews, sub)).questions;
              if outcome.None? then b' == b
              else
                var i, row := FirstPosition(qs, no), outcome.value.0;
                0 <= i < |qs| &&
                b' == b.(audit := if Reached(calls, 0) then b.audit + [OverrideQuestion(sub, row, qs[i].feedback)]
                                  else b.audit,
                         reviews := if Reached(calls, 1) then b.reviews + [(sub, row)] else b.reviews)
  {
    var req := OverrideRequest(b, sub, r, no, body, actor);
    if req.Some? {
      ServedTwo(b, Writes(req.value), calls);
    }
  }

  // An approval is written only in teacher_review: its audit event, the artifact,
  // the grade row with the same totals and the teacher, and the command.
  lemma ApprovalWrites(b: Books, sub: nat, r: Reads, actor: string, calls: nat -> Call)
    ensures var b' := Served(b, ApproveRequest(b, sub, r, actor), calls);
            if r.state != State.TeacherReview || r.graded.None? || !r.listed then b' == b
            else
              var p := Effective(r.graded.value, RowsOf(b.reviews, sub));
              b' == b.(audit := if Reached(calls, 0)
                                then b.audit + [Approval(sub, p.total, p.maxTotal, p.score100, actor)] else b.audit,
                       artifacts := if Reached(calls, 1) then b.artifacts[sub := p] else b.artifacts,
                       finals := if Reached(calls, 2)
                                 then b.finals[sub := FinalGrade(p.total, p.maxTotal, p.score100, actor)] else b.finals,
                       commands := if Reached(calls, 3) then b.commands + [Command(SApprove, sub)] else b.commands)
  {
    if ApproveRequest(b, sub, r, actor).Some? {
      var ws := Writes(ApproveRequest(b, sub, r, actor).value);
      var b1 := if calls(0).Fails? then b else Commit(b, ws[0]);
      var b2 := if calls(1).Fails? then b1 else Commit(b1, ws[1]);
      var b3 := if calls(2).Fails? then b2 else Commit(b2, ws[2]);
      var b4 := if calls(3).Fails? then b3 else Commit(b3, ws[3]);
      assert Serve(b, ws, calls, 0) == if calls(0).Succeeds? then Serve(b1, ws, calls, 1) else b1;
      assert Serve(b1, ws, calls, 1) == if calls(1).Succeeds? then Serve(b2, ws, calls, 2) else b2;
      assert Serve(b2, ws, calls, 2) == if calls(2).Succeeds? then Serve(b3, ws, calls, 3) else b3;
      assert Serve(b3, ws, calls, 3) == if calls(3).Succeeds? then Serve(b4, ws, calls, 4) else b4;
    }
  }

  // Publish and export write their audit event and then their command.
  lemma ReleaseWrites(b: Books, sub: nat, publish: bool, actor: string, calls: nat -> Call)
    ensures Served(b, Some(if publish then DoPublish(sub, actor) else DoExport(sub, actor)), calls) ==
            b.(audit := if Reached(calls, 0)
                        then b.audit + [if publish then Publication(sub, actor) else Exportation(sub, actor)]
                        else b.audit,
               commands := if Reached(calls, 1)
                           then b.commands + [Command(if publish then SPublish else SExport, sub)] else b.commands)
  {
    ServedTwo(b, Writes(if publish then DoPublish(sub, actor) else DoExport(sub, actor)), calls);
  }

  // A regrade by appeal writes its audit event, the command and the appeal's status.
  lemma RegradeWrites(b: Books, appeal: nat, sub: nat, actor: string, calls: nat -> Call)
    ensures Served(b, Some(DoRegrade(appeal, sub, actor)), calls) ==
            b.(audit := if Reached(calls, 0) then b.audit + [AppealRegrade(appeal, sub, actor)] else b.audit,
               commands := if Reached(calls, 1) then b.commands + [Command(SRegrade, sub)] else b.commands,
               underReview := if Reached(calls, 2) then b.underReview + {appeal} else b.underReview)
  {
    var ws := Writes(DoRegrade(appeal, sub, actor));
    var b1 := if calls(0).Fails? then b else Commit(b, ws[0]);
    var b2 := if calls(1).Fails? then b1 else Commit(b1, ws[1]);
    var b3 := if calls(2).Fails? then b2 else Commit(b2, ws[2]);
    assert Serve(b, ws, calls, 0) == if calls(0).Succeeds? then Serve(b1, ws, calls, 1) else b1;
    assert Serve(b1, ws, calls, 1) == if calls(1).Succeeds? then Serve(b2, ws, calls, 2) else b2;
    assert Serve(b2, ws, calls, 2) == if calls(2).Succeeds? then Serve(b3, ws, calls, 3) else b3;
  }

  // A request served on its own is one of the runs the dominance theorem covers.
  lemma {:induction false} ServingIsARun(w: World, i: nat, calls: nat -> Call) returns (ms: seq<Move>)
    requires i < |w.active| && w.active[i].done <= |Writes(w.active[i].req)|
    ensures CanPlay(w, ms)
    ensures Play(w, ms).books == Serve(w.books, Writes(w.active[i].req), calls, w.active[i].done)
    decreases |Writes(w.active[i].req)| - w.active[i].done
  {
    var a := w.active[i];
    if a.done == |Writes(a.req)| {
      ms := [];
    } else {
      var m := Next(i, calls(a.done));
      var rest: seq<Move> := [];
      if calls(a.done).Succeeds? {
        rest := ServingIsARun(Advance(w, m), i, calls);
      }
      ms := [m] + rest;
      assert ms[1..] == rest;
    }
  }
}
