/** Teacher overrides laid over a graded paper (overlayReviews), and the
    override request (PatchQuestion) up to the row it would insert. */
module Overlay {
  import opened Wrappers
  import opened Papers
  import opened Totals

  datatype TeacherReview = TeacherReview(
    questionNo: string, oldMarks: real, newMarks: real, feedback: string, comment: string, actor: string)

  // PATCH body: every field optional
  datatype Patch = Patch(awardedMarks: Option<real>, feedback: Option<string>, comment: Option<string>)

  ghost predicate UniqueNumbers(qs: seq<GradedQuestion>) {
    forall i, j :: 0 <= i < j < |qs| ==> qs[i].questionNo != qs[j].questionNo
  }

  // The position the index map holds for a number: the last question with it.
  function PositionOf(qs: seq<GradedQuestion>, no: string): (i: int)
    ensures -1 <= i < |qs|
    ensures i >= 0 ==> qs[i].questionNo == no
    ensures forall j :: i < j < |qs| ==> qs[j].questionNo != no
  {
    if qs == [] then -1
    else if qs[|qs| - 1].questionNo == no then |qs| - 1
    else PositionOf(qs[..|qs| - 1], no)
  }

  function Overridden(q: GradedQuestion, r: TeacherReview): GradedQuestion {
    q.(awardedMarks := r.newMarks, feedback := if r.feedback != [] then r.feedback else q.feedback)
  }

  function Apply(qs: seq<GradedQuestion>, r: TeacherReview): (out: seq<GradedQuestion>)
    ensures |out| == |qs|
  {
    var i := PositionOf(qs, r.questionNo);
    if i < 0 then qs else qs[i := Overridden(qs[i], r)]
  }

  function Overlaid(qs: seq<GradedQuestion>, reviews: seq<TeacherReview>): (out: seq<GradedQuestion>)
    ensures |out| == |qs|
  {
    if reviews == [] then qs
    else Apply(Overlaid(qs, reviews[..|reviews| - 1]), reviews[|reviews| - 1])
  }

  // The effective paper of the review view: untouched when nothing was overridden.
  function ReviewView(p: GradedPaper, reviews: seq<TeacherReview>): GradedPaper {
    if reviews == [] then p else Recomputed(p.(questions := Overlaid(p.questions, reviews)))
  }

  lemma {:induction false} NumbersKept(qs: seq<GradedQuestion>, reviews: seq<TeacherReview>)
    ensures forall i :: 0 <= i < |qs| ==> Overlaid(qs, reviews)[i].questionNo == qs[i].questionNo
    ensures forall i :: 0 <= i < |qs| ==> Overlaid(qs, reviews)[i].maxMarks == qs[i].maxMarks
    ensures UniqueNumbers(qs) ==> UniqueNumbers(Overlaid(qs, reviews))
  {
    if reviews != [] {
      NumbersKept(qs, reviews[..|reviews| - 1]);
    }
  }

  lemma {:induction false} SamePosition(a: seq<GradedQuestion>, b: seq<GradedQuestion>, no: string)
    requires |a| == |b| && forall i :: 0 <= i < |a| ==> a[i].questionNo == b[i].questionNo
    ensures PositionOf(a, no) == PositionOf(b, no)
  {
    if a != [] {
      SamePosition(a[..|a| - 1], b[..|b| - 1], no);
    }
  }

  ghost predicate Indexes(idx: map<string, nat>, qs: seq<GradedQuestion>) {
    && (forall no :: no in idx ==> idx[no] == PositionOf(qs, no))
    && (forall no :: PositionOf(qs, no) >= 0 ==> no in idx)
  }

  method BuildIndex(qs: seq<GradedQuestion>) returns (idx: map<string, nat>)
    ensures Indexes(idx, qs)
  {
    idx := map[];
    for i := 0 to |qs|
      invariant Indexes(idx, qs[..i])
    {
      assert qs[..i + 1][..i] == qs[..i];
      idx := idx[qs[i].questionNo := i];
    }
    assert qs[..|qs|] == qs;
  }

  // The questions are overwritten in place, through an index map built once.
  method OverlayReviews(questions: array<GradedQuestion>, reviews: seq<TeacherReview>)
    modifies questions
    ensures questions[..] == Overlaid(old(questions[..]), reviews)
  {
    ghost var was := questions[..];
    var idx := BuildIndex(questions[..]);
    for k := 0 to |reviews|
      invariant questions[..] == Overlaid(was, reviews[..k])
    {
      assert reviews[..k + 1][..k] == reviews[..k];
      var r := reviews[k];
      ghost var now := questions[..];
      NumbersKept(was, reviews[..k]);
      SamePosition(was, now, r.questionNo);
      if r.questionNo in idx {
        var i := idx[r.questionNo];
        questions[i] := Overridden(questions[i], r);
        assert questions[..] == now[i := Overridden(now[i], r)];
      }
    }
    assert reviews[..|reviews|] == reviews;
  }

  // Last write wins -----------------------------------------------------------------

  function LastMarks(reviews: seq<TeacherReview>, no: string): Option<real> {
    if reviews == [] then None
    else if reviews[|reviews| - 1].questionNo == no then Some(reviews[|reviews| - 1].newMarks)
    else LastMarks(reviews[..|reviews| - 1], no)
  }

  function LastFeedback(reviews: seq<TeacherReview>, no: string): Option<string> {
    if reviews == [] then None
    else
      var last := reviews[|reviews| - 1];
      if last.questionNo == no && last.feedback != [] then Some(last.feedback)
      else LastFeedback(reviews[..|reviews| - 1], no)
  }

  function Or<T>(o: Option<T>, other: T): T {
    if o.Some? then o.value else other
  }

  // With unique numbers every question shows its last review's marks and its
  // last non-empty feedback, and is otherwise as it was graded.
  lemma {:induction false} LastReviewWins(qs: seq<GradedQuestion>, reviews: seq<TeacherReview>, i: nat)
    requires UniqueNumbers(qs) && i < |qs|
    ensures Overlaid(qs, reviews)[i] ==
            qs[i].(awardedMarks := Or(LastMarks(reviews, qs[i].questionNo), qs[i].awardedMarks),
                   feedback := Or(LastFeedback(reviews, qs[i].questionNo), qs[i].feedback))
  {
    if reviews != [] {
      var init, last := reviews[..|reviews| - 1], reviews[|reviews| - 1];
      LastReviewWins(qs, init, i);
      NumbersKept(qs, init);
    }
  }

  // Overriding -----------------------------------------------------------------------

  function FirstPosition(qs: seq<GradedQuestion>, no: string): (i: int)
    ensures -1 <= i < |qs|
    ensures i >= 0 ==> qs[i].questionNo == no && forall j :: 0 <= j < i ==> qs[j].questionNo != no
    ensures i < 0 ==> forall j :: 0 <= j < |qs| ==> qs[j].questionNo != no
  {
    if qs == [] then -1
    else if qs[0].questionNo == no then 0
    else var i := FirstPosition(qs[1..], no); if i < 0 then -1 else i + 1
  }

  // What a request on an effective question asks to persist: marks clamped
  // to the question's, feedback kept when none is supplied.
  function OverrideRow(q: GradedQuestion, body: Patch, actor: string): TeacherReview {
    var newMarks :=
      if body.awardedMarks.None? then q.awardedMarks
      else
        var m := if body.awardedMarks.value < 0.0 then 0.0 else body.awardedMarks.value;
        if m > q.maxMarks then q.maxMarks else m;
    TeacherReview(q.questionNo, q.awardedMarks, newMarks, Or(body.feedback, q.feedback), Or(body.comment, []), actor)
  }

  // The row PatchQuestion inserts and the question it returns, None for a 404
  function PatchOutcome(p: GradedPaper, reviews: seq<TeacherReview>, no: string, body: Patch, actor: string)
    : Option<(TeacherReview, GradedQuestion)>
  {
    var qs := ReviewView(p, reviews).questions;
    var i := FirstPosition(qs, no);
    if i < 0 then None
    else
      var row := OverrideRow(qs[i], body, actor);
      Some((row, qs[i].(awardedMarks := row.newMarks, feedback := row.feedback)))
  }

  // The marks a request leads to on a question of these marks and this maximum:
  // the ones asked for as far as they lie within it, the old ones when none are.
  predicate MarksFor(asked: Option<real>, shown: real, max: real, marks: real) {
    match asked
    case None => marks == shown
    case Some(m) =>
      && (0.0 <= m <= max ==> marks == m)
      && (m > max ==> marks == max)
      && (m < 0.0 <= max ==> marks == 0.0)
      && (m <= max < 0.0 ==> marks == max)
  }

  // What the teacher asked for is what is inserted and returned, on the first
  // question of that number; a request finds one exactly when there is one.
  lemma RequestIsGranted(p: GradedPaper, reviews: seq<TeacherReview>, no: string, body: Patch, actor: string)
    ensures var qs, outcome := ReviewView(p, reviews).questions, PatchOutcome(p, reviews, no, body, actor);
            && (outcome.None? <==> forall j :: 0 <= j < |qs| ==> qs[j].questionNo != no)
            && (outcome.Some? ==>
                  var (row, returned) := outcome.value;
                  var i := FirstPosition(qs, no);
                  && 0 <= i < |qs| && (forall j :: 0 <= j < i ==> qs[j].questionNo != no) && qs[i].questionNo == no
                  && MarksFor(body.awardedMarks, qs[i].awardedMarks, qs[i].maxMarks, row.newMarks)
                  && (qs[i].maxMarks >= 0.0 && body.awardedMarks.Some? ==> 0.0 <= row.newMarks <= qs[i].maxMarks)
                  && row.questionNo == no && row.oldMarks == qs[i].awardedMarks && row.actor == actor
                  && row.feedback == (if body.feedback.Some? then body.feedback.value else qs[i].feedback)
                  && row.comment == (if body.comment.Some? then body.comment.value else "")
                  && returned == qs[i].(awardedMarks := row.newMarks, feedback := row.feedback))
  {
  }

  lemma {:induction false} SumReplaced(qs: seq<GradedQuestion>, i: nat, q: GradedQuestion)
    requires i < |qs|
    ensures SumAwarded(qs[i := q]) == SumAwarded(qs) - qs[i].awardedMarks + q.awardedMarks
  {
    var n := |qs| - 1;
    if i == n {
      assert qs[i := q][..n] == qs[..n];
    } else {
      assert qs[i := q][..n] == qs[..n][i := q];
      SumReplaced(qs[..n], i, q);
    }
  }

  // What an override does to the next view: the handler reads the first question
  // with the number, the overlay writes the last one.
  lemma OverrideHitsTheLast(p: GradedPaper, reviews: seq<TeacherReview>, no: string, body: Patch, actor: string)
    requires PatchOutcome(p, reviews, no, body, actor).Some?
    ensures var (row, returned) := PatchOutcome(p, reviews, no, body, actor).value;
            var before, after := ReviewView(p, reviews).questions, ReviewView(p, reviews + [row]).questions;
            var first, last := FirstPosition(before, no), PositionOf(before, no);
            0 <= first <= last < |before| && after == before[last := Overridden(before[last], row)]
  {
    var (row, returned) := PatchOutcome(p, reviews, no, body, actor).value;
    assert ReviewView(p, reviews).questions == Overlaid(p.questions, reviews);
    assert (reviews + [row])[..|reviews|] == reviews;
  }

  // The question the override returned shows its marks in the next view exactly
  // when it is the last with its number, or its marks do not change.
  lemma MarksShowIffLast(p: GradedPaper, reviews: seq<TeacherReview>, no: string, body: Patch, actor: string)
    requires PatchOutcome(p, reviews, no, body, actor).Some?
    ensures var (row, returned) := PatchOutcome(p, reviews, no, body, actor).value;
            var before, after := ReviewView(p, reviews).questions, ReviewView(p, reviews + [row]).questions;
            var first := FirstPosition(before, no);
            && 0 <= first < |after| == |before|
            && (after[first].awardedMarks == returned.awardedMarks <==>
                  (first == PositionOf(before, no) || row.newMarks == row.oldMarks))
  {
    OverrideHitsTheLast(p, reviews, no, body, actor);
  }

  // With one question of that number, every other question is untouched, the
  // returned feedback shows exactly when it is non-empty or there was none before,
  // and the total moves by new minus old exactly when the first override found a
  // paper whose total was its sum.
  lemma NextViewShowsTheOverride(p: GradedPaper, reviews: seq<TeacherReview>, no: string, body: Patch, actor: string)
    requires PatchOutcome(p, reviews, no, body, actor).Some?
    requires FirstPosition(p.questions, no) == PositionOf(p.questions, no)
    ensures var (row, returned) := PatchOutcome(p, reviews, no, body, actor).value;
            var before, after := ReviewView(p, reviews), ReviewView(p, reviews + [row]);
            var i := FirstPosition(before.questions, no);
            && i >= 0 && |after.questions| == |before.questions|
            && after.questions == before.questions[i := after.questions[i]]
            && after.questions[i] == returned.(feedback := after.questions[i].feedback)
            && (after.questions[i].feedback == returned.feedback <==>
                  (row.feedback != [] || before.questions[i].feedback == []))
            && (after.total == before.total + row.newMarks - row.oldMarks <==>
                  (reviews != [] || p.total == SumAwarded(p.questions)))
  {
    var (row, returned) := PatchOutcome(p, reviews, no, body, actor).value;
    var qs := ReviewView(p, reviews).questions;
    assert qs == Overlaid(p.questions, reviews);
    NumbersKept(p.questions, reviews);
    SamePosition(p.questions, qs, no);
    var i := FirstPosition(qs, no);
    OverrideHitsTheLast(p, reviews, no, body, actor);
    SumReplaced(qs, i, Overridden(qs[i], row));
  }

  // So the next view shows what was asked for.
  lemma NextViewShowsTheRequest(p: GradedPaper, reviews: seq<TeacherReview>, no: string, body: Patch, actor: string)
    requires PatchOutcome(p, reviews, no, body, actor).Some?
    requires FirstPosition(p.questions, no) == PositionOf(p.questions, no)
    ensures var row := PatchOutcome(p, reviews, no, body, actor).value.0;
            var before, after := ReviewView(p, reviews).questions, ReviewView(p, reviews + [row]).questions;
            var i := FirstPosition(before, no);
            && 0 <= i < |before| == |after| && before[i].questionNo == no
            && MarksFor(body.awardedMarks, before[i].awardedMarks, before[i].maxMarks, after[i].awardedMarks)
            && (body.feedback.Some? && body.feedback.value != [] ==> after[i].feedback == body.feedback.value)
            && (body.feedback.None? || body.feedback.value == [] ==> after[i].feedback == before[i].feedback)
  {
    RequestIsGranted(p, reviews, no, body, actor);
    NextViewShowsTheOverride(p, reviews, no, body, actor);
    OverrideHitsTheLast(p, reviews, no, body, actor);
    NumbersKept(p.questions, reviews);
    SamePosition(p.questions, ReviewView(p, reviews).questions, no);
  }

  // Later reviews ---------------------------------------------------------------------

  // By how much reviews move the marks: each by its new marks less those shown
  // before on the question it hits.
  function NetChange(qs: seq<GradedQuestion>, reviews: seq<TeacherReview>): real {
    if reviews == [] then 0.0
    else
      var now, r := Overlaid(qs, reviews[..|reviews| - 1]), reviews[|reviews| - 1];
      var i := PositionOf(now, r.questionNo);
      NetChange(qs, reviews[..|reviews| - 1]) + (if i < 0 then 0.0 else r.newMarks - now[i].awardedMarks)
  }

  lemma {:induction false} SumOverlaid(qs: seq<GradedQuestion>, reviews: seq<TeacherReview>)
    ensures SumAwarded(Overlaid(qs, reviews)) == SumAwarded(qs) + NetChange(qs, reviews)
  {
    if reviews != [] {
      var now, r := Overlaid(qs, reviews[..|reviews| - 1]), reviews[|reviews| - 1];
      SumOverlaid(qs, reviews[..|reviews| - 1]);
      var i := PositionOf(now, r.questionNo);
      if i >= 0 {
        SumReplaced(now, i, Overridden(now[i], r));
      }
    }
  }

  lemma {:induction false} OverlaidAppend(qs: seq<GradedQuestion>, a: seq<TeacherReview>, b: seq<TeacherReview>)
    ensures Overlaid(qs, a + b) == Overlaid(Overlaid(qs, a), b)
  {
    if b == [] {
      assert a + b == a;
    } else {
      assert (a + b)[..|a + b| - 1] == a + b[..|b| - 1];
      OverlaidAppend(qs, a, b[..|b| - 1]);
    }
  }

  lemma {:induction false} SumMaxKept(a: seq<GradedQuestion>, b: seq<GradedQuestion>)
    requires |a| == |b| && forall i :: 0 <= i < |a| ==> a[i].maxMarks == b[i].maxMarks
    ensures SumMax(a) == SumMax(b)
  {
    if a != [] {
      SumMaxKept(a[..|a| - 1], b[..|b| - 1]);
    }
  }

  // What the approval writes: the recomputed review view
  function Effective(p: GradedPaper, reviews: seq<TeacherReview>): GradedPaper {
    Recomputed(ReviewView(p, reviews))
  }

  // Further reviews leave its totals alone exactly when they change the marks
  // by nothing altogether.
  lemma SameTotalsIff(p: GradedPaper, a: seq<TeacherReview>, b: seq<TeacherReview>)
    ensures Effective(p, a + b).maxTotal == Effective(p, a).maxTotal
    ensures Effective(p, a + b).total == Effective(p, a).total + NetChange(ReviewView(p, a).questions, b)
    ensures Effective(p, a + b).total == Effective(p, a).total ==>
              Effective(p, a + b).score100 == Effective(p, a).score100
  {
    var before := Overlaid(p.questions, a);
    assert ReviewView(p, a).questions == before;
    assert ReviewView(p, a + b).questions == Overlaid(p.questions, a + b);
    OverlaidAppend(p.questions, a, b);
    SumOverlaid(before, b);
    NumbersKept(before, b);
    SumMaxKept(Overlaid(before, b), before);
  }

  lemma OneReviewMoves(p: GradedPaper, r: TeacherReview)
    requires var i := PositionOf(p.questions, r.questionNo); i >= 0 && p.questions[i].awardedMarks != r.newMarks
    ensures Effective(p, [r]).total != Effective(p, []).total
  {
    SameTotalsIff(p, [], [r]);
    assert [] + [r] == [r] && [r][..0] == [];
  }
}
