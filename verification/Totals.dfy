/** Totals, sections and the 0-100 score: GradePaper of the grade stage and
    recomputeEffectiveTotals of the review and approval handlers. */
module Totals {
  import opened Wrappers
  import opened Papers
  import opened Matchers
  import opened Schemes

  // int64(x): truncation toward zero, for values within range
  function Trunc(x: real): int {
    if x >= 0.0 then x.Floor else -((-x).Floor)
  }

  // roundTo1 of the grade stage and reviewRoundTo1 of the review handlers
  function RoundTo1(f: real): real {
    Trunc(f * 10.0 + 0.5) as real / 10.0
  }

  function Score100(total: real, maxTotal: real): real {
    if maxTotal > 0.0 then RoundTo1(100.0 * total / maxTotal) else 0.0
  }

  function SumAwarded(qs: seq<GradedQuestion>): real {
    if qs == [] then 0.0 else SumAwarded(qs[..|qs| - 1]) + qs[|qs| - 1].awardedMarks
  }

  function SumMax(qs: seq<GradedQuestion>): real {
    if qs == [] then 0.0 else SumMax(qs[..|qs| - 1]) + qs[|qs| - 1].maxMarks
  }

  function SectionKey(q: GradedQuestion): string {
    if q.section.Some? then q.section.value else "?"
  }

  function SectionSum(qs: seq<GradedQuestion>, key: string): real {
    if qs == [] then 0.0
    else
      var last := qs[|qs| - 1];
      SectionSum(qs[..|qs| - 1], key) + (if SectionKey(last) == key then last.awardedMarks else 0.0)
  }

  // The totals of a paper are those of its questions.
  ghost predicate Totalled(p: GradedPaper) {
    && p.total == SumAwarded(p.questions)
    && p.maxTotal == SumMax(p.questions)
    && p.score100 == Score100(p.total, p.maxTotal)
  }

  // section_totals as the loop builds it
  function SectionMap(qs: seq<GradedQuestion>): map<string, real> {
    if qs == [] then map[]
    else
      var m, last := SectionMap(qs[..|qs| - 1]), qs[|qs| - 1];
      var key := SectionKey(last);
      m[key := (if key in m then m[key] else 0.0) + last.awardedMarks]
  }

  // A mark scheme's answer for one question: an error carries what the scheme
  // had filled in so far.
  datatype SchemeResult = SchemeResult(graded: GradedQuestion, err: bool)

  function Isolated(q: TranscribedQuestion, r: SchemeResult): GradedQuestion {
    if r.err then
      Graded(q, if r.graded.maxMarks == 0.0 then q.maxMarks else r.graded.maxMarks, 0.0, GradingFailed, 0.0,
             AnswerFlags(q) + [GradingFailedFlag])
    else r.graded
  }

  // scheme(i, q) is what the scheme answers for the i-th question, q: a model may
  // answer equal questions differently.
  method GradePaper(scheme: (nat, TranscribedQuestion) -> SchemeResult, questions: seq<TranscribedQuestion>)
    returns (paper: GradedPaper)
    ensures |paper.questions| == |questions|
    ensures forall i :: 0 <= i < |questions| ==>
              paper.questions[i] == Isolated(questions[i], scheme(i, questions[i]))
    ensures Totalled(paper) && paper.sectionTotals == SectionMap(paper.questions)
  {
    var graded := [];
    for i := 0 to |questions|
      invariant |graded| == i
      invariant forall j :: 0 <= j < i ==> graded[j] == Isolated(questions[j], scheme(j, questions[j]))
    {
      var q := questions[i];
      var r := scheme(i, q);
      var gq := r.graded;
      if r.err {
        var maxMarks := gq.maxMarks;
        if maxMarks == 0.0 {
          maxMarks := q.maxMarks;
        }
        gq := Graded(q, maxMarks, 0.0, GradingFailed, 0.0, AnswerFlags(q) + [GradingFailedFlag]);
      }
      graded := graded + [gq];
    }
    var total, maxTotal := 0.0, 0.0;
    var sectionTotals: map<string, real> := map[];
    for i := 0 to |graded|
      invariant total == SumAwarded(graded[..i]) && maxTotal == SumMax(graded[..i])
      invariant sectionTotals == SectionMap(graded[..i])
    {
      var gq := graded[i];
      total := total + gq.awardedMarks;
      maxTotal := maxTotal + gq.maxMarks;
      var key := SectionKey(gq);
      var before := if key in sectionTotals then sectionTotals[key] else 0.0;
      sectionTotals := sectionTotals[key := before + gq.awardedMarks];
      assert graded[..i + 1][..i] == graded[..i];
    }
    assert graded[..|graded|] == graded;
    var score := 0.0;
    if maxTotal > 0.0 {
      score := RoundTo1(100.0 * total / maxTotal);
    }
    paper := GradedPaper(graded, sectionTotals, total, maxTotal, score);
  }

  // A question the scheme fails on earns nothing, marked as failed, against the
  // maximum the scheme had filled in or else the paper's; any other is kept.
  lemma FailureIsIsolated(q: TranscribedQuestion, r: SchemeResult)
    ensures !r.err ==> Isolated(q, r) == r.graded
    ensures r.err ==>
              var g := Isolated(q, r);
              && g.awardedMarks == 0.0 && g.confidence == 0.0 && g.justification == GradingFailed
              && g.questionNo == q.questionNo && g.section == q.section && g.studentAnswer == q.studentAnswer
              && g.maxMarks == (if r.graded.maxMarks != 0.0 then r.graded.maxMarks else q.maxMarks)
              && g.flags != [] && g.flags[|g.flags| - 1] == GradingFailedFlag
  {
  }

  // The two sums: of one question, and of two lists put together
  lemma {:induction false} SumsAdd(a: seq<GradedQuestion>, b: seq<GradedQuestion>)
    ensures SumAwarded([]) == 0.0 && SumMax([]) == 0.0
    ensures |a| == 1 ==> SumAwarded(a) == a[0].awardedMarks && SumMax(a) == a[0].maxMarks
    ensures SumAwarded(a + b) == SumAwarded(a) + SumAwarded(b) && SumMax(a + b) == SumMax(a) + SumMax(b)
  {
    if |a| == 1 {
      assert a[..0] == [];
    }
    if b == [] {
      assert a + b == a;
    } else {
      SumsAdd(a, b[..|b| - 1]);
      assert (a + b)[..|a + b| - 1] == a + b[..|b| - 1];
    }
  }

  // The score is the percentage of the maximum, rounded, and 0 without a maximum.
  lemma ScoreIsThePercentage(p: GradedPaper)
    requires Totalled(p)
    ensures p.maxTotal <= 0.0 ==> p.score100 == 0.0
    ensures p.maxTotal > 0.0 ==>
              exists exact: real :: exact * p.maxTotal == 100.0 * p.total && p.score100 == RoundTo1(exact)
  {
    if p.maxTotal > 0.0 {
      var exact := 100.0 * p.total / p.maxTotal;
      assert exact * p.maxTotal == 100.0 * p.total;
    }
  }

  // A question counts under its section's name, and under ? without one.
  lemma {:induction false} SectionsAreNamed(qs: seq<GradedQuestion>, name: string)
    ensures name in SectionMap(qs) <==>
            exists i :: 0 <= i < |qs| && (qs[i].section == Some(name) || (qs[i].section == None && name == "?"))
  {
    SectionExact(qs, name);
    forall i | 0 <= i < |qs|
      ensures SectionKey(qs[i]) == name <==> qs[i].section == Some(name) || (qs[i].section == None && name == "?")
    {
    }
  }

  // Conservation ------------------------------------------------------------------

  ghost function MapSum(m: map<string, real>): real
    decreases |m|
  {
    if m == map[] then 0.0 else
      var k :| k in m;
      m[k] + MapSum(m - {k})
  }

  lemma {:induction false} MapSumPick(m: map<string, real>, k: string)
    requires k in m
    ensures MapSum(m) == m[k] + MapSum(m - {k})
    decreases |m|
  {
    var j :| j in m && MapSum(m) == m[j] + MapSum(m - {j});
    if j != k {
      MapSumPick(m - {j}, k);
      MapSumPick(m - {k}, j);
      assert m - {j} - {k} == m - {k} - {j};
    }
  }

  lemma MapSumUpdate(m: map<string, real>, k: string, v: real)
    ensures MapSum(m[k := v]) == MapSum(m) - (if k in m then m[k] else 0.0) + v
  {
    MapSumPick(m[k := v], k);
    assert m[k := v] - {k} == m - {k};
    if k in m {
      MapSumPick(m, k);
    } else {
      assert m - {k} == m;
    }
  }

  // Each section's total is the sum over its questions.
  lemma {:induction false} SectionExact(qs: seq<GradedQuestion>, key: string)
    ensures key in SectionMap(qs) <==> exists i :: 0 <= i < |qs| && SectionKey(qs[i]) == key
    ensures (if key in SectionMap(qs) then SectionMap(qs)[key] else 0.0) == SectionSum(qs, key)
  {
    if qs != [] {
      var init, last := qs[..|qs| - 1], qs[|qs| - 1];
      SectionExact(init, key);
      SectionSeen(init, last, key);
      assert init + [last] == qs;
    }
  }

  // The sections add up to the total.
  lemma {:induction false} SectionsAddUp(qs: seq<GradedQuestion>)
    ensures MapSum(SectionMap(qs)) == SumAwarded(qs)
  {
    if qs != [] {
      var init, last := qs[..|qs| - 1], qs[|qs| - 1];
      SectionsAddUp(init);
      var m, key := SectionMap(init), SectionKey(last);
      MapSumUpdate(m, key, (if key in m then m[key] else 0.0) + last.awardedMarks);
    }
  }

  lemma SectionSeen(init: seq<GradedQuestion>, last: GradedQuestion, k: string)
    ensures (exists i :: 0 <= i < |init + [last]| && SectionKey((init + [last])[i]) == k) <==>
            SectionKey(last) == k || exists i :: 0 <= i < |init| && SectionKey(init[i]) == k
  {
    var all := init + [last];
    assert all[|init|] == last;
    assert forall i :: 0 <= i < |init| ==> all[i] == init[i];
  }

  // Every question has marks between 0 and its maximum.
  ghost predicate Bounded(qs: seq<GradedQuestion>) {
    forall i :: 0 <= i < |qs| ==> 0.0 <= qs[i].awardedMarks <= qs[i].maxMarks
  }

  lemma {:induction false} SumsBounded(qs: seq<GradedQuestion>)
    requires Bounded(qs)
    ensures 0.0 <= SumAwarded(qs) <= SumMax(qs)
  {
    if qs != [] {
      SumsBounded(qs[..|qs| - 1]);
    }
  }

  lemma Percentage(total: real, maxTotal: real)
    requires maxTotal > 0.0 && 0.0 <= total <= maxTotal
    ensures 0.0 <= 100.0 * total / maxTotal <= 100.0
  {
    assert 100.0 * maxTotal / maxTotal == 100.0;
  }

  // Rounding is off by at most 0.05.
  lemma RoundingError(f: real)
    requires f >= 0.0
    ensures f - 0.05 < RoundTo1(f) <= f + 0.05
  {
  }

  // The result has one decimal; it is the nearest such value from -0.05 on, and
  // below that, where truncation rounds up, the next but one above at most.
  lemma RoundsToOneDecimal(f: real)
    ensures RoundTo1(f) * 10.0 == (RoundTo1(f) * 10.0).Floor as real
    ensures f >= -0.05 ==> f - 0.05 < RoundTo1(f) <= f + 0.05
    ensures f < -0.05 ==> f + 0.05 <= RoundTo1(f) < f + 0.15
  {
    var n := Trunc(f * 10.0 + 0.5);
    TruncError(f * 10.0 + 0.5, n);
    TenfoldOf(n, RoundTo1(f));
  }

  lemma TruncError(x: real, n: int)
    requires n == Trunc(x)
    ensures x >= 0.0 ==> x - 1.0 < n as real <= x
    ensures x < 0.0 ==> x <= n as real < x + 1.0
  {
  }

  lemma TenfoldOf(n: int, r: real)
    requires r == n as real / 10.0
    ensures r * 10.0 == n as real && (r * 10.0).Floor == n
  {
  }

  lemma FloorMonotone(x: real, y: real)
    requires x <= y
    ensures x.Floor <= y.Floor
  {
    assert x.Floor as real <= x && y < y.Floor as real + 1.0;
  }

  lemma RoundingMonotone(f: real, g: real)
    requires 0.0 <= f <= g
    ensures 0.0 <= RoundTo1(f) <= RoundTo1(g)
  {
    FloorMonotone(f * 10.0 + 0.5, g * 10.0 + 0.5);
  }

  // Mark conservation and one score: for a paper within bounds, the sections
  // add up to the total, and the score is a rounded percentage.
  lemma MarksAreConserved(p: GradedPaper)
    requires Totalled(p) && p.sectionTotals == SectionMap(p.questions) && Bounded(p.questions)
    ensures MapSum(p.sectionTotals) == p.total && 0.0 <= p.total <= p.maxTotal
    ensures 0.0 <= p.score100 <= 100.0
    ensures p.maxTotal > 0.0 ==> var exact := 100.0 * p.total / p.maxTotal; exact - 0.05 < p.score100 <= exact + 0.05
  {
    SectionsAddUp(p.questions);
    SumsBounded(p.questions);
    if p.maxTotal > 0.0 {
      var exact := 100.0 * p.total / p.maxTotal;
      Percentage(p.total, p.maxTotal);
      RoundingError(exact);
      RoundingMonotone(exact, 100.0);
      assert RoundTo1(100.0) == 100.0;
    }
  }

  // A guide scheme as GradePaper uses it, with any reply to each question
  function GuideScheme(lib: Lib, guide: Guide, hasProvider: bool, replies: nat -> Option<Reply>)
    : (nat, TranscribedQuestion) -> SchemeResult
  {
    (i: nat, q: TranscribedQuestion) =>
      SchemeResult(GradeQuestion(lib, guide, hasProvider, q, replies(i)).graded, false)
  }

  // No guide entry and no question has a negative maximum.
  ghost predicate NonNegativeMaxima(guide: Guide, questions: seq<TranscribedQuestion>) {
    && (forall no :: no in guide ==> guide[no].maxMarks >= 0.0)
    && (forall i :: 0 <= i < |questions| ==> questions[i].maxMarks >= 0.0)
  }

  // Every paper a guide grades keeps its marks within bounds and conserves them,
  // whatever the model replies to each of its questions.
  lemma GradedPapersConserve(lib: Lib, guide: Guide, hasProvider: bool, replies: nat -> Option<Reply>,
                             questions: seq<TranscribedQuestion>, p: GradedPaper)
    requires NonNegativeMaxima(guide, questions) && |p.questions| == |questions|
    requires forall i :: 0 <= i < |questions| ==>
               p.questions[i] == Isolated(questions[i], GuideScheme(lib, guide, hasProvider, replies)(i, questions[i]))
    requires Totalled(p) && p.sectionTotals == SectionMap(p.questions)
    ensures Bounded(p.questions)
    ensures MapSum(p.sectionTotals) == p.total && 0.0 <= p.total <= p.maxTotal && 0.0 <= p.score100 <= 100.0
  {
    forall i: nat | i < |questions|
      ensures 0.0 <= p.questions[i].awardedMarks <= p.questions[i].maxMarks
    {
      AwardsAreBounded(lib, guide, hasProvider, questions[i], replies(i));
    }
    MarksAreConserved(p);
  }

  lemma ScoreMonotone(a: real, b: real, maxTotal: real)
    requires 0.0 <= a <= b <= maxTotal
    ensures Score100(a, maxTotal) <= Score100(b, maxTotal)
  {
    if maxTotal > 0.0 {
      Percentage(a, maxTotal);
      RoundingMonotone(100.0 * a / maxTotal, 100.0 * b / maxTotal);
    }
  }

  // The review side --------------------------------------------------------------

  function Recomputed(p: GradedPaper): GradedPaper {
    var total, maxTotal := SumAwarded(p.questions), SumMax(p.questions);
    p.(total := total, maxTotal := maxTotal, score100 := Score100(total, maxTotal))
  }

  method RecomputeEffectiveTotals(paper: GradedPaper) returns (p: GradedPaper)
    ensures p == Recomputed(paper)
  {
    var total, maxTotal := 0.0, 0.0;
    for i := 0 to |paper.questions|
      invariant total == SumAwarded(paper.questions[..i]) && maxTotal == SumMax(paper.questions[..i])
    {
      assert paper.questions[..i + 1][..i] == paper.questions[..i];
      total := total + paper.questions[i].awardedMarks;
      maxTotal := maxTotal + paper.questions[i].maxMarks;
    }
    assert paper.questions[..|paper.questions|] == paper.questions;
    p := paper.(total := total, maxTotal := maxTotal);
    if maxTotal > 0.0 {
      p := p.(score100 := RoundTo1(100.0 * total / maxTotal));
    } else {
      p := p.(score100 := 0.0);
    }
  }

  // The grade stage, the review view and the approval agree on every paper the
  // grade stage wrote: recomputing is the identity exactly on totalled papers.
  lemma OneScore(p: GradedPaper)
    ensures Recomputed(p) == p <==> Totalled(p)
    ensures Totalled(Recomputed(p))
  {
  }
}
