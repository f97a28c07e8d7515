/** Mastery of the curriculum outcomes the questions are mapped to
    (OutcomeMastery and LearningGaps in the analytics package). */
module Outcomes {
  import opened Papers
  import opened Sorting

  datatype OutcomeMeta = OutcomeMeta(code: string, description: string)

  datatype OutcomeStat = OutcomeStat(
    outcomeID: string, code: string, description: string, mappedQuestions: nat,
    responses: nat, meanPct: real, mastery: string)

  // What one question of one paper contributes to one outcome.
  datatype Mark = Mark(outcome: string, awarded: real, max: real)

  datatype Sums = Sums(awarded: real, max: real, responses: nat)

  datatype Entry = Entry(sums: Sums, questions: set<string>)

  type Mapping = map<string, seq<string>>

  // The definition ---------------------------------------------------------------------

  function MasteryLabel(pct: real): string {
    if pct >= 0.75 then "secure" else if pct >= 0.50 then "developing" else "emerging"
  }

  function MarksOf(q: GradedQuestion, ids: seq<string>): (r: seq<Mark>)
    ensures |r| == |ids|
  {
    seq(|ids|, k requires 0 <= k < |ids| => Mark(ids[k], q.awardedMarks, q.maxMarks))
  }

  function Mapped(q: GradedQuestion, mapping: Mapping): seq<string> {
    if q.questionNo in mapping then mapping[q.questionNo] else []
  }

  // Every (paper, question, outcome) contribution, in order.
  function Contributions(qs: seq<GradedQuestion>, mapping: Mapping): seq<Mark> {
    if qs == [] then []
    else
      var q := qs[|qs| - 1];
      Contributions(qs[..|qs| - 1], mapping) + MarksOf(q, Mapped(q, mapping))
  }

  function AllQuestions(papers: seq<GradedPaper>): seq<GradedQuestion> {
    if papers == [] then [] else AllQuestions(papers[..|papers| - 1]) + papers[|papers| - 1].questions
  }

  function Add(s: Sums, m: Mark): Sums {
    Sums(s.awarded + m.awarded, s.max + m.max, s.responses + 1)
  }

  function SumsOf(marks: seq<Mark>, oid: string): Sums {
    if marks == [] then Sums(0.0, 0.0, 0)
    else
      var s, m := SumsOf(marks[..|marks| - 1], oid), marks[|marks| - 1];
      if m.outcome == oid then Add(s, m) else s
  }

  // The questions among qnos mapped to an outcome.
  function QuestionsFor(qnos: set<string>, mapping: Mapping, oid: string): set<string> {
    set q | q in qnos && q in mapping && oid in mapping[q] :: q
  }

  function StatOf(mapping: Mapping, meta: map<string, OutcomeMeta>, marks: seq<Mark>, oid: string): OutcomeStat {
    var m := if oid in meta then meta[oid] else OutcomeMeta("", "");
    var s := SumsOf(marks, oid);
    var pct := if s.max != 0.0 then s.awarded / s.max else 0.0;
    OutcomeStat(oid, m.code, m.description, |QuestionsFor(mapping.Keys, mapping, oid)|, s.responses, pct,
                MasteryLabel(pct))
  }

  predicate ByCode(a: OutcomeStat, b: OutcomeStat) {
    Before(a.code, b.code)
  }

  ghost predicate IsOutcome(mapping: Mapping, oid: string) {
    QuestionsFor(mapping.Keys, mapping, oid) != {}
  }

  ghost predicate Proper(mapping: Mapping, meta: map<string, OutcomeMeta>, marks: seq<Mark>, stat: OutcomeStat) {
    IsOutcome(mapping, stat.outcomeID) && stat == StatOf(mapping, meta, marks, stat.outcomeID)
  }

  ghost predicate Covers(mapping: Mapping, meta: map<string, OutcomeMeta>, marks: seq<Mark>, stats: seq<OutcomeStat>) {
    forall oid :: IsOutcome(mapping, oid) ==> StatOf(mapping, meta, marks, oid) in stats
  }

  ghost predicate Apart(stats: seq<OutcomeStat>) {
    forall i, j :: 0 <= i < |stats| && 0 <= j < |stats| && i != j ==> stats[i].outcomeID != stats[j].outcomeID
  }

  // What OutcomeMastery promises: one statistic per mapped outcome, the one its
  // contributions define, in the order of the codes.
  ghost predicate Masters(mapping: Mapping, meta: map<string, OutcomeMeta>, marks: seq<Mark>, stats: seq<OutcomeStat>) {
    && Sorted(stats, ByCode)
    && (forall i :: 0 <= i < |stats| ==> Proper(mapping, meta, marks, stats[i]))
    && Covers(mapping, meta, marks, stats)
    && Apart(stats)
  }

  // An order the outcomes may be walked in: each of them once.
  ghost predicate IsWalk(mapping: Mapping, order: seq<string>) {
    && (forall k :: 0 <= k < |order| ==> IsOutcome(mapping, order[k]))
    && (forall oid :: IsOutcome(mapping, oid) ==> oid in order)
    && (forall i, j :: 0 <= i < |order| && 0 <= j < |order| && i != j ==> order[i] != order[j])
  }

  // The statistics as such a walk collects them
  function StatsIn(mapping: Mapping, meta: map<string, OutcomeMeta>, marks: seq<Mark>, order: seq<string>)
    : (r: seq<OutcomeStat>)
    ensures |r| == |order| && forall k :: 0 <= k < |order| ==> r[k] == StatOf(mapping, meta, marks, order[k])
  {
    seq(|order|, k requires 0 <= k < |order| => StatOf(mapping, meta, marks, order[k]))
  }

  // and what OutcomeMastery returns for it
  function Mastery(mapping: Mapping, meta: map<string, OutcomeMeta>, marks: seq<Mark>, order: seq<string>)
    : seq<OutcomeStat>
  {
    StableSort(StatsIn(mapping, meta, marks, order), ByCode)
  }

  // The loops -----------------------------------------------------------------------------

  // The questions found for an outcome when those in done and the first
  // outcomes of qno were seen.
  ghost function Found(mapping: Mapping, done: set<string>, qno: string, ids: seq<string>, oid: string): set<string> {
    QuestionsFor(done, mapping, oid) + (if oid in ids then {qno} else {})
  }

  ghost predicate Opened(index: map<string, Entry>, mapping: Mapping, done: set<string>, qno: string, ids: seq<string>)
  {
    forall oid ::
      && (oid in index <==> Found(mapping, done, qno, ids, oid) != {})
      && (oid in index ==> index[oid] == Entry(Sums(0.0, 0.0, 0), Found(mapping, done, qno, ids, oid)))
  }

  function Touch(index: map<string, Entry>, oid: string, qno: string): map<string, Entry> {
    var e := if oid in index then index[oid] else Entry(Sums(0.0, 0.0, 0), {});
    index[oid := e.(questions := e.questions + {qno})]
  }

  method OpenEntries(mapping: Mapping) returns (index: map<string, Entry>)
    ensures Opened(index, mapping, mapping.Keys, "", [])
  {
    index := map[];
    var rest := mapping.Keys;
    while rest != {}
      invariant rest <= mapping.Keys
      invariant Opened(index, mapping, mapping.Keys - rest, "", [])
      decreases rest
    {
      // a Go map is walked in an arbitrary order
      var qno :| qno in rest;
      index := OpenQuestion(index, mapping, mapping.Keys - rest, qno);
      assert mapping.Keys - (rest - {qno}) == (mapping.Keys - rest) + {qno};
      rest := rest - {qno};
    }
    assert mapping.Keys - {} == mapping.Keys;
  }

  method OpenQuestion(start: map<string, Entry>, mapping: Mapping, ghost done: set<string>, qno: string)
    returns (index: map<string, Entry>)
    requires qno in mapping && Opened(start, mapping, done, "", [])
    ensures Opened(index, mapping, done + {qno}, "", [])
  {
    index := start;
    var ids := mapping[qno];
    for j := 0 to |ids|
      invariant Opened(index, mapping, done, qno, ids[..j])
    {
      var oid := ids[j];
      assert ids[..j + 1] == ids[..j] + [oid];
      index := Touch(index, oid, qno);
    }
    assert ids[..|ids|] == ids;
  }

  // The index once the contributions in marks were added.
  ghost predicate Filled(index: map<string, Entry>, mapping: Mapping, marks: seq<Mark>) {
    forall oid ::
      && (oid in index <==> IsOutcome(mapping, oid))
      && (oid in index ==> index[oid] == Entry(SumsOf(marks, oid), QuestionsFor(mapping.Keys, mapping, oid)))
  }

  method AddQuestion(index: map<string, Entry>, mapping: Mapping, q: GradedQuestion, ghost marks: seq<Mark>)
    returns (index': map<string, Entry>)
    requires Filled(index, mapping, marks)
    ensures Filled(index', mapping, marks + MarksOf(q, Mapped(q, mapping)))
  {
    index' := index;
    var ids := Mapped(q, mapping);
    ghost var added := MarksOf(q, ids);
    assert marks + added[..0] == marks;
    for k := 0 to |ids|
      invariant Filled(index', mapping, marks + added[..k])
    {
      var oid := ids[k];
      ghost var m := added[k];
      assert q.questionNo in QuestionsFor(mapping.Keys, mapping, oid);
      assert marks + added[..k + 1] == (marks + added[..k]) + [m];
      var e := index'[oid];
      index' := index'[oid := e.(sums := Add(e.sums, Mark(oid, q.awardedMarks, q.maxMarks)))];
    }
    assert added[..|ids|] == added;
  }

  // The questions before question j of paper i.
  ghost function Seen(papers: seq<GradedPaper>, i: nat, j: nat): seq<GradedQuestion>
    requires i < |papers| && j <= |papers[i].questions|
  {
    AllQuestions(papers[..i]) + papers[i].questions[..j]
  }

  lemma SeenStep(papers: seq<GradedPaper>, i: nat, j: nat, mapping: Mapping)
    requires i < |papers| && j < |papers[i].questions|
    ensures Contributions(Seen(papers, i, j + 1), mapping)
         == Contributions(Seen(papers, i, j), mapping)
            + MarksOf(papers[i].questions[j], Mapped(papers[i].questions[j], mapping))
  {
    var next := Seen(papers, i, j + 1);
    assert next[..|next| - 1] == Seen(papers, i, j);
  }

  lemma SeenPaper(papers: seq<GradedPaper>, i: nat)
    requires i < |papers|
    ensures Seen(papers, i, 0) == AllQuestions(papers[..i])
    ensures Seen(papers, i, |papers[i].questions|) == AllQuestions(papers[..i + 1])
  {
    assert papers[..i + 1][..i] == papers[..i];
  }

  method Walk(papers: seq<GradedPaper>, mapping: Mapping, start: map<string, Entry>) returns (index: map<string, Entry>)
    requires Filled(start, mapping, [])
    ensures Filled(index, mapping, Contributions(AllQuestions(papers), mapping))
  {
    index := start;
    for i := 0 to |papers|
      invariant Filled(index, mapping, Contributions(AllQuestions(papers[..i]), mapping))
    {
      SeenPaper(papers, i);
      for j := 0 to |papers[i].questions|
        invariant Filled(index, mapping, Contributions(Seen(papers, i, j), mapping))
      {
        SeenStep(papers, i, j, mapping);
        index := AddQuestion(index, mapping, papers[i].questions[j], Contributions(Seen(papers, i, j), mapping));
      }
    }
    assert papers[..|papers|] == papers;
  }

  method Collect(mapping: Mapping, meta: map<string, OutcomeMeta>, index: map<string, Entry>, ghost marks: seq<Mark>)
    returns (stats: seq<OutcomeStat>, ghost order: seq<string>)
    requires Filled(index, mapping, marks)
    ensures IsWalk(mapping, order) && stats == StatsIn(mapping, meta, marks, order)
  {
    stats, order := [], [];
    var rest := index.Keys;
    while rest != {}
      invariant rest <= index.Keys && |stats| == |order|
      invariant forall i :: 0 <= i < |order| ==>
                  order[i] in index.Keys - rest && stats[i] == StatOf(mapping, meta, marks, order[i])
      invariant forall oid :: oid in index.Keys - rest ==> oid in order
      invariant forall i, j :: 0 <= i < |order| && 0 <= j < |order| && i != j ==> order[i] != order[j]
      decreases rest
    {
      var oid :| oid in rest;
      var e := index[oid];
      var m := if oid in meta then meta[oid] else OutcomeMeta("", "");
      var meanPct := 0.0;
      if e.sums.max != 0.0 {
        meanPct := e.sums.awarded / e.sums.max;
      }
      var stat := OutcomeStat(oid, m.code, m.description, |e.questions|, e.sums.responses, meanPct,
                              MasteryLabel(meanPct));
      stats, order := stats + [stat], order + [oid];
      rest := rest - {oid};
    }
    assert index.Keys - {} == index.Keys;
  }

  lemma CodesOrder()
    ensures Ordering(ByCode)
  {
    forall a: OutcomeStat, b: OutcomeStat
      ensures ByCode(a, b) ==> !ByCode(b, a)
    {
      BeforeIsTotal(a.code, b.code);
    }
    forall a: OutcomeStat, b: OutcomeStat, c: OutcomeStat
      ensures !ByCode(b, a) && !ByCode(c, b) ==> !ByCode(c, a)
    {
      BeforeIsTotal(a.code, b.code);
      BeforeIsTotal(b.code, c.code);
      BeforeIsTotal(a.code, c.code);
      BeforeIsTransitive(c.code, a.code, b.code);
    }
  }

  lemma SortedProper(mapping: Mapping, meta: map<string, OutcomeMeta>, marks: seq<Mark>,
                     stats: seq<OutcomeStat>, sorted: seq<OutcomeStat>)
    requires multiset(sorted) == multiset(stats) && Covers(mapping, meta, marks, stats)
    requires forall i :: 0 <= i < |stats| ==> Proper(mapping, meta, marks, stats[i])
    ensures forall i :: 0 <= i < |sorted| ==> Proper(mapping, meta, marks, sorted[i])
    ensures Covers(mapping, meta, marks, sorted)
  {
    forall i | 0 <= i < |sorted|
      ensures Proper(mapping, meta, marks, sorted[i])
    {
      assert sorted[i] in multiset(stats);
    }
    forall oid | IsOutcome(mapping, oid)
      ensures StatOf(mapping, meta, marks, oid) in sorted
    {
      assert StatOf(mapping, meta, marks, oid) in multiset(stats);
    }
  }

  // Every walk leads to statistics as promised.
  lemma WalkMasters(mapping: Mapping, meta: map<string, OutcomeMeta>, marks: seq<Mark>, order: seq<string>)
    requires IsWalk(mapping, order)
    ensures Masters(mapping, meta, marks, Mastery(mapping, meta, marks, order))
  {
    var stats := StatsIn(mapping, meta, marks, order);
    CodesOrder();
    SortSorts(stats, ByCode);
    SortPermutes(stats, ByCode);
    SortedProper(mapping, meta, marks, stats, StableSort(stats, ByCode));
    StaysApart(stats, StableSort(stats, ByCode));
  }

  method OutcomeMastery(papers: seq<GradedPaper>, mapping: Mapping, meta: map<string, OutcomeMeta>)
    returns (stats: seq<OutcomeStat>, ghost order: seq<string>)
    ensures papers == [] || mapping == map[] ==> stats == []
    ensures papers != [] && mapping != map[] ==>
              var marks := Contributions(AllQuestions(papers), mapping);
              && IsWalk(mapping, order) && stats == Mastery(mapping, meta, marks, order)
              && Masters(mapping, meta, marks, stats)
  {
    if |papers| == 0 || |mapping| == 0 {
      return [], [];
    }
    ghost var marks := Contributions(AllQuestions(papers), mapping);
    var index := OpenEntries(mapping);
    index := Walk(papers, mapping, index);
    stats, order := Collect(mapping, meta, index, marks);
    WalkMasters(mapping, meta, marks, order);
    stats := StableSort(stats, ByCode);
  }

  // Rearranging keeps the outcomes apart.
  lemma StaysApart(a: seq<OutcomeStat>, b: seq<OutcomeStat>)
    requires multiset(a) == multiset(b) && Apart(a)
    ensures Apart(b)
  {
    forall i, j | 0 <= i < j < |b|
      ensures b[i].outcomeID != b[j].outcomeID
    {
      AtMostOnce(a, b[i]);
      Twice(b, i, j);
      assert b[i] in multiset(a) && b[j] in multiset(a);
    }
  }

  lemma {:induction false} AtMostOnce(a: seq<OutcomeStat>, x: OutcomeStat)
    requires Apart(a)
    ensures multiset(a)[x] <= 1
  {
    if a != [] {
      AtMostOnce(a[..|a| - 1], x);
      SplitLast(a);
    }
  }

  lemma Twice(b: seq<OutcomeStat>, i: nat, j: nat)
    requires i < j < |b|
    ensures b[i] == b[j] ==> multiset(b)[b[i]] >= 2
  {
    SplitLast(b[..j + 1]);
    assert b[..j + 1][..j] == b[..j] && b[i] in multiset(b[..j]);
    assert b == b[..j + 1] + b[j + 1..];
  }

  // Every contribution is counted once --------------------------------------------------------

  function TotalResponses(stats: seq<OutcomeStat>): nat {
    if stats == [] then 0 else TotalResponses(stats[..|stats| - 1]) + stats[|stats| - 1].responses
  }

  // The number of outcomes each graded question is mapped to, added up.
  function MappedTotal(qs: seq<GradedQuestion>, mapping: Mapping): nat {
    if qs == [] then 0 else MappedTotal(qs[..|qs| - 1], mapping) + |Mapped(qs[|qs| - 1], mapping)|
  }

  lemma {:induction false} ContributionsCounted(qs: seq<GradedQuestion>, mapping: Mapping)
    ensures |Contributions(qs, mapping)| == MappedTotal(qs, mapping)
    ensures forall m :: m in Contributions(qs, mapping) ==> IsOutcome(mapping, m.outcome)
  {
    if qs != [] {
      var q := qs[|qs| - 1];
      ContributionsCounted(qs[..|qs| - 1], mapping);
      forall m | m in MarksOf(q, Mapped(q, mapping))
        ensures IsOutcome(mapping, m.outcome)
      {
        assert q.questionNo in QuestionsFor(mapping.Keys, mapping, m.outcome);
      }
    }
  }

  // The contributions to the outcomes in oids.
  function Among(marks: seq<Mark>, oids: set<string>): nat {
    if marks == [] then 0
    else Among(marks[..|marks| - 1], oids) + (if marks[|marks| - 1].outcome in oids then 1 else 0)
  }

  lemma {:induction false} AmongOneMore(marks: seq<Mark>, oids: set<string>, oid: string)
    requires oid !in oids
    ensures Among(marks, oids + {oid}) == Among(marks, oids) + SumsOf(marks, oid).responses
  {
    if marks != [] {
      AmongOneMore(marks[..|marks| - 1], oids, oid);
    }
  }

  lemma {:induction false} AmongAll(marks: seq<Mark>, oids: set<string>)
    ensures (forall m :: m in marks ==> m.outcome in oids) ==> Among(marks, oids) == |marks|
    ensures oids == {} ==> Among(marks, oids) == 0
  {
    if marks != [] {
      AmongAll(marks[..|marks| - 1], oids);
    }
  }

  function IDs(stats: seq<OutcomeStat>): set<string> {
    if stats == [] then {} else IDs(stats[..|stats| - 1]) + {stats[|stats| - 1].outcomeID}
  }

  lemma {:induction false} InIDs(stats: seq<OutcomeStat>, oid: string)
    ensures oid in IDs(stats) <==> exists i :: 0 <= i < |stats| && stats[i].outcomeID == oid
  {
    if stats != [] {
      InIDs(stats[..|stats| - 1], oid);
    }
  }

  lemma {:induction false} ResponsesAmong(marks: seq<Mark>, stats: seq<OutcomeStat>)
    requires Apart(stats)
    requires forall i :: 0 <= i < |stats| ==> stats[i].responses == SumsOf(marks, stats[i].outcomeID).responses
    ensures TotalResponses(stats) == Among(marks, IDs(stats))
  {
    if stats == [] {
      AmongAll(marks, {});
    } else {
      var n := |stats| - 1;
      ResponsesAmong(marks, stats[..n]);
      InIDs(stats[..n], stats[n].outcomeID);
      AmongOneMore(marks, IDs(stats[..n]), stats[n].outcomeID);
    }
  }

  lemma ResponsesAddUp(qs: seq<GradedQuestion>, mapping: Mapping,
                       meta: map<string, OutcomeMeta>, stats: seq<OutcomeStat>)
    requires Masters(mapping, meta, Contributions(qs, mapping), stats)
    ensures TotalResponses(stats) == MappedTotal(qs, mapping)
  {
    var marks := Contributions(qs, mapping);
    ContributionsCounted(qs, mapping);
    forall i | 0 <= i < |stats|
      ensures stats[i].responses == SumsOf(marks, stats[i].outcomeID).responses
    {
      assert Proper(mapping, meta, marks, stats[i]);
    }
    ResponsesAmong(marks, stats);
    forall m | m in marks
      ensures m.outcome in IDs(stats)
    {
      assert StatOf(mapping, meta, marks, m.outcome) in stats;
      InIDs(stats, m.outcome);
    }
    AmongAll(marks, IDs(stats));
  }

  // Bounded awards give a share --------------------------------------------------------------

  lemma {:induction false} SumsBounded(marks: seq<Mark>, oid: string)
    requires forall m :: m in marks ==> 0.0 <= m.awarded <= m.max
    ensures 0.0 <= SumsOf(marks, oid).awarded <= SumsOf(marks, oid).max
  {
    if marks != [] {
      SumsBounded(marks[..|marks| - 1], oid);
      assert marks[|marks| - 1] in marks;
    }
  }

  lemma {:induction false} ContributionsBounded(qs: seq<GradedQuestion>, mapping: Mapping)
    requires forall q :: q in qs ==> 0.0 <= q.awardedMarks <= q.maxMarks
    ensures forall m :: m in Contributions(qs, mapping) ==> 0.0 <= m.awarded <= m.max
  {
    if qs != [] {
      ContributionsBounded(qs[..|qs| - 1], mapping);
      assert qs[|qs| - 1] in qs;
    }
  }

  lemma Share(a: real, b: real)
    requires 0.0 <= a <= b && b != 0.0
    ensures 0.0 <= a / b <= 1.0
  {
  }

  lemma MeanIsAShare(qs: seq<GradedQuestion>, mapping: Mapping, meta: map<string, OutcomeMeta>, oid: string)
    requires forall q :: q in qs ==> 0.0 <= q.awardedMarks <= q.maxMarks
    ensures 0.0 <= StatOf(mapping, meta, Contributions(qs, mapping), oid).meanPct <= 1.0
  {
    var marks := Contributions(qs, mapping);
    ContributionsBounded(qs, mapping);
    SumsBounded(marks, oid);
    var s := SumsOf(marks, oid);
    if s.max != 0.0 {
      Share(s.awarded, s.max);
    }
  }

  // The figures in terms of the papers ------------------------------------------------------

  // x, as often as the outcome is among ids
  function Each(ids: seq<string>, oid: string, x: real): real {
    if ids == [] then 0.0
    else Each(ids[..|ids| - 1], oid, x) + (if ids[|ids| - 1] == oid then x else 0.0)
  }

  function Awarded(q: GradedQuestion): real { q.awardedMarks }

  function Maximum(q: GradedQuestion): real { q.maxMarks }

  function Unit(q: GradedQuestion): real { 1.0 }

  // A figure added up over the questions, as often as each is mapped to an outcome
  function AddedUp(qs: seq<GradedQuestion>, mapping: Mapping, oid: string, figure: GradedQuestion -> real): real {
    if qs == [] then 0.0
    else
      var q := qs[|qs| - 1];
      AddedUp(qs[..|qs| - 1], mapping, oid, figure)
      + (if q.questionNo in mapping then Each(mapping[q.questionNo], oid, figure(q)) else 0.0)
  }

  lemma {:induction false} SumsOfQuestion(before: seq<Mark>, q: GradedQuestion, ids: seq<string>, oid: string)
    ensures var s, t := SumsOf(before, oid), SumsOf(before + MarksOf(q, ids), oid);
            && t.responses as real == s.responses as real + Each(ids, oid, 1.0)
            && t.awarded == s.awarded + Each(ids, oid, q.awardedMarks)
            && t.max == s.max + Each(ids, oid, q.maxMarks)
  {
    var marks := before + MarksOf(q, ids);
    if ids == [] {
      assert marks == before;
    } else {
      var k := |ids| - 1;
      SumsOfQuestion(before, q, ids[..k], oid);
      assert marks[..|marks| - 1] == before + MarksOf(q, ids[..k]);
    }
  }

  lemma {:induction false} SumsAreOfThePapers(qs: seq<GradedQuestion>, mapping: Mapping, oid: string)
    ensures var s := SumsOf(Contributions(qs, mapping), oid);
            && s.responses as real == AddedUp(qs, mapping, oid, Unit)
            && s.awarded == AddedUp(qs, mapping, oid, Awarded)
            && s.max == AddedUp(qs, mapping, oid, Maximum)
  {
    if qs != [] {
      var n := |qs| - 1;
      SumsAreOfThePapers(qs[..n], mapping, oid);
      SumsOfQuestion(Contributions(qs[..n], mapping), qs[n], Mapped(qs[n], mapping), oid);
    }
  }

  lemma Quotient(a: real, b: real)
    requires b != 0.0
    ensures a / b * b == a
  {
  }

  // Every statistic of OutcomeMastery: its mean times the maxima of the questions
  // mapped to the outcome is the marks they were awarded; the label goes by the mean.
  lemma FiguresAreOfThePapers(papers: seq<GradedPaper>, mapping: Mapping, meta: map<string, OutcomeMeta>,
                              stats: seq<OutcomeStat>, stat: OutcomeStat)
    requires Masters(mapping, meta, Contributions(AllQuestions(papers), mapping), stats) && stat in stats
    ensures var qs, oid := AllQuestions(papers), stat.outcomeID;
            && stat.responses as real == AddedUp(qs, mapping, oid, Unit)
            && stat.meanPct * AddedUp(qs, mapping, oid, Maximum)
               == (if AddedUp(qs, mapping, oid, Maximum) == 0.0 then 0.0 else AddedUp(qs, mapping, oid, Awarded))
            && (AddedUp(qs, mapping, oid, Maximum) == 0.0 ==> stat.meanPct == 0.0)
            && (stat.code != "" || stat.description != "" ==>
                  oid in meta && meta[oid] == OutcomeMeta(stat.code, stat.description))
            && (oid in meta ==> meta[oid] == OutcomeMeta(stat.code, stat.description))
            && stat.mappedQuestions == |set no | no in mapping && oid in mapping[no]|
    ensures stat.mastery == "secure" <==> stat.meanPct >= 0.75
    ensures stat.mastery == "developing" <==> 0.5 <= stat.meanPct < 0.75
    ensures stat.mastery == "emerging" <==> stat.meanPct < 0.5
  {
    var qs, oid := AllQuestions(papers), stat.outcomeID;
    var marks := Contributions(qs, mapping);
    assert Proper(mapping, meta, marks, stat);
    SumsAreOfThePapers(qs, mapping, oid);
    var s := SumsOf(marks, oid);
    if s.max != 0.0 {
      Quotient(s.awarded, s.max);
    }
    assert QuestionsFor(mapping.Keys, mapping, oid) == set no | no in mapping && oid in mapping[no];
  }

  // The order maps are walked in -----------------------------------------------------------------

  function CodeOf(meta: map<string, OutcomeMeta>, oid: string): string {
    if oid in meta then meta[oid].code else ""
  }

  // No two mapped outcomes carry the same code.
  ghost predicate CodesApart(mapping: Mapping, meta: map<string, OutcomeMeta>) {
    forall a, b :: IsOutcome(mapping, a) && IsOutcome(mapping, b) && a != b ==> CodeOf(meta, a) != CodeOf(meta, b)
  }

  lemma ApartIsStrict(mapping: Mapping, meta: map<string, OutcomeMeta>, marks: seq<Mark>, stats: seq<OutcomeStat>)
    requires Masters(mapping, meta, marks, stats) && CodesApart(mapping, meta)
    ensures Strict(stats, ByCode)
  {
    forall i, j | 0 <= i < j < |stats|
      ensures ByCode(stats[i], stats[j])
    {
      assert Proper(mapping, meta, marks, stats[i]) && Proper(mapping, meta, marks, stats[j]);
      BeforeIsTotal(stats[i].code, stats[j].code);
    }
  }

  // The place in stats of what stands at k once i and j are swapped.
  function Swapped(i: nat, j: nat, k: nat): nat {
    if k == i then j else if k == j then i else k
  }

  function Swap(stats: seq<OutcomeStat>, i: nat, j: nat): (r: seq<OutcomeStat>)
    requires i < j < |stats|
    ensures |r| == |stats| && forall k :: 0 <= k < |stats| ==> r[k] == stats[Swapped(i, j, k)]
  {
    stats[i := stats[j]][j := stats[i]]
  }

  lemma SwapSorted(stats: seq<OutcomeStat>, i: nat, j: nat)
    requires i < j < |stats| && stats[i].code == stats[j].code && Sorted(stats, ByCode)
    ensures Sorted(Swap(stats, i, j), ByCode)
  {
    var other := Swap(stats, i, j);
    assert forall k :: 0 <= k < |stats| ==> other[k].code == stats[k].code;
    forall k, l | 0 <= k < l < |stats|
      ensures !ByCode(other[l], other[k])
    {
      assert !ByCode(stats[l], stats[k]);
    }
  }

  lemma SwapCovers(mapping: Mapping, meta: map<string, OutcomeMeta>, marks: seq<Mark>,
                   stats: seq<OutcomeStat>, i: nat, j: nat)
    requires i < j < |stats| && Covers(mapping, meta, marks, stats)
    ensures Covers(mapping, meta, marks, Swap(stats, i, j))
  {
    forall oid | IsOutcome(mapping, oid)
      ensures StatOf(mapping, meta, marks, oid) in Swap(stats, i, j)
    {
      var k: nat :| k < |stats| && stats[k] == StatOf(mapping, meta, marks, oid);
      assert Swap(stats, i, j)[Swapped(i, j, k)] == stats[k];
    }
  }

  // Swapping two statistics with the same code is another answer the contract allows.
  lemma SwapMasters(mapping: Mapping, meta: map<string, OutcomeMeta>, marks: seq<Mark>,
                    stats: seq<OutcomeStat>, i: nat, j: nat)
    requires Masters(mapping, meta, marks, stats) && i < j < |stats| && stats[i].code == stats[j].code
    ensures Masters(mapping, meta, marks, Swap(stats, i, j)) && Swap(stats, i, j) != stats
  {
    SwapSorted(stats, i, j);
    SwapCovers(mapping, meta, marks, stats, i, j);
    assert Swap(stats, i, j)[i] == stats[j] != stats[i];
  }

  lemma Collide(mapping: Mapping, meta: map<string, OutcomeMeta>, marks: seq<Mark>, stats: seq<OutcomeStat>)
    returns (other: seq<OutcomeStat>)
    requires Masters(mapping, meta, marks, stats) && !CodesApart(mapping, meta)
    ensures Masters(mapping, meta, marks, other) && other != stats
  {
    var a, b :| IsOutcome(mapping, a) && IsOutcome(mapping, b) && a != b && CodeOf(meta, a) == CodeOf(meta, b);
    assert StatOf(mapping, meta, marks, a) in stats && StatOf(mapping, meta, marks, b) in stats;
    var i :| 0 <= i < |stats| && stats[i] == StatOf(mapping, meta, marks, a);
    var j :| 0 <= j < |stats| && stats[j] == StatOf(mapping, meta, marks, b);
    var lo, hi := if i < j then i else j, if i < j then j else i;
    SwapMasters(mapping, meta, marks, stats, lo, hi);
    other := Swap(stats, lo, hi);
  }

  function OrderOf(stats: seq<OutcomeStat>): (r: seq<string>)
    ensures |r| == |stats| && forall k :: 0 <= k < |stats| ==> r[k] == stats[k].outcomeID
  {
    seq(|stats|, k requires 0 <= k < |stats| => stats[k].outcomeID)
  }

  // Whatever the contract admits, some walk leads to.
  lemma MastersIsAWalk(mapping: Mapping, meta: map<string, OutcomeMeta>, marks: seq<Mark>, stats: seq<OutcomeStat>)
    requires Masters(mapping, meta, marks, stats)
    ensures IsWalk(mapping, OrderOf(stats)) && Mastery(mapping, meta, marks, OrderOf(stats)) == stats
  {
    var order := OrderOf(stats);
    forall k | 0 <= k < |stats|
      ensures IsOutcome(mapping, order[k]) && StatOf(mapping, meta, marks, order[k]) == stats[k]
    {
      assert Proper(mapping, meta, marks, stats[k]);
    }
    forall oid | IsOutcome(mapping, oid)
      ensures oid in order
    {
      var k :| 0 <= k < |stats| && stats[k] == StatOf(mapping, meta, marks, oid);
      assert order[k] == oid;
    }
    assert StatsIn(mapping, meta, marks, order) == stats;
    SortedIsFixed(stats, ByCode);
  }

  lemma ApartMeansSame(mapping: Mapping, meta: map<string, OutcomeMeta>, marks: seq<Mark>,
                       a: seq<string>, b: seq<string>)
    requires CodesApart(mapping, meta) && IsWalk(mapping, a) && IsWalk(mapping, b)
    ensures Mastery(mapping, meta, marks, a) == Mastery(mapping, meta, marks, b)
  {
    var x, y := Mastery(mapping, meta, marks, a), Mastery(mapping, meta, marks, b);
    CodesOrder();
    WalkMasters(mapping, meta, marks, a);
    WalkMasters(mapping, meta, marks, b);
    ApartIsStrict(mapping, meta, marks, x);
    ApartIsStrict(mapping, meta, marks, y);
    StrictIsUnique(x, y, ByCode);
  }

  // The index is walked in an arbitrary order. Which one never shows exactly when
  // the codes tell the outcomes apart.
  lemma WalkOrderHiddenIffCodesApart(mapping: Mapping, meta: map<string, OutcomeMeta>, marks: seq<Mark>,
                                     order: seq<string>)
    requires IsWalk(mapping, order)
    ensures CodesApart(mapping, meta) <==>
            forall walk :: IsWalk(mapping, walk) ==>
              Mastery(mapping, meta, marks, walk) == Mastery(mapping, meta, marks, order)
  {
    if CodesApart(mapping, meta) {
      forall walk | IsWalk(mapping, walk)
        ensures Mastery(mapping, meta, marks, walk) == Mastery(mapping, meta, marks, order)
      {
        ApartMeansSame(mapping, meta, marks, walk, order);
      }
    } else {
      WalkMasters(mapping, meta, marks, order);
      var other := Collide(mapping, meta, marks, Mastery(mapping, meta, marks, order));
      MastersIsAWalk(mapping, meta, marks, other);
    }
  }

  // Learning gaps -----------------------------------------------------------------------------------

  function Eligible(stats: seq<OutcomeStat>): seq<OutcomeStat> {
    if stats == [] then []
    else
      var last := stats[|stats| - 1];
      Eligible(stats[..|stats| - 1]) + (if last.responses > 0 then [last] else [])
  }

  predicate Weaker(a: OutcomeStat, b: OutcomeStat) {
    if a.meanPct != b.meanPct then a.meanPct < b.meanPct else Before(a.code, b.code)
  }

  method LearningGaps(stats: seq<OutcomeStat>, n: int) returns (gaps: seq<OutcomeStat>)
    ensures |gaps| == if n <= 0 || n >= |Eligible(stats)| then |Eligible(stats)| else n
    ensures Leads(gaps, Eligible(stats), Weaker)
  {
    var eligible := [];
    for i := 0 to |stats|
      invariant eligible == Eligible(stats[..i])
    {
      assert stats[..i + 1][..i] == stats[..i];
      if stats[i].responses > 0 {
        eligible := eligible + [stats[i]];
      }
    }
    assert stats[..|stats|] == stats;
    WeakerOrders();
    var sorted := StableSort(eligible, Weaker);
    var k := if n <= 0 || n >= |sorted| then |sorted| else n;
    PrefixLeads(eligible, k, Weaker);
    gaps := sorted[..k];
  }

  lemma WeakerOrders()
    ensures Ordering(Weaker)
  {
    forall a: OutcomeStat, b: OutcomeStat
      ensures Weaker(a, b) ==> !Weaker(b, a)
    {
      BeforeIsTotal(a.code, b.code);
    }
    forall a: OutcomeStat, b: OutcomeStat, c: OutcomeStat
      ensures !Weaker(b, a) && !Weaker(c, b) ==> !Weaker(c, a)
    {
      BeforeIsTotal(a.code, b.code);
      BeforeIsTotal(b.code, c.code);
      BeforeIsTotal(a.code, c.code);
      BeforeIsTransitive(c.code, a.code, b.code);
    }
  }

  // The gaps are outcomes that were answered, and none left out is weaker.
  lemma GapsAreTheWeakest(stats: seq<OutcomeStat>, gaps: seq<OutcomeStat>, g: OutcomeStat, omitted: OutcomeStat)
    requires Leads(gaps, Eligible(stats), Weaker) && g in gaps
    ensures g in stats && g.responses > 0
    ensures omitted in stats && omitted.responses > 0 && omitted !in gaps ==>
              !Weaker(omitted, g) && g.meanPct <= omitted.meanPct
  {
    EligibleExactly(stats, g);
    EligibleExactly(stats, omitted);
    LeadsElements(gaps, Eligible(stats), g, omitted, Weaker);
  }

  // They come by mean, and by code where that is equal, and an equally weak
  // outcome is only left out for one with a lower code.
  lemma WeakestFirst(stats: seq<OutcomeStat>, gaps: seq<OutcomeStat>, i: nat, j: nat, omitted: OutcomeStat)
    requires Leads(gaps, Eligible(stats), Weaker) && i < |gaps|
    ensures i < j < |gaps| ==>
              || gaps[i].meanPct < gaps[j].meanPct
              || (gaps[i].meanPct == gaps[j].meanPct && !Before(gaps[j].code, gaps[i].code))
    ensures omitted in stats && omitted.responses > 0 && omitted !in gaps && omitted.meanPct == gaps[i].meanPct ==>
              !Before(omitted.code, gaps[i].code)
  {
    LeadsInOrder(gaps, Eligible(stats), Weaker);
    EligibleExactly(stats, omitted);
    LeadsElements(gaps, Eligible(stats), gaps[i], omitted, Weaker);
    assert i < j < |gaps| ==> !Weaker(gaps[j], gaps[i]);
  }

  lemma {:induction false} EligibleExactly(stats: seq<OutcomeStat>, x: OutcomeStat)
    ensures x in Eligible(stats) <==> x in stats && x.responses > 0
  {
    if stats != [] {
      EligibleExactly(stats[..|stats| - 1], x);
      assert stats == stats[..|stats| - 1] + [stats[|stats| - 1]];
    }
  }
}
