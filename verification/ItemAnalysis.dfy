/** Per-question statistics over a set of graded papers (ItemAnalysis and
    HardestQuestions in the analytics package). */
module ItemAnalysis {
  import opened Papers
  import opened Sorting
  import opened Correlation

  datatype QuestionStat = QuestionStat(
    questionNo: string, responses: nat, maxMarks: real, meanAwarded: real, difficulty: real,
    pctFullMarks: real, pctZero: real, discrimination: real)

  // One graded question with the total of the paper it stands in.
  datatype Answer = Answer(q: GradedQuestion, total: real)

  datatype Entry = Entry(maxMarks: real, awarded: seq<real>, totals: seq<real>)

  // The definition: filter, then compute --------------------------------------------

  function Answers(p: GradedPaper): (r: seq<Answer>)
    ensures |r| == |p.questions|
  {
    seq(|p.questions|, j requires 0 <= j < |p.questions| => Answer(p.questions[j], p.total))
  }

  // Every graded question, paper after paper.
  function AllAnswers(papers: seq<GradedPaper>): seq<Answer> {
    if papers == [] then [] else AllAnswers(papers[..|papers| - 1]) + Answers(papers[|papers| - 1])
  }

  function Only(all: seq<Answer>, no: string): (r: seq<Answer>)
    ensures forall i :: 0 <= i < |r| ==> r[i] in all && r[i].q.questionNo == no
    ensures forall i :: 0 <= i < |all| && all[i].q.questionNo == no ==> all[i] in r
  {
    if all == [] then []
    else
      var n := |all| - 1;
      Only(all[..n], no) + (if all[n].q.questionNo == no then [all[n]] else [])
  }

  function Marks(s: seq<Answer>): seq<real> {
    seq(|s|, i requires 0 <= i < |s| => s[i].q.awardedMarks)
  }

  function Totals(s: seq<Answer>): seq<real> {
    seq(|s|, i requires 0 <= i < |s| => s[i].total)
  }

  function HowMany(xs: seq<real>, v: real): nat {
    if xs == [] then 0 else HowMany(xs[..|xs| - 1], v) + (if xs[|xs| - 1] == v then 1 else 0)
  }

  function Share(xs: seq<real>, v: real): real {
    if xs == [] then 0.0 else HowMany(xs, v) as real / |xs| as real
  }

  // The statistic of a question from its own answers, in the order of the papers.
  function StatOf(sqrt: real -> real, no: string, s: seq<Answer>): QuestionStat
    requires s != []
  {
    var maxMarks, marks := s[0].q.maxMarks, Marks(s);
    QuestionStat(
      no, |s|, maxMarks, MeanOf(marks),
      if maxMarks != 0.0 then MeanOf(marks) / maxMarks else 0.0,
      if maxMarks != 0.0 then Share(marks, maxMarks) else 0.0,
      if maxMarks != 0.0 then Share(marks, 0.0) else 0.0,
      Coefficient(sqrt, marks, Totals(s)))
  }

  predicate ByNumber(a: QuestionStat, b: QuestionStat) {
    Before(a.questionNo, b.questionNo)
  }

  // A statistic is the one the answers to its question define.
  ghost predicate Defined(sqrt: real -> real, all: seq<Answer>, stat: QuestionStat) {
    Only(all, stat.questionNo) != [] && stat == StatOf(sqrt, stat.questionNo, Only(all, stat.questionNo))
  }

  // What ItemAnalysis promises: exactly one statistic per question, strictly in
  // the order of the numbers, each the one its own answers define.
  ghost predicate Analyses(sqrt: real -> real, all: seq<Answer>, stats: seq<QuestionStat>) {
    && (forall i, j :: 0 <= i < j < |stats| ==> Before(stats[i].questionNo, stats[j].questionNo))
    && (forall i :: 0 <= i < |stats| ==> Defined(sqrt, all, stats[i]))
    && (forall a :: a in all ==> exists i :: 0 <= i < |stats| && stats[i].questionNo == a.q.questionNo)
  }

  // One pass ------------------------------------------------------------------------

  function EntryOf(s: seq<Answer>): Entry
    requires s != []
  {
    Entry(s[0].q.maxMarks, Marks(s), Totals(s))
  }

  ghost predicate Filed(index: map<string, Entry>, all: seq<Answer>, no: string) {
    && (no in index <==> Only(all, no) != [])
    && (no in index ==> index[no] == EntryOf(Only(all, no)))
  }

  ghost predicate Grouped(index: map<string, Entry>, order: seq<string>, all: seq<Answer>) {
    && (forall no :: Filed(index, all, no))
    && (forall no :: no in order <==> no in index)
    && (forall i, j :: 0 <= i < j < |order| ==> order[i] != order[j])
  }

  function Put(index: map<string, Entry>, q: GradedQuestion, total: real): map<string, Entry> {
    var e := if q.questionNo in index then index[q.questionNo] else Entry(q.maxMarks, [], []);
    index[q.questionNo := Entry(e.maxMarks, e.awarded + [q.awardedMarks], e.totals + [total])]
  }

  lemma OnlyAppend(all: seq<Answer>, a: Answer, no: string)
    ensures Only(all + [a], no) == Only(all, no) + (if a.q.questionNo == no then [a] else [])
    ensures Marks(Only(all, no) + [a]) == Marks(Only(all, no)) + [a.q.awardedMarks]
    ensures Totals(Only(all, no) + [a]) == Totals(Only(all, no)) + [a.total]
  {
    assert (all + [a])[..|all|] == all;
  }

  lemma PutFiles(index: map<string, Entry>, all: seq<Answer>, a: Answer, no: string)
    requires Filed(index, all, no)
    ensures Filed(Put(index, a.q, a.total), all + [a], no)
  {
    OnlyAppend(all, a, no);
    if no == a.q.questionNo && no !in index {
      assert Marks([]) == [] && Totals([]) == [];
    }
  }

  lemma PutGroups(index: map<string, Entry>, order: seq<string>, all: seq<Answer>, a: Answer)
    requires Grouped(index, order, all)
    ensures var no := a.q.questionNo;
            Grouped(Put(index, a.q, a.total), if no in index then order else order + [no], all + [a])
  {
    forall no
      ensures Filed(Put(index, a.q, a.total), all + [a], no)
    {
      PutFiles(index, all, a, no);
    }
  }

  // The answers seen before question j of paper i.
  ghost function Seen(papers: seq<GradedPaper>, i: nat, j: nat): seq<Answer>
    requires i < |papers| && j <= |papers[i].questions|
  {
    AllAnswers(papers[..i]) + Answers(papers[i])[..j]
  }

  lemma SeenStep(papers: seq<GradedPaper>, i: nat, j: nat)
    requires i < |papers| && j < |papers[i].questions|
    ensures Seen(papers, i, j + 1) == Seen(papers, i, j) + [Answer(papers[i].questions[j], papers[i].total)]
  {
    var s := Answers(papers[i]);
    assert s[..j + 1] == s[..j] + [s[j]];
  }

  lemma SeenPaper(papers: seq<GradedPaper>, i: nat)
    requires i < |papers|
    ensures Seen(papers, i, 0) == AllAnswers(papers[..i])
    ensures Seen(papers, i, |papers[i].questions|) == AllAnswers(papers[..i + 1])
  {
    assert papers[..i + 1][..i] == papers[..i];
    var s := Answers(papers[i]);
    assert s[..|s|] == s && s[..0] == [];
  }

  method Group(papers: seq<GradedPaper>) returns (index: map<string, Entry>, order: seq<string>)
    ensures Grouped(index, order, AllAnswers(papers))
  {
    index, order := map[], [];
    for i := 0 to |papers|
      invariant Grouped(index, order, AllAnswers(papers[..i]))
    {
      var p := papers[i];
      SeenPaper(papers, i);
      for j := 0 to |p.questions|
        invariant Grouped(index, order, Seen(papers, i, j))
      {
        var q := p.questions[j];
        PutGroups(index, order, Seen(papers, i, j), Answer(q, p.total));
        SeenStep(papers, i, j);
        if q.questionNo !in index {
          order := order + [q.questionNo];
        }
        index := Put(index, q, p.total);
      }
    }
    assert papers[..|papers|] == papers;
  }

  lemma FiledInOrder(index: map<string, Entry>, order: seq<string>, all: seq<Answer>)
    requires Grouped(index, order, all)
    ensures forall i :: 0 <= i < |order| ==>
              && order[i] in index && Only(all, order[i]) != []
              && index[order[i]] == EntryOf(Only(all, order[i]))
    ensures forall no :: no in order <==> Only(all, no) != []
  {
    forall i | 0 <= i < |order|
      ensures order[i] in index && Filed(index, all, order[i])
    {
      assert order[i] in order;
    }
    forall no
      ensures no in order <==> Only(all, no) != []
    {
      assert Filed(index, all, no);
    }
  }

  method Counts(awarded: seq<real>, maxMarks: real) returns (fullCount: nat, zeroCount: nat)
    ensures fullCount == HowMany(awarded, maxMarks) && zeroCount == HowMany(awarded, 0.0)
  {
    fullCount, zeroCount := 0, 0;
    for i := 0 to |awarded|
      invariant fullCount == HowMany(awarded[..i], maxMarks) && zeroCount == HowMany(awarded[..i], 0.0)
    {
      assert awarded[..i + 1][..i] == awarded[..i];
      if awarded[i] == maxMarks {
        fullCount := fullCount + 1;
      }
      if awarded[i] == 0.0 {
        zeroCount := zeroCount + 1;
      }
    }
    assert awarded[..|awarded|] == awarded;
  }

  method BuildStat(sqrt: real -> real, no: string, e: Entry, ghost s: seq<Answer>) returns (stat: QuestionStat)
    requires s != [] && e == EntryOf(s)
    ensures stat == StatOf(sqrt, no, s)
  {
    var n := |e.awarded|;
    var mean := Mean(e.awarded);
    var diff, pctFull, pctZero := 0.0, 0.0, 0.0;
    if e.maxMarks != 0.0 {
      diff := mean / e.maxMarks;
      var fullCount, zeroCount := Counts(e.awarded, e.maxMarks);
      pctFull := fullCount as real / n as real;
      pctZero := zeroCount as real / n as real;
    }
    var disc := Pearson(sqrt, e.awarded, e.totals);
    stat := QuestionStat(no, n, e.maxMarks, mean, diff, pctFull, pctZero, disc);
  }

  lemma NumbersOrder()
    ensures Ordering(ByNumber)
  {
    forall a: QuestionStat, b: QuestionStat
      ensures ByNumber(a, b) ==> !ByNumber(b, a)
    {
      BeforeIsTotal(a.questionNo, b.questionNo);
    }
    forall a: QuestionStat, b: QuestionStat, c: QuestionStat
      ensures !ByNumber(b, a) && !ByNumber(c, b) ==> !ByNumber(c, a)
    {
      BeforeIsTotal(a.questionNo, b.questionNo);
      BeforeIsTotal(b.questionNo, c.questionNo);
      BeforeIsTotal(a.questionNo, c.questionNo);
      BeforeIsTransitive(c.questionNo, a.questionNo, b.questionNo);
    }
  }

  lemma SortedInOrder(order: seq<string>, stats: seq<QuestionStat>)
    requires |stats| == |order| && forall i, j :: 0 <= i < j < |order| ==> order[i] != order[j]
    requires forall i :: 0 <= i < |order| ==> stats[i].questionNo == order[i]
    ensures Strict(StableSort(stats, ByNumber), ByNumber)
  {
    NumbersOrder();
    forall i, j | 0 <= i < j < |stats|
      ensures ByNumber(stats[i], stats[j]) || ByNumber(stats[j], stats[i])
    {
      BeforeIsTotal(order[i], order[j]);
    }
    SortStrictly(stats, ByNumber);
  }

  lemma SortedKeeps(sqrt: real -> real, all: seq<Answer>, order: seq<string>,
                    stats: seq<QuestionStat>, sorted: seq<QuestionStat>)
    requires |stats| == |order| && multiset(sorted) == multiset(stats)
    requires forall no :: no in order <==> Only(all, no) != []
    requires forall i :: 0 <= i < |order| ==> stats[i].questionNo == order[i] && Defined(sqrt, all, stats[i])
    ensures forall i :: 0 <= i < |sorted| ==> Defined(sqrt, all, sorted[i])
    ensures forall a :: a in all ==> exists i :: 0 <= i < |sorted| && sorted[i].questionNo == a.q.questionNo
  {
    forall i | 0 <= i < |sorted|
      ensures Defined(sqrt, all, sorted[i])
    {
      assert sorted[i] in multiset(stats);
    }
    forall a | a in all
      ensures exists i :: 0 <= i < |sorted| && sorted[i].questionNo == a.q.questionNo
    {
      assert a in Only(all, a.q.questionNo);
      var k :| 0 <= k < |order| && order[k] == a.q.questionNo;
      assert stats[k] in multiset(sorted);
    }
  }

  method ItemAnalysis(sqrt: real -> real, papers: seq<GradedPaper>) returns (stats: seq<QuestionStat>)
    ensures Analyses(sqrt, AllAnswers(papers), stats)
  {
    if |papers| == 0 {
      return [];
    }
    ghost var all := AllAnswers(papers);
    var index, order := Group(papers);
    FiledInOrder(index, order, all);
    stats := [];
    for k := 0 to |order|
      invariant |stats| == k
      invariant forall i :: 0 <= i < k ==> stats[i].questionNo == order[i] && Defined(sqrt, all, stats[i])
    {
      var stat := BuildStat(sqrt, order[k], index[order[k]], Only(all, order[k]));
      stats := stats + [stat];
    }
    SortedInOrder(order, stats);
    SortPermutes(stats, ByNumber);
    SortedKeeps(sqrt, all, order, stats, StableSort(stats, ByNumber));
    stats := StableSort(stats, ByNumber);
  }

  // What the statistics add up to -----------------------------------------------------

  function TotalResponses(stats: seq<QuestionStat>): nat {
    if stats == [] then 0 else TotalResponses(stats[..|stats| - 1]) + stats[|stats| - 1].responses
  }

  function TotalQuestions(papers: seq<GradedPaper>): nat {
    if papers == [] then 0 else TotalQuestions(papers[..|papers| - 1]) + |papers[|papers| - 1].questions|
  }

  lemma {:induction false} AnswersCounted(papers: seq<GradedPaper>)
    ensures |AllAnswers(papers)| == TotalQuestions(papers)
  {
    if papers != [] {
      AnswersCounted(papers[..|papers| - 1]);
    }
  }

  // The answers to the questions in nos.
  function Among(all: seq<Answer>, nos: set<string>): nat {
    if all == [] then 0
    else Among(all[..|all| - 1], nos) + (if all[|all| - 1].q.questionNo in nos then 1 else 0)
  }

  lemma {:induction false} AmongOneMore(all: seq<Answer>, nos: set<string>, no: string)
    requires no !in nos
    ensures Among(all, nos + {no}) == Among(all, nos) + |Only(all, no)|
  {
    if all != [] {
      AmongOneMore(all[..|all| - 1], nos, no);
    }
  }

  lemma {:induction false} AmongAll(all: seq<Answer>, nos: set<string>)
    ensures (forall a :: a in all ==> a.q.questionNo in nos) ==> Among(all, nos) == |all|
    ensures nos == {} ==> Among(all, nos) == 0
  {
    if all != [] {
      AmongAll(all[..|all| - 1], nos);
    }
  }

  function Numbers(stats: seq<QuestionStat>): set<string> {
    if stats == [] then {} else Numbers(stats[..|stats| - 1]) + {stats[|stats| - 1].questionNo}
  }

  lemma {:induction false} InNumbers(stats: seq<QuestionStat>, no: string)
    ensures no in Numbers(stats) <==> exists i :: 0 <= i < |stats| && stats[i].questionNo == no
  {
    if stats != [] {
      InNumbers(stats[..|stats| - 1], no);
    }
  }

  lemma {:induction false} ResponsesAmong(all: seq<Answer>, stats: seq<QuestionStat>)
    requires forall i, j :: 0 <= i < j < |stats| ==> stats[i].questionNo != stats[j].questionNo
    requires forall i :: 0 <= i < |stats| ==> stats[i].responses == |Only(all, stats[i].questionNo)|
    ensures TotalResponses(stats) == Among(all, Numbers(stats))
  {
    if stats == [] {
      AmongAll(all, {});
    } else {
      var n := |stats| - 1;
      ResponsesAmong(all, stats[..n]);
      InNumbers(stats[..n], stats[n].questionNo);
      AmongOneMore(all, Numbers(stats[..n]), stats[n].questionNo);
    }
  }

  // Every graded question is counted in exactly one statistic.
  lemma ResponsesAddUp(sqrt: real -> real, papers: seq<GradedPaper>, stats: seq<QuestionStat>)
    requires Analyses(sqrt, AllAnswers(papers), stats)
    ensures TotalResponses(stats) == TotalQuestions(papers)
  {
    var all := AllAnswers(papers);
    forall i, j | 0 <= i < j < |stats|
      ensures stats[i].questionNo != stats[j].questionNo
    {
      BeforeIsTotal(stats[i].questionNo, stats[j].questionNo);
    }
    ResponsesAmong(all, stats);
    forall a | a in all
      ensures a.q.questionNo in Numbers(stats)
    {
      InNumbers(stats, a.q.questionNo);
    }
    AmongAll(all, Numbers(stats));
    AnswersCounted(papers);
  }

  // Responses are answers, not papers ------------------------------------------------

  predicate Asks(p: GradedPaper, no: string) {
    exists j :: 0 <= j < |p.questions| && p.questions[j].questionNo == no
  }

  predicate AsksTwice(p: GradedPaper, no: string) {
    exists j, k :: 0 <= j < k < |p.questions| && p.questions[j].questionNo == no && p.questions[k].questionNo == no
  }

  function PapersAsking(papers: seq<GradedPaper>, no: string): nat {
    if papers == [] then 0
    else PapersAsking(papers[..|papers| - 1], no) + (if Asks(papers[|papers| - 1], no) then 1 else 0)
  }

  lemma {:induction false} OnlyConcat(a: seq<Answer>, b: seq<Answer>, no: string)
    ensures Only(a + b, no) == Only(a, no) + Only(b, no)
  {
    if b == [] {
      assert a + b == a;
    } else {
      var n := |b| - 1;
      OnlyConcat(a, b[..n], no);
      assert (a + b)[..|a + b| - 1] == a + b[..n];
    }
  }

  ghost predicate Has(s: seq<Answer>, no: string) {
    exists j :: 0 <= j < |s| && s[j].q.questionNo == no
  }

  ghost predicate HasTwice(s: seq<Answer>, no: string) {
    exists j, k :: 0 <= j < k < |s| && s[j].q.questionNo == no && s[k].q.questionNo == no
  }

  lemma HasInit(s: seq<Answer>, no: string)
    requires s != []
    ensures Has(s, no) <==> Has(s[..|s| - 1], no) || s[|s| - 1].q.questionNo == no
  {
    var n := |s| - 1;
    assert forall j :: 0 <= j < n ==> s[..n][j] == s[j];
  }

  lemma HasTwiceInit(s: seq<Answer>, no: string)
    requires s != []
    ensures HasTwice(s, no) <==> HasTwice(s[..|s| - 1], no) || (s[|s| - 1].q.questionNo == no && Has(s[..|s| - 1], no))
  {
    var n := |s| - 1;
    assert forall j :: 0 <= j < n ==> s[..n][j] == s[j];
    if s[n].q.questionNo == no && Has(s[..n], no) {
      var j :| 0 <= j < n && s[..n][j].q.questionNo == no;
      assert s[j].q.questionNo == no;
    }
  }

  lemma {:induction false} OnlyCounts(s: seq<Answer>, no: string)
    ensures Only(s, no) != [] <==> Has(s, no)
    ensures |Only(s, no)| > 1 <==> HasTwice(s, no)
  {
    if s != [] {
      OnlyCounts(s[..|s| - 1], no);
      HasInit(s, no);
      HasTwiceInit(s, no);
    }
  }

  lemma OnePaper(p: GradedPaper, no: string)
    ensures Only(Answers(p), no) != [] <==> Asks(p, no)
    ensures |Only(Answers(p), no)| > 1 <==> AsksTwice(p, no)
  {
    var s := Answers(p);
    OnlyCounts(s, no);
    assert forall j :: 0 <= j < |s| ==> s[j].q.questionNo == p.questions[j].questionNo;
  }

  lemma {:induction false} AnswersAndPapers(papers: seq<GradedPaper>, no: string)
    ensures |Only(AllAnswers(papers), no)| >= PapersAsking(papers, no)
    ensures |Only(AllAnswers(papers), no)| == PapersAsking(papers, no)
        <==> forall i :: 0 <= i < |papers| ==> !AsksTwice(papers[i], no)
  {
    if papers != [] {
      var n := |papers| - 1;
      AnswersAndPapers(papers[..n], no);
      OnlyConcat(AllAnswers(papers[..n]), Answers(papers[n]), no);
      OnePaper(papers[n], no);
      assert forall i :: 0 <= i < n ==> papers[..n][i] == papers[i];
    }
  }

  // Responses is the documented number of papers with the question exactly when
  // no paper has the number twice.
  lemma ResponsesArePapersIff(sqrt: real -> real, papers: seq<GradedPaper>, stats: seq<QuestionStat>, i: nat)
    requires Analyses(sqrt, AllAnswers(papers), stats) && i < |stats|
    ensures stats[i].responses == PapersAsking(papers, stats[i].questionNo)
        <==> forall j :: 0 <= j < |papers| ==> !AsksTwice(papers[j], stats[i].questionNo)
  {
    assert Defined(sqrt, AllAnswers(papers), stats[i]);
    AnswersAndPapers(papers, stats[i].questionNo);
  }

  // One paper with one number on two questions counts as two responses.
  lemma RepeatedNumberCountsTwice(sqrt: real -> real, p: GradedPaper, stats: seq<QuestionStat>)
    requires |p.questions| == 2 && p.questions[0].questionNo == p.questions[1].questionNo
    requires Analyses(sqrt, AllAnswers([p]), stats)
    ensures stats != [] && stats[0].responses == 2 && PapersAsking([p], stats[0].questionNo) == 1
  {
    var no, all := p.questions[0].questionNo, AllAnswers([p]);
    assert [p][..0] == [];
    assert all == [] + Answers(p) == Answers(p);
    assert all[0] in all;
    assert Defined(sqrt, all, stats[0]);
    var s := Only(all, stats[0].questionNo);
    assert s[0] in all;
    assert stats[0].questionNo == no;
    assert AsksTwice([p][0], no);
    OnePaper(p, no);
    AnswersAndPapers([p], no);
  }

  // The promise leaves no freedom: two analyses of the same answers are the same.
  lemma AnalysisIsUnique(sqrt: real -> real, all: seq<Answer>, a: seq<QuestionStat>, b: seq<QuestionStat>)
    requires Analyses(sqrt, all, a) && Analyses(sqrt, all, b)
    ensures a == b
  {
    NumbersOrder();
    StrictIsUnique(a, b, ByNumber);
  }

  lemma {:induction false} HowManyBounded(xs: seq<real>, v: real)
    ensures HowMany(xs, v) <= |xs|
  {
    if xs != [] {
      HowManyBounded(xs[..|xs| - 1], v);
    }
  }

  lemma ShareBounded(xs: seq<real>, v: real)
    ensures 0.0 <= Share(xs, v) <= 1.0
  {
    HowManyBounded(xs, v);
  }

  // Shares are shares and discriminations correlations, whatever was awarded.
  lemma StatsInRange(sqrt: real -> real, all: seq<Answer>, stats: seq<QuestionStat>, i: nat)
    requires SquareRoot(sqrt) && Analyses(sqrt, all, stats) && i < |stats|
    ensures -1.0 <= stats[i].discrimination <= 1.0
    ensures 0.0 <= stats[i].pctFullMarks <= 1.0 && 0.0 <= stats[i].pctZero <= 1.0
  {
    var s := Only(all, stats[i].questionNo);
    assert Defined(sqrt, all, stats[i]);
    WithinOne(sqrt, Marks(s), Totals(s));
    ShareBounded(Marks(s), s[0].q.maxMarks);
    ShareBounded(Marks(s), 0.0);
  }

  // Hardest first ------------------------------------------------------------------------

  predicate Harder(a: QuestionStat, b: QuestionStat) {
    if a.difficulty != b.difficulty then a.difficulty < b.difficulty else Before(a.questionNo, b.questionNo)
  }

  method HardestQuestions(stats: seq<QuestionStat>, n: int) returns (hardest: seq<QuestionStat>)
    ensures |hardest| == if n <= 0 || n > |stats| then |stats| else n
    ensures Leads(hardest, stats, Harder)
  {
    HarderOrders();
    var sorted := StableSort(stats, Harder);
    var k := if n <= 0 || n > |sorted| then |sorted| else n;
    PrefixLeads(stats, k, Harder);
    hardest := sorted[..k];
  }

  // No question left out is harder than one that is returned.
  lemma HardestAreHardest(stats: seq<QuestionStat>, hardest: seq<QuestionStat>, h: QuestionStat, omitted: QuestionStat)
    requires Leads(hardest, stats, Harder) && h in hardest
    ensures h in stats
    ensures omitted in stats && omitted !in hardest ==> h.difficulty <= omitted.difficulty
  {
    LeadsElements(hardest, stats, h, omitted, Harder);
  }

  // They come by difficulty, and by number where that is equal, and an equally
  // hard question is only left out for one with a lower number.
  lemma HardestFirst(stats: seq<QuestionStat>, hardest: seq<QuestionStat>, i: nat, j: nat, omitted: QuestionStat)
    requires Leads(hardest, stats, Harder) && i < |hardest|
    ensures i < j < |hardest| ==>
              || hardest[i].difficulty < hardest[j].difficulty
              || (hardest[i].difficulty == hardest[j].difficulty
                  && !Before(hardest[j].questionNo, hardest[i].questionNo))
    ensures omitted in stats && omitted !in hardest && omitted.difficulty == hardest[i].difficulty ==>
              !Before(omitted.questionNo, hardest[i].questionNo)
  {
    LeadsInOrder(hardest, stats, Harder);
    LeadsElements(hardest, stats, hardest[i], omitted, Harder);
    assert i < j < |hardest| ==> !Harder(hardest[j], hardest[i]);
  }

  lemma HarderOrders()
    ensures Ordering(Harder)
  {
    forall a: QuestionStat, b: QuestionStat
      ensures Harder(a, b) ==> !Harder(b, a)
    {
      BeforeIsTotal(a.questionNo, b.questionNo);
    }
    forall a: QuestionStat, b: QuestionStat, c: QuestionStat
      ensures !Harder(b, a) && !Harder(c, b) ==> !Harder(c, a)
    {
      BeforeIsTotal(a.questionNo, b.questionNo);
      BeforeIsTotal(b.questionNo, c.questionNo);
      BeforeIsTotal(a.questionNo, c.questionNo);
      BeforeIsTransitive(c.questionNo, a.questionNo, b.questionNo);
    }
  }

  // The figures, read off the papers -------------------------------------------------

  // A question where it occurs among questions of a paper with this total
  function Occurring(qs: seq<GradedQuestion>, total: real, no: string): seq<Answer> {
    if qs == [] then []
    else
      var last := qs[|qs| - 1];
      Occurring(qs[..|qs| - 1], total, no) + (if last.questionNo == no then [Answer(last, total)] else [])
  }

  // Its occurrences in all papers, in order
  function Occurrences(papers: seq<GradedPaper>, no: string): seq<Answer> {
    if papers == [] then []
    else
      var last := papers[|papers| - 1];
      Occurrences(papers[..|papers| - 1], no) + Occurring(last.questions, last.total, no)
  }

  // How many of them were awarded v, and what they were awarded together
  function AwardedExactly(o: seq<Answer>, v: real): nat {
    if o == [] then 0
    else AwardedExactly(o[..|o| - 1], v) + (if o[|o| - 1].q.awardedMarks == v then 1 else 0)
  }

  function AwardedInAll(o: seq<Answer>): real {
    if o == [] then 0.0 else AwardedInAll(o[..|o| - 1]) + o[|o| - 1].q.awardedMarks
  }

  function WithTotal(qs: seq<GradedQuestion>, total: real): seq<Answer> {
    seq(|qs|, j requires 0 <= j < |qs| => Answer(qs[j], total))
  }

  lemma {:induction false} OccurringIsOnly(qs: seq<GradedQuestion>, total: real, no: string)
    ensures Occurring(qs, total, no) == Only(WithTotal(qs, total), no)
  {
    if qs != [] {
      OccurringIsOnly(qs[..|qs| - 1], total, no);
      assert WithTotal(qs, total)[..|qs| - 1] == WithTotal(qs[..|qs| - 1], total);
    }
  }

  lemma {:induction false} OccurrencesAreOnly(papers: seq<GradedPaper>, no: string)
    ensures Occurrences(papers, no) == Only(AllAnswers(papers), no)
  {
    if papers != [] {
      var init, last := papers[..|papers| - 1], papers[|papers| - 1];
      OccurrencesAreOnly(init, no);
      OccurringIsOnly(last.questions, last.total, no);
      assert Answers(last) == WithTotal(last.questions, last.total);
      OnlyConcat(AllAnswers(init), Answers(last), no);
    }
  }

  lemma {:induction false} CountsAgree(s: seq<Answer>, v: real)
    ensures HowMany(Marks(s), v) == AwardedExactly(s, v)
    ensures Sum(Marks(s)) == AwardedInAll(s)
  {
    if s != [] {
      CountsAgree(s[..|s| - 1], v);
      assert Marks(s)[..|s| - 1] == Marks(s[..|s| - 1]);
    }
  }

  // n answers with this sum of awards, full of them at the maximum and zero of
  // them at 0 have these figures.
  predicate Figures(n: real, sum: real, full: nat, zero: nat, maxMarks: real, mean: real, difficulty: real,
                    pctFull: real, pctZero: real)
  {
    && mean * n == sum
    && (maxMarks != 0.0 ==>
          difficulty * maxMarks == mean && pctFull * n == full as real && pctZero * n == zero as real)
    && (maxMarks == 0.0 ==> difficulty == 0.0 && pctFull == 0.0 && pctZero == 0.0)
  }

  lemma Quotients(n: real, sum: real, full: nat, zero: nat, maxMarks: real)
    requires n > 0.0
    ensures Figures(n, sum, full, zero, maxMarks, sum / n,
                    if maxMarks != 0.0 then (sum / n) / maxMarks else 0.0,
                    if maxMarks != 0.0 then full as real / n else 0.0,
                    if maxMarks != 0.0 then zero as real / n else 0.0)
  {
    assert (sum / n) * n == sum;
    assert (full as real / n) * n == full as real;
    assert (zero as real / n) * n == zero as real;
    if maxMarks != 0.0 {
      assert ((sum / n) / maxMarks) * maxMarks == sum / n;
    }
  }

  // Every figure of a statistic in terms of the occurrences of its question: how
  // many there are, the maximum of the first, the mean award and its share of the
  // maximum, how many earned it in full and how many nothing.
  lemma FiguresAreOfThePapers(sqrt: real -> real, papers: seq<GradedPaper>, stats: seq<QuestionStat>, i: nat)
    requires Analyses(sqrt, AllAnswers(papers), stats) && i < |stats|
    ensures var stat, o := stats[i], Occurrences(papers, stats[i].questionNo);
            && stat.responses == |o| > 0 && stat.maxMarks == o[0].q.maxMarks
            && Figures(stat.responses as real, AwardedInAll(o),
                       AwardedExactly(o, stat.maxMarks), AwardedExactly(o, 0.0), stat.maxMarks,
                       stat.meanAwarded, stat.difficulty, stat.pctFullMarks, stat.pctZero)
  {
    var no := stats[i].questionNo;
    var s := Only(AllAnswers(papers), no);
    assert Defined(sqrt, AllAnswers(papers), stats[i]);
    OccurrencesAreOnly(papers, no);
    CountsAgree(s, stats[i].maxMarks);
    CountsAgree(s, 0.0);
    Quotients(|s| as real, Sum(Marks(s)), HowMany(Marks(s), stats[i].maxMarks), HowMany(Marks(s), 0.0),
              stats[i].maxMarks);
  }

  // The discrimination correlates the awards with the totals of their papers.
  lemma DiscriminationIsOfThePapers(sqrt: real -> real, papers: seq<GradedPaper>, stats: seq<QuestionStat>, i: nat)
    requires Analyses(sqrt, AllAnswers(papers), stats) && i < |stats|
    ensures var o := Occurrences(papers, stats[i].questionNo);
            stats[i].discrimination ==
            Coefficient(sqrt, seq(|o|, k requires 0 <= k < |o| => o[k].q.awardedMarks),
                        seq(|o|, k requires 0 <= k < |o| => o[k].total))
  {
    var o := Occurrences(papers, stats[i].questionNo);
    assert Defined(sqrt, AllAnswers(papers), stats[i]);
    OccurrencesAreOnly(papers, stats[i].questionNo);
    assert Marks(o) == seq(|o|, k requires 0 <= k < |o| => o[k].q.awardedMarks);
    assert Totals(o) == seq(|o|, k requires 0 <= k < |o| => o[k].total);
  }
}
