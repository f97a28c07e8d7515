/** The grade histogram and its summary figures (GradeDistribution and
    bucketIndex in the analytics package). */
module Distribution {
  import opened Papers
  import opened Decimals
  import opened Correlation
  import opened Sorting
  import Seqs

  datatype Bucket = Bucket(caption: string, lo: real, hi: real, count: nat)

  datatype Distribution = Distribution(
    buckets: seq<Bucket>, mean: real, median: real, stdDev: real, min: real, max: real, count: nat)

  function Label(i: nat): string {
    if i == 9 then "90-100" else Decimal(i * 10) + "-" + Decimal((i + 1) * 10 - 1)
  }

  // bucketDefs
  function Template(i: nat): Bucket {
    Bucket(Label(i), 10.0 * i as real, 10.0 * (i + 1) as real, 0)
  }

  function BucketIndex(score: real): int {
    var idx := (score / 10.0).Floor;
    if score >= 100.0 then 9 else if score < 0.0 then 0 else if idx > 9 then 9 else idx
  }

  // Half-open intervals of ten, the first open to the left and the last to the right.
  ghost predicate Belongs(i: nat, score: real) {
    (i == 0 || 10.0 * i as real <= score) && (i == 9 || score < 10.0 * (i + 1) as real)
  }

  lemma BucketIsInterval(i: nat, score: real)
    requires i < 10
    ensures 0 <= BucketIndex(score) < 10
    ensures BucketIndex(score) == i <==> Belongs(i, score)
  {
    if 0.0 <= score < 100.0 {
      var k := (score / 10.0).Floor;
      assert k as real <= score / 10.0 < k as real + 1.0;
      assert 10.0 * k as real <= score < 10.0 * (k + 1) as real;
      assert i < k ==> (i + 1) as real <= k as real;
      assert k < i ==> (k + 1) as real <= i as real;
    }
  }

  ghost function InBucket(i: nat): real -> bool {
    score => Belongs(i, score)
  }

  function Scores(papers: seq<GradedPaper>): seq<real> {
    seq(|papers|, i requires 0 <= i < |papers| => papers[i].score100)
  }

  predicate Below(a: real, b: real) {
    a < b
  }

  // sort.Float64s on a copy, then the middle
  function MedianOf(scores: seq<real>): real
    requires scores != []
  {
    var sorted, n := StableSort(scores, Below), |scores|;
    if n % 2 == 1 then sorted[n / 2] else (sorted[n / 2 - 1] + sorted[n / 2]) / 2.0
  }

  method Populate(scores: seq<real>) returns (buckets: array<Bucket>)
    ensures fresh(buckets) && buckets.Length == 10
    ensures forall i: nat :: i < 10 ==> buckets[i] == Template(i).(count := Seqs.Count(scores, InBucket(i)))
  {
    buckets := new Bucket[10](i => Template(i));
    for k := 0 to |scores|
      invariant forall i: nat :: i < 10 ==> buckets[i] == Template(i).(count := Seqs.Count(scores[..k], InBucket(i)))
    {
      var idx := BucketIndex(scores[k]);
      BucketIsInterval(0, scores[k]);
      forall i: nat | i < 10
        ensures Seqs.Count(scores[..k + 1], InBucket(i)) ==
                Seqs.Count(scores[..k], InBucket(i)) + (if i == idx then 1 else 0)
      {
        assert scores[..k + 1] == scores[..k] + [scores[k]];
        BucketIsInterval(i, scores[k]);
      }
      buckets[idx] := buckets[idx].(count := buckets[idx].count + 1);
    }
    assert scores[..|scores|] == scores;
  }

  method Extremes(scores: seq<real>) returns (minVal: real, maxVal: real, sum: real)
    requires scores != []
    ensures minVal in scores && maxVal in scores
    ensures forall i :: 0 <= i < |scores| ==> minVal <= scores[i] <= maxVal
    ensures sum == Sum(scores)
  {
    minVal, maxVal, sum := scores[0], scores[0], 0.0;
    for k := 0 to |scores|
      invariant minVal in scores && maxVal in scores
      invariant forall i :: 0 <= i < k ==> minVal <= scores[i] <= maxVal
      invariant sum == Sum(scores[..k])
    {
      assert scores[..k + 1][..k] == scores[..k];
      var s := scores[k];
      sum := sum + s;
      if s < minVal {
        minVal := s;
      }
      if s > maxVal {
        maxVal := s;
      }
    }
    assert scores[..|scores|] == scores;
  }

  method SquaredDeviations(scores: seq<real>, avg: real) returns (varianceSum: real)
    ensures varianceSum == Dot(Minus(scores, avg), Minus(scores, avg))
  {
    ghost var u := Minus(scores, avg);
    varianceSum := 0.0;
    for k := 0 to |scores|
      invariant varianceSum == Dot(u[..k], u[..k])
    {
      var d := scores[k] - avg;
      DotStep(u, u, k, d, d);
      varianceSum := varianceSum + d * d;
    }
    assert u[..|scores|] == u;
  }

  function RootMean(sqrt: real -> real, sum: real, n: real): real
    requires n != 0.0
  {
    sqrt(sum / n)
  }

  ghost predicate Spread(sqrt: real -> real, scores: seq<real>, mean: real, deviation: real)
    requires scores != []
  {
    mean == MeanOf(scores) && deviation == RootMean(sqrt, Dot(Dev(scores), Dev(scores)), |scores| as real)
  }

  // What GradeDistribution promises of the bars
  ghost predicate Histogram(scores: seq<real>, buckets: seq<Bucket>) {
    && |buckets| == 10
    && forall i: nat :: i < 10 ==> buckets[i] == Template(i).(count := Seqs.Count(scores, InBucket(i)))
  }

  // and of the figures.
  ghost predicate Summary(sqrt: real -> real, scores: seq<real>, d: Distribution) {
    && d.count == |scores|
    && if scores == [] then d.mean == d.median == d.stdDev == d.min == d.max == 0.0
       else
         && Spread(sqrt, scores, d.mean, d.stdDev)
         && d.median == MedianOf(scores)
         && d.min in scores && d.max in scores
         && forall i :: 0 <= i < |scores| ==> d.min <= scores[i] <= d.max
  }

  method GradeDistribution(sqrt: real -> real, papers: seq<GradedPaper>) returns (d: Distribution)
    ensures Histogram(Scores(papers), d.buckets) && Summary(sqrt, Scores(papers), d)
  {
    var scores := Scores(papers);
    var buckets := Populate(scores);
    if |papers| == 0 {
      return Distribution(buckets[..], 0.0, 0.0, 0.0, 0.0, 0.0, 0);
    }
    var minVal, maxVal, sum := Extremes(scores);
    var n := |scores|;
    var avg := sum / n as real;
    var varianceSum := SquaredDeviations(scores, avg);
    var stddev := sqrt(varianceSum / n as real);
    var sorted := StableSort(scores, Below);
    var med;
    if n % 2 == 1 {
      med := sorted[n / 2];
    } else {
      med := (sorted[n / 2 - 1] + sorted[n / 2]) / 2.0;
    }
    d := Distribution(buckets[..], avg, med, stddev, minVal, maxVal, n);
  }

  // The histogram ----------------------------------------------------------------------

  function TotalCount(buckets: seq<Bucket>): nat {
    if buckets == [] then 0 else TotalCount(buckets[..|buckets| - 1]) + buckets[|buckets| - 1].count
  }

  // The scores in the first k buckets.
  ghost function InFirst(k: nat): real -> bool {
    score => BucketIndex(score) < k
  }

  lemma {:induction false} OneBucketMore(scores: seq<real>, k: nat)
    requires k < 10
    ensures Seqs.Count(scores, InFirst(k + 1)) == Seqs.Count(scores, InFirst(k)) + Seqs.Count(scores, InBucket(k))
  {
    if scores != [] {
      OneBucketMore(scores[..|scores| - 1], k);
      BucketIsInterval(k, scores[|scores| - 1]);
    }
  }

  lemma {:induction false} FirstBuckets(scores: seq<real>, k: nat)
    ensures Seqs.Count(scores, InFirst(0)) == 0
    ensures k >= 10 ==> Seqs.Count(scores, InFirst(k)) == |scores|
  {
    if scores != [] {
      FirstBuckets(scores[..|scores| - 1], k);
      BucketIsInterval(0, scores[|scores| - 1]);
    }
  }

  lemma {:induction false} CountsToBucket(scores: seq<real>, buckets: seq<Bucket>)
    requires |buckets| <= 10
    requires forall i: nat :: i < |buckets| ==> buckets[i].count == Seqs.Count(scores, InBucket(i))
    ensures TotalCount(buckets) == Seqs.Count(scores, InFirst(|buckets|))
  {
    if buckets == [] {
      FirstBuckets(scores, 0);
    } else {
      CountsToBucket(scores, buckets[..|buckets| - 1]);
      OneBucketMore(scores, |buckets| - 1);
    }
  }

  // No score is dropped or counted twice.
  lemma HistogramIsComplete(scores: seq<real>, buckets: seq<Bucket>)
    requires Histogram(scores, buckets)
    ensures TotalCount(buckets) == |scores|
  {
    CountsToBucket(scores, buckets);
    FirstBuckets(scores, 10);
  }

  // The median -----------------------------------------------------------------------------

  lemma {:induction false} CountInsert(s: seq<real>, x: real, p: real -> bool)
    ensures Seqs.Count(Insert(s, x, Below), p) == Seqs.Count(s, p) + (if p(x) then 1 else 0)
  {
    if s != [] && Below(x, s[|s| - 1]) {
      var n := |s| - 1;
      CountInsert(s[..n], x, p);
    }
  }

  lemma {:induction false} CountSorted(s: seq<real>, p: real -> bool)
    ensures Seqs.Count(StableSort(s, Below), p) == Seqs.Count(s, p)
  {
    if s != [] {
      var n := |s| - 1;
      CountSorted(s[..n], p);
      CountInsert(StableSort(s[..n], Below), s[n], p);
    }
  }

  lemma {:induction false} CountRange(s: seq<real>, lo: nat, hi: nat, p: real -> bool)
    requires lo <= hi <= |s| && forall i :: lo <= i < hi ==> p(s[i])
    ensures Seqs.Count(s, p) >= hi - lo
  {
    if s != [] && lo < hi {
      var n := |s| - 1;
      CountRange(s[..n], lo, if hi == |s| then n else hi, p);
    }
  }

  ghost function AtMost(m: real): real -> bool {
    score => score <= m
  }

  ghost function AtLeast(m: real): real -> bool {
    score => score >= m
  }

  lemma MiddleSplits(sorted: seq<real>, med: real)
    requires sorted != [] && Sorted(sorted, Below)
    requires med == if |sorted| % 2 == 1 then sorted[|sorted| / 2]
                    else (sorted[|sorted| / 2 - 1] + sorted[|sorted| / 2]) / 2.0
    ensures forall i :: 0 <= i < (|sorted| + 1) / 2 ==> sorted[i] <= med
    ensures forall i :: |sorted| / 2 <= i < |sorted| ==> sorted[i] >= med
  {
    var n := |sorted|;
    assert forall i, j :: 0 <= i < j < n ==> !Below(sorted[j], sorted[i]);
    if n % 2 == 0 {
      assert !Below(sorted[n / 2], sorted[n / 2 - 1]);
      assert sorted[n / 2 - 1] <= med <= sorted[n / 2];
    }
  }

  lemma ScoresSorted(scores: seq<real>)
    ensures Sorted(StableSort(scores, Below), Below)
  {
    SortSorts(scores, Below);
  }

  lemma SortedHalves(sorted: seq<real>, med: real)
    requires forall i :: 0 <= i < (|sorted| + 1) / 2 ==> sorted[i] <= med
    requires forall i :: |sorted| / 2 <= i < |sorted| ==> sorted[i] >= med
    ensures 2 * Seqs.Count(sorted, AtMost(med)) >= |sorted|
    ensures 2 * Seqs.Count(sorted, AtLeast(med)) >= |sorted|
  {
    CountRange(sorted, 0, (|sorted| + 1) / 2, AtMost(med));
    CountRange(sorted, |sorted| / 2, |sorted|, AtLeast(med));
  }

  // At least half of the scores lie on each side of the median.
  lemma MedianHalves(scores: seq<real>)
    requires scores != []
    ensures 2 * Seqs.Count(scores, AtMost(MedianOf(scores))) >= |scores|
    ensures 2 * Seqs.Count(scores, AtLeast(MedianOf(scores))) >= |scores|
  {
    var med := MedianOf(scores);
    ScoresSorted(scores);
    MiddleSplits(StableSort(scores, Below), med);
    SortedHalves(StableSort(scores, Below), med);
    CountSorted(scores, AtMost(med));
    CountSorted(scores, AtLeast(med));
  }

  // The deviation ---------------------------------------------------------------------------

  lemma ShiftStep(x: real, a: real, aa: real, d: real, s: real, q: real, n: real, r: real,
                  s': real, q': real, n': real, r': real)
    requires aa == a * a && d == x - a
    requires s' == s + x && q' == q + x * x && n' == n + 1.0 && r' == r + d * d
    requires r == q - 2.0 * (a * s) + n * aa
    ensures r' == q' - 2.0 * (a * s') + n' * aa
  {
    assert d * d == x * x - 2.0 * (a * x) + aa;
    assert a * s' == a * s + a * x;
    assert n' * aa == n * aa + aa;
  }

  lemma {:induction false} ShiftedSquares(x: seq<real>, a: real, aa: real, s: real, q: real, n: real)
    requires aa == a * a && s == Sum(x) && q == Dot(x, x) && n == |x| as real
    ensures Dot(Minus(x, a), Minus(x, a)) == q - 2.0 * (a * s) + n * aa
  {
    if x != [] {
      var k := |x| - 1;
      var y, u := x[..k], Minus(x, a);
      var s', q', n' := Sum(y), Dot(y, y), k as real;
      assert u[..k] == Minus(y, a);
      ShiftedSquares(y, a, aa, s', q', n');
      ShiftStep(x[k], a, aa, u[k], s', q', n', Dot(u[..k], u[..k]), s, q, n, Dot(u, u));
    }
  }

  lemma MeanSquares(q: real, s: real, n: real, m: real, mm: real, r: real, v: real)
    requires m * n == s && v * n == r && mm == m * m && r == q - 2.0 * (m * s) + n * mm
    ensures n * (v + mm) == q
  {
    assert m * s == n * mm;
  }

  lemma Quotient(a: real, n: real, q: real)
    requires n > 0.0 && q == a / n
    ensures q * n == a && (a >= 0.0 ==> q >= 0.0)
  {
  }

  lemma Variance(x: seq<real>, m: real, mm: real, v: real, s: real, q: real, n: real)
    requires x != [] && mm == m * m && n == |x| as real && s == Sum(x) && q == Dot(x, x)
    requires m * n == s && v * n == Dot(Minus(x, m), Minus(x, m))
    ensures n * (v + mm) == q
  {
    var r := v * n;
    ShiftedSquares(x, m, mm, s, q, n);
    MeanSquares(q, s, n, m, mm, r, v);
  }

  lemma RootSquared(sqrt: real -> real, r: real, n: real, v: real, deviation: real)
    requires SquareRoot(sqrt) && n > 0.0 && r >= 0.0 && v == r / n && deviation == RootMean(sqrt, r, n)
    ensures deviation >= 0.0 && deviation * deviation == v
  {
    Quotient(r, n, v);
  }

  lemma MeanTimes(scores: seq<real>, m: real, s: real, n: real)
    requires scores != [] && m == MeanOf(scores) && s == Sum(scores) && n == |scores| as real
    ensures m * n == s
  {
    Quotient(Sum(scores), n, m);
  }

  lemma DeviationFrom(scores: seq<real>, m: real, q: real, n: real, r: real, v: real)
    requires scores != [] && n == |scores| as real && q == Dot(scores, scores)
    requires m == MeanOf(scores) && r == Dot(Minus(scores, m), Minus(scores, m)) && v == r / n
    ensures r >= 0.0 && n * (v + m * m) == q
  {
    var s := Sum(scores);
    SelfDot(Minus(scores, m));
    Quotient(r, n, v);
    MeanTimes(scores, m, s, n);
    Variance(scores, m, m * m, v, s, q, n);
  }

  lemma Substitute(n: real, v: real, d: real, m: real, q: real)
    requires d * d == v && n * (v + m * m) == q
    ensures n * (d * d + m * m) == q
  {
  }

  // The squared deviation is the mean of the squares minus the square of the
  // mean, both sides times the number of scores.
  lemma DeviationSquared(sqrt: real -> real, scores: seq<real>, mean: real, deviation: real, squares: real, n: real)
    requires SquareRoot(sqrt) && scores != [] && Spread(sqrt, scores, mean, deviation)
    requires n == |scores| as real && squares == Dot(scores, scores)
    ensures deviation >= 0.0 && n * (deviation * deviation + mean * mean) == squares
  {
    var r := Dot(Dev(scores), Dev(scores));
    var v := r / n;
    DeviationFrom(scores, mean, squares, n, r, v);
    RootSquared(sqrt, r, n, v, deviation);
    Substitute(n, v, deviation, mean, squares);
  }

  // What the figures are -----------------------------------------------------------------------

  // Twice the median is the sum of the two middle scores in order, for an odd
  // number of scores the middle one twice.
  lemma MedianIsTheMiddle(scores: seq<real>) returns (t: seq<real>)
    requires scores != []
    ensures multiset(t) == multiset(scores) && |t| == |scores|
    ensures forall i, j :: 0 <= i < j < |t| ==> t[i] <= t[j]
    ensures 2.0 * MedianOf(scores) == t[(|t| - 1) / 2] + t[|t| / 2]
  {
    t := StableSort(scores, Below);
    SortedScores(scores, t);
    var n := |scores|;
    assert n % 2 == 1 ==> (n - 1) / 2 == n / 2;
    assert n % 2 == 0 ==> (n - 1) / 2 == n / 2 - 1;
  }

  lemma SortedScores(scores: seq<real>, t: seq<real>)
    requires t == StableSort(scores, Below)
    ensures multiset(t) == multiset(scores) && |t| == |scores|
    ensures forall i, j :: 0 <= i < j < |t| ==> t[i] <= t[j]
  {
    ScoresSorted(scores);
    SortPermutes(scores, Below);
    forall i, j | 0 <= i < j < |t| ensures t[i] <= t[j] {
      assert !Below(t[j], t[i]);
    }
  }

  // The captions and bounds of the ten bars
  lemma {:induction false} TensAreWritten(i: nat)
    requires 0 < i < 10
    ensures Decimal(10 * i) == [Digit(i), '0'] && Decimal(10 * i + 9) == [Digit(i), '9']
  {
    assert 10 * i / 10 == i && (10 * i + 9) / 10 == i;
    assert Decimal(i) == [Digit(i)];
  }

  lemma FirstBar()
    ensures Label(0) == "0-9"
  {
    assert Decimal(0) == "0" && Decimal(9) == "9";
  }

  lemma BarsAreLabelled(i: nat)
    requires i < 10
    ensures Template(i) == Bucket(Label(i), (10 * i) as real, (10 * i + 10) as real, 0)
    ensures Label(0) == "0-9" && Label(9) == "90-100"
    ensures 0 < i < 9 ==> Label(i) == [Digit(i), '0', '-', Digit(i), '9']
  {
    FirstBar();
    if 0 < i < 9 {
      TensAreWritten(i);
    }
  }
}
