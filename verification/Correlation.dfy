/** Discrimination: the correlation of the marks on one question with the
    paper totals (pearson and mean in the analytics package). */
module Correlation {

  function Sum(xs: seq<real>): real {
    if xs == [] then 0.0 else Sum(xs[..|xs| - 1]) + xs[|xs| - 1]
  }

  function MeanOf(xs: seq<real>): real {
    if xs == [] then 0.0 else Sum(xs) / |xs| as real
  }

  lemma {:induction false} SumShifted(x: seq<real>, a: real)
    ensures Sum(Minus(x, a)) == Sum(x) - |x| as real * a
  {
    if x != [] {
      var n := |x| - 1;
      SumShifted(x[..n], a);
      assert Minus(x, a)[..n] == Minus(x[..n], a);
    }
  }

  // The mean is where the deviations cancel out; of nothing it is 0.
  lemma DeviationsCancel(x: seq<real>)
    ensures Sum(Dev(x)) == 0.0 && MeanOf([]) == 0.0
  {
    SumShifted(x, MeanOf(x));
  }

  // Sum of products.
  function Dot(u: seq<real>, v: seq<real>): real
    requires |u| == |v|
  {
    if u == [] then 0.0
    else
      var n := |u| - 1;
      Dot(u[..n], v[..n]) + u[n] * v[n]
  }

  function Minus(x: seq<real>, a: real): (u: seq<real>)
    ensures |u| == |x| && forall i :: 0 <= i < |x| ==> u[i] == x[i] - a
  {
    seq(|x|, i requires 0 <= i < |x| => x[i] - a)
  }

  // The deviations from the mean.
  function Dev(x: seq<real>): (u: seq<real>)
    ensures |u| == |x|
  {
    Minus(x, MeanOf(x))
  }

  // math.Sqrt on exact reals
  ghost predicate SquareRoot(sqrt: real -> real) {
    forall v :: v >= 0.0 ==> sqrt(v) >= 0.0 && sqrt(v) * sqrt(v) == v
  }

  function Over(c: real, d: real): real {
    if d == 0.0 then 0.0 else c / d
  }

  function Ratio(sqrt: real -> real, v: real, c: real, w: real): real {
    Over(c, sqrt(v * w))
  }

  function Centred(sqrt: real -> real, u: seq<real>, v: seq<real>): real
    requires |u| == |v|
  {
    Ratio(sqrt, Dot(u, u), Dot(u, v), Dot(v, v))
  }

  function Coefficient(sqrt: real -> real, x: seq<real>, y: seq<real>): real
    requires |x| == |y|
  {
    if |x| < 2 then 0.0 else Centred(sqrt, Dev(x), Dev(y))
  }

  method Mean(xs: seq<real>) returns (m: real)
    ensures m == MeanOf(xs)
  {
    if |xs| == 0 {
      return 0.0;
    }
    var s := 0.0;
    for i := 0 to |xs|
      invariant s == Sum(xs[..i])
    {
      s := s + xs[i];
      assert xs[..i + 1][..i] == xs[..i];
    }
    assert xs[..|xs|] == xs;
    return s / |xs| as real;
  }

  lemma DotStep(u: seq<real>, v: seq<real>, i: nat, a: real, b: real)
    requires i < |u| == |v| && u[i] == a && v[i] == b
    ensures Dot(u[..i + 1], v[..i + 1]) == Dot(u[..i], v[..i]) + a * b
  {
    assert u[..i + 1][..i] == u[..i] && v[..i + 1][..i] == v[..i];
  }

  method Deviations(x: seq<real>, y: seq<real>, meanX: real, meanY: real)
    returns (cov: real, varX: real, varY: real)
    requires |x| == |y|
    ensures cov == Dot(Minus(x, meanX), Minus(y, meanY))
    ensures varX == Dot(Minus(x, meanX), Minus(x, meanX))
    ensures varY == Dot(Minus(y, meanY), Minus(y, meanY))
  {
    ghost var u, v := Minus(x, meanX), Minus(y, meanY);
    cov, varX, varY := 0.0, 0.0, 0.0;
    for i := 0 to |x|
      invariant cov == Dot(u[..i], v[..i]) && varX == Dot(u[..i], u[..i]) && varY == Dot(v[..i], v[..i])
    {
      var dx := x[i] - meanX;
      var dy := y[i] - meanY;
      DotStep(u, v, i, dx, dy);
      DotStep(u, u, i, dx, dx);
      DotStep(v, v, i, dy, dy);
      cov := cov + dx * dy;
      varX := varX + dx * dx;
      varY := varY + dy * dy;
    }
    assert u[..|x|] == u && v[..|x|] == v;
  }

  method Quotient(sqrt: real -> real, varX: real, cov: real, varY: real) returns (r: real)
    ensures r == Ratio(sqrt, varX, cov, varY)
  {
    var denom := sqrt(varX * varY);
    if denom == 0.0 {
      return 0.0;
    }
    return cov / denom;
  }

  method Pearson(sqrt: real -> real, x: seq<real>, y: seq<real>) returns (r: real)
    requires |x| == |y|
    ensures r == Coefficient(sqrt, x, y)
  {
    var n := |x|;
    if n < 2 {
      return 0.0;
    }
    var meanX := Mean(x);
    var meanY := Mean(y);
    var cov, varX, varY := Deviations(x, y, meanX, meanY);
    r := Quotient(sqrt, varX, cov, varY);
  }

  // Cauchy-Schwarz ------------------------------------------------------------------

  lemma PositiveProduct(a: real, b: real)
    requires a > 0.0 && b > 0.0
    ensures a * b > 0.0
  {
  }

  lemma {:induction false} SelfDot(u: seq<real>)
    ensures Dot(u, u) >= 0.0
  {
    if u != [] {
      SelfDot(u[..|u| - 1]);
    }
  }

  function Squared(d: real): real {
    d * d
  }

  lemma ProductSign(a: real, b: real, r: real)
    requires r == a * b
    ensures a > 0.0 && b > 0.0 ==> r > 0.0
    ensures a == 0.0 ==> r == 0.0
  {
  }

  lemma SquaredSign(d: real)
    ensures Squared(d) >= 0.0
    ensures d != 0.0 ==> Squared(d) > 0.0
    ensures d == 0.0 ==> Squared(d) == 0.0
  {
    ProductSign(d, d, Squared(d));
    ProductSign(-d, -d, Squared(d));
  }

  // What is left of q times v after taking away p times u.
  function Residual(u: seq<real>, v: seq<real>, p: real, q: real): (r: real)
    requires |u| == |v|
    ensures r >= 0.0
  {
    if u == [] then 0.0
    else
      var n := |u| - 1;
      var d := p * u[n] - q * v[n];
      SquaredSign(d);
      Residual(u[..n], v[..n], p, q) + Squared(d)
  }

  // (p, q) with its squares and its double product
  ghost predicate Direction(p: real, q: real, pp: real, pq: real, qq: real) {
    pp == p * p && pq == 2.0 * (p * q) && qq == q * q
  }

  lemma {:induction false} ResidualExpands(u: seq<real>, v: seq<real>, p: real, q: real, pp: real, pq: real, qq: real,
                                           uu: real, uv: real, vv: real)
    requires |u| == |v| && Direction(p, q, pp, pq, qq)
    requires uu == Dot(u, u) && uv == Dot(u, v) && vv == Dot(v, v)
    ensures Residual(u, v, p, q) == pp * uu - pq * uv + qq * vv
  {
    if u != [] {
      var n := |u| - 1;
      var a, b := u[..n], v[..n];
      var aa, ab, bb := Dot(a, a), Dot(a, b), Dot(b, b);
      ResidualExpands(a, b, p, q, pp, pq, qq, aa, ab, bb);
    }
  }

  lemma {:induction false} CauchySchwarz(u: seq<real>, v: seq<real>, uu: real, uv: real, vv: real)
    requires |u| == |v| && uu == Dot(u, u) && uv == Dot(u, v) && vv == Dot(v, v)
    ensures uv * uv <= uu * vv
  {
    if u != [] {
      var n := |u| - 1;
      var a, b := u[..n], v[..n];
      var p, q, aa, ab, bb := u[n], v[n], Dot(a, a), Dot(a, b), Dot(b, b);
      CauchySchwarz(a, b, aa, ab, bb);
      ResidualExpands(a, b, q, p, q * q, 2.0 * (q * p), p * p, aa, ab, bb);
    }
  }

  lemma SquareOrder(a: real, b: real)
    requires b >= 0.0
    ensures a > b ==> a * a > b * b
  {
    if a > b {
      PositiveProduct(a - b, a + b);
    }
    assert (a - b) * (a + b) == a * a - b * b;
  }

  lemma RootBounds(c: real, d: real)
    requires d > 0.0 && c * c <= d * d
    ensures -1.0 <= c / d <= 1.0
  {
    SquareOrder(c, d);
    SquareOrder(-c, d);
    assert (-c) * (-c) == c * c;
    var r := c / d;
    assert r * d == c;
    assert r > 1.0 ==> (r - 1.0) * d > 0.0;
    assert r < -1.0 ==> (-1.0 - r) * d > 0.0;
  }

  lemma ProductNonNegative(v: real, w: real)
    requires v >= 0.0 && w >= 0.0
    ensures v * w >= 0.0
  {
  }

  lemma RatioBounds(sqrt: real -> real, v: real, c: real, w: real)
    requires SquareRoot(sqrt) && v >= 0.0 && w >= 0.0 && c * c <= v * w
    ensures -1.0 <= Ratio(sqrt, v, c, w) <= 1.0
  {
    ProductNonNegative(v, w);
    var d := sqrt(v * w);
    if d != 0.0 {
      RootBounds(c, d);
    }
  }

  lemma CentredWithinOne(sqrt: real -> real, u: seq<real>, v: seq<real>)
    requires SquareRoot(sqrt) && |u| == |v|
    ensures -1.0 <= Centred(sqrt, u, v) <= 1.0
  {
    SelfDot(u);
    SelfDot(v);
    var uu, uv, vv := Dot(u, u), Dot(u, v), Dot(v, v);
    CauchySchwarz(u, v, uu, uv, vv);
    RatioBounds(sqrt, uu, uv, vv);
  }

  // The coefficient lies in [-1, 1] whatever the marks are.
  lemma WithinOne(sqrt: real -> real, x: seq<real>, y: seq<real>)
    requires SquareRoot(sqrt) && |x| == |y|
    ensures -1.0 <= Coefficient(sqrt, x, y) <= 1.0
  {
    CentredWithinOne(sqrt, Dev(x), Dev(y));
  }

  // Symmetry and scale ----------------------------------------------------------------

  lemma {:induction false} DotSymmetric(u: seq<real>, v: seq<real>)
    requires |u| == |v|
    ensures Dot(u, v) == Dot(v, u)
  {
    if u != [] {
      DotSymmetric(u[..|u| - 1], v[..|u| - 1]);
    }
  }

  lemma RatioSymmetric(sqrt: real -> real, v: real, c: real, w: real)
    ensures Ratio(sqrt, v, c, w) == Ratio(sqrt, w, c, v)
  {
    assert v * w == w * v;
  }

  lemma Symmetric(sqrt: real -> real, x: seq<real>, y: seq<real>)
    requires |x| == |y|
    ensures Coefficient(sqrt, x, y) == Coefficient(sqrt, y, x)
  {
    DotSymmetric(Dev(x), Dev(y));
    RatioSymmetric(sqrt, Dot(Dev(x), Dev(x)), Dot(Dev(x), Dev(y)), Dot(Dev(y), Dev(y)));
  }

  function Affine(x: seq<real>, k: real, c: real): (z: seq<real>)
    ensures |z| == |x| && forall i :: 0 <= i < |x| ==> z[i] == k * x[i] + c
  {
    seq(|x|, i requires 0 <= i < |x| => k * x[i] + c)
  }

  lemma AffineInit(x: seq<real>, k: real, c: real)
    requires x != []
    ensures Affine(x, k, c)[..|x| - 1] == Affine(x[..|x| - 1], k, c)
  {
    var n := |x| - 1;
    forall i | 0 <= i < n
      ensures Affine(x, k, c)[i] == Affine(x[..n], k, c)[i]
    {
      assert x[..n][i] == x[i];
    }
  }

  lemma {:induction false} AffineSum(x: seq<real>, k: real, c: real)
    ensures Sum(Affine(x, k, c)) == k * Sum(x) + |x| as real * c
  {
    if x != [] {
      var n := |x| - 1;
      AffineInit(x, k, c);
      AffineSum(x[..n], k, c);
      assert k * (Sum(x[..n]) + x[n]) == k * Sum(x[..n]) + k * x[n];
      assert |x| as real * c == n as real * c + c;
    }
  }

  lemma AffineMean(x: seq<real>, k: real, c: real)
    requires x != []
    ensures MeanOf(Affine(x, k, c)) == k * MeanOf(x) + c
  {
    AffineSum(x, k, c);
  }

  lemma AffineMinus(x: seq<real>, k: real, c: real, m: real, m': real)
    requires m' == k * m + c
    ensures Minus(Affine(x, k, c), m') == Affine(Minus(x, m), k, 0.0)
  {
    forall i | 0 <= i < |x|
      ensures Minus(Affine(x, k, c), m')[i] == Affine(Minus(x, m), k, 0.0)[i]
    {
      assert k * (x[i] - m) == k * x[i] - k * m;
    }
  }

  lemma {:induction false} DotScales(u: seq<real>, v: seq<real>, k: real)
    requires |u| == |v|
    ensures Dot(Affine(u, k, 0.0), v) == k * Dot(u, v)
  {
    if u != [] {
      var n := |u| - 1;
      AffineInit(u, k, 0.0);
      DotScales(u[..n], v[..n], k);
    }
  }

  lemma RootUnique(a: real, b: real)
    requires a >= 0.0 && b >= 0.0 && a * a == b * b
    ensures a == b
  {
    assert (a - b) * (a + b) == 0.0;
    assert a != b ==> a + b > 0.0;
  }

  lemma ScaledRoot(sqrt: real -> real, p: real, t: real, m: real)
    requires SquareRoot(sqrt) && p >= 0.0 && m >= 0.0 && t == (m * m) * p
    ensures sqrt(t) == m * sqrt(p)
  {
    var s := sqrt(p);
    ProductNonNegative(m * m, p);
    ProductNonNegative(m, s);
    assert (m * s) * (m * s) == (m * m) * (s * s);
    RootUnique(sqrt(t), m * s);
  }

  ghost predicate Signed(k: real, scaled: real, original: real) {
    scaled == if k > 0.0 then original else -original
  }

  lemma OverScales(sqrt: real -> real, p: real, t: real, c: real, k: real, m: real, kc: real)
    requires SquareRoot(sqrt) && p >= 0.0 && k != 0.0
    requires m == (if k > 0.0 then k else -k) && t == (m * m) * p && kc == k * c
    ensures Signed(k, Over(kc, sqrt(t)), Over(c, sqrt(p)))
  {
    ScaledRoot(sqrt, p, t, m);
  }

  lemma ProductScales(sqrt: real -> real, v: real, c: real, w: real, k: real, kkv: real, kc: real)
    requires SquareRoot(sqrt) && v >= 0.0 && w >= 0.0 && k != 0.0
    requires kkv == k * (k * v) && kc == k * c
    ensures Signed(k, Over(kc, sqrt(kkv * w)), Over(c, sqrt(v * w)))
  {
    var m := if k > 0.0 then k else -k;
    assert v * w >= 0.0;
    var p, t := v * w, kkv * w;
    OverScales(sqrt, p, t, c, k, m, kc);
  }

  lemma RatioScales(sqrt: real -> real, v: real, c: real, w: real, k: real, kkv: real, kc: real)
    requires SquareRoot(sqrt) && v >= 0.0 && w >= 0.0 && k != 0.0
    requires kkv == k * (k * v) && kc == k * c
    ensures Signed(k, Ratio(sqrt, kkv, kc, w), Ratio(sqrt, v, c, w))
  {
    ProductScales(sqrt, v, c, w, k, kkv, kc);
  }

  lemma SelfDotScales(u: seq<real>, k: real)
    ensures Dot(Affine(u, k, 0.0), Affine(u, k, 0.0)) == k * (k * Dot(u, u))
  {
    var z := Affine(u, k, 0.0);
    calc {
      Dot(z, z);
      { DotScales(u, z, k); }
      k * Dot(u, z);
      { DotSymmetric(u, z); }
      k * Dot(z, u);
      { DotScales(u, u, k); }
      k * (k * Dot(u, u));
    }
  }

  lemma CentredScales(sqrt: real -> real, u: seq<real>, v: seq<real>, k: real)
    requires SquareRoot(sqrt) && |u| == |v| && k != 0.0
    ensures Signed(k, Centred(sqrt, Affine(u, k, 0.0), v), Centred(sqrt, u, v))
  {
    var z := Affine(u, k, 0.0);
    DotScales(u, v, k);
    SelfDotScales(u, k);
    SelfDot(u);
    SelfDot(v);
    RatioScales(sqrt, Dot(u, u), Dot(u, v), Dot(v, v), k, Dot(z, z), Dot(z, v));
  }

  lemma AffineDev(x: seq<real>, k: real, c: real)
    requires x != []
    ensures Dev(Affine(x, k, c)) == Affine(Dev(x), k, 0.0)
  {
    AffineMean(x, k, c);
    AffineMinus(x, k, c, MeanOf(x), MeanOf(Affine(x, k, c)));
  }

  lemma ScaleLeft(sqrt: real -> real, x: seq<real>, y: seq<real>, k: real, c: real)
    requires SquareRoot(sqrt) && |x| == |y| && k != 0.0
    ensures Signed(k, Coefficient(sqrt, Affine(x, k, c), y), Coefficient(sqrt, x, y))
  {
    if x != [] {
      AffineDev(x, k, c);
      CentredScales(sqrt, Dev(x), Dev(y), k);
    }
  }

  // Rescaling or shifting either side changes nothing but, for a negative
  // scale, the sign.
  lemma ScaleInvariant(sqrt: real -> real, x: seq<real>, y: seq<real>, k: real, c: real)
    requires SquareRoot(sqrt) && |x| == |y| && k != 0.0
    ensures Signed(k, Coefficient(sqrt, Affine(x, k, c), y), Coefficient(sqrt, x, y))
    ensures Signed(k, Coefficient(sqrt, y, Affine(x, k, c)), Coefficient(sqrt, y, x))
  {
    ScaleLeft(sqrt, x, y, k, c);
    Symmetric(sqrt, Affine(x, k, c), y);
    Symmetric(sqrt, x, y);
  }

  // The documented formula ---------------------------------------------------------------

  // Population standard deviation.
  function Deviation(sqrt: real -> real, x: seq<real>): real
    requires x != []
  {
    sqrt(Dot(Dev(x), Dev(x)) / |x| as real)
  }

  lemma RootOfProduct(sqrt: real -> real, v: real, w: real, n: real)
    requires SquareRoot(sqrt) && v >= 0.0 && w >= 0.0 && n > 0.0
    ensures sqrt(v * w) == n * (sqrt(v / n) * sqrt(w / n))
  {
    var p, q := v / n, w / n;
    assert p * n == v && q * n == w;
    assert p >= 0.0 && q >= 0.0;
    var s, t := sqrt(p), sqrt(q);
    ProductNonNegative(s, t);
    ProductNonNegative(n, s * t);
    ProductNonNegative(v, w);
    assert (n * (s * t)) * (n * (s * t)) == (n * (s * s)) * (n * (t * t));
    RootUnique(sqrt(v * w), n * (s * t));
  }

  // The covariance over the product of the two population deviations, 0 where
  // either of them is 0.
  function Textbook(c: real, s: real, t: real, n: real): real
    requires n > 0.0
  {
    if s == 0.0 || t == 0.0 then 0.0
    else
      assert s * t != 0.0;
      assert n * (s * t) != 0.0;
      c / (n * (s * t))
  }

  lemma RatioDocumented(sqrt: real -> real, v: real, c: real, w: real, n: real)
    requires SquareRoot(sqrt) && v >= 0.0 && w >= 0.0 && n > 0.0
    ensures Ratio(sqrt, v, c, w) == Textbook(c, sqrt(v / n), sqrt(w / n), n)
  {
    RootOfProduct(sqrt, v, w, n);
  }

  // The coefficient is the one the field's comment documents.
  lemma DocumentedFormula(sqrt: real -> real, x: seq<real>, y: seq<real>)
    requires SquareRoot(sqrt) && |x| == |y| >= 2
    ensures Coefficient(sqrt, x, y)
         == Textbook(Dot(Dev(x), Dev(y)), Deviation(sqrt, x), Deviation(sqrt, y), |x| as real)
  {
    SelfDot(Dev(x));
    SelfDot(Dev(y));
    RatioDocumented(sqrt, Dot(Dev(x), Dev(x)), Dot(Dev(x), Dev(y)), Dot(Dev(y), Dev(y)), |x| as real);
  }

  // Perfect correlation -------------------------------------------------------------------

  // Every deviation in v is k times that in u.
  ghost predicate OnLine(u: seq<real>, v: seq<real>, k: real)
    requires |u| == |v|
  {
    forall i :: 0 <= i < |u| ==> v[i] == k * u[i]
  }

  lemma {:induction false} NoResidual(u: seq<real>, v: seq<real>, k: real)
    requires |u| == |v|
    ensures Residual(u, v, k, 1.0) == 0.0 <==> OnLine(u, v, k)
  {
    if u != [] {
      var n := |u| - 1;
      NoResidual(u[..n], v[..n], k);
      var d := k * u[n] - 1.0 * v[n];
      SquaredSign(d);
      assert d == 0.0 <==> v[n] == k * u[n];
    }
  }

  lemma NothingLeft(u: seq<real>, v: seq<real>, k: real, kk: real, k2: real, uu: real, uv: real, vv: real)
    requires |u| == |v| && kk == k * k && k2 == 2.0 * k
    requires uu == Dot(u, u) && uv == Dot(u, v) && vv == Dot(v, v)
    ensures kk * uu - k2 * uv + vv == 0.0 <==> OnLine(u, v, k)
  {
    ResidualExpands(u, v, k, 1.0, kk, k2, 1.0, uu, uv, vv);
    NoResidual(u, v, k);
  }

  lemma FitsExactly(v: real, c: real, w: real, k: real, kk: real, k2: real)
    requires kk == k * k && k2 == 2.0 * k
    requires v > 0.0 && c * c == v * w && k * v == c
    ensures kk * v - k2 * c + w == 0.0
  {
    assert k * c * v == c * c;
    assert k * c == w;
    assert (k * k) * v == k * (k * v);
  }

  lemma LineFits(v: real, c: real, w: real, k: real, kk: real, k2: real)
    requires kk == k * k && k2 == 2.0 * k
    requires v > 0.0 && w > 0.0 && k > 0.0
    requires c * c <= v * w
    requires kk * v - k2 * c + w == 0.0
    ensures c > 0.0 && c * c == v * w
  {
    // completing the square: (k v - c)^2 == c^2 - v w
    var t := k * v;
    assert t > 0.0;
    assert (k * k) * v == k * t;
    assert v * (k * t - (2.0 * k) * c + w) == t * t - 2.0 * t * c + v * w;
    assert (t - c) * (t - c) == t * t - 2.0 * t * c + c * c;
  }

  lemma RatioIsOne(sqrt: real -> real, v: real, c: real, w: real)
    requires SquareRoot(sqrt) && v > 0.0 && w > 0.0
    ensures Ratio(sqrt, v, c, w) == 1.0 <==> c > 0.0 && c * c == v * w
  {
    ProductNonNegative(v, w);
    assert v * w > 0.0;
    var d := sqrt(v * w);
    assert d != 0.0;
    assert (c / d) * d == c;
    if c > 0.0 && c * c == v * w {
      RootUnique(c, d);
    }
  }

  lemma TightMeansOnLine(u: seq<real>, v: seq<real>, k: real, uu: real, uv: real, vv: real)
    requires |u| == |v| && uu == Dot(u, u) && uv == Dot(u, v) && vv == Dot(v, v)
    requires uu > 0.0 && uv * uv == uu * vv && k * uu == uv
    ensures OnLine(u, v, k)
  {
    var kk, k2 := k * k, 2.0 * k;
    FitsExactly(uu, uv, vv, k, kk, k2);
    NothingLeft(u, v, k, kk, k2, uu, uv, vv);
  }

  lemma OnLineMeansTight(u: seq<real>, v: seq<real>, k: real, uu: real, uv: real, vv: real)
    requires |u| == |v| && uu == Dot(u, u) && uv == Dot(u, v) && vv == Dot(v, v)
    requires uu > 0.0 && vv > 0.0 && k > 0.0 && OnLine(u, v, k)
    ensures uv > 0.0 && uv * uv == uu * vv
  {
    var kk, k2 := k * k, 2.0 * k;
    CauchySchwarz(u, v, uu, uv, vv);
    NothingLeft(u, v, k, kk, k2, uu, uv, vv);
    LineFits(uu, uv, vv, k, kk, k2);
  }

  // The coefficient is 1 exactly when the totals are a rising linear function
  // of the marks.
  lemma PerfectIffLinear(sqrt: real -> real, x: seq<real>, y: seq<real>)
    requires SquareRoot(sqrt) && |x| == |y| >= 2
    requires Dot(Dev(x), Dev(x)) != 0.0 && Dot(Dev(y), Dev(y)) != 0.0
    ensures Coefficient(sqrt, x, y) == 1.0 <==> exists k :: k > 0.0 && OnLine(Dev(x), Dev(y), k)
  {
    var u, v := Dev(x), Dev(y);
    var uu, uv, vv := Dot(u, u), Dot(u, v), Dot(v, v);
    SelfDot(u);
    SelfDot(v);
    RatioIsOne(sqrt, uu, uv, vv);
    if Coefficient(sqrt, x, y) == 1.0 {
      var k := uv / uu;
      TightMeansOnLine(u, v, k, uu, uv, vv);
    }
    forall k | k > 0.0 && OnLine(u, v, k)
      ensures Coefficient(sqrt, x, y) == 1.0
    {
      OnLineMeansTight(u, v, k, uu, uv, vv);
    }
  }
}
