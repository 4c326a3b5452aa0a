/** The Wilson score interval over the reals; the square root is any function that is one. */
module Wilson {
  import opened Folding

  const Z := 1.96

  ghost predicate IsSqrt(sqrt: real -> real) {
    forall x: real :: x >= 0.0 ==> sqrt(x) >= 0.0 && sqrt(x) * sqrt(x) == x
  }

  function Max(x: real, y: real): real {
    if x >= y then x else y
  }

  function Min(x: real, y: real): real {
    if x <= y then x else y
  }

  /** The parts of the formula; spread is z*z/n. */
  function Rate(k: int, n: int): real
    requires n > 0
  {
    k as real / n as real
  }

  function Denom(n: int): real
    requires n > 0
  {
    1.0 + Z * Z / n as real
  }

  function Center(k: int, n: int): real
    requires n > 0
  {
    (Rate(k, n) + Z * Z / (2.0 * n as real)) / Denom(n)
  }

  function Half(k: int, n: int, sqrt: real -> real): real
    requires n > 0
  {
    Z * sqrt(Under(k, n)) / Denom(n)
  }

  function Under(k: int, n: int): real
    requires n > 0
  {
    Rate(k, n) * (1.0 - Rate(k, n)) / n as real + Z * Z / (4.0 * n as real * n as real)
  }

  /** wilson_interval. */
  function Interval(k: int, n: int, sqrt: real -> real): (real, real)
    requires n >= 0
  {
    if n == 0 then (0.0, 1.0)
    else (Max(0.0, Center(k, n) - Half(k, n, sqrt)), Min(1.0, Center(k, n) + Half(k, n, sqrt)))
  }

  // ---- the two ends in terms of a = z*z/n: (m - h) / d and (m + h) / d ----

  lemma SquaresOrder(x: real, y: real)
    requires x >= 0.0 && y >= 0.0
    ensures x * x <= y * y ==> x <= y
  {
    if x > y {
      assert (x - y) * x > 0.0;
      assert (x - y) * y >= 0.0;
      assert (x - y) * x + (x - y) * y == x * x - y * y;
    }
  }

  /** The formula times its denominator 1 + a. */
  lemma Parts(k: int, n: int, sqrt: real -> real) returns (p: real, a: real, h: real)
    requires 0 <= k <= n && n > 0 && IsSqrt(sqrt)
    ensures p == Rate(k, n) && 1.0 + a == Denom(n) && HalfWidth(p, a, h)
    ensures (1.0 + a) * Center(k, n) == p + a / 2.0
    ensures (1.0 + a) * Half(k, n, sqrt) == h
  {
    p, a := Rate(k, n), Z * Z / n as real;
    h := HalfIs(k, n, sqrt, p, a);
  }

  lemma HalfIs(k: int, n: int, sqrt: real -> real, p: real, a: real) returns (h: real)
    requires 0 <= k <= n && n > 0 && IsSqrt(sqrt) && p == Rate(k, n) && a == Z * Z / n as real
    ensures h == Z * sqrt(Under(k, n)) && HalfWidth(p, a, h)
  {
    var under := Under(k, n);
    var root := sqrt(under);
    h := Z * root;
    UnderTimes(p, a, n as real);
    assert root >= 0.0 && root * root == under;
  }

  lemma UnderTimes(p: real, a: real, size: real)
    requires 0.0 <= p <= 1.0 && size > 0.0 && a == Z * Z / size
    ensures a > 0.0
    ensures var u := p * (1.0 - p) / size + Z * Z / (4.0 * size * size);
      u >= 0.0 && Z * Z * u == a * p * (1.0 - p) + a * a / 4.0
  {
    var q := p * (1.0 - p);
    ProductNonNegative(p, 1.0 - p);
    assert q / size >= 0.0;
    assert Z * Z / (4.0 * size * size) == a / (4.0 * size);
    assert Z * Z * (a / (4.0 * size)) == a * a / 4.0;
    assert Z * Z * (q / size) == a * q;
    assert a * q == a * p * (1.0 - p);
  }

  lemma ProductNonNegative(x: real, y: real)
    requires x >= 0.0 && y >= 0.0
    ensures x * y >= 0.0
  {
  }

  /** h is the half width times d = 1 + a, and p + a/2 the centre times d. */
  ghost predicate HalfWidth(p: real, a: real, h: real) {
    0.0 <= p <= 1.0 && a > 0.0 && h >= 0.0 && h * h == a * p * (1.0 - p) + a * a / 4.0
  }

  /** The ends lie in [0, 1]: the squares differ by p*p*(1+a) below, and by its mirror image above. */
  lemma EndsInRange(p: real, a: real, h: real)
    requires HalfWidth(p, a, h)
    ensures h <= p + a / 2.0 && p + a / 2.0 + h <= 1.0 + a
  {
    var m, u := p + a / 2.0, 1.0 - p + a / 2.0;
    assert m * m == p * p + a * p + a * a / 4.0;
    assert m * m - h * h == p * p * (1.0 + a);
    ProductNonNegative(p * p, 1.0 + a);
    SquaresOrder(h, m);
    var q := 1.0 - p;
    assert u * u == q * q + a * q + a * a / 4.0;
    assert h * h == a * q * (1.0 - q) + a * a / 4.0;
    assert u * u - h * h == q * q * (1.0 + a);
    ProductNonNegative(q * q, 1.0 + a);
    SquaresOrder(h, u);
  }

  /** The interval contains p: the squares differ by a*p*(1-p)*(1+a). */
  lemma ContainsEstimate(p: real, a: real, h: real)
    requires HalfWidth(p, a, h)
    ensures p + a / 2.0 - h <= (1.0 + a) * p <= p + a / 2.0 + h
  {
    var x := a / 2.0 - a * p;
    var y := if x >= 0.0 then x else -x;
    assert x * x == a * a / 4.0 - a * a * p + a * a * p * p;
    assert h * h - x * x == a * p * (1.0 - p) * (1.0 + a);
    ProductNonNegative(p, 1.0 - p);
    ProductNonNegative(p * (1.0 - p), a * (1.0 + a));
    assert a * p * (1.0 - p) * (1.0 + a) == p * (1.0 - p) * (a * (1.0 + a));
    assert y * y == x * x;
    SquaresOrder(y, h);
  }

  /** w solves the score equation (w - p)^2 = a * w * (1 - w); seen by proofs that mention Unfold(w). */
  ghost predicate Solves(w: real, p: real, a: real) {
    forall x {:trigger Unfold(x)} :: x == w && Unfold(x) ==> (x - p) * (x - p) == a * x * (1.0 - x)
  }

  lemma SolvesMeans(w: real, p: real, a: real)
    ensures Solves(w, p, a) <==> (w - p) * (w - p) == a * w * (1.0 - w)
  {
    assert Unfold(w);
  }

  lemma CancelOrder(d: real, x: real, y: real, dx: real, dy: real)
    requires d > 0.0 && d * x == dx && d * y == dy
    ensures dx <= dy ==> x <= y
  {
    if x > y {
      assert d * (x - y) > 0.0;
      assert d * (x - y) == dx - dy;
    }
  }

  lemma LowEnd(p: real, a: real, h: real, low: real)
    requires HalfWidth(p, a, h) && (1.0 + a) * low == p + a / 2.0 - h
    ensures 0.0 <= low <= p
  {
    EndsInRange(p, a, h);
    ContainsEstimate(p, a, h);
    CancelOrder(1.0 + a, low, p, p + a / 2.0 - h, (1.0 + a) * p);
    CancelOrder(1.0 + a, 0.0, low, 0.0, p + a / 2.0 - h);
  }

  lemma HighEnd(p: real, a: real, h: real, high: real)
    requires HalfWidth(p, a, h) && (1.0 + a) * high == p + a / 2.0 + h
    ensures p <= high <= 1.0
  {
    EndsInRange(p, a, h);
    ContainsEstimate(p, a, h);
    CancelOrder(1.0 + a, p, high, (1.0 + a) * p, p + a / 2.0 + h);
    CancelOrder(1.0 + a, high, 1.0, p + a / 2.0 + h, 1.0 + a);
  }

  lemma Spread(d: real, x: real, y: real)
    ensures d * (x - y) == d * x - d * y && d * (x + y) == d * x + d * y
  {
  }

  /** d times the difference of the two sides of the score equation: v is d * w, m the centre times d. */
  lemma DifferenceVanishes(p: real, a: real, h: real, m: real, v: real, t: real)
    requires HalfWidth(p, a, h) && m == p + a / 2.0 && v == m + t && t * t == h * h
    ensures v * v - v * (2.0 * m) + p * p * (1.0 + a) == 0.0
  {
    assert v * v - v * (2.0 * m) == t * t - m * m;
    assert m * m == p * p + a * p + a * a / 4.0;
    assert p * p * (1.0 + a) == p * p + a * (p * p);
    assert a * p * (1.0 - p) == a * p - a * (p * p);
  }

  lemma ZeroFactor(d: real, e: real)
    requires d > 0.0 && d * e == 0.0
    ensures e == 0.0
  {
  }

  lemma EndSolves(p: real, a: real, h: real, w: real, t: real)
    requires HalfWidth(p, a, h) && (1.0 + a) * w == p + a / 2.0 + t && t * t == h * h
    ensures Solves(w, p, a)
  {
    var d, m := 1.0 + a, p + a / 2.0;
    var v, e := d * w, d * (w * w) - w * (2.0 * m) + p * p;
    DifferenceVanishes(p, a, h, m, v, t);
    TimesD(d, w, m, p, v, e);
    ZeroFactor(d, e);
    Regroup(w, p, a, m, e);
    SolvesMeans(w, p, a);
  }

  lemma TimesD(d: real, w: real, m: real, p: real, v: real, e: real)
    requires v == d * w && e == d * (w * w) - w * (2.0 * m) + p * p
    ensures d * e == v * v - v * (2.0 * m) + p * p * d
  {
    assert v * v == d * (d * (w * w));
    assert d * (w * (2.0 * m)) == v * (2.0 * m);
    assert d * e == d * (d * (w * w)) - d * (w * (2.0 * m)) + d * (p * p);
  }

  lemma Regroup(w: real, p: real, a: real, m: real, e: real)
    requires m == p + a / 2.0 && e == (1.0 + a) * (w * w) - w * (2.0 * m) + p * p
    ensures (w - p) * (w - p) - a * w * (1.0 - w) == e
  {
    assert (w - p) * (w - p) == w * w - 2.0 * (w * p) + p * p;
    assert a * w * (1.0 - w) == a * w - a * (w * w);
    assert w * (2.0 * m) == 2.0 * (w * p) + a * w;
  }

  lemma EndsAreScore(p: real, a: real, h: real, c: real, half: real)
    requires HalfWidth(p, a, h) && (1.0 + a) * c == p + a / 2.0 && (1.0 + a) * half == h
    ensures 0.0 <= c - half <= p <= c + half <= 1.0
    ensures Solves(c - half, p, a) && Solves(c + half, p, a)
  {
    var low, high := c - half, c + half;
    Spread(1.0 + a, c, half);
    LowEnd(p, a, h, low);
    HighEnd(p, a, h, high);
    EndSolves(p, a, h, low, -h);
    EndSolves(p, a, h, high, h);
  }

  /** w is as far from k/n as z standard errors at w are: the score equation, with z = 1.96. */
  predicate ScoreEquation(w: real, k: int, n: int)
    requires n > 0
  {
    var p := k as real / n as real;
    (w - p) * (w - p) == 3.8416 / n as real * w * (1.0 - w)
  }

  lemma SolvesTheScore(w: real, k: int, n: int)
    requires n > 0 && Solves(w, Rate(k, n), Denom(n) - 1.0)
    ensures ScoreEquation(w, k, n)
  {
    SolvesMeans(w, Rate(k, n), Denom(n) - 1.0);
    assert Denom(n) - 1.0 == 3.8416 / n as real;
  }

  /** The interval contains the estimate and lies in [0, 1], so that the cuts change nothing; both of
      its ends solve the score equation. */
  lemma IntervalIsScore(k: int, n: int, sqrt: real -> real)
    requires 0 <= k <= n && n > 0 && IsSqrt(sqrt)
    ensures Interval(k, n, sqrt) == (Center(k, n) - Half(k, n, sqrt), Center(k, n) + Half(k, n, sqrt))
    ensures 0.0 <= Interval(k, n, sqrt).0 <= k as real / n as real <= Interval(k, n, sqrt).1 <= 1.0
    ensures ScoreEquation(Interval(k, n, sqrt).0, k, n) && ScoreEquation(Interval(k, n, sqrt).1, k, n)
  {
    var p, a, h := Parts(k, n, sqrt);
    EndsAreScore(p, a, h, Center(k, n), Half(k, n, sqrt));
    SolvesTheScore(Center(k, n) - Half(k, n, sqrt), k, n);
    SolvesTheScore(Center(k, n) + Half(k, n, sqrt), k, n);
  }
}
