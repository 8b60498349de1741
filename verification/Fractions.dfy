/** Exact rational arithmetic, kept in lowest terms. */
module Fractions {
  import opened Arithmetic

  /** A rational number; Make keeps the denominator positive and the terms coprime. */
  datatype Fraction = Fraction(numerator: int, denominator: int) {
    ghost predicate Valid() {
      0 < denominator && Gcd(numerator, denominator) == 1
    }

    ghost function Value(): real
      requires 0 < denominator
    {
      numerator as real / denominator as real
    }
  }

  function Abs(a: int): nat { if a < 0 then -a else a }

  function Gcd(a: int, b: int): nat
    decreases Abs(b)
  {
    if b == 0 then Abs(a) else Gcd(b, a % b)
  }

  ghost predicate Divides(d: int, a: int) {
    exists k: int :: a == k * d
  }

  lemma DividesWitness(d: int, a: int, k: int)
    requires a == k * d
    ensures Divides(d, a)
  {
  }

  lemma {:induction false} GcdDivides(a: int, b: int)
    ensures Divides(Gcd(a, b), a) && Divides(Gcd(a, b), b)
    decreases Abs(b)
  {
    if b == 0 {
      DividesWitness(Abs(a), a, if a < 0 then -1 else 1);
      DividesWitness(Abs(a), 0, 0);
    } else {
      GcdDivides(b, a % b);
      var g := Gcd(b, a % b);
      var k: int :| b == k * g;
      var l: int :| a % b == l * g;
      var q := a / b;
      assert a == q * b + a % b;
      assert q * (k * g) == (q * k) * g;
      DividesWitness(g, a, q * k + l);
    }
  }

  /** Every common divisor divides the greatest one. */
  lemma {:induction false} CommonDividesGcd(d: int, a: int, b: int)
    requires Divides(d, a) && Divides(d, b)
    ensures Divides(d, Gcd(a, b))
    decreases Abs(b)
  {
    var k: int :| a == k * d;
    if b == 0 {
      DividesWitness(d, Abs(a), if a < 0 then -k else k);
    } else {
      var l: int :| b == l * d;
      var q := a / b;
      assert a == q * b + a % b;
      assert q * (l * d) == (q * l) * d;
      DividesWitness(d, a % b, k - q * l);
      CommonDividesGcd(d, b, a % b);
    }
  }

  lemma {:induction false} GcdPositive(a: int, b: int)
    requires b != 0
    ensures Gcd(a, b) > 0
    decreases Abs(b)
  {
    if a % b != 0 { GcdPositive(b, a % b); }
  }

  /** Scaling both terms does not change the ratio. */
  lemma RatioScaled(n: int, d: int, g: int)
    requires 0 < d && 0 < g
    ensures 0 < d * g
    ensures (n * g) as real / (d * g) as real == n as real / d as real
  {
    var x := n as real / d as real;
    assert x * d as real == n as real;
    assert (n * g) as real == x * (d * g) as real by {
      assert (n * g) as real == n as real * g as real && (d * g) as real == d as real * g as real;
    }
    RatioIs((n * g) as real, (d * g) as real, x);
  }

  lemma RatioIs(a: real, b: real, x: real)
    requires b != 0.0 && a == x * b
    ensures a / b == x
  {
  }

  /** The fraction n / d in lowest terms. */
  function Make(n: int, d: int): (f: Fraction)
    requires 0 < d
    ensures f.Valid()
    ensures f.Value() == n as real / d as real
  {
    GcdPositive(n, d);
    var g := Gcd(n, d);
    DivideByGcd(n, d);
    RatioScaled(n / g, d / g, g);
    Fraction(n / g, d / g)
  }

  lemma ExactQuotient(a: int, g: int)
    requires g > 0 && Divides(g, a)
    ensures a == a / g * g
  {
    var k: int :| a == k * g;
    DivModUnique(a, g, k, 0);
  }

  /** Dividing both terms by their greatest common divisor leaves coprime terms. */
  lemma QuotientsCoprime(n: int, d: int, g: int, n': int, d': int)
    requires 0 < d && g == Gcd(n, d) && 0 < g && n == n' * g && d == d' * g && 0 < d'
    ensures Gcd(n', d') == 1
  {
    GcdDivides(n', d');
    GcdPositive(n', d');
    var h := Gcd(n', d');
    var k: int :| n' == k * h;
    var l: int :| d' == l * h;
    Reassociate(k, h, g);
    Reassociate(l, h, g);
    DividesWitness(h * g, n, k);
    DividesWitness(h * g, d, l);
    CommonDividesGcd(h * g, n, d);
    var m: int :| g == m * (h * g);
    Reassociate(m, h, g);
    OneFactor(g, m, h);
  }

  lemma Reassociate(a: int, b: int, c: int)
    ensures a * b * c == a * (b * c)
    ensures a * (b * c) == c * (a * b)
  {
  }

  lemma DivideByGcd(n: int, d: int)
    requires 0 < d
    ensures var g := Gcd(n, d);
            0 < g && n == n / g * g && d == d / g * g && 0 < d / g && Gcd(n / g, d / g) == 1
  {
    GcdPositive(n, d);
    GcdDivides(n, d);
    var g := Gcd(n, d);
    ExactQuotient(n, g);
    ExactQuotient(d, g);
    MulCancel(0, d / g, g);
    QuotientsCoprime(n, d, g, n / g, d / g);
  }

  lemma OneFactor(g: int, m: int, h: int)
    requires 0 < g && 0 < h && g == g * (m * h)
    ensures h == 1
  {
    if m * h < 1 { MulMono(m * h, 0, g); }
    if 1 < m * h { MulMono(2, m * h, g); }
    if 1 < h {
      if m <= 0 { MulMono(m, 0, h); } else { MulMono(1, m, h); }
    }
  }

  lemma BezoutStep(a: int, b: int, q: int, r: int, u: int, v: int)
    requires a == b * q + r
    ensures v * a + (u - v * q) * b == u * b + v * r
  {
    assert v * (b * q + r) == v * (b * q) + v * r;
    assert (u - v * q) * b == u * b - v * q * b;
    assert v * (b * q) == v * q * b;
  }

  /** The greatest common divisor is a combination of the two numbers. */
  lemma {:induction false} Bezout(a: int, b: int) returns (s: int, t: int)
    ensures s * a + t * b == Gcd(a, b)
    decreases Abs(b)
  {
    if b == 0 {
      s, t := if a < 0 then -1 else 1, 0;
    } else {
      var q := a / b;
      var u, v := Bezout(b, a % b);
      BezoutStep(a, b, q, a % b, u, v);
      s, t := v, u - v * q;
    }
  }

  lemma CrossEqual(a: int, b: int, n: int, d: int)
    requires 0 < b && 0 < d && a as real / b as real == n as real / d as real
    ensures a * d == n * b
  {
    var x := a as real / b as real;
    var p, q := b as real, d as real;
    assert a as real == x * p && n as real == x * q;
    assert (a * d) as real == a as real * q && (n * b) as real == n as real * p;
    assert (x * p) * q == (x * q) * p;
  }

  lemma CoprimeFactor(a: int, b: int, n: int, d: int, s: int, t: int)
    requires s * a + t * b == 1 && a * d == n * b
    ensures d == (s * n + t * d) * b
  {
    assert d == (s * a + t * b) * d == s * a * d + t * b * d;
    assert s * a * d == s * (a * d) == s * (n * b) == s * n * b;
    assert t * b * d == t * d * b;
    assert (s * n + t * d) * b == s * n * b + t * d * b;
  }

  /** A denominator in lowest terms divides every denominator of the same value. */
  lemma LowestDivides(f: Fraction, n: int, d: int)
    requires f.Valid() && 0 < d && f.Value() == n as real / d as real
    ensures Divides(f.denominator, d) && f.denominator <= d
  {
    var a, b := f.numerator, f.denominator;
    CrossEqual(a, b, n, d);
    var s, t := Bezout(a, b);
    CoprimeFactor(a, b, n, d, s, t);
    var k := s * n + t * d;
    DividesWitness(b, d, k);
    if k <= 0 { MulMono(k, 0, b); } else { MulMono(1, k, b); }
  }

  /** No fraction of the same value has a smaller denominator than the one Make gives. */
  lemma MakeIsLowest(n: int, d: int, n': int, d': int)
    requires 0 < d && 0 < d' && n' as real / d' as real == n as real / d as real
    ensures Make(n, d).denominator <= d'
  {
    LowestDivides(Make(n, d), n', d');
  }

  /** A value has one fraction in lowest terms. */
  lemma LowestIsUnique(f: Fraction, g: Fraction)
    requires f.Valid() && g.Valid() && f.Value() == g.Value()
    ensures f == g
  {
    LowestDivides(f, g.numerator, g.denominator);
    LowestDivides(g, f.numerator, f.denominator);
    var x, d := f.Value(), f.denominator as real;
    assert f.numerator as real == x * d == g.numerator as real;
  }

  function FromInt(n: int): (f: Fraction)
    ensures f.Valid() && f.Value() == n as real
  {
    Fraction(n, 1)
  }

  lemma RatioSum(a: int, b: int, c: int, d: int)
    requires 0 < b && 0 < d
    ensures 0 < b * d
    ensures (a * d + c * b) as real / (b * d) as real == a as real / b as real + c as real / d as real
  {
    RatioScaled(a, b, d);
    RatioScaled(c, d, b);
    assert d * b == b * d;
    var p, q, r := (a * d) as real, (c * b) as real, (b * d) as real;
    assert (a * d + c * b) as real == p + q;
    assert (p + q) / r == p / r + q / r;
  }

  function Add(f: Fraction, g: Fraction): (r: Fraction)
    requires f.Valid() && g.Valid()
    ensures r.Valid() && r.Value() == f.Value() + g.Value()
  {
    RatioSum(f.numerator, f.denominator, g.numerator, g.denominator);
    Make(f.numerator * g.denominator + g.numerator * f.denominator, f.denominator * g.denominator)
  }

  function Subtract(f: Fraction, g: Fraction): (r: Fraction)
    requires f.Valid() && g.Valid()
    ensures r.Valid() && r.Value() == f.Value() - g.Value()
  {
    RatioSum(f.numerator, f.denominator, -g.numerator, g.denominator);
    assert (-g.numerator) as real / g.denominator as real == -(g.numerator as real / g.denominator as real);
    assert f.numerator * g.denominator - g.numerator * f.denominator
        == f.numerator * g.denominator + (-g.numerator) * f.denominator;
    Make(f.numerator * g.denominator - g.numerator * f.denominator, f.denominator * g.denominator)
  }

  lemma RatioProduct(a: int, b: int, c: int, d: int)
    requires 0 < b && 0 < d
    ensures 0 < b * d
    ensures (a * c) as real / (b * d) as real == (a as real / b as real) * (c as real / d as real)
  {
    var x, y := a as real / b as real, c as real / d as real;
    var p, q, r, t := a as real, b as real, c as real, d as real;
    assert p == x * q && r == y * t;
    assert (a * c) as real == p * r && (b * d) as real == q * t;
    assert p * r == (x * y) * (q * t);
    RatioIs((a * c) as real, (b * d) as real, x * y);
  }

  function Multiply(f: Fraction, g: Fraction): (r: Fraction)
    requires f.Valid() && g.Valid()
    ensures r.Valid() && r.Value() == f.Value() * g.Value()
  {
    RatioProduct(f.numerator, f.denominator, g.numerator, g.denominator);
    Make(f.numerator * g.numerator, f.denominator * g.denominator)
  }

  lemma InverseProduct(x: real, y: real, p: real, q: real)
    requires x * q == p && y * p == q && q != 0.0
    ensures y * x == 1.0
  {
    var z := y * x;
    calc {
      z * q;
      { RealReassociate(y, x, q); }
      y * (x * q);
      { SameFactor(y, x * q, p); }
      y * p;
      q;
    }
    RatioIs(q, q, z);
    RatioIs(q, q, 1.0);
  }

  lemma RealReassociate(a: real, b: real, c: real)
    ensures a * b * c == a * (b * c)
  {
  }

  lemma SameFactor(c: real, a: real, b: real)
    requires a == b
    ensures c * a == c * b
  {
  }

  lemma InverseRatio(a: int, b: int)
    requires 0 < a && 0 < b
    ensures b as real / a as real == 1.0 / (a as real / b as real)
  {
    var x, y := a as real / b as real, b as real / a as real;
    InverseProduct(x, y, a as real, b as real);
    assert x != 0.0;
    RatioIs(1.0, x, y);
  }

  function Divide(f: Fraction, g: Fraction): (r: Fraction)
    requires f.Valid() && g.Valid() && 0 < g.numerator
    ensures r.Valid() && g.Value() != 0.0 && r.Value() == f.Value() / g.Value()
  {
    RatioProduct(f.numerator, f.denominator, g.denominator, g.numerator);
    InverseRatio(g.numerator, g.denominator);
    SignOfValue(g);
    Make(f.numerator * g.denominator, f.denominator * g.numerator)
  }

  lemma SignOfValue(f: Fraction)
    requires 0 < f.denominator
    ensures 0 < f.numerator <==> 0.0 < f.Value()
    ensures f.numerator == 0 <==> f.Value() == 0.0
  {
    var x, n, d := f.Value(), f.numerator as real, f.denominator as real;
    assert x * d == n && 0.0 < d;
  }

  predicate Less(f: Fraction, g: Fraction) {
    f.numerator * g.denominator < g.numerator * f.denominator
  }

  lemma LessIsOrder(f: Fraction, g: Fraction)
    requires 0 < f.denominator && 0 < g.denominator
    ensures Less(f, g) <==> f.Value() < g.Value()
  {
    var x, y, d, e := f.Value(), g.Value(), f.denominator as real, g.denominator as real;
    assert x * d == f.numerator as real && y * e == g.numerator as real;
    assert (f.numerator * g.denominator) as real == (x * d) * e == x * (d * e);
    assert (g.numerator * f.denominator) as real == (y * e) * d == y * (d * e);
    assert 0.0 < d * e;
    if x < y {
      RealMulMono(x, y, d * e);
    } else if y < x {
      RealMulMono(y, x, d * e);
    }
  }

  lemma RealMulMono(x: real, y: real, c: real)
    requires x < y && 0.0 < c
    ensures x * c < y * c
  {
  }

  lemma RealMulMonoLe(x: real, y: real, c: real)
    requires x <= y && 0.0 <= c
    ensures x * c <= y * c
  {
  }

  lemma RealMulCancelLe(x: real, y: real, c: real)
    requires x * c <= y * c && 0.0 < c
    ensures x <= y
  {
    if y < x { RealMulMono(y, x, c); }
  }

  // ----- Whole-nanosecond ceilings -------------------------------------------------------

  /** The least whole number that reaches the fraction. */
  function Ceiling(f: Fraction): int
    requires 0 < f.denominator
  {
    (f.numerator + f.denominator - 1) / f.denominator
  }

  lemma CeilingReaches(f: Fraction, n: int)
    requires 0 < f.denominator
    ensures Ceiling(f) <= n <==> f.Value() <= n as real
  {
    CeilAtMost(f.numerator, f.denominator, n);
    LessIsOrder(FromInt(n), f);
  }

  /** The test made before an interval is planned. */
  predicate OverMaximum(f: Fraction, maximum: int) {
    f.numerator + f.denominator - 1 > maximum * f.denominator
  }

  /** The test is safe: an interval it lets through is at most the maximum when rounded up. */
  lemma PreCheckIsSound(f: Fraction, maximum: int)
    requires 0 < f.denominator && !OverMaximum(f, maximum)
    ensures Ceiling(f) <= maximum
  {
    FloorAtLeast(f.numerator + f.denominator - 1, f.denominator, maximum + 1);
    assert (maximum + 1) * f.denominator == maximum * f.denominator + f.denominator;
  }

  /** A fraction in thirds or finer within the last denominator-minus-one parts below the maximum. */
  predicate JustBelow(f: Fraction, maximum: int) {
    3 <= f.denominator && maximum * f.denominator - f.denominator + 1 < f.numerator < maximum * f.denominator
  }

  /** The test is not exact. It rejects an interval that would have fitted exactly when the
      interval is a fraction in thirds or finer that lies within its last denominator-minus-one
      parts below the maximum. */
  lemma PreCheckOverRejects(f: Fraction, maximum: int)
    requires f.Valid()
    ensures OverMaximum(f, maximum) && Ceiling(f) <= maximum <==> JustBelow(f, maximum)
  {
    var n, d := f.numerator, f.denominator;
    CeilAtMost(n, d, maximum);
    if n == maximum * d && 2 <= d {
      DividesWitness(d, n, maximum);
      DividesWitness(d, d, 1);
      CommonDividesGcd(d, n, d);
      var k: int :| 1 == k * d;
      if k <= 0 { MulMono(k, 0, d); } else { MulMono(1, k, d); }
    }
  }

  /** A multiple of g that is one more than another multiple of g: g is one. */
  lemma NeighbouringMultiples(g: int, a: int, b: int)
    requires 0 < g && a * g == b * g + 1
    ensures g == 1
  {
    assert (a - b) * g == 1;
    OneFactor(1, a - b, g);
  }

  lemma OneBelowMultiple(d: int, m: int)
    requires 0 < d
    ensures Gcd(m * d - 1, d) == 1
  {
    var n := m * d - 1;
    GcdPositive(n, d);
    GcdDivides(n, d);
    var g := Gcd(n, d);
    hide Gcd;
    var k: int :| n == k * g;
    var l: int :| d == l * g;
    Reassociate(m, l, g);
    NeighbouringMultiples(g, m * l, k);
  }

  /** Below every maximum of two or more and for every denominator of three or more there is such an interval. */
  lemma PreCheckOverRejectsSomewhere(d: int, maximum: int)
    requires 3 <= d && 2 <= maximum
    ensures var f := Fraction(maximum * d - 1, d);
            f.Valid() && 0 < f.numerator && OverMaximum(f, maximum) && Ceiling(f) == maximum
  {
    hide Gcd;
    OneBelowMultiple(d, maximum);
    MulMono(1, maximum, d);
    assert (maximum - 1) * d == maximum * d - d;
    CeilUnique(maximum * d - 1, d, maximum);
  }
}
