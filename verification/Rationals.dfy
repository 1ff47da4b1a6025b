/** Exact rationals kept in lowest terms, and why lowest terms are unique. */
module Rationals {

  datatype Rational = Rational(num: int, den: int)

  function Magnitude(x: int): nat { if x < 0 then -x else x }

  function Gcd(a: nat, b: nat): nat
    decreases b
  {
    if b == 0 then a else Gcd(b, a % b)
  }

  ghost predicate Canonical(q: Rational) {
    q.den > 0 && Gcd(Magnitude(q.num), q.den) == 1
  }

  /** q is the fraction n / d. */
  ghost predicate Equals(q: Rational, n: int, d: int) {
    d != 0 && q.num * d == n * q.den
  }

  /** d divides x without remainder. */
  ghost predicate Divides(d: nat, x: int) { exists k: int :: x == d * k }

  lemma DividesMagnitude(d: nat, x: int)
    ensures Divides(d, Magnitude(x)) <==> Divides(d, x)
  {
    if Divides(d, x) {
      var k: int :| x == d * k;
      assert d * -k == -(d * k);
      assert Magnitude(x) == d * (if x < 0 then -k else k);
    }
    if Divides(d, Magnitude(x)) {
      var k: int :| Magnitude(x) == d * k;
      assert d * -k == -(d * k);
      assert x == d * (if x < 0 then -k else k);
    }
  }

  /** A number divides the gcd exactly when it divides both arguments. */
  lemma GcdIsGreatest(a: nat, b: nat, d: nat)
    ensures Divides(d, Gcd(a, b)) <==> Divides(d, a) && Divides(d, b)
  {
    var s, t := GcdDivides(a, b);
    if Divides(d, Gcd(a, b)) {
      var k: int :| Gcd(a, b) == d * k;
      Regroup(d, k, s);
      Regroup(d, k, t);
    }
    if Divides(d, a) && Divides(d, b) {
      var k: int :| a == d * k;
      var l: int :| b == d * l;
      var x, y := Bezout(a, b);
      FactorOut(a, b, d, k, l, x, y);
    }
  }

  lemma Regroup(d: int, k: int, s: int)
    ensures (d * k) * s == d * (k * s)
  {
  }

  /** The Euclidean loop: the result's divisors are exactly the common divisors. */
  method GreatestCommonDivisor(lhs: int, rhs: int) returns (g: nat)
    ensures g == Gcd(Magnitude(lhs), Magnitude(rhs))
    ensures forall d: nat :: Divides(d, g) <==> Divides(d, lhs) && Divides(d, rhs)
  {
    forall d: nat ensures Divides(d, Gcd(Magnitude(lhs), Magnitude(rhs))) <==> Divides(d, lhs) && Divides(d, rhs) {
      GcdIsGreatest(Magnitude(lhs), Magnitude(rhs), d);
      DividesMagnitude(d, lhs);
      DividesMagnitude(d, rhs);
    }
    g := Magnitude(lhs);
    var r: nat := Magnitude(rhs);
    while r != 0
      invariant Gcd(g, r) == Gcd(Magnitude(lhs), Magnitude(rhs))
      decreases r
    {
      g, r := r, g % r;
    }
  }

  /** The constructor's lowest terms; its zero-denominator error is the precondition,
      which every use in the benchmark meets. */
  function Reduce(n: int, d: int): (q: Rational)
    requires d != 0
  {
    var num, den := if d < 0 then -n else n, if d < 0 then -d else d;
    if num == 0 then Rational(0, 1)
    else
      GcdPositive(Magnitude(num), den);
      var g := Gcd(Magnitude(num), den);
      Rational(num / g, den / g)
  }

  function Add(p: Rational, q: Rational): Rational
    requires p.den > 0 && q.den > 0
  {
    GcdPositive(p.den, q.den);
    var common := Gcd(p.den, q.den);
    var scale, other := q.den / common, p.den / common;
    ScaleNonZero(p.den, q.den);
    Reduce(p.num * scale + q.num * other, p.den * scale)
  }

  function Subtract(p: Rational, q: Rational): Rational
    requires p.den > 0 && q.den > 0
  {
    var minus := Reduce(-q.num, q.den);
    ReduceIsCanonical(-q.num, q.den);
    Add(p, minus)
  }

  function Multiply(p: Rational, q: Rational): Rational
    requires p.den > 0 && q.den > 0
  {
    if p.num == 0 || q.num == 0 then Rational(0, 1)
    else
      GcdPositive(Magnitude(p.num), q.den);
      GcdPositive(Magnitude(q.num), p.den);
      var g1, g2 := Gcd(Magnitude(p.num), q.den), Gcd(Magnitude(q.num), p.den);
      CrossNonZero(p, q);
      Reduce((p.num / g1) * (q.num / g2), (p.den / g2) * (q.den / g1))
  }

  // ---------------------------------------------------------------- divisibility

  lemma {:induction false} GcdPositive(a: nat, b: nat)
    requires a > 0 || b > 0
    ensures Gcd(a, b) > 0
    decreases b
  {
    if b > 0 { GcdPositive(b, a % b); }
  }

  lemma DividesStep(a: int, b: int, g: int, u: int, v: int, q: int, r: int)
    requires a == q * b + r && b == g * u && r == g * v
    ensures a == g * (q * u + v)
  {
    assert q * (g * u) == g * (q * u);
    assert g * (q * u + v) == g * (q * u) + g * v;
  }

  /** The divisor divides both arguments. */
  lemma {:induction false} GcdDivides(a: nat, b: nat) returns (s: nat, t: nat)
    ensures a == Gcd(a, b) * s && b == Gcd(a, b) * t
    decreases b
  {
    if b == 0 {
      s, t := 1, 0;
    } else {
      var u, v := GcdDivides(b, a % b);
      DividesStep(a, b, Gcd(a, b), u, v, a / b, a % b);
      NonNegativeProduct(a / b, u);
      s, t := (a / b) * u + v, u;
    }
  }

  lemma NonNegativeProduct(x: int, y: int)
    requires x >= 0 && y >= 0
    ensures x * y >= 0
  {
  }

  /** Bezout: the divisor is a combination of the arguments. */
  lemma {:induction false} Bezout(a: nat, b: nat) returns (x: int, y: int)
    ensures a * x + b * y == Gcd(a, b)
    decreases b
  {
    if b == 0 {
      x, y := 1, 0;
    } else {
      var u, v := Bezout(b, a % b);
      var q := a / b;
      assert a % b == a - q * b;
      assert (a - q * b) * v == a * v - b * (q * v);
      assert b * u - b * (q * v) == b * (u - q * v);
      x, y := v, u - q * v;
    }
  }

  lemma UnitFactor(g: nat, k: int)
    requires g * k == 1
    ensures g == 1
  {
    assert k <= 0 ==> g * k <= 0;
    assert g >= 2 ==> g * k >= 2 * k;
  }

  lemma FactorOut(a: int, b: int, g: int, s: int, t: int, x: int, y: int)
    requires a == g * s && b == g * t
    ensures a * x + b * y == g * (s * x + t * y)
  {
    assert (g * s) * x == g * (s * x) && (g * t) * y == g * (t * y);
  }

  /** A combination equal to one certifies coprimality. */
  lemma UnitGcd(a: nat, b: nat, x: int, y: int)
    requires a * x + b * y == 1
    ensures Gcd(a, b) == 1
  {
    var s, t := GcdDivides(a, b);
    FactorOut(a, b, Gcd(a, b), s, t, x, y);
    UnitFactor(Gcd(a, b), s * x + t * y);
  }

  lemma ExactQuotient(g: int, k: int, x: int)
    requires g > 0 && x == g * k
    ensures x / g == k && x % g == 0
  {
    assert (x / g) * g + x % g == x;
    var e := x / g - k;
    assert e * g == (x / g) * g - k * g;
    assert e >= 1 ==> e * g >= g;
    assert e <= -1 ==> e * g <= -g;
  }

  lemma ScaleNonZero(a: nat, b: nat)
    requires a > 0 && b > 0
    ensures Gcd(a, b) > 0 && b / Gcd(a, b) > 0 && a * (b / Gcd(a, b)) > 0
  {
    GcdPositive(a, b);
    var s, t := GcdDivides(a, b);
    ExactQuotient(Gcd(a, b), t, b);
    assert t > 0;
    PositiveProduct(a, t);
  }

  lemma PositiveProduct(x: int, y: int)
    requires x > 0 && y > 0
    ensures x * y > 0
  {
  }

  /** A signed numerator divides by its gcd exactly. */
  lemma SignedQuotient(n: int, d: nat) returns (k: int, t: nat)
    requires d > 0
    ensures Gcd(Magnitude(n), d) > 0 && n == Gcd(Magnitude(n), d) * k && d == Gcd(Magnitude(n), d) * t && t > 0
    ensures n / Gcd(Magnitude(n), d) == k && d / Gcd(Magnitude(n), d) == t
  {
    var s;
    s, t := GcdDivides(Magnitude(n), d);
    var g := Gcd(Magnitude(n), d);
    GcdPositive(Magnitude(n), d);
    k := if n < 0 then -s else s;
    assert g * (-s) == -(g * s);
    ExactQuotient(g, k, n);
    ExactQuotient(g, t, d);
    assert t == 0 ==> g * t == 0;
  }

  lemma CrossNonZero(p: Rational, q: Rational)
    requires p.den > 0 && q.den > 0
    ensures Gcd(Magnitude(q.num), p.den) > 0 && Gcd(Magnitude(p.num), q.den) > 0
    ensures (p.den / Gcd(Magnitude(q.num), p.den)) * (q.den / Gcd(Magnitude(p.num), q.den)) > 0
  {
    var k, t := SignedQuotient(q.num, p.den);
    var l, u := SignedQuotient(p.num, q.den);
    PositiveProduct(t, u);
  }

  // ---------------------------------------------------------------- canonical form

  lemma MagnitudeScales(n: int, g: int, k: int)
    requires g > 0 && n == g * k
    ensures Magnitude(n) == g * Magnitude(k)
  {
    assert g * -k == -(g * k);
    assert k < 0 ==> g * k < 0;
    assert k > 0 ==> g * k > 0;
  }

  lemma CoprimeParts(n: int, d: nat, g: nat, k: int, t: nat)
    requires g > 0 && g == Gcd(Magnitude(n), d) && n == g * k && d == g * t
    ensures Gcd(Magnitude(k), t) == 1
  {
    var x, y := Bezout(Magnitude(n), d);
    MagnitudeScales(n, g, k);
    FactorOut(Magnitude(n), d, g, Magnitude(k), t, x, y);
    CancelFactor(g, Magnitude(k) * x + t * y, 1);
    UnitGcd(Magnitude(k), t, x, y);
  }

  lemma CancelFactor(g: int, x: int, y: int)
    requires g != 0 && g * x == g * y
    ensures x == y
  {
    assert g * (x - y) == g * x - g * y;
    assert x > y && g > 0 ==> g * (x - y) > 0;
    assert x > y && g < 0 ==> g * (x - y) < 0;
    assert x < y && g > 0 ==> g * (x - y) < 0;
    assert x < y && g < 0 ==> g * (x - y) > 0;
  }

  lemma SameFraction(num: int, den: int, g: int, k: int, t: int)
    requires num == g * k && den == g * t
    ensures k * den == num * t
  {
    assert k * (g * t) == (g * k) * t;
  }

  lemma NegatedFraction(r: int, e: int, n: int, d: int)
    requires r * -d == -n * e
    ensures r * d == n * e
  {
    assert r * -d == -(r * d) && -n * e == -(n * e);
  }

  /** Reduction gives lowest terms and keeps the value. */
  lemma ReduceIsCanonical(n: int, d: int)
    requires d != 0
    ensures Canonical(Reduce(n, d)) && Equals(Reduce(n, d), n, d)
  {
    var num, den := if d < 0 then -n else n, if d < 0 then -d else d;
    if num != 0 {
      var k, t := SignedQuotient(num, den);
      CoprimeParts(num, den, Gcd(Magnitude(num), den), k, t);
      SameFraction(num, den, Gcd(Magnitude(num), den), k, t);
      assert Reduce(n, d) == Rational(k, t);
      if d < 0 { NegatedFraction(k, t, n, d); }
    } else {
      assert Gcd(0, 1) == Gcd(1, 0);
    }
  }

  lemma CoprimeDivides(a: nat, b: nat, c: int, m: int) returns (k: int)
    requires Gcd(a, b) == 1 && a * c == b * m
    ensures c == b * k
  {
    var x, y := Bezout(a, b);
    k := x * m + c * y;
    Recombine(a, b, c, m, x, y);
  }

  lemma Recombine(a: int, b: int, c: int, m: int, x: int, y: int)
    requires a * x + b * y == 1 && a * c == b * m
    ensures c == b * (x * m + c * y)
  {
    assert c * (a * x + b * y) == (a * c) * x + b * (c * y);
    assert (b * m) * x == b * (x * m);
    assert b * (x * m + c * y) == b * (x * m) + b * (c * y);
  }

  lemma MutualMultiples(a: nat, b: nat, k: int, l: int)
    requires a > 0 && b > 0 && a == b * k && b == a * l
    ensures a == b
  {
    assert k <= 0 ==> b * k <= 0;
    assert l <= 0 ==> a * l <= 0;
    assert k >= 1 ==> b * k >= b;
    assert l >= 1 ==> a * l >= a;
  }

  lemma DenominatorDivides(p: Rational, q: Rational) returns (k: int)
    requires Canonical(p) && q.den > 0 && p.num * q.den == q.num * p.den
    ensures q.den == p.den * k
  {
    var m := if p.num < 0 then -q.num else q.num;
    assert Magnitude(p.num) * q.den == p.den * m by {
      if p.num < 0 { assert -p.num * q.den == -(p.num * q.den) && p.den * -q.num == -(q.num * p.den); }
    }
    k := CoprimeDivides(Magnitude(p.num), p.den, q.den, m);
  }

  /** Equal values in lowest terms are equal term by term. */
  lemma CanonicalUnique(p: Rational, q: Rational)
    requires Canonical(p) && Canonical(q) && p.num * q.den == q.num * p.den
    ensures p == q
  {
    var k := DenominatorDivides(p, q);
    var l := DenominatorDivides(q, p);
    MutualMultiples(q.den, p.den, k, l);
    CancelFactor(p.den, p.num, q.num);
  }

  /** Two fractions both equal to q have one value. */
  lemma ChangeFraction(q: Rational, n: int, d: int, m: int, e: int)
    requires Equals(q, n, d) && e != 0 && n * e == m * d
    ensures Equals(q, m, e)
  {
    assert (q.num * e) * d == (q.num * d) * e;
    assert (n * q.den) * e == (n * e) * q.den;
    assert (m * d) * q.den == (m * q.den) * d;
    CancelFactor(d, q.num * e, m * q.den);
  }

  /** The canonical form of a fraction is what reduction returns. */
  lemma CanonicalIsReduce(q: Rational, n: int, d: int)
    requires Canonical(q) && Equals(q, n, d)
    ensures q == Reduce(n, d)
  {
    ReduceIsCanonical(n, d);
    var r := Reduce(n, d);
    CommonValue(q, r, n, d);
    CanonicalUnique(q, r);
  }

  lemma CommonValue(q: Rational, r: Rational, n: int, d: int)
    requires Equals(q, n, d) && Equals(r, n, d)
    ensures q.num * r.den == r.num * q.den
  {
    assert (q.num * r.den) * d == (q.num * d) * r.den;
    assert (n * q.den) * r.den == (n * r.den) * q.den;
    assert (r.num * q.den) * d == (r.num * d) * q.den;
    CancelFactor(d, q.num * r.den, r.num * q.den);
  }

  // ---------------------------------------------------------------- arithmetic

  /** Sums through the common divisor are exact. */
  lemma AddExact(p: Rational, q: Rational)
    requires p.den > 0 && q.den > 0
    ensures Canonical(Add(p, q)) && Equals(Add(p, q), p.num * q.den + q.num * p.den, p.den * q.den)
  {
    var g := Gcd(p.den, q.den);
    var s, t := GcdDivides(p.den, q.den);
    GcdPositive(p.den, q.den);
    ExactQuotient(g, s, p.den);
    ExactQuotient(g, t, q.den);
    ScaleNonZero(p.den, q.den);
    var n, d := p.num * t + q.num * s, p.den * t;
    ReduceIsCanonical(n, d);
    PositiveProduct(p.den, q.den);
    SumScales(p.num, q.num, p.den, q.den, g, s, t);
    ChangeFraction(Add(p, q), n, d, p.num * q.den + q.num * p.den, p.den * q.den);
  }

  lemma SumScales(a: int, b: int, c: int, d: int, g: int, s: int, t: int)
    requires c == g * s && d == g * t
    ensures (a * t + b * s) * (c * d) == (a * d + b * c) * (c * t)
  {
    assert a * (g * t) == g * (a * t) && b * (g * s) == g * (b * s);
    var m := a * t + b * s;
    assert a * d + b * c == g * m;
    assert c * (g * t) == g * (c * t);
    assert m * (g * (c * t)) == (g * m) * (c * t);
  }

  lemma MultiplyExact(p: Rational, q: Rational)
    requires p.den > 0 && q.den > 0
    ensures Canonical(Multiply(p, q)) && Equals(Multiply(p, q), p.num * q.num, p.den * q.den)
  {
    PositiveProduct(p.den, q.den);
    if p.num == 0 || q.num == 0 {
      assert p.num * q.num == 0;
      assert Gcd(0, 1) == Gcd(1, 0);
    } else {
      var a, d := SignedQuotient(p.num, q.den);
      var b, c := SignedQuotient(q.num, p.den);
      PositiveProduct(c, d);
      ReduceIsCanonical(a * b, c * d);
      assert Multiply(p, q) == Reduce(a * b, c * d);
      ProductScales(p.num, q.num, p.den, q.den, Gcd(Magnitude(p.num), q.den), Gcd(Magnitude(q.num), p.den), a, b, c, d);
      ChangeFraction(Multiply(p, q), a * b, c * d, p.num * q.num, p.den * q.den);
    }
  }

  lemma ProductScales(x: int, y: int, z: int, w: int, g: int, h: int, a: int, b: int, c: int, d: int)
    requires x == g * a && w == g * d && y == h * b && z == h * c
    ensures (a * b) * (z * w) == (x * y) * (c * d)
  {
    Interleave(h, c, g, d);
    Interleave(g, a, h, b);
    assert z * w == (h * g) * (c * d) && x * y == (g * h) * (a * b);
    assert g * h == h * g;
    var k := g * h;
    assert (a * b) * (k * (c * d)) == (k * (a * b)) * (c * d);
  }

  lemma Interleave(a: int, b: int, c: int, d: int)
    ensures (a * b) * (c * d) == (a * c) * (b * d)
  {
    assert (a * b) * (c * d) == a * (b * (c * d));
    assert b * (c * d) == c * (b * d);
    assert a * (c * (b * d)) == (a * c) * (b * d);
  }

  lemma SubtractExact(p: Rational, q: Rational)
    requires p.den > 0 && q.den > 0
    ensures Canonical(Subtract(p, q)) && Equals(Subtract(p, q), p.num * q.den - q.num * p.den, p.den * q.den)
  {
    var r := Reduce(-q.num, q.den);
    ReduceIsCanonical(-q.num, q.den);
    AddExact(p, r);
    PositiveProduct(p.den, q.den);
    DifferenceScales(p.num, p.den, q.num, q.den, r.num, r.den);
    ChangeFraction(Subtract(p, q), p.num * r.den + r.num * p.den, p.den * r.den, p.num * q.den - q.num * p.den,
      p.den * q.den);
  }

  lemma DifferenceScales(a: int, c: int, b: int, d: int, x: int, y: int)
    requires x * d == -b * y
    ensures (a * y + x * c) * (c * d) == (a * d - b * c) * (c * y)
  {
    assert (a * y) * (c * d) == (a * d) * (c * y);
    assert (x * c) * (c * d) == (x * d) * (c * c);
    assert (b * c) * (c * y) == (b * y) * (c * c);
    assert -b * y == -(b * y);
    assert (-(b * y)) * (c * c) == -((b * y) * (c * c));
    assert (a * y + x * c) * (c * d) == (a * y) * (c * d) + (x * c) * (c * d);
    assert (a * d - b * c) * (c * y) == (a * d) * (c * y) - (b * c) * (c * y);
  }

  /** Exact operators respect any fractions that stand for their arguments. */
  lemma AddOf(p: Rational, q: Rational, n: int, d: int, m: int, e: int)
    requires Canonical(p) && Canonical(q) && Equals(p, n, d) && Equals(q, m, e)
    ensures Equals(Add(p, q), n * e + m * d, d * e)
  {
    AddExact(p, q);
    NonZeroProduct(d, e);
    Interleave(p.num, q.den, d, e);
    Interleave(q.num, p.den, e, d);
    Interleave(n, p.den, e, q.den);
    SumsAgree(p.num, p.den, q.num, q.den, n, d, m, e);
    ChangeFraction(Add(p, q), p.num * q.den + q.num * p.den, p.den * q.den, n * e + m * d, d * e);
  }

  lemma NonZeroProduct(d: int, e: int)
    requires d != 0 && e != 0
    ensures d * e != 0
  {
  }

  lemma SumsAgree(a: int, b: int, x: int, y: int, n: int, d: int, m: int, e: int)
    requires a * d == n * b && x * e == m * y
    ensures (a * y + x * b) * (d * e) == (n * e + m * d) * (b * y)
  {
    Interleave(a, y, d, e);
    Interleave(x, b, e, d);
    Interleave(n, e, b, y);
    Interleave(m, d, y, b);
    assert d * e == e * d && y * e == e * y && b * y == y * b && b * d == d * b;
    assert (a * y + x * b) * (d * e) == (a * y) * (d * e) + (x * b) * (d * e);
    assert (n * e + m * d) * (b * y) == (n * e) * (b * y) + (m * d) * (b * y);
  }

  lemma NegatedFactor(x: int, y: int)
    ensures (-x) * y == -(x * y)
  {
  }

  lemma DifferencesAgree(a: int, b: int, x: int, y: int, n: int, d: int, m: int, e: int)
    requires a * d == n * b && x * e == m * y
    ensures (a * y - x * b) * (d * e) == (n * e - m * d) * (b * y)
  {
    NegatedFactor(x, e);
    NegatedFactor(m, y);
    SumsAgree(a, b, -x, y, n, d, -m, e);
    NegatedFactor(x, b);
    NegatedFactor(m, d);
  }

  lemma SubtractOf(p: Rational, q: Rational, n: int, d: int, m: int, e: int)
    requires Canonical(p) && Canonical(q) && Equals(p, n, d) && Equals(q, m, e)
    ensures Equals(Subtract(p, q), n * e - m * d, d * e)
  {
    SubtractExact(p, q);
    NonZeroProduct(d, e);
    DifferencesAgree(p.num, p.den, q.num, q.den, n, d, m, e);
    ChangeFraction(Subtract(p, q), p.num * q.den - q.num * p.den, p.den * q.den, n * e - m * d, d * e);
  }

  lemma MultiplyOf(p: Rational, q: Rational, n: int, d: int, m: int, e: int)
    requires Canonical(p) && Canonical(q) && Equals(p, n, d) && Equals(q, m, e)
    ensures Equals(Multiply(p, q), n * m, d * e)
  {
    MultiplyExact(p, q);
    NonZeroProduct(d, e);
    Interleave(p.num, q.num, d, e);
    Interleave(n, m, p.den, q.den);
    ChangeFraction(Multiply(p, q), p.num * q.num, p.den * q.den, n * m, d * e);
  }
}
