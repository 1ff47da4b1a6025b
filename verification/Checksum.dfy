/** The exact-arithmetic checksum: the C++ fold with wrap-around words, its Python
    twin with masked integers, and why one changed term always shows. */
module Checksum {
  import opened Bits
  import opened Rationals

  const OFFSET: nat := 1469598103934665603
  const PRIME: nat := 1099511628211

  function Modulus(): (m: nat)
    ensures m > 0
  {
    Pow2(WORD_BITS)
  }

  predicate IsWord(x: nat) { x < Modulus() }

  /** The cast of a signed 64-bit value to an unsigned one. */
  function Cast(x: int): (w: nat)
    ensures w < Modulus()
  {
    x % Modulus()
  }

  datatype Folded = Folded(checksum: nat) | OutOfRange

  // ---------------------------------------------------------------- the C++ fold

  function WrapStep(checksum: nat, term: int): nat {
    (Xor(checksum, Cast(term)) * PRIME) % Modulus()
  }

  function Observe(checksum: nat, value: Rational): Folded {
    if !FitsInt64(value.num) || !FitsInt64(value.den) then OutOfRange
    else Folded(WrapStep(WrapStep(checksum, value.num), value.den))
  }

  // ---------------------------------------------------------------- the Python fold

  /** `x & (2^k - 1)` on an unbounded integer, read as infinite two's complement. */
  function Mask(x: int, k: nat): nat
    decreases k
  {
    if k == 0 then 0 else 2 * Mask(x / 2, k - 1) + x % 2
  }

  function MaskStep(checksum: nat, term: int): nat {
    Mask(Xor(checksum, Mask(term, WORD_BITS)) * PRIME, WORD_BITS)
  }

  /** The loop body for each term, in order; the first term out of range ends it. */
  function PythonTerms(checksum: nat, terms: seq<int>): Folded
    decreases |terms|
  {
    if terms == [] then Folded(checksum)
    else if !FitsInt64(terms[0]) then OutOfRange
    else PythonTerms(MaskStep(checksum, terms[0]), terms[1..])
  }

  method PythonObserve(checksum: nat, value: Rational) returns (result: Folded)
    ensures result == Observe(checksum, value)
  {
    var running: nat, terms := checksum, [value.num, value.den];
    TermsAreObserve(checksum, value);
    for index := 0 to |terms|
      invariant PythonTerms(checksum, terms) == PythonTerms(running, terms[index..])
    {
      var term := terms[index];
      if term < -Limit() || term >= Limit() {
        return OutOfRange;
      }
      running := Xor(running, Mask(term, WORD_BITS));
      running := Mask(running * PRIME, WORD_BITS);
      assert terms[index..][1..] == terms[index + 1..];
    }
    result := Folded(running);
  }

  /** Masking an integer of either sign is the remainder modulo 2^k. */
  lemma {:induction false} MaskIsModulo(x: int, k: nat)
    ensures Mask(x, k) == x % Pow2(k)
    decreases k
  {
    if k > 0 {
      MaskIsModulo(x / 2, k - 1);
      DoubledRemainder(x, Pow2(k - 1));
    }
  }

  lemma StepsAgree(checksum: nat, term: int)
    ensures MaskStep(checksum, term) == WrapStep(checksum, term)
  {
    MaskIsModulo(term, WORD_BITS);
    MaskIsModulo(Xor(checksum, Mask(term, WORD_BITS)) * PRIME, WORD_BITS);
  }

  lemma OneTerm(checksum: nat, term: int)
    ensures PythonTerms(checksum, [term]) == if FitsInt64(term) then Folded(WrapStep(checksum, term)) else OutOfRange
  {
    StepsAgree(checksum, term);
    if FitsInt64(term) { assert [term][1..] == []; }
  }

  lemma TermsAreObserve(checksum: nat, value: Rational)
    ensures PythonTerms(checksum, [value.num, value.den]) == Observe(checksum, value)
  {
    StepsAgree(checksum, value.num);
    OneTerm(WrapStep(checksum, value.num), value.den);
    assert [value.num, value.den][1..] == [value.den];
  }

  // ---------------------------------------------------------------- each step is a bijection

  /** The multiplier's inverse modulo 2^64. */
  const INVERSE: nat := 14886173955864302971

  function Unstep(checksum: nat, term: int): nat {
    Xor((checksum * INVERSE) % Modulus(), Cast(term))
  }

  lemma OddProduct(p: int, d: int)
    requires p % 2 == 1 && d % 2 == 1
    ensures (p * d) % 2 == 1
  {
    var a, b := p / 2, d / 2;
    assert (2 * a + 1) * (2 * b + 1) == 2 * (2 * (a * b) + a + b) + 1;
  }

  lemma EvenFactor(p: int, d: int, k: int)
    requires p % 2 == 1 && p * d == 2 * k
    ensures d % 2 == 0
  {
    if d % 2 == 1 { OddProduct(p, d); }
  }

  /** An odd multiplier loses no low bit. */
  lemma {:induction false} OddMultiple(p: int, d: int, n: nat, k: int) returns (e: int)
    requires p % 2 == 1 && p * d == Pow2(n) * k
    ensures d == Pow2(n) * e
    decreases n
  {
    if n == 0 {
      e := d;
    } else {
      assert (2 * Pow2(n - 1)) * k == 2 * (Pow2(n - 1) * k);
      EvenFactor(p, d, Pow2(n - 1) * k);
      var h := d / 2;
      assert p * (2 * h) == 2 * (p * h);
      e := OddMultiple(p, h, n - 1, k);
      assert 2 * (Pow2(n - 1) * e) == (2 * Pow2(n - 1)) * e;
    }
  }

  ghost predicate Collide(p: nat, n: nat, x: nat, y: nat) {
    x < Pow2(n) && y < Pow2(n) && (x * p) % Pow2(n) == (y * p) % Pow2(n)
  }

  ghost predicate MultiplyInjective(p: nat, n: nat) {
    forall x: nat, y: nat :: Collide(p, n, x, y) ==> x == y
  }

  lemma SmallMultiple(d: int, m: int, e: int)
    requires m > 0 && d == m * e && -m < d < m
    ensures d == 0
  {
    assert e >= 1 ==> m * e >= m;
    assert e <= -1 ==> m * e <= -m;
  }

  lemma OddInjective(p: nat, n: nat, x: nat, y: nat)
    requires p % 2 == 1 && Collide(p, n, x, y)
    ensures x == y
  {
    var m := Pow2(n);
    var k := (x * p) / m - (y * p) / m;
    EqualRemainders(x * p, y * p, m, k);
    assert p * (x - y) == x * p - y * p;
    var e := OddMultiple(p, x - y, n, k);
    SmallMultiple(x - y, m, e);
  }

  lemma EqualRemainders(a: int, b: int, m: nat, k: int)
    requires m > 0 && a % m == b % m && k == a / m - b / m
    ensures a - b == m * k
  {
    assert a == m * (a / m) + a % m && b == m * (b / m) + b % m;
    assert m * (a / m) - m * (b / m) == m * k;
  }

  /** Multiplication modulo 2^n loses nothing exactly when the multiplier is odd. */
  lemma InjectiveIffOdd(p: nat, n: nat)
    requires n > 0
    ensures MultiplyInjective(p, n) <==> p % 2 == 1
  {
    if p % 2 == 1 {
      forall x: nat, y: nat | Collide(p, n, x, y) ensures x == y { OddInjective(p, n, x, y); }
    } else {
      EvenCollides(p, n);
    }
  }

  /** An even multiplier sends 0 and 2^(n-1) to the same word. */
  lemma EvenCollides(p: nat, n: nat)
    requires n > 0 && p % 2 == 0
    ensures !MultiplyInjective(p, n)
  {
    var h, m := Pow2(n - 1), Pow2(n);
    assert h * p == (p / 2) * m by { assert h * (2 * (p / 2)) == (p / 2) * (2 * h); }
    RemainderUnique(h * p, m, p / 2, 0);
    RemainderUnique(0 * p, m, 0, 0);
    assert Collide(p, n, 0, h);
  }

  lemma QuarterValue()
    ensures Pow2(16) == 65536
  {
    assert Pow2(4) == 16;
    Pow2Sum(4, 4);
    Pow2Sum(8, 8);
  }

  lemma ModulusValue()
    ensures Modulus() == 18446744073709551616
  {
    QuarterValue();
    Pow2Sum(16, 16);
    Pow2Sum(32, 32);
  }

  lemma PrimeValue()
    ensures PRIME == Pow2(40) + 435
  {
    assert Pow2(8) == 256;
    Pow2Sum(8, 8);
    Pow2Sum(16, 16);
    Pow2Sum(32, 8);
  }

  /** The FNV step by shift and small multiple: x * 2^40 + 435 x, modulo 2^64. */
  lemma StepByShift(checksum: nat, term: int, x: nat)
    requires x == Xor(checksum, Cast(term))
    ensures WrapStep(checksum, term) == (Shl(x, 40) + 435 * x) % Modulus()
  {
    PrimeValue();
    ShiftedProduct(x, Pow2(40), PRIME);
  }

  lemma ShiftedProduct(x: nat, p: nat, m: nat)
    requires m == p + 435
    ensures x * m == x * p + 435 * x
  {
  }

  lemma InverseExact(q: int)
    requires q == 887285111055
    ensures PRIME * INVERSE == q * Modulus() + 1
  {
    ModulusValue();
  }

  /** Multiplying by one factor and then the other, modulo m, is the identity. */
  lemma InverseCancels(x: nat, a: nat, b: nat, m: nat, q: nat)
    requires x < m && a * b == q * m + 1
    ensures (((x * a) % m) * b) % m == x
  {
    var r, t := (x * a) % m, (x * a) / m;
    assert x * a == t * m + r;
    QuotientOut(x, a, b, m, q, t, r);
    RemainderUnique(r * b, m, x * q - t * b, x);
  }

  lemma QuotientOut(x: int, a: int, b: int, m: int, q: int, t: int, r: int)
    requires x * a == t * m + r && a * b == q * m + 1
    ensures r * b == (x * q - t * b) * m + x
  {
    assert (x * a) * b == x * (a * b) && (t * m + r) * b == (t * b) * m + r * b;
    assert x * (q * m + 1) == (x * q) * m + x;
    assert (x * q - t * b) * m == (x * q) * m - (t * b) * m;
  }

  lemma XorWord(x: nat, y: nat)
    requires IsWord(x) && IsWord(y)
    ensures IsWord(Xor(x, y)) && Xor(Xor(x, y), y) == x
  {
    CombineFits(XorOp, x, y, WORD_BITS);
    XorCancel(x, y, WORD_BITS);
  }

  /** Unstep undoes a step and a step undoes Unstep: each step permutes the words. */
  lemma StepIsBijection(checksum: nat, term: int)
    requires IsWord(checksum)
    ensures IsWord(WrapStep(checksum, term)) && Unstep(WrapStep(checksum, term), term) == checksum
    ensures IsWord(Unstep(checksum, term)) && WrapStep(Unstep(checksum, term), term) == checksum
  {
    var q, m := 887285111055, Modulus();
    InverseExact(q);
    XorWord(checksum, Cast(term));
    InverseCancels(Xor(checksum, Cast(term)), PRIME, INVERSE, m, q);
    XorWord((checksum * INVERSE) % m, Cast(term));
    InverseCancels(checksum, INVERSE, PRIME, m, q);
  }

  lemma CastInjective(x: int, y: int)
    requires FitsInt64(x) && FitsInt64(y) && Cast(x) == Cast(y)
    ensures x == y
  {
    var k := x / Modulus() - y / Modulus();
    EqualRemainders(x, y, Modulus(), k);
    SmallMultiple(x - y, Modulus(), k);
  }

  /** From one checksum, two different 64-bit terms never meet again. */
  lemma StepSeparatesTerms(checksum: nat, x: int, y: int)
    requires IsWord(checksum) && FitsInt64(x) && FitsInt64(y) && WrapStep(checksum, x) == WrapStep(checksum, y)
    ensures x == y
  {
    XorWord(checksum, Cast(x));
    XorWord(checksum, Cast(y));
    OddInjective(PRIME, WORD_BITS, Xor(checksum, Cast(x)), Xor(checksum, Cast(y)));
    XorLeft(checksum, Cast(x), Cast(y));
    CastInjective(x, y);
  }

  lemma XorLeft(c: nat, x: nat, y: nat)
    requires IsWord(c) && IsWord(x) && IsWord(y) && Xor(c, x) == Xor(c, y)
    ensures x == y
  {
    forall i | 0 <= i < WORD_BITS ensures Bit(x, i) == Bit(y, i) {
      CombineBit(XorOp, c, x, i);
      CombineBit(XorOp, c, y, i);
    }
    SameBits(x, y, WORD_BITS);
  }

  // ---------------------------------------------------------------- streams of terms

  function Fold(checksum: nat, terms: seq<int>): nat
    decreases |terms|
  {
    if terms == [] then checksum else Fold(WrapStep(checksum, terms[0]), terms[1..])
  }

  function Rewind(checksum: nat, terms: seq<int>): nat
    decreases |terms|
  {
    if terms == [] then checksum
    else Unstep(Rewind(checksum, terms[1..]), terms[0])
  }

  /** The final checksum and the stream determine the starting one. */
  lemma {:induction false} RewindFold(checksum: nat, terms: seq<int>)
    requires IsWord(checksum)
    ensures IsWord(Fold(checksum, terms)) && Rewind(Fold(checksum, terms), terms) == checksum
    decreases |terms|
  {
    if terms != [] {
      StepIsBijection(checksum, terms[0]);
      RewindFold(WrapStep(checksum, terms[0]), terms[1..]);
    }
  }

  lemma {:induction false} FoldSplit(checksum: nat, first: seq<int>, second: seq<int>)
    ensures Fold(checksum, first + second) == Fold(Fold(checksum, first), second)
    decreases |first|
  {
    if first == [] {
      assert first + second == second;
    } else {
      assert (first + second)[1..] == first[1..] + second;
      FoldSplit(WrapStep(checksum, first[0]), first[1..], second);
    }
  }

  /** Streams of one length that differ in exactly one 64-bit term have different
      checksums, whatever the start. */
  lemma OneTermShows(checksum: nat, s: seq<int>, t: seq<int>, k: nat)
    requires IsWord(checksum) && |s| == |t| && k < |s| && s[k] != t[k]
    requires FitsInt64(s[k]) && FitsInt64(t[k])
    requires forall i :: 0 <= i < |s| && i != k ==> s[i] == t[i]
    ensures Fold(checksum, s) != Fold(checksum, t)
  {
    var before, after := s[..k], s[k + 1..];
    assert t[..k] == before && t[k + 1..] == after;
    assert s == before + ([s[k]] + after) && t == before + ([t[k]] + after);
    FoldSplit(checksum, before, [s[k]] + after);
    FoldSplit(checksum, before, [t[k]] + after);
    RewindFold(checksum, before);
    SuffixKeepsApart(Fold(checksum, before), s[k], t[k], after);
  }

  lemma SuffixKeepsApart(checksum: nat, x: int, y: int, after: seq<int>)
    requires IsWord(checksum) && FitsInt64(x) && FitsInt64(y) && x != y
    ensures Fold(checksum, [x] + after) != Fold(checksum, [y] + after)
  {
    assert ([x] + after)[1..] == after && ([y] + after)[1..] == after;
    var c, d := WrapStep(checksum, x), WrapStep(checksum, y);
    if c == d { StepSeparatesTerms(checksum, x, y); }
    StepIsBijection(checksum, x);
    StepIsBijection(checksum, y);
    RewindFold(c, after);
    RewindFold(d, after);
  }

  predicate AllFit(terms: seq<int>) { forall i :: 0 <= i < |terms| ==> FitsInt64(terms[i]) }

  /** On every stream of terms the masked fold is the wrap-around fold, and it is
      refused exactly when some term is out of range. */
  lemma {:induction false} PythonTermsFold(checksum: nat, terms: seq<int>)
    ensures PythonTerms(checksum, terms) == if AllFit(terms) then Folded(Fold(checksum, terms)) else OutOfRange
    decreases |terms|
  {
    if terms != [] {
      StepsAgree(checksum, terms[0]);
      PythonTermsFold(WrapStep(checksum, terms[0]), terms[1..]);
      AllFitRest(terms);
    }
  }

  lemma AllFitRest(terms: seq<int>)
    requires terms != []
    ensures AllFit(terms) <==> FitsInt64(terms[0]) && AllFit(terms[1..])
  {
    if FitsInt64(terms[0]) && AllFit(terms[1..]) {
      forall i | 0 <= i < |terms| ensures FitsInt64(terms[i]) { assert i > 0 ==> terms[i] == terms[1..][i - 1]; }
    }
    if AllFit(terms) {
      forall i | 0 <= i < |terms| - 1 ensures FitsInt64(terms[1..][i]) { assert FitsInt64(terms[i + 1]); }
    }
  }

  // ---------------------------------------------------------------- the benchmark's terms

  function Evaluate(index: nat): Rational {
    var i := index % 997 + 2;
    EvaluateExact(i);
    Multiply(Add(Reduce(i + 1, i + 2), Reduce(2 * i + 3, i + 5)),
             Subtract(Reduce(3 * i + 7, 2 * i + 9), Reduce(i + 11, 4 * i + 13)))
  }

  function SumPart(i: nat): int { (i + 1) * (i + 5) + (2 * i + 3) * (i + 2) }

  function SumBase(i: nat): int { (i + 2) * (i + 5) }

  function DifferencePart(i: nat): int { (3 * i + 7) * (4 * i + 13) - (i + 11) * (2 * i + 9) }

  function DifferenceBase(i: nat): int { (2 * i + 9) * (4 * i + 13) }

  lemma EvaluateExact(i: nat)
    ensures Reduce(i + 1, i + 2).den > 0 && Reduce(2 * i + 3, i + 5).den > 0
    ensures Reduce(3 * i + 7, 2 * i + 9).den > 0 && Reduce(i + 11, 4 * i + 13).den > 0
    ensures var p := Add(Reduce(i + 1, i + 2), Reduce(2 * i + 3, i + 5));
            Canonical(p) && Equals(p, SumPart(i), SumBase(i))
    ensures var q := Subtract(Reduce(3 * i + 7, 2 * i + 9), Reduce(i + 11, 4 * i + 13));
            Canonical(q) && Equals(q, DifferencePart(i), DifferenceBase(i))
  {
    ReduceIsCanonical(i + 1, i + 2);
    ReduceIsCanonical(2 * i + 3, i + 5);
    ReduceIsCanonical(3 * i + 7, 2 * i + 9);
    ReduceIsCanonical(i + 11, 4 * i + 13);
    var a, b, c, d := Reduce(i + 1, i + 2), Reduce(2 * i + 3, i + 5), Reduce(3 * i + 7, 2 * i + 9),
      Reduce(i + 11, 4 * i + 13);
    AddExact(a, b);
    AddOf(a, b, i + 1, i + 2, 2 * i + 3, i + 5);
    SubtractExact(c, d);
    SubtractOf(c, d, 3 * i + 7, 2 * i + 9, i + 11, 4 * i + 13);
  }

  function Numerator(i: nat): int { SumPart(i) * DifferencePart(i) }

  function Denominator(i: nat): int { SumBase(i) * DifferenceBase(i) }

  /** The stepwise arithmetic yields the one canonical form of the exact value, so
      any other exact rational library in lowest terms yields the same terms. */
  lemma EvaluateIsExact(index: nat)
    ensures var i := index % 997 + 2;
      Denominator(i) != 0 && Evaluate(index) == Reduce(Numerator(i), Denominator(i)) && Canonical(Evaluate(index))
  {
    var i := index % 997 + 2;
    EvaluateExact(i);
    var p := Add(Reduce(i + 1, i + 2), Reduce(2 * i + 3, i + 5));
    var q := Subtract(Reduce(3 * i + 7, 2 * i + 9), Reduce(i + 11, 4 * i + 13));
    MultiplyExact(p, q);
    MultiplyOf(p, q, SumPart(i), SumBase(i), DifferencePart(i), DifferenceBase(i));
    CanonicalIsReduce(Evaluate(index), Numerator(i), Denominator(i));
  }

  /** Numerator over denominator as a real number. */
  function Value(n: int, d: int): real
    requires d != 0
  {
    n as real / d as real
  }

  lemma Quotient(a: real, b: real, c: real)
    requires b != 0.0 && a == c * b
    ensures a / b == c
  {
  }

  lemma ValueTimes(n: int, d: int, v: real)
    requires d != 0 && v == Value(n, d)
    ensures v * d as real == n as real
  {
  }

  lemma ValueFrom(n: int, d: int, v: real)
    requires d != 0 && v * d as real == n as real
    ensures Value(n, d) == v
  {
    Quotient(n as real, d as real, v);
  }

  lemma RealProduct(x: int, y: int)
    ensures (x * y) as real == x as real * y as real
  {
  }

  /** Fractions of integers over real numbers: sums, differences and products. */
  lemma ValueSum(n: int, d: int, p: int, q: int, sign: int, u: real, v: real)
    requires d != 0 && q != 0 && u == Value(n, d) && v == Value(p, q) && d * q != 0
    ensures Value(n * q + sign * (p * d), d * q) == u + sign as real * v
  {
    var x, y, g := d as real, q as real, sign as real;
    ValueTimes(n, d, u);
    ValueTimes(p, q, v);
    RealProduct(n, q);
    RealProduct(p, d);
    RealProduct(sign, p * d);
    RealProduct(d, q);
    SumOut(u, v, g, x, y, n as real, p as real);
    ValueFrom(n * q + sign * (p * d), d * q, u + g * v);
  }

  lemma SumOut(u: real, v: real, g: real, x: real, y: real, n: real, p: real)
    requires u * x == n && v * y == p
    ensures (u + g * v) * (x * y) == n * y + g * (p * x)
  {
    assert u * (x * y) == (u * x) * y;
    assert (g * v) * (x * y) == g * ((v * y) * x);
  }

  lemma ProductOut(u: real, v: real, x: real, y: real, n: real, p: real)
    requires u * x == n && v * y == p
    ensures (u * v) * (x * y) == n * p
  {
    assert (u * v) * (x * y) == (u * x) * (v * y);
  }

  lemma ValueProduct(n: int, d: int, p: int, q: int, u: real, v: real)
    requires d != 0 && q != 0 && u == Value(n, d) && v == Value(p, q) && d * q != 0
    ensures Value(n * p, d * q) == u * v
  {
    ValueTimes(n, d, u);
    ValueTimes(p, q, v);
    RealProduct(n, p);
    RealProduct(d, q);
    ProductOut(u, v, d as real, q as real, n as real, p as real);
    ValueFrom(n * p, d * q, u * v);
  }

  lemma ValueEqual(q: Rational, n: int, d: int)
    requires q.den != 0 && Equals(q, n, d)
    ensures Value(q.num, q.den) == Value(n, d)
  {
    var v := Value(n, d);
    ValueTimes(n, d, v);
    RealProduct(q.num, d);
    RealProduct(n, q.den);
    CrossOut(v, q.num as real, q.den as real, n as real, d as real);
    ValueFrom(q.num, q.den, v);
  }

  lemma CrossOut(v: real, a: real, b: real, n: real, d: real)
    requires d != 0.0 && v * d == n && a * d == n * b
    ensures v * b == a
  {
    assert (v * b - a) * d == (v * d) * b - a * d == 0.0;
  }

  lemma SumValue(i: nat, u: real, v: real)
    requires u == Value(i + 1, i + 2) && v == Value(2 * i + 3, i + 5)
    ensures SumBase(i) != 0 && Value(SumPart(i), SumBase(i)) == u + v
  {
    PositiveProduct(i + 2, i + 5);
    ValueSum(i + 1, i + 2, 2 * i + 3, i + 5, 1, u, v);
  }

  lemma DifferenceValue(i: nat, u: real, v: real)
    requires u == Value(3 * i + 7, 2 * i + 9) && v == Value(i + 11, 4 * i + 13)
    ensures DifferenceBase(i) != 0 && Value(DifferencePart(i), DifferenceBase(i)) == u - v
  {
    PositiveProduct(2 * i + 9, 4 * i + 13);
    ValueSum(3 * i + 7, 2 * i + 9, i + 11, 4 * i + 13, -1, u, v);
  }

  lemma PartsValue(q: Rational, n: int, d: int, p: int, e: int, u: real, v: real)
    requires d != 0 && e != 0 && d * e != 0 && q.den != 0 && Equals(q, n * p, d * e)
    requires u == Value(n, d) && v == Value(p, e)
    ensures Value(q.num, q.den) == u * v
  {
    ValueProduct(n, d, p, e, u, v);
    ValueEqual(q, n * p, d * e);
  }

  lemma ExpressionValue(q: Rational, i: nat, a: real, b: real, c: real, d: real, v: real)
    requires q.den != 0 && Equals(q, Numerator(i), Denominator(i)) && v == (a + b) * (c - d)
    requires a == Value(i + 1, i + 2) && b == Value(2 * i + 3, i + 5)
    requires c == Value(3 * i + 7, 2 * i + 9) && d == Value(i + 11, 4 * i + 13)
    ensures Value(q.num, q.den) == v
  {
    SumValue(i, a, b);
    DifferenceValue(i, c, d);
    PartsValue(q, SumPart(i), SumBase(i), DifferencePart(i), DifferenceBase(i), a + b, c - d);
  }

  lemma EvaluateEquals(index: nat, i: nat, q: Rational)
    requires i == index % 997 + 2 && q == Evaluate(index)
    ensures q.den > 0 && Equals(q, Numerator(i), Denominator(i))
  {
    EvaluateIsExact(index);
    ReduceIsCanonical(Numerator(i), Denominator(i));
  }

  /** Each value is the benchmark's expression over the real numbers. */
  lemma EvaluateValue(index: nat, i: nat, q: Rational, a: real, b: real, c: real, d: real, v: real)
    requires i == index % 997 + 2 && q == Evaluate(index) && v == (a + b) * (c - d)
    requires a == Value(i + 1, i + 2) && b == Value(2 * i + 3, i + 5)
    requires c == Value(3 * i + 7, 2 * i + 9) && d == Value(i + 11, 4 * i + 13)
    ensures q.den > 0 && Value(q.num, q.den) == v
  {
    EvaluateEquals(index, i, q);
    ExpressionValue(q, i, a, b, c, d, v);
  }

  lemma ProductBetween(x: int, y: int, a: int, b: int)
    requires 0 <= x <= a && 0 <= y <= b
    ensures 0 <= x * y <= a * b
  {
    assert x * y <= a * y <= a * b;
  }

  lemma PartBounds(i: nat)
    requires 2 <= i <= 998
    ensures 0 <= SumPart(i) <= 4000000 && 0 < SumBase(i) <= 1100000
    ensures 0 <= DifferencePart(i) <= 13000000 && 0 < DifferenceBase(i) <= 9000000
  {
    ProductBetween(i + 1, i + 5, 999, 1003);
    ProductBetween(2 * i + 3, i + 2, 1999, 1000);
    ProductBetween(i + 2, i + 5, 1000, 1003);
    PositiveProduct(i + 2, i + 5);
    DifferenceBounds(i);
  }

  lemma DifferenceBounds(i: nat)
    requires 2 <= i <= 998
    ensures 0 <= DifferencePart(i) <= 13000000 && 0 < DifferenceBase(i) <= 9000000
  {
    ProductBetween(3 * i + 7, 4 * i + 13, 3001, 4005);
    ProductBetween(2 * i + 9, 4 * i + 13, 2005, 4005);
    PositiveProduct(2 * i + 9, 4 * i + 13);
    ProductBetween(i + 11, 2 * i + 9, 3 * i + 7, 4 * i + 13);
  }

  /** Reduction never enlarges a term. */
  lemma ReduceShrinks(n: int, d: int)
    requires n >= 0 && d > 0
    ensures 0 <= Reduce(n, d).num <= n && 0 < Reduce(n, d).den <= d
  {
    if n > 0 {
      var k, t := SignedQuotient(n, d);
      FactorBound(Gcd(Magnitude(n), d), k, n);
      FactorBound(Gcd(Magnitude(n), d), t, d);
    }
  }

  lemma FactorBound(g: int, k: int, n: int)
    requires g > 0 && n == g * k && n >= 0
    ensures 0 <= k <= n
  {
    assert k < 0 ==> g * k < 0;
    assert k >= 0 ==> g * k >= k;
  }

  lemma LimitIsLarge()
    ensures Limit() > 60000000000000
  {
    ModulusValue();
  }

  /** Every term of the benchmark fits a signed 64-bit integer, so the range error
      is unreachable for every index. */
  lemma EvaluateFits(index: nat)
    ensures FitsInt64(Evaluate(index).num) && FitsInt64(Evaluate(index).den)
  {
    var i := index % 997 + 2;
    EvaluateIsExact(index);
    PartBounds(i);
    ProductBetween(SumPart(i), DifferencePart(i), 4000000, 13000000);
    ProductBetween(SumBase(i), DifferenceBase(i), 1100000, 9000000);
    PositiveProduct(SumBase(i), DifferenceBase(i));
    ReduceShrinks(Numerator(i), Denominator(i));
    LimitIsLarge();
  }

  /** The terms of the first `count` indices, numerator before denominator. */
  function Terms(count: nat): (terms: seq<int>)
    ensures |terms| == 2 * count
  {
    if count == 0 then []
    else Terms(count - 1) + [Evaluate(count - 1).num, Evaluate(count - 1).den]
  }

  lemma ObserveFolds(checksum: nat, value: Rational)
    requires FitsInt64(value.num) && FitsInt64(value.den)
    ensures Observe(checksum, value) == Folded(Fold(checksum, [value.num, value.den]))
  {
    OneFold(checksum, value.num);
    OneFold(Fold(checksum, [value.num]), value.den);
    FoldSplit(checksum, [value.num], [value.den]);
    assert [value.num, value.den] == [value.num] + [value.den];
  }

  lemma OneFold(checksum: nat, term: int)
    ensures Fold(checksum, [term]) == WrapStep(checksum, term)
  {
    assert [term][1..] == [];
  }

  lemma {:induction false} XorZero(x: nat)
    ensures Xor(x, 0) == x
    decreases x
  {
    if x > 0 { XorZero(x / 2); }
  }

  lemma XorHalves(x: nat, y: nat, z: nat)
    requires z == Xor(x / 2, y / 2)
    ensures Xor(x, y) == 2 * z + (if x % 2 == y % 2 then 0 else 1)
  {
  }

  /** Below a word that ends in two ones, 2 and 3 clear the bits they name. */
  lemma XorLowBits(x: nat, y: nat, h: nat)
    requires x % 4 == 3 && h == x / 4 && 2 <= y <= 3
    ensures Xor(x, y) == x - y
  {
    XorZero(h);
    assert x / 2 / 2 == h && y / 2 == 1;
    XorHalves(x / 2, 1, h);
    XorHalves(x, y, 2 * h);
  }

  lemma TwoThirds()
    ensures Canonical(Rational(2, 3))
  {
    assert Gcd(2, 3) == Gcd(3, 2) == Gcd(2, 1) == Gcd(1, 0) == 1;
  }

  lemma FirstParts(i: nat)
    requires i == 2
    ensures Numerator(i) == 5096 && Denominator(i) == 7644
  {
    assert SumPart(i) == 49 && SumBase(i) == 28 && DifferencePart(i) == 104 && DifferenceBase(i) == 273;
  }

  lemma FirstValue()
    ensures Evaluate(0) == Rational(2, 3)
  {
    EvaluateIsExact(0);
    FirstParts(2);
    TwoThirds();
    CanonicalIsReduce(Rational(2, 3), Numerator(2), Denominator(2));
  }

  lemma SmallCast(y: nat)
    requires y < 4
    ensures Cast(y) == y
  {
    ModulusValue();
  }

  lemma StepFrom(checksum: nat, term: int, w: nat, m: nat)
    requires w == Xor(checksum, Cast(term)) && m == Modulus()
    ensures WrapStep(checksum, term) == (w * PRIME) % m
  {
  }

  lemma StepBySubtraction(x: nat, y: nat, m: nat)
    requires x % 4 == 3 && 2 <= y <= 3 && m == Modulus()
    ensures WrapStep(x, y) == ((x - y) * PRIME) % m
  {
    XorLowBits(x, y, x / 4);
    SmallCast(y);
    StepFrom(x, y, x - y, m);
  }

  lemma FirstSteps(m: nat, x: nat, y: nat)
    requires m == 18446744073709551616 && x == OFFSET && y == 4953161157630030899
    ensures x % 4 == 3 && x < m && ((x - 2) * PRIME) % m == y
    ensures y % 4 == 3 && y < m && ((y - 3) * PRIME) % m == 11124528799658732944
  {
  }

  lemma TwoFolds(checksum: nat, x: int, y: int, once: nat, twice: nat)
    requires WrapStep(checksum, x) == once && WrapStep(once, y) == twice
    ensures Fold(checksum, [x, y]) == twice
  {
    OneFold(checksum, x);
    OneFold(once, y);
    FoldSplit(checksum, [x], [y]);
    assert [x] + [y] == [x, y];
  }

  lemma FirstFold(x: nat, y: nat, z: nat)
    requires x == OFFSET && y == 4953161157630030899 && z == 11124528799658732944
    ensures Fold(x, [2, 3]) == z
  {
    ModulusValue();
    FirstSteps(Modulus(), x, y);
    StepBySubtraction(x, 2, Modulus());
    StepBySubtraction(y, 3, Modulus());
    TwoFolds(x, 2, 3, y, z);
  }

  lemma FirstTerms()
    ensures Terms(1) == [2, 3]
  {
    FirstValue();
    assert Terms(0) == [];
  }

  /** The offset, the prime and the order of the terms, by the checksum of the first index. */
  lemma FirstRound()
    ensures Fold(OFFSET, Terms(1)) == 11124528799658732944
  {
    FirstTerms();
    FirstFold(OFFSET, 4953161157630030899, 11124528799658732944);
  }

  /** One round of the C++ benchmark; its range error never happens. */
  method RunRound(iterations: nat) returns (checksum: nat)
    ensures checksum == Fold(OFFSET, Terms(iterations))
  {
    checksum := OFFSET;
    for index := 0 to iterations
      invariant checksum == Fold(OFFSET, Terms(index))
    {
      var value := Evaluate(index);
      EvaluateFits(index);
      ObserveFolds(checksum, value);
      FoldSplit(OFFSET, Terms(index), [value.num, value.den]);
      checksum := Observe(checksum, value).checksum;
    }
  }

  /** The exact value as any library in lowest terms holds it. */
  function PythonEvaluate(index: nat): Rational {
    EvaluateIsExact(index);
    Reduce(Numerator(index % 997 + 2), Denominator(index % 997 + 2))
  }

  /** The Python round computes the C++ round's checksum, and never raises. */
  method PythonRunRound(iterations: nat) returns (result: Folded)
    ensures result == Folded(Fold(OFFSET, Terms(iterations)))
  {
    var checksum := OFFSET;
    for index := 0 to iterations
      invariant checksum == Fold(OFFSET, Terms(index))
    {
      var value := PythonEvaluate(index);
      EvaluateIsExact(index);
      EvaluateFits(index);
      ObserveFolds(checksum, value);
      FoldSplit(OFFSET, Terms(index), [value.num, value.den]);
      var observed := PythonObserve(checksum, value);
      match observed {
        case OutOfRange => return OutOfRange;
        case Folded(next) => checksum := next;
      }
    }
    result := Folded(checksum);
  }
}
