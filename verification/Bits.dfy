/** Machine words as natural numbers, read bit by bit.  A shift `1 << i` is
    Pow2(i), and `(x & (1 << i)) != 0` is Bit(x, i) (see MaskTest). */
module Bits {

  const WORD_BITS: nat := 64

  function Pow2(n: nat): (p: nat)
    ensures p > 0
  {
    if n == 0 then 1 else 2 * Pow2(n - 1)
  }

  /** One more than the largest signed 64-bit value. */
  function Limit(): int { Pow2(WORD_BITS - 1) }

  predicate FitsInt64(x: int) { -Limit() <= x < Limit() }

  predicate Bit(x: nat, i: nat)
    decreases i
  {
    if i == 0 then x % 2 == 1 else Bit(x / 2, i - 1)
  }

  datatype BitOp = AndOp | OrOp | XorOp {
    predicate Apply(a: bool, b: bool) {
      match this
      case AndOp => a && b
      case OrOp => a || b
      case XorOp => a != b
    }
  }

  function Digit(b: bool): (d: nat) {
    if b then 1 else 0
  }

  function Combine(op: BitOp, x: nat, y: nat): nat
    decreases x + y
  {
    if x == 0 && y == 0 then 0
    else 2 * Combine(op, x / 2, y / 2) + Digit(op.Apply(x % 2 == 1, y % 2 == 1))
  }

  function And(x: nat, y: nat): nat { Combine(AndOp, x, y) }

  function Or(x: nat, y: nat): nat { Combine(OrOp, x, y) }

  function Xor(x: nat, y: nat): nat { Combine(XorOp, x, y) }

  function Shl(x: nat, k: nat): nat { x * Pow2(k) }

  function Popcount(x: nat): nat {
    if x == 0 then 0 else Popcount(x / 2) + x % 2
  }

  /** The number of binary digits. */
  function BitWidth(x: nat): nat {
    if x == 0 then 0 else 1 + BitWidth(x / 2)
  }

  lemma {:induction false} BitWidthCovers(x: nat)
    ensures x < Pow2(BitWidth(x)) && (x > 0 ==> Pow2(BitWidth(x) - 1) <= x)
  {
    if x > 0 { BitWidthCovers(x / 2); }
  }

  /** Products formed by square-and-multiply: one for every set bit of the exponent,
      and one squaring for every digit after the first. */
  function Products(e: nat): nat {
    if e == 0 then 0 else e % 2 + (if e / 2 != 0 then 1 else 0) + Products(e / 2)
  }

  lemma {:induction false} ProductsCounted(e: nat)
    ensures Products(e) == (if e == 0 then 0 else Popcount(e) + BitWidth(e) - 1)
    ensures Popcount(e) <= BitWidth(e) && Products(e) <= 2 * BitWidth(e)
  {
    if e > 0 { ProductsCounted(e / 2); }
  }

  lemma {:induction false} ZeroBits(i: nat)
    ensures !Bit(0, i)
    decreases i
  {
    if i > 0 { ZeroBits(i - 1); }
  }

  lemma {:induction false} CombineBit(op: BitOp, x: nat, y: nat, i: nat)
    ensures Bit(Combine(op, x, y), i) == op.Apply(Bit(x, i), Bit(y, i))
    decreases i
  {
    var z := Combine(op, x, y);
    if x == 0 && y == 0 {
      ZeroBits(i);
    } else {
      assert z / 2 == Combine(op, x / 2, y / 2) && (z % 2 == 1) == op.Apply(x % 2 == 1, y % 2 == 1);
      if i > 0 { CombineBit(op, x / 2, y / 2, i - 1); }
    }
  }

  /** A word fits in n bits exactly when every higher bit is clear. */
  lemma {:induction false} HighBitsClear(x: nat, n: nat, i: nat)
    requires x < Pow2(n) && n <= i
    ensures !Bit(x, i)
    decreases n
  {
    if n == 0 { ZeroBits(i); } else { HighBitsClear(x / 2, n - 1, i - 1); }
  }

  lemma {:induction false} FitsWhenHighBitsClear(x: nat, n: nat)
    requires forall i :: n <= i ==> !Bit(x, i)
    ensures x < Pow2(n)
    decreases x
  {
    if x > 0 {
      if n == 0 {
        assert !Bit(x, 0);
        forall i: nat ensures !Bit(x / 2, i) { assert !Bit(x, i + 1); }
        FitsWhenHighBitsClear(x / 2, 0);
      } else {
        forall i: nat | n - 1 <= i ensures !Bit(x / 2, i) { assert !Bit(x, i + 1); }
        FitsWhenHighBitsClear(x / 2, n - 1);
      }
    }
  }

  /** Two n-bit words with the same bits are the same word. */
  lemma {:induction false} SameBits(x: nat, y: nat, n: nat)
    requires x < Pow2(n) && y < Pow2(n)
    requires forall i :: 0 <= i < n ==> Bit(x, i) == Bit(y, i)
    ensures x == y
    decreases n
  {
    if n > 0 {
      forall i | 0 <= i < n - 1 ensures Bit(x / 2, i) == Bit(y / 2, i) {
        assert Bit(x, i + 1) == Bit(y, i + 1);
      }
      SameBits(x / 2, y / 2, n - 1);
      assert Bit(x, 0) == Bit(y, 0);
    }
  }

  lemma CombineFits(op: BitOp, x: nat, y: nat, n: nat)
    requires x < Pow2(n) && y < Pow2(n)
    ensures Combine(op, x, y) < Pow2(n)
  {
    forall i: nat | n <= i ensures !Bit(Combine(op, x, y), i) {
      CombineBit(op, x, y, i);
      HighBitsClear(x, n, i);
      HighBitsClear(y, n, i);
    }
    FitsWhenHighBitsClear(Combine(op, x, y), n);
  }

  /** Xor with the same word twice is the identity. */
  lemma XorCancel(x: nat, y: nat, n: nat)
    requires x < Pow2(n) && y < Pow2(n)
    ensures Xor(Xor(x, y), y) == x
  {
    CombineFits(XorOp, x, y, n);
    CombineFits(XorOp, Xor(x, y), y, n);
    forall i | 0 <= i < n ensures Bit(Xor(Xor(x, y), y), i) == Bit(x, i) {
      CombineBit(XorOp, x, y, i);
      CombineBit(XorOp, Xor(x, y), y, i);
    }
    SameBits(Xor(Xor(x, y), y), x, n);
  }

  lemma {:induction false} Pow2Bit(k: nat, i: nat)
    ensures Bit(Pow2(k), i) == (k == i)
    decreases k
  {
    if k == 0 {
      if i > 0 { ZeroBits(i - 1); }
    } else if i > 0 {
      assert Pow2(k) / 2 == Pow2(k - 1);
      Pow2Bit(k - 1, i - 1);
    }
  }

  lemma {:induction false} Pow2Monotone(a: nat, b: nat)
    requires a <= b
    ensures Pow2(a) <= Pow2(b)
    ensures a < b ==> 2 * Pow2(a) <= Pow2(b)
    decreases b - a
  {
    if a < b { Pow2Monotone(a, b - 1); }
  }

  lemma DoubledFactor(x: nat, y: nat, z: nat)
    requires x == 2 * y
    ensures x * z == 2 * (y * z)
  {
  }

  lemma {:induction false} Pow2Sum(a: nat, b: nat)
    ensures Pow2(a + b) == Pow2(a) * Pow2(b)
    decreases a
  {
    if a > 0 {
      Pow2Sum(a - 1, b);
      DoubledFactor(Pow2(a), Pow2(a - 1), Pow2(b));
      assert Pow2(a + b) == 2 * Pow2(a - 1 + b);
    }
  }

  lemma {:induction false} ShlBit(x: nat, k: nat, i: nat)
    ensures Bit(Shl(x, k), i) == (k <= i && Bit(x, i - k))
    decreases k
  {
    if k > 0 {
      assert Shl(x, k) == 2 * Shl(x, k - 1) by {
        assert x * (2 * Pow2(k - 1)) == 2 * (x * Pow2(k - 1));
      }
      if i > 0 { ShlBit(x, k - 1, i - 1); }
    } else {
      assert Shl(x, 0) == x;
    }
  }

  lemma {:induction false} OnesBit(k: nat, i: nat)
    ensures Bit(Pow2(k) - 1, i) == (i < k)
    decreases k
  {
    if k == 0 {
      ZeroBits(i);
    } else {
      assert (Pow2(k) - 1) / 2 == Pow2(k - 1) - 1;
      if i > 0 { OnesBit(k - 1, i - 1); }
    }
  }

  /** The source's test `(x & (1 << i)) != 0` reads bit i. */
  lemma MaskTest(x: nat, i: nat)
    ensures (And(x, Pow2(i)) != 0) == Bit(x, i)
  {
    var z := And(x, Pow2(i));
    CombineBit(AndOp, x, Pow2(i), i);
    Pow2Bit(i, i);
    if z != 0 && !Bit(x, i) {
      forall j: nat ensures !Bit(z, j) {
        CombineBit(AndOp, x, Pow2(i), j);
        Pow2Bit(i, j);
      }
      FitsWhenHighBitsClear(z, 0);
    }
    if z == 0 { ZeroBits(i); }
  }

  lemma DoubledRemainder(x: int, p: nat)
    requires p > 0
    ensures x % (2 * p) == 2 * ((x / 2) % p) + x % 2
  {
    var q := (x / 2) / p;
    assert x / 2 == q * p + (x / 2) % p;
    assert q * (2 * p) == 2 * (q * p);
    RemainderUnique(x, 2 * p, q, 2 * ((x / 2) % p) + x % 2);
  }

  lemma RemainderUnique(x: int, m: int, q: int, r: int)
    requires 0 <= r < m && x == q * m + r
    ensures x % m == r && x / m == q
  {
    var d := x / m - q;
    assert x == (x / m) * m + x % m;
    assert d * m == r - x % m by {
      assert d * m == (x / m) * m - q * m;
    }
    assert (d >= 1 ==> d * m >= m) && (d <= -1 ==> d * m <= -m);
  }

  /** Setting or flipping one bit of an n-bit index stays within n bits and
      touches no other bit. */
  lemma OneBitUpdate(op: BitOp, x: nat, i: nat, n: nat)
    requires x < Pow2(n) && i < n && (op == OrOp || op == XorOp)
    ensures Combine(op, x, Pow2(i)) < Pow2(n)
    ensures forall j: nat ::
      Bit(Combine(op, x, Pow2(i)), j) == (if i == j then (op == OrOp || !Bit(x, i)) else Bit(x, j))
  {
    Pow2Monotone(i, n);
    CombineFits(op, x, Pow2(i), n);
    forall j: nat
      ensures Bit(Combine(op, x, Pow2(i)), j) == (if i == j then (op == OrOp || !Bit(x, i)) else Bit(x, j))
    {
      CombineBit(op, x, Pow2(i), j);
      Pow2Bit(i, j);
    }
  }

  /** The number of set bits of an n-bit word, counted position by position. */
  function BitTotal(x: nat, n: nat): nat {
    if n == 0 then 0 else BitTotal(x, n - 1) + Digit(Bit(x, n - 1))
  }

  lemma {:induction false} BitTotalHalf(x: nat, n: nat)
    ensures BitTotal(x, n + 1) == BitTotal(x / 2, n) + x % 2
    decreases n
  {
    if n > 0 { BitTotalHalf(x, n - 1); }
  }

  lemma {:induction false} PopcountIsBitTotal(x: nat, n: nat)
    requires x < Pow2(n)
    ensures Popcount(x) == BitTotal(x, n)
    decreases n
  {
    if n > 0 {
      PopcountIsBitTotal(x / 2, n - 1);
      BitTotalHalf(x, n - 1);
    }
  }

  /** Writing `high` above the k low bits of `low`. */
  lemma {:induction false} StackedBit(low: nat, high: nat, k: nat, i: nat)
    requires low < Pow2(k)
    ensures Bit(low + high * Pow2(k), i) == (if i < k then Bit(low, i) else Bit(high, i - k))
    decreases k
  {
    if k > 0 {
      var p := Pow2(k - 1);
      assert high * (2 * p) == 2 * (high * p);
      assert (low + high * Pow2(k)) / 2 == low / 2 + high * p;
      if i > 0 { StackedBit(low / 2, high, k - 1, i - 1); }
    } else {
      assert low + high * Pow2(0) == high;
    }
  }

  /** Setting one clear bit makes the number larger. */
  lemma {:induction false} SetGrows(x: nat, y: nat, i: nat)
    requires !Bit(x, i) && Bit(y, i) && forall j: nat :: j != i ==> Bit(x, j) == Bit(y, j)
    ensures x < y
    decreases i
  {
    if i == 0 {
      forall j: nat ensures Bit(x / 2, j) == Bit(y / 2, j) { assert Bit(x, j + 1) == Bit(y, j + 1); }
      SameBitsUnbounded(x / 2, y / 2);
    } else {
      forall j: nat | j != i - 1 ensures Bit(x / 2, j) == Bit(y / 2, j) { assert Bit(x, j + 1) == Bit(y, j + 1); }
      SetGrows(x / 2, y / 2, i - 1);
    }
  }

  lemma {:induction false} SameBitsUnbounded(x: nat, y: nat)
    requires forall j: nat :: Bit(x, j) == Bit(y, j)
    ensures x == y
    decreases x + y
  {
    if x > 0 || y > 0 {
      forall j: nat ensures Bit(x / 2, j) == Bit(y / 2, j) { assert Bit(x, j + 1) == Bit(y, j + 1); }
      assert Bit(x, 0) == Bit(y, 0);
      SameBitsUnbounded(x / 2, y / 2);
    }
  }
}
