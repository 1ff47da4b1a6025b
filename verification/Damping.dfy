/** The amplitude-damping transfer: an affine map of Bloch vectors that keeps the
    unit ball and contracts distances geometrically. */
module Damping {
  import opened ComplexNumbers
  import opened Transfer

  /** Homogeneous Bloch vectors: a trace coordinate and three components. */
  const BLOCH: nat := 4

  /** `a` is the square root of 1 - gamma, (c, s) the rotation's cosine and sine. */
  ghost predicate Parameters(gamma: real, a: real, c: real, s: real) {
    0.0 <= gamma <= 1.0 && a * a == 1.0 - gamma && c * c + s * s == 1.0
  }

  function Lift(x: real): Complex { Complex(x, 0.0) }

  function AmplitudeDampingRy(gamma: real, a: real, c: real, s: real): (m: seq<Complex>)
    ensures |m| == BLOCH * BLOCH
  {
    var b := 1.0 - gamma;
    [ONE, ZERO, ZERO, ZERO,
     ZERO, Lift(a * c), ZERO, Lift(a * s),
     ZERO, ZERO, Lift(a), ZERO,
     Lift(gamma), Lift(-b * s), ZERO, Lift(b * c)]
  }

  /** A homogeneous vector with trace coordinate 1 and real Bloch components. */
  predicate Homogeneous(v: seq<Complex>) {
    |v| == BLOCH && v[0] == ONE && v[1].im == 0.0 && v[2].im == 0.0 && v[3].im == 0.0
  }

  predicate Physical(v: seq<Complex>) {
    Homogeneous(v) && v[1].re * v[1].re + v[2].re * v[2].re + v[3].re * v[3].re <= 1.0
  }

  function NextX(a: real, c: real, s: real, x: real, z: real): real { (a * c) * x + (a * s) * z }

  function NextY(a: real, y: real): real { a * y }

  function NextZ(gamma: real, c: real, s: real, x: real, z: real): real {
    gamma + (-(1.0 - gamma) * s) * x + ((1.0 - gamma) * c) * z
  }

  lemma SumFour(f: nat -> Complex)
    ensures SumC(BLOCH, f) == Add(Add(Add(f(0), f(1)), f(2)), f(3))
  {
    assert SumC(1, f) == Add(SumC(0, f), f(0));
    assert SumC(BLOCH, f) == Add(SumC(3, f), f(3));
    assert SumC(2, f) == Add(SumC(1, f), f(1));
    assert SumC(3, f) == Add(SumC(2, f), f(2));
    Zeros(f(0));
  }

  lemma CellAt(m: seq<Complex>, i: nat, j: nat)
    requires |m| == BLOCH * BLOCH && i < BLOCH && j < BLOCH
    ensures At(m, BLOCH, i, j) == m[BLOCH * i + j]
  {
  }

  lemma RowDot(m: seq<Complex>, i: nat, v: seq<Complex>)
    requires |m| == BLOCH * BLOCH && |v| == BLOCH && i < BLOCH
    ensures Act(m, BLOCH, v)[i] ==
      Add(Add(Add(Mul(m[BLOCH * i], v[0]), Mul(m[BLOCH * i + 1], v[1])), Mul(m[BLOCH * i + 2], v[2])),
        Mul(m[BLOCH * i + 3], v[3]))
  {
    SumFour(Product(m, BLOCH, i, v));
    CellAt(m, i, 0);
    CellAt(m, i, 1);
    CellAt(m, i, 2);
    CellAt(m, i, 3);
  }

  /** A real affine map of Bloch vectors with the damping matrix's zero pattern. */
  datatype Affine = Affine(xx: real, xz: real, yy: real, shift: real, zx: real, zz: real)

  function DampingMap(gamma: real, a: real, c: real, s: real): Affine {
    Affine(a * c, a * s, a, gamma, -(1.0 - gamma) * s, (1.0 - gamma) * c)
  }

  /** The matrix holds the map, row by row. */
  ghost predicate Holds(m: seq<Complex>, t: Affine) {
    |m| == BLOCH * BLOCH
    && m[0] == ONE && m[1] == ZERO && m[2] == ZERO && m[3] == ZERO
    && m[4] == ZERO && m[5] == Lift(t.xx) && m[6] == ZERO && m[7] == Lift(t.xz)
    && m[8] == ZERO && m[9] == ZERO && m[10] == Lift(t.yy) && m[11] == ZERO
    && m[12] == Lift(t.shift) && m[13] == Lift(t.zx) && m[14] == ZERO && m[15] == Lift(t.zz)
  }

  lemma DampingEntries(gamma: real, a: real, c: real, s: real)
    ensures Holds(AmplitudeDampingRy(gamma, a, c, s), DampingMap(gamma, a, c, s))
  {
  }

  lemma UnitRow(m: seq<Complex>, t: Affine)
    requires Holds(m, t)
    ensures UnitFirstRow(m, BLOCH)
  {
    forall j | 0 <= j < BLOCH ensures At(m, BLOCH, 0, j) == (if j == 0 then ONE else ZERO) { CellAt(m, 0, j); }
  }

  /** w is the affine image of v. */
  ghost predicate Follows(t: Affine, v: seq<Complex>, w: seq<Complex>) {
    Homogeneous(v) && Homogeneous(w)
    && w[1].re == t.xx * v[1].re + t.xz * v[3].re
    && w[2].re == t.yy * v[2].re
    && w[3].re == t.shift + t.zx * v[1].re + t.zz * v[3].re
  }

  lemma FollowsFrom(t: Affine, v: seq<Complex>, w: seq<Complex>)
    requires Homogeneous(v) && |w| == BLOCH && w[0] == v[0]
    requires w[1] == RowValue(0.0, t.xx, 0.0, t.xz, v)
    requires w[2] == RowValue(0.0, 0.0, t.yy, 0.0, v)
    requires w[3] == RowValue(t.shift, t.zx, 0.0, t.zz, v)
    ensures Follows(t, v, w)
  {
  }

  lemma MatrixRows(m: seq<Complex>, t: Affine, v: seq<Complex>)
    requires Holds(m, t) && Homogeneous(v)
    ensures Act(m, BLOCH, v)[1] == RowValue(0.0, t.xx, 0.0, t.xz, v)
    ensures Act(m, BLOCH, v)[2] == RowValue(0.0, 0.0, t.yy, 0.0, v)
    ensures Act(m, BLOCH, v)[3] == RowValue(t.shift, t.zx, 0.0, t.zz, v)
  {
    RealRowOf(m, 1, v, 0.0, t.xx, 0.0, t.xz);
    RealRowOf(m, 2, v, 0.0, 0.0, t.yy, 0.0);
    RealRowOf(m, 3, v, t.shift, t.zx, 0.0, t.zz);
  }

  /** The matrix acts as the affine map it is meant to be. */
  lemma MatrixActs(m: seq<Complex>, t: Affine, v: seq<Complex>)
    requires Holds(m, t) && Homogeneous(v)
    ensures Follows(t, v, Act(m, BLOCH, v))
  {
    UnitRow(m, t);
    PinIsNoOp(m, BLOCH, v);
    MatrixRows(m, t, v);
    FollowsFrom(t, v, Act(m, BLOCH, v));
  }

  function RowValue(p: real, q: real, r: real, t: real, v: seq<Complex>): Complex
    requires |v| == BLOCH
  {
    Lift(p + q * v[1].re + r * v[2].re + t * v[3].re)
  }

  lemma RealRowOf(m: seq<Complex>, i: nat, v: seq<Complex>, p: real, q: real, r: real, t: real)
    requires |m| == BLOCH * BLOCH && i < BLOCH && Homogeneous(v)
    requires m[BLOCH * i] == Lift(p) && m[BLOCH * i + 1] == Lift(q) && m[BLOCH * i + 2] == Lift(r)
    requires m[BLOCH * i + 3] == Lift(t)
    ensures Act(m, BLOCH, v)[i] == RowValue(p, q, r, t, v)
  {
    RowDot(m, i, v);
    RealRow(Lift(p), Lift(q), Lift(r), Lift(t), v);
  }

  lemma RealRow(p: Complex, q: Complex, r: Complex, t: Complex, v: seq<Complex>)
    requires Homogeneous(v) && p.im == 0.0 && q.im == 0.0 && r.im == 0.0 && t.im == 0.0
    ensures Add(Add(Add(Mul(p, v[0]), Mul(q, v[1])), Mul(r, v[2])), Mul(t, v[3])) ==
      Lift(p.re + q.re * v[1].re + r.re * v[2].re + t.re * v[3].re)
  {
  }

  // ---------------------------------------------------------------- geometry

  /** Rotating (x, z) first, damping then shrinks x and y by a and z by a^2. */
  lemma Rotated(x: real, z: real, c: real, s: real)
    requires c * c + s * s == 1.0
    ensures var u, w := c * x + s * z, -s * x + c * z; u * u + w * w == x * x + z * z
  {
    var cc, ss, cs := c * c, s * s, c * s;
    assert (c * x + s * z) * (c * x + s * z) == x * x * cc + 2.0 * (x * z * cs) + z * z * ss;
    assert (-s * x + c * z) * (-s * x + c * z) == x * x * ss - 2.0 * (x * z * cs) + z * z * cc;
    assert x * x * cc + x * x * ss == x * x * (cc + ss);
    assert z * z * cc + z * z * ss == z * z * (cc + ss);
  }

  lemma DampedForm(gamma: real, a: real, c: real, s: real, x: real, z: real)
    ensures NextX(a, c, s, x, z) == a * (c * x + s * z)
    ensures NextZ(gamma, c, s, x, z) == gamma + (1.0 - gamma) * (-s * x + c * z)
  {
    assert (a * c) * x == a * (c * x) && (a * s) * z == a * (s * z);
    var b := 1.0 - gamma;
    assert (-b * s) * x == b * (-s * x) && (b * c) * z == b * (c * z);
  }

  lemma ScaledSquare(a: real, b: real, u: real, d: real)
    requires a * a == b && d == a * u
    ensures d * d == b * (u * u)
  {
    assert (a * u) * (a * u) == (a * a) * (u * u);
  }

  lemma NonNegative(x: real, y: real)
    requires x >= 0.0 && y >= 0.0
    ensures x * y >= 0.0
  {
  }

  lemma BallBound(gamma: real, p: real, w: real)
    requires 0.0 <= gamma <= 1.0 && p + w * w <= 1.0
    ensures (1.0 - gamma) * p + (gamma + (1.0 - gamma) * w) * (gamma + (1.0 - gamma) * w) <= 1.0
  {
    var b := 1.0 - gamma;
    NonNegative(b, 1.0 - w * w - p);
    assert b * (1.0 - w * w - p) == b * (1.0 - w * w) - b * p;
    NonNegative(gamma, b);
    var g := gamma * b;
    assert g >= 0.0 && (1.0 - w) * (1.0 - w) >= 0.0;
    NonNegative(g, (1.0 - w) * (1.0 - w));
    BallIdentity(gamma, w);
  }

  lemma BallIdentity(gamma: real, w: real)
    ensures (1.0 - gamma) * (1.0 - w * w) + (gamma + (1.0 - gamma) * w) * (gamma + (1.0 - gamma) * w)
            == 1.0 - gamma * (1.0 - gamma) * ((1.0 - w) * (1.0 - w))
  {
    var b := 1.0 - gamma;
    var ww := w * w;
    assert (gamma + b * w) * (gamma + b * w) == gamma * gamma + 2.0 * (gamma * b * w) + b * b * ww;
    assert (1.0 - w) * (1.0 - w) == 1.0 - 2.0 * w + ww;
    assert b * b == b - gamma * b && gamma * gamma == gamma - gamma * b;
    assert gamma * b * (1.0 - 2.0 * w + ww) == gamma * b - 2.0 * (gamma * b * w) + gamma * b * ww;
    assert b * b * ww == b * ww - gamma * b * ww;
    assert b * (1.0 - ww) == b - b * ww;
  }

  lemma BallStep(gamma: real, a: real, c: real, s: real, x: real, y: real, z: real)
    requires Parameters(gamma, a, c, s) && x * x + y * y + z * z <= 1.0
    ensures var p, q, r := NextX(a, c, s, x, z), NextY(a, y), NextZ(gamma, c, s, x, z);
      p * p + q * q + r * r <= 1.0
  {
    var u, w := c * x + s * z, -s * x + c * z;
    DampedForm(gamma, a, c, s, x, z);
    Rotated(x, z, c, s);
    ScaledSquare(a, 1.0 - gamma, u, a * u);
    ScaledSquare(a, 1.0 - gamma, y, a * y);
    assert (1.0 - gamma) * (u * u + y * y) == (1.0 - gamma) * (u * u) + (1.0 - gamma) * (y * y);
    BallBound(gamma, u * u + y * y, w);
  }

  /** One application keeps a physical vector in the unit Bloch ball. */
  lemma DampingKeepsBall(gamma: real, a: real, c: real, s: real, v: seq<Complex>, w: seq<Complex>)
    requires Parameters(gamma, a, c, s) && Physical(v) && Follows(DampingMap(gamma, a, c, s), v, w)
    ensures Physical(w)
  {
    BallStep(gamma, a, c, s, v[1].re, v[2].re, v[3].re);
  }

  /** Whatever one application carries from step j to step j + 1, iteration carries
      from the start to step k. */
  lemma {:induction false} IterateInvariant(m: seq<Complex>, d: nat, good: (nat, seq<Complex>, seq<Complex>) -> bool,
    u: seq<Complex>, v: seq<Complex>, k: nat)
    requires Square(m, d) && |u| == |v| == d && good(0, u, v)
    requires forall j: nat, x, y {:trigger good(j, x, y), Act(m, d, x), Act(m, d, y)} ::
      |x| == |y| == d && good(j, x, y) ==> good(j + 1, Act(m, d, x), Act(m, d, y))
    ensures good(k, Iterate(m, d, u, k), Iterate(m, d, v, k))
  {
    if k > 0 {
      var x, y := Iterate(m, d, u, k - 1), Iterate(m, d, v, k - 1);
      IterateInvariant(m, d, good, u, v, k - 1);
      assert good(k - 1, x, y);
      assert good(k - 1 + 1, Act(m, d, x), Act(m, d, y));
    }
  }

  lemma PhysicalStep(m: seq<Complex>, gamma: real, a: real, c: real, s: real, v: seq<Complex>)
    requires Parameters(gamma, a, c, s) && Holds(m, DampingMap(gamma, a, c, s)) && Physical(v)
    ensures Physical(Act(m, BLOCH, v))
  {
    MatrixActs(m, DampingMap(gamma, a, c, s), v);
    DampingKeepsBall(gamma, a, c, s, v, Act(m, BLOCH, v));
  }

  /** Every iterate of a physical vector is physical: trace coordinate one, real
      components, Bloch vector inside the unit ball. */
  lemma IteratesStayPhysical(m: seq<Complex>, gamma: real, a: real, c: real, s: real, v: seq<Complex>, k: nat)
    requires Parameters(gamma, a, c, s) && Holds(m, DampingMap(gamma, a, c, s)) && Physical(v)
    ensures Physical(Iterate(m, BLOCH, v, k))
  {
    var good := (j: nat, x, y) => Physical(x);
    forall j: nat, x, y | |x| == |y| == BLOCH && good(j, x, y) ensures good(j + 1, Act(m, BLOCH, x), Act(m, BLOCH, y)) {
      PhysicalStep(m, gamma, a, c, s, x);
    }
    IterateInvariant(m, BLOCH, good, v, v, k);
  }

  /** Squared Euclidean distance of two Bloch vectors. */
  function Distance2(u: seq<Complex>, v: seq<Complex>): real {
    if |u| == |v| == BLOCH then
      var x, y, z := u[1].re - v[1].re, u[2].re - v[2].re, u[3].re - v[3].re;
      x * x + y * y + z * z
    else 0.0
  }

  function RealPower(b: real, k: nat): real {
    if k == 0 then 1.0 else b * RealPower(b, k - 1)
  }

  lemma StepDifference(gamma: real, a: real, c: real, s: real, x: real, z: real, p: real, q: real)
    ensures NextX(a, c, s, x, z) - NextX(a, c, s, p, q) == a * (c * (x - p) + s * (z - q))
    ensures NextZ(gamma, c, s, x, z) - NextZ(gamma, c, s, p, q) == (1.0 - gamma) * (-s * (x - p) + c * (z - q))
  {
    DampedForm(gamma, a, c, s, x, z);
    DampedForm(gamma, a, c, s, p, q);
    assert c * (x - p) + s * (z - q) == (c * x + s * z) - (c * p + s * q);
    assert -s * (x - p) + c * (z - q) == (-s * x + c * z) - (-s * p + c * q);
    var b := 1.0 - gamma;
    MinusFactor(a, c * x + s * z, c * p + s * q);
    MinusFactor(b, -s * x + c * z, -s * p + c * q);
  }

  lemma MinusFactor(a: real, x: real, y: real)
    ensures a * x - a * y == a * (x - y)
  {
  }

  lemma ContractBound(b: real, u: real, y: real, w: real, f: real)
    requires 0.0 <= b <= 1.0 && f == b * w
    ensures b * (u * u) + b * (y * y) + f * f <= b * (u * u + y * y + w * w)
  {
    ScaledSquare(b, b * b, w, f);
    NonNegative(b, 1.0 - b);
    assert b * (1.0 - b) == b - b * b;
    NonNegative(b - b * b, w * w);
    assert (b - b * b) * (w * w) == b * (w * w) - (b * b) * (w * w);
    assert b * (u * u + y * y + w * w) == b * (u * u) + b * (y * y) + b * (w * w);
  }

  lemma SameSum(u: real, w: real, x: real, z: real, y: real)
    requires u * u + w * w == x * x + z * z
    ensures u * u + y * y + w * w == x * x + y * y + z * z
  {
  }

  lemma ContractPart(a: real, b: real, u: real, y: real, w: real, d: real, e: real, f: real)
    requires 0.0 <= b <= 1.0 && a * a == b && d == a * u && e == a * y && f == b * w
    ensures d * d + e * e + f * f <= b * (u * u + y * y + w * w)
  {
    ScaledSquare(a, b, u, d);
    ScaledSquare(a, b, y, e);
    ContractBound(b, u, y, w, f);
  }

  lemma ContractStep(gamma: real, a: real, c: real, s: real, x: real, y: real, z: real, d: real, e: real, f: real)
    requires Parameters(gamma, a, c, s)
    requires d == a * (c * x + s * z) && e == a * y && f == (1.0 - gamma) * (-s * x + c * z)
    ensures d * d + e * e + f * f <= (1.0 - gamma) * (x * x + y * y + z * z)
  {
    var u, w := c * x + s * z, -s * x + c * z;
    Rotated(x, z, c, s);
    SameSum(u, w, x, z, y);
    ContractPart(a, 1.0 - gamma, u, y, w, d, e, f);
  }

  /** One application shrinks squared distances by 1 - gamma. */
  lemma DampingContracts(gamma: real, a: real, c: real, s: real, u: seq<Complex>, v: seq<Complex>, p: seq<Complex>,
    q: seq<Complex>)
    requires Parameters(gamma, a, c, s)
    requires Follows(DampingMap(gamma, a, c, s), u, p) && Follows(DampingMap(gamma, a, c, s), v, q)
    ensures Distance2(p, q) <= (1.0 - gamma) * Distance2(u, v)
  {
    StepDifference(gamma, a, c, s, u[1].re, u[3].re, v[1].re, v[3].re);
    MinusFactor(a, u[2].re, v[2].re);
    ContractStep(gamma, a, c, s, u[1].re - v[1].re, u[2].re - v[2].re, u[3].re - v[3].re,
      p[1].re - q[1].re, p[2].re - q[2].re, p[3].re - q[3].re);
  }

  lemma ChainBound(b: real, d: real, p: real, e: real, next: real, q: real)
    requires b >= 0.0 && d <= p * e && next <= b * d && q == b * p
    ensures next <= q * e
  {
    NonNegative(b, p * e - d);
    assert b * (p * e - d) == b * (p * e) - b * d;
    assert q * e == b * (p * e);
  }

  /** Two homogeneous vectors whose squared distance is at most b^j times e. */
  ghost predicate Near(b: real, e: real, j: nat, x: seq<Complex>, y: seq<Complex>) {
    Homogeneous(x) && Homogeneous(y) && Distance2(x, y) <= RealPower(b, j) * e
  }

  lemma NearStart(b: real, u: seq<Complex>, v: seq<Complex>)
    requires Homogeneous(u) && Homogeneous(v)
    ensures NearRelation(b, Distance2(u, v))(0, u, v)
  {
  }

  lemma NearStep(gamma: real, a: real, c: real, s: real, e: real, j: nat,
    x: seq<Complex>, y: seq<Complex>, p: seq<Complex>, q: seq<Complex>)
    requires Parameters(gamma, a, c, s) && Near(1.0 - gamma, e, j, x, y)
    requires Follows(DampingMap(gamma, a, c, s), x, p) && Follows(DampingMap(gamma, a, c, s), y, q)
    ensures Near(1.0 - gamma, e, j + 1, p, q)
  {
    DampingContracts(gamma, a, c, s, x, y, p, q);
    ChainBound(1.0 - gamma, Distance2(x, y), RealPower(1.0 - gamma, j), e, Distance2(p, q),
      RealPower(1.0 - gamma, j + 1));
  }

  lemma NearActs(m: seq<Complex>, gamma: real, a: real, c: real, s: real, e: real, j: nat, x: seq<Complex>,
    y: seq<Complex>)
    requires Parameters(gamma, a, c, s) && Holds(m, DampingMap(gamma, a, c, s)) && Near(1.0 - gamma, e, j, x, y)
    ensures Near(1.0 - gamma, e, j + 1, Act(m, BLOCH, x), Act(m, BLOCH, y))
  {
    MatrixActs(m, DampingMap(gamma, a, c, s), x);
    MatrixActs(m, DampingMap(gamma, a, c, s), y);
    NearStep(gamma, a, c, s, e, j, x, y, Act(m, BLOCH, x), Act(m, BLOCH, y));
  }

  ghost function NearRelation(b: real, e: real): (nat, seq<Complex>, seq<Complex>) -> bool {
    (j: nat, x, y) => Near(b, e, j, x, y)
  }

  lemma IteratesNear(m: seq<Complex>, gamma: real, a: real, c: real, s: real, e: real, u: seq<Complex>, v: seq<Complex>,
    k: nat)
    requires Parameters(gamma, a, c, s) && Holds(m, DampingMap(gamma, a, c, s))
    requires NearRelation(1.0 - gamma, e)(0, u, v)
    ensures Near(1.0 - gamma, e, k, Iterate(m, BLOCH, u, k), Iterate(m, BLOCH, v, k))
  {
    var good := NearRelation(1.0 - gamma, e);
    forall j: nat, x, y | |x| == |y| == BLOCH && good(j, x, y) ensures good(j + 1, Act(m, BLOCH, x), Act(m, BLOCH, y)) {
      NearActs(m, gamma, a, c, s, e, j, x, y);
    }
    IterateInvariant(m, BLOCH, good, u, v, k);
  }

  /** Two runs from different starts approach each other at least geometrically. */
  lemma IteratesContract(m: seq<Complex>, gamma: real, a: real, c: real, s: real, u: seq<Complex>, v: seq<Complex>,
    k: nat)
    requires Parameters(gamma, a, c, s) && Holds(m, DampingMap(gamma, a, c, s)) && Homogeneous(u) && Homogeneous(v)
    ensures Near(1.0 - gamma, Distance2(u, v), k, Iterate(m, BLOCH, u, k), Iterate(m, BLOCH, v, k))
  {
    NearStart(1.0 - gamma, u, v);
    IteratesNear(m, gamma, a, c, s, Distance2(u, v), u, v, k);
  }

  /** The sequential run of the damping matrix from any physical start is physical. */
  method SequentialDamping(gamma: real, a: real, c: real, s: real, repetitions: nat, initial: seq<Complex>)
    returns (current: seq<Complex>)
    requires Parameters(gamma, a, c, s) && Physical(initial)
    ensures Physical(current)
    ensures current == Iterate(AmplitudeDampingRy(gamma, a, c, s), BLOCH, initial, repetitions)
  {
    var m := AmplitudeDampingRy(gamma, a, c, s);
    DampingEntries(gamma, a, c, s);
    UnitRow(m, DampingMap(gamma, a, c, s));
    IteratesStayPhysical(m, gamma, a, c, s, initial, repetitions);
    PinnedIsPlain(m, BLOCH, initial, repetitions);
    current := Sequential(m, BLOCH, repetitions, initial);
  }
}
