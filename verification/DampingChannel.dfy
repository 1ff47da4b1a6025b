/** The transfer matrix is a quantum channel: on density matrices it is a rotation
    about y followed by the two Kraus operators of amplitude damping. */
module DampingChannel {
  import opened ComplexNumbers
  import opened Transfer
  import opened Damping

  /** A two-by-two complex matrix, row by row. */
  datatype Operator = Operator(aa: Complex, ab: Complex, ba: Complex, bb: Complex)

  function Times(m: Operator, n: Operator): Operator {
    Operator(
      Add(Mul(m.aa, n.aa), Mul(m.ab, n.ba)), Add(Mul(m.aa, n.ab), Mul(m.ab, n.bb)),
      Add(Mul(m.ba, n.aa), Mul(m.bb, n.ba)), Add(Mul(m.ba, n.ab), Mul(m.bb, n.bb)))
  }

  function Plus(m: Operator, n: Operator): Operator {
    Operator(Add(m.aa, n.aa), Add(m.ab, n.ab), Add(m.ba, n.ba), Add(m.bb, n.bb))
  }

  function Adjoint(m: Operator): Operator {
    Operator(Conjugate(m.aa), Conjugate(m.ba), Conjugate(m.ab), Conjugate(m.bb))
  }

  /** m rho m^dagger. */
  function Conjugated(m: Operator, rho: Operator): Operator { Times(Times(m, rho), Adjoint(m)) }

  /** The density matrix of a Bloch vector: half of 1 + xX + yY + zZ. */
  function Density(x: real, y: real, z: real): Operator {
    Operator(Lift((1.0 + z) / 2.0), Complex(x / 2.0, -y / 2.0), Complex(x / 2.0, y / 2.0), Lift((1.0 - z) / 2.0))
  }

  /** The traces of rho, rho X, rho Y and rho Z. */
  function Bloch(rho: Operator): (v: seq<Complex>)
    ensures |v| == BLOCH
  {
    [Add(rho.aa, rho.bb), Add(rho.ab, rho.ba), Mul(Complex(0.0, 1.0), Sub(rho.ab, rho.ba)), Sub(rho.aa, rho.bb)]
  }

  function Real(p: real, q: real, r: real, t: real): Operator { Operator(Lift(p), Lift(q), Lift(r), Lift(t)) }

  /** The rotation about y with half-angle cosine h and sine k. */
  function Rotation(h: real, k: real): Operator { Real(h, -k, k, h) }

  /** The Kraus operator that lets the excited state fade. */
  function Fade(a: real): Operator { Real(1.0, 0.0, 0.0, a) }

  /** The Kraus operator that drops the excited state to the ground state. */
  function Drop(g: real): Operator { Real(0.0, g, 0.0, 0.0) }

  function Channel(h: real, k: real, a: real, g: real, rho: Operator): Operator {
    var turned := Conjugated(Rotation(h, k), rho);
    Plus(Conjugated(Fade(a), turned), Conjugated(Drop(g), turned))
  }

  // ---------------------------------------------------------------- real operators on density matrices

  lemma RealFactor(p: real, w: Complex)
    ensures Mul(Lift(p), w) == Scale(w, p) == Mul(w, Lift(p)) && Conjugate(Lift(p)) == Lift(p)
  {
  }

  /** The entry with rows (p, q) on the left and (u, w) on the right. */
  function Entry(p: real, q: real, u: real, w: real, rho: Operator): Complex {
    Add(Scale(Add(Scale(rho.aa, p), Scale(rho.ba, q)), u), Scale(Add(Scale(rho.ab, p), Scale(rho.bb, q)), w))
  }

  lemma RealEntry(p: real, q: real, u: real, w: real, rho: Operator)
    ensures Add(Mul(Add(Mul(Lift(p), rho.aa), Mul(Lift(q), rho.ba)), Lift(u)),
      Mul(Add(Mul(Lift(p), rho.ab), Mul(Lift(q), rho.bb)), Lift(w))) == Entry(p, q, u, w, rho)
  {
    RealFactor(p, rho.aa);
    RealFactor(q, rho.ba);
    RealFactor(p, rho.ab);
    RealFactor(q, rho.bb);
    RealFactor(u, Add(Scale(rho.aa, p), Scale(rho.ba, q)));
    RealFactor(w, Add(Scale(rho.ab, p), Scale(rho.bb, q)));
  }

  lemma RealAdjoint(p: real, q: real, r: real, t: real)
    ensures Adjoint(Real(p, q, r, t)) == Real(p, r, q, t)
  {
  }

  lemma RealConjugated(p: real, q: real, r: real, t: real, rho: Operator)
    ensures Conjugated(Real(p, q, r, t), rho) ==
      Operator(Entry(p, q, p, q, rho), Entry(p, q, r, t, rho), Entry(r, t, p, q, rho), Entry(r, t, r, t, rho))
  {
    RealAdjoint(p, q, r, t);
    RealEntry(p, q, p, q, rho);
    RealEntry(p, q, r, t, rho);
    RealEntry(r, t, p, q, rho);
    RealEntry(r, t, r, t, rho);
  }

  lemma ScaledTwice(w: Complex, p: real, u: real, pu: real)
    requires pu == p * u
    ensures Scale(Scale(w, p), u) == Scale(w, pu)
  {
  }

  lemma ScaledSum(v: Complex, w: Complex, p: real)
    ensures Scale(Add(v, w), p) == Add(Scale(v, p), Scale(w, p))
  {
  }

  lemma EntryForm(p: real, q: real, u: real, w: real, rho: Operator, pu: real, pw: real, qu: real, qw: real)
    requires pu == p * u && pw == p * w && qu == q * u && qw == q * w
    ensures Entry(p, q, u, w, rho) ==
      Add(Add(Scale(rho.aa, pu), Scale(rho.ba, qu)), Add(Scale(rho.ab, pw), Scale(rho.bb, qw)))
  {
    ScaledSum(Scale(rho.aa, p), Scale(rho.ba, q), u);
    ScaledSum(Scale(rho.ab, p), Scale(rho.bb, q), w);
    ScaledTwice(rho.aa, p, u, pu);
    ScaledTwice(rho.ba, q, u, qu);
    ScaledTwice(rho.ab, p, w, pw);
    ScaledTwice(rho.bb, q, w, qw);
  }

  /** An entry of a density matrix between real operators, from the four products. */
  function DensityEntry(x: real, y: real, z: real, pu: real, pw: real, qu: real, qw: real): Complex {
    Complex(((pu + qw) + (pu - qw) * z + (pw + qu) * x) / 2.0, (qu - pw) * y / 2.0)
  }

  lemma DensityForm(x: real, y: real, z: real, pu: real, pw: real, qu: real, qw: real)
    ensures var rho := Density(x, y, z);
      Add(Add(Scale(rho.aa, pu), Scale(rho.ba, qu)), Add(Scale(rho.ab, pw), Scale(rho.bb, qw))) ==
      DensityEntry(x, y, z, pu, pw, qu, qw)
  {
  }

  lemma DensityEntryAt(p: real, q: real, u: real, w: real, x: real, y: real, z: real, pu: real, pw: real, qu: real,
    qw: real)
    requires pu == p * u && pw == p * w && qu == q * u && qw == q * w
    ensures Entry(p, q, u, w, Density(x, y, z)) == DensityEntry(x, y, z, pu, pw, qu, qw)
  {
    EntryForm(p, q, u, w, Density(x, y, z), pu, pw, qu, qw);
    DensityForm(x, y, z, pu, pw, qu, qw);
  }

  // ---------------------------------------------------------------- the rotation

  function Between(x: real, y: real, z: real, hh: real, kk: real, hk: real): Operator {
    Operator(DensityEntry(x, y, z, hh, -hk, -hk, kk), DensityEntry(x, y, z, hk, hh, -kk, -hk),
      DensityEntry(x, y, z, hk, -kk, hh, -hk), DensityEntry(x, y, z, kk, hk, hk, hh))
  }

  lemma NegatedProducts(h: real, k: real, m: real)
    requires m == -k
    ensures h * m == -(h * k) && m * h == -(h * k) && m * m == k * k && m * k == -(k * k) && k * m == -(k * k)
    ensures k * h == h * k
  {
  }

  lemma RealEntries(h: real, k: real, m: real, x: real, y: real, z: real, hh: real, kk: real, hk: real, n: real,
    nn: real)
    requires hh == h * h && kk == m * m && kk == k * k && hk == h * k && hk == k * h
    requires n == h * m && n == m * h && nn == m * k && nn == k * m && n == -hk && nn == -kk
    ensures Conjugated(Real(h, m, k, h), Density(x, y, z)) == Between(x, y, z, hh, kk, hk)
  {
    RealConjugated(h, m, k, h, Density(x, y, z));
    DensityEntryAt(h, m, h, m, x, y, z, hh, n, n, kk);
    DensityEntryAt(h, m, k, h, x, y, z, hk, hh, nn, n);
    DensityEntryAt(k, h, h, m, x, y, z, hk, nn, hh, n);
    DensityEntryAt(k, h, k, h, x, y, z, kk, hk, hk, hh);
  }

  lemma RotationEntries(h: real, k: real, x: real, y: real, z: real, hh: real, kk: real, hk: real)
    requires hh == h * h && kk == k * k && hk == h * k
    ensures Conjugated(Rotation(h, k), Density(x, y, z)) == Between(x, y, z, hh, kk, hk)
  {
    NegatedProducts(h, k, -k);
    RealEntries(h, k, -k, x, y, z, hh, kk, hk, -hk, -kk);
  }

  lemma TurnedDensity(x: real, y: real, z: real, hh: real, kk: real, hk: real, c: real, s: real, u: real, w: real)
    requires hh + kk == 1.0 && c == hh - kk && s == 2.0 * hk && u == c * x + s * z && w == -s * x + c * z
    ensures Between(x, y, z, hh, kk, hk) == Density(u, y, w)
  {
    assert (kk - hh) * z == -(c * z);
  }

  /** On Bloch vectors the rotation turns z towards x by the whole angle. */
  lemma RotationTurns(h: real, k: real, c: real, s: real, x: real, y: real, z: real, u: real, w: real)
    requires h * h + k * k == 1.0 && c == h * h - k * k && s == 2.0 * (h * k)
    requires u == c * x + s * z && w == -s * x + c * z
    ensures Conjugated(Rotation(h, k), Density(x, y, z)) == Density(u, y, w)
  {
    RotationEntries(h, k, x, y, z, h * h, k * k, h * k);
    TurnedDensity(x, y, z, h * h, k * k, h * k, c, s, u, w);
  }

  // ---------------------------------------------------------------- the damping

  lemma ScaleByUnits(w: Complex)
    ensures Scale(w, 0.0) == ZERO && Scale(w, 1.0) == w
  {
  }

  lemma KeptCorner(rho: Operator)
    ensures Entry(1.0, 0.0, 1.0, 0.0, rho) == rho.aa
  {
    ScaleByUnits(rho.aa);
    ScaleByUnits(rho.ba);
    ScaleByUnits(Add(Scale(rho.ab, 1.0), Scale(rho.bb, 0.0)));
    Zeros(rho.aa);
  }

  lemma FadedSides(a: real, rho: Operator)
    ensures Entry(1.0, 0.0, 0.0, a, rho) == Scale(rho.ab, a) && Entry(0.0, a, 1.0, 0.0, rho) == Scale(rho.ba, a)
  {
  }

  lemma FadedCorner(a: real, b: real, rho: Operator)
    requires b == a * a
    ensures Entry(0.0, a, 0.0, a, rho) == Scale(rho.bb, b)
  {
    ScaleByUnits(rho.ab);
    ScaleByUnits(Add(Scale(rho.aa, 0.0), Scale(rho.ba, a)));
    ScaledTwice(rho.bb, a, a, b);
    Zeros(Scale(rho.bb, a));
    Zeros(Scale(rho.bb, b));
  }

  lemma Faded(a: real, b: real, rho: Operator)
    requires b == a * a
    ensures Conjugated(Fade(a), rho) == Operator(rho.aa, Scale(rho.ab, a), Scale(rho.ba, a), Scale(rho.bb, b))
  {
    RealConjugated(1.0, 0.0, 0.0, a, rho);
    KeptCorner(rho);
    FadedSides(a, rho);
    FadedCorner(a, b, rho);
  }

  lemma Dropped(g: real, gamma: real, rho: Operator)
    requires gamma == g * g
    ensures Conjugated(Drop(g), rho) == Operator(Scale(rho.bb, gamma), ZERO, ZERO, ZERO)
  {
    RealConjugated(0.0, g, 0.0, 0.0, rho);
    EntryForm(0.0, g, 0.0, g, rho, 0.0, 0.0, 0.0, gamma);
    EntryForm(0.0, g, 0.0, 0.0, rho, 0.0, 0.0, 0.0, 0.0);
    EntryForm(0.0, 0.0, 0.0, g, rho, 0.0, 0.0, 0.0, 0.0);
    EntryForm(0.0, 0.0, 0.0, 0.0, rho, 0.0, 0.0, 0.0, 0.0);
  }

  function Shrunk(gamma: real, a: real, b: real, rho: Operator): Operator {
    Operator(Add(rho.aa, Scale(rho.bb, gamma)), Scale(rho.ab, a), Scale(rho.ba, a), Scale(rho.bb, b))
  }

  lemma DampedOperator(gamma: real, a: real, b: real, g: real, rho: Operator)
    requires a * a == b && g * g == gamma
    ensures Plus(Conjugated(Fade(a), rho), Conjugated(Drop(g), rho)) == Shrunk(gamma, a, b, rho)
  {
    Faded(a, b, rho);
    Dropped(g, gamma, rho);
    Zeros(Scale(rho.ab, a));
    Zeros(Scale(rho.ba, a));
    Zeros(Scale(rho.bb, b));
  }

  lemma ShrunkDensity(gamma: real, a: real, b: real, x: real, y: real, z: real, ax: real, ay: real, w: real)
    requires b == 1.0 - gamma && ax == a * x && ay == a * y && w == gamma + b * z
    ensures Shrunk(gamma, a, b, Density(x, y, z)) == Density(ax, ay, w)
  {
    assert gamma * z == z - b * z;
  }

  lemma BlochOfDensity(x: real, y: real, z: real)
    ensures Bloch(Density(x, y, z)) == [ONE, Lift(x), Lift(y), Lift(z)]
  {
  }

  // ---------------------------------------------------------------- the channel law

  /** A rotated Bloch vector (x, y, z) after damping, with its trace. */
  function Damped(gamma: real, a: real, x: real, y: real, z: real): seq<Complex> {
    [ONE, Lift(a * x), Lift(a * y), Lift(gamma + (1.0 - gamma) * z)]
  }

  lemma DampedBloch(gamma: real, a: real, b: real, x: real, y: real, z: real)
    requires b == 1.0 - gamma
    ensures Bloch(Shrunk(gamma, a, b, Density(x, y, z))) == Damped(gamma, a, x, y, z)
  {
    ShrunkDensity(gamma, a, b, x, y, z, a * x, a * y, gamma + (1.0 - gamma) * z);
    BlochOfDensity(a * x, a * y, gamma + (1.0 - gamma) * z);
  }

  lemma ChannelShrinks(gamma: real, a: real, b: real, g: real, h: real, k: real, rho: Operator, turned: Operator)
    requires Conjugated(Rotation(h, k), rho) == turned && a * a == b && g * g == gamma
    ensures Channel(h, k, a, g, rho) == Shrunk(gamma, a, b, turned)
  {
    DampedOperator(gamma, a, b, g, turned);
  }

  function NextBloch(gamma: real, a: real, c: real, s: real, x: real, y: real, z: real): seq<Complex> {
    [ONE, Lift(NextX(a, c, s, x, z)), Lift(NextY(a, y)), Lift(NextZ(gamma, c, s, x, z))]
  }

  lemma AffineResult(v: seq<Complex>, w: seq<Complex>, t: Affine, x: real, y: real, z: real)
    requires Follows(t, v, w)
    requires x == t.xx * v[1].re + t.xz * v[3].re && y == t.yy * v[2].re
    requires z == t.shift + t.zx * v[1].re + t.zz * v[3].re
    ensures w == [ONE, Lift(x), Lift(y), Lift(z)]
  {
  }

  lemma FollowsNext(gamma: real, a: real, c: real, s: real, v: seq<Complex>, w: seq<Complex>)
    requires Follows(DampingMap(gamma, a, c, s), v, w)
    ensures w == NextBloch(gamma, a, c, s, v[1].re, v[2].re, v[3].re)
  {
    AffineResult(v, w, DampingMap(gamma, a, c, s), NextX(a, c, s, v[1].re, v[3].re), NextY(a, v[2].re),
      NextZ(gamma, c, s, v[1].re, v[3].re));
  }

  lemma MatrixNext(gamma: real, a: real, c: real, s: real, v: seq<Complex>)
    requires Homogeneous(v)
    ensures Act(AmplitudeDampingRy(gamma, a, c, s), BLOCH, v) == NextBloch(gamma, a, c, s, v[1].re, v[2].re, v[3].re)
  {
    var m := AmplitudeDampingRy(gamma, a, c, s);
    DampingEntries(gamma, a, c, s);
    MatrixActs(m, DampingMap(gamma, a, c, s), v);
    FollowsNext(gamma, a, c, s, v, Act(m, BLOCH, v));
  }

  lemma RotatedForm(gamma: real, a: real, c: real, s: real, x: real, z: real, u: real, w: real)
    requires u == c * x + s * z && w == -s * x + c * z
    ensures NextX(a, c, s, x, z) == a * u && NextZ(gamma, c, s, x, z) == gamma + (1.0 - gamma) * w
  {
    DampedForm(gamma, a, c, s, x, z);
  }

  lemma DampedNext(gamma: real, a: real, c: real, s: real, x: real, y: real, z: real, u: real, w: real)
    requires u == c * x + s * z && w == -s * x + c * z
    ensures Damped(gamma, a, u, y, w) == NextBloch(gamma, a, c, s, x, y, z)
  {
    RotatedForm(gamma, a, c, s, x, z, u, w);
  }

  lemma ChannelBloch(gamma: real, a: real, b: real, g: real, h: real, k: real, rho: Operator, u: real, y: real, w: real)
    requires Conjugated(Rotation(h, k), rho) == Density(u, y, w) && a * a == b && g * g == gamma && b == 1.0 - gamma
    ensures Bloch(Channel(h, k, a, g, rho)) == Damped(gamma, a, u, y, w)
  {
    ChannelShrinks(gamma, a, b, g, h, k, rho, Density(u, y, w));
    DampedBloch(gamma, a, b, u, y, w);
  }

  lemma ChannelNext(gamma: real, a: real, g: real, h: real, k: real, c: real, s: real, x: real, y: real, z: real,
    u: real, w: real)
    requires h * h + k * k == 1.0 && c == h * h - k * k && s == 2.0 * (h * k)
    requires a * a == 1.0 - gamma && g * g == gamma && u == c * x + s * z && w == -s * x + c * z
    ensures Bloch(Channel(h, k, a, g, Density(x, y, z))) == Damped(gamma, a, u, y, w)
  {
    RotationTurns(h, k, c, s, x, y, z, u, w);
    ChannelBloch(gamma, a, 1.0 - gamma, g, h, k, Density(x, y, z), u, y, w);
  }

  /** The matrix is the channel: on every Bloch vector it gives the Bloch vector of the rotated
      and damped density matrix. */
  lemma MatrixIsChannel(gamma: real, a: real, g: real, h: real, k: real, c: real, s: real, v: seq<Complex>)
    requires h * h + k * k == 1.0 && c == h * h - k * k && s == 2.0 * (h * k)
    requires a * a == 1.0 - gamma && g * g == gamma && Homogeneous(v)
    ensures Act(AmplitudeDampingRy(gamma, a, c, s), BLOCH, v) ==
      Bloch(Channel(h, k, a, g, Density(v[1].re, v[2].re, v[3].re)))
  {
    MatrixNext(gamma, a, c, s, v);
    var u, w := c * v[1].re + s * v[3].re, -s * v[1].re + c * v[3].re;
    DampedNext(gamma, a, c, s, v[1].re, v[2].re, v[3].re, u, w);
    ChannelNext(gamma, a, g, h, k, c, s, v[1].re, v[2].re, v[3].re, u, w);
  }

  // ---------------------------------------------------------------- repeated channels

  function State(v: seq<Complex>): Operator
    requires |v| == BLOCH
  {
    Density(v[1].re, v[2].re, v[3].re)
  }

  function ChannelMap(h: real, k: real, a: real, g: real): Operator -> Operator {
    (rho: Operator) => Channel(h, k, a, g, rho)
  }

  function Repeated(f: Operator -> Operator, rho: Operator, n: nat): Operator {
    if n == 0 then rho else f(Repeated(f, rho, n - 1))
  }

  lemma StateOf(w: seq<Complex>, x: real, y: real, z: real)
    requires w == [ONE, Lift(x), Lift(y), Lift(z)]
    ensures Homogeneous(w) && State(w) == Density(x, y, z)
  {
  }

  lemma StateOfNext(gamma: real, a: real, c: real, s: real, v: seq<Complex>, w: seq<Complex>)
    requires |v| == BLOCH && w == NextBloch(gamma, a, c, s, v[1].re, v[2].re, v[3].re)
    ensures Homogeneous(w)
    ensures State(w) == Density(NextX(a, c, s, v[1].re, v[3].re), NextY(a, v[2].re),
      NextZ(gamma, c, s, v[1].re, v[3].re))
  {
    StateOf(w, NextX(a, c, s, v[1].re, v[3].re), NextY(a, v[2].re), NextZ(gamma, c, s, v[1].re, v[3].re));
  }

  lemma ShrunkNext(gamma: real, a: real, b: real, c: real, s: real, x: real, y: real, z: real, u: real, w: real)
    requires u == c * x + s * z && w == -s * x + c * z && b == 1.0 - gamma
    ensures Shrunk(gamma, a, b, Density(u, y, w)) ==
      Density(NextX(a, c, s, x, z), NextY(a, y), NextZ(gamma, c, s, x, z))
  {
    RotatedForm(gamma, a, c, s, x, z, u, w);
    ShrunkDensity(gamma, a, b, u, y, w, NextX(a, c, s, x, z), NextY(a, y), NextZ(gamma, c, s, x, z));
  }

  lemma ChannelDensity(gamma: real, a: real, g: real, h: real, k: real, c: real, s: real, x: real, y: real, z: real,
    u: real, w: real, b: real)
    requires h * h + k * k == 1.0 && c == h * h - k * k && s == 2.0 * (h * k) && b == 1.0 - gamma
    requires a * a == b && g * g == gamma && u == c * x + s * z && w == -s * x + c * z
    ensures Channel(h, k, a, g, Density(x, y, z)) ==
      Density(NextX(a, c, s, x, z), NextY(a, y), NextZ(gamma, c, s, x, z))
  {
    RotationTurns(h, k, c, s, x, y, z, u, w);
    ChannelShrinks(gamma, a, b, g, h, k, Density(x, y, z), Density(u, y, w));
    ShrunkNext(gamma, a, b, c, s, x, y, z, u, w);
  }

  lemma ChannelOfState(gamma: real, a: real, g: real, h: real, k: real, c: real, s: real, v: seq<Complex>)
    requires h * h + k * k == 1.0 && c == h * h - k * k && s == 2.0 * (h * k)
    requires a * a == 1.0 - gamma && g * g == gamma && Homogeneous(v)
    ensures var w := Act(AmplitudeDampingRy(gamma, a, c, s), BLOCH, v);
      Homogeneous(w) && Channel(h, k, a, g, State(v)) == State(w)
  {
    MatrixNext(gamma, a, c, s, v);
    StateOfNext(gamma, a, c, s, v, Act(AmplitudeDampingRy(gamma, a, c, s), BLOCH, v));
    var x, z := v[1].re, v[3].re;
    ChannelDensity(gamma, a, g, h, k, c, s, x, v[2].re, z, c * x + s * z, -s * x + c * z, 1.0 - gamma);
  }

  /** On homogeneous vectors the matrix does to the vector what the channel does to its state. */
  ghost predicate Simulates(m: seq<Complex>, f: Operator -> Operator)
    requires |m| == BLOCH * BLOCH
  {
    forall v: seq<Complex> {:trigger f(State(v))} :: Homogeneous(v) ==>
      Homogeneous(Act(m, BLOCH, v)) && f(State(v)) == State(Act(m, BLOCH, v))
  }

  lemma SimulatesAt(m: seq<Complex>, f: Operator -> Operator, v: seq<Complex>, w: seq<Complex>, rho: Operator)
    requires |m| == BLOCH * BLOCH && Simulates(m, f) && Homogeneous(v) && w == Act(m, BLOCH, v) && rho == State(v)
    ensures Homogeneous(w) && f(rho) == State(w)
  {
    assert f(State(v)) == State(Act(m, BLOCH, v));
  }

  lemma {:induction false} RunOfStates(m: seq<Complex>, f: Operator -> Operator, v: seq<Complex>, n: nat)
    requires |m| == BLOCH * BLOCH && Simulates(m, f) && Homogeneous(v)
    ensures Homogeneous(Iterate(m, BLOCH, v, n)) && Repeated(f, State(v), n) == State(Iterate(m, BLOCH, v, n))
  {
    if n > 0 {
      RunOfStates(m, f, v, n - 1);
      SimulatesAt(m, f, Iterate(m, BLOCH, v, n - 1), Iterate(m, BLOCH, v, n), Repeated(f, State(v), n - 1));
    }
  }

  lemma MatrixSimulates(gamma: real, a: real, g: real, h: real, k: real, c: real, s: real)
    requires h * h + k * k == 1.0 && c == h * h - k * k && s == 2.0 * (h * k)
    requires a * a == 1.0 - gamma && g * g == gamma
    ensures Simulates(AmplitudeDampingRy(gamma, a, c, s), ChannelMap(h, k, a, g))
  {
    forall v: seq<Complex> | Homogeneous(v)
      ensures var w := Act(AmplitudeDampingRy(gamma, a, c, s), BLOCH, v);
        Homogeneous(w) && ChannelMap(h, k, a, g)(State(v)) == State(w)
    {
      ChannelOfState(gamma, a, g, h, k, c, s, v);
    }
  }

  lemma BlochOfState(v: seq<Complex>)
    requires Homogeneous(v)
    ensures Bloch(State(v)) == v
  {
    BlochOfDensity(v[1].re, v[2].re, v[3].re);
  }

  /** Every iterate of the matrix is the Bloch vector of the repeated channel. */
  lemma IteratesAreChannelRuns(gamma: real, a: real, g: real, h: real, k: real, c: real, s: real, v: seq<Complex>,
    n: nat)
    requires h * h + k * k == 1.0 && c == h * h - k * k && s == 2.0 * (h * k)
    requires a * a == 1.0 - gamma && g * g == gamma && Homogeneous(v)
    ensures Iterate(AmplitudeDampingRy(gamma, a, c, s), BLOCH, v, n) ==
      Bloch(Repeated(ChannelMap(h, k, a, g), State(v), n))
  {
    MatrixSimulates(gamma, a, g, h, k, c, s);
    RunOfStates(AmplitudeDampingRy(gamma, a, c, s), ChannelMap(h, k, a, g), v, n);
    BlochOfState(Iterate(AmplitudeDampingRy(gamma, a, c, s), BLOCH, v, n));
  }
}
