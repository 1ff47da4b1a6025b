/** The affine-index train: with doubling weights the train holds offset + slope * index. */
module AffineTrain {
  import opened Bits
  import opened ComplexNumbers
  import opened Outcomes
  import opened Train
  import opened HammingTrain

  /** The weight of each position, most significant first. */
  function AffineWeights(n: nat, slope: Complex): (w: seq<Complex>)
    ensures |w| == n
  {
    seq(n, p requires 0 <= p < n => Scale(slope, Pow2(n - 1 - p) as real))
  }

  lemma ScaleSum(slope: Complex, x: nat, y: nat)
    ensures Add(Scale(slope, x as real), Scale(slope, y as real)) == Scale(slope, (x + y) as real)
  {
  }

  lemma PartIs(slope: Complex, p: nat, b: bool)
    ensures Part(Scale(slope, p as real), b) == Scale(slope, (if b then p else 0) as real)
  {
  }

  lemma WeightsRest(n: nat, slope: Complex)
    requires n > 0
    ensures AffineWeights(n, slope)[0] == Scale(slope, Pow2(n - 1) as real)
    ensures AffineWeights(n, slope)[1..] == AffineWeights(n - 1, slope)
  {
  }

  /** The weights at the set bits of an index add up to slope * index. */
  lemma {:induction false} WeightsAtIndex(n: nat, slope: Complex, index: nat)
    requires index < Pow2(n)
    ensures WeightSum(AffineWeights(n, slope), BitsOf(index, n)) == Scale(slope, index as real)
    decreases n
  {
    if n == 0 {
      assert Scale(slope, 0.0) == ZERO;
    } else {
      var b := index >= Pow2(n - 1);
      var i := if b then index - Pow2(n - 1) else index;
      HighBit(i, n - 1, b);
      assert ([b] + BitsOf(i, n - 1))[1..] == BitsOf(i, n - 1);
      WeightsRest(n, slope);
      WeightsAtIndex(n - 1, slope, i);
      PartIs(slope, Pow2(n - 1), b);
      ScaleSum(slope, if b then Pow2(n - 1) else 0, i);
    }
  }

  lemma Doubled(slope: Complex, k: nat)
    ensures Scale(Scale(slope, Pow2(k) as real), 2.0) == Scale(slope, Pow2(k + 1) as real)
  {
  }

  /** At every index the built train holds offset + slope * index. */
  method AffineIndex(logicalBits: nat, offset: Complex, slope: Complex) returns (result: Outcome<seq<Core>>)
    ensures result.Success? <==> logicalBits > 0
    ensures result.Success? ==> Chain(1, result.value) && |result.value| == logicalBits
    ensures result.Success? ==> forall index: nat :: index < Pow2(logicalBits) ==>
      ValueFrom([ONE], result.value, BitsOf(index, logicalBits)) == Add(offset, Scale(slope, index as real))
  {
    if logicalBits == 0 {
      return Thrown("QTT affine-index field requires at least one binary mode");
    }
    var weights := new Complex[logicalBits](_ => ZERO);
    var weight, reverse := slope, logicalBits;
    assert Scale(slope, Pow2(0) as real) == slope;
    while reverse > 0
      invariant 0 <= reverse <= logicalBits
      invariant reverse > 0 ==> weight == Scale(slope, Pow2(logicalBits - reverse) as real)
      invariant forall p :: reverse <= p < logicalBits ==> weights[p] == AffineWeights(logicalBits, slope)[p]
    {
      reverse := reverse - 1;
      weights[reverse] := weight;
      if reverse != 0 {
        Doubled(slope, logicalBits - reverse - 1);
        weight := Scale(weight, 2.0);
      }
    }
    assert weights[..] == AffineWeights(logicalBits, slope);
    result := WeightedBitSum(weights[..], offset);
    forall index: nat | index < Pow2(logicalBits)
      ensures ValueFrom([ONE], result.value, BitsOf(index, logicalBits)) == Add(offset, Scale(slope, index as real))
    {
      WeightedValue(weights[..], offset, BitsOf(index, logicalBits));
      WeightsAtIndex(logicalBits, slope, index);
    }
  }
}
