/** Masked attention of one (batch, head) as plain sums over all keys, with no tile and no block in it.
    Every kernel of this project is proved to compute these sums. */
module Attention {
  import opened RealSums
  import opened Intervals
  import opened Dropout

  // ---------------------------------------------------------------- exp2 and log2

  predicate ExpAdds(E: real -> real, a: real, b: real) { E(a + b) == E(a) * E(b) }
  predicate ExpPositive(E: real -> real, a: real) { E(a) > 0.0 }

  /** All that the proofs use of tl.math.exp2. */
  ghost predicate IsExp(E: real -> real) {
    && (forall a, b :: ExpAdds(E, a, b))
    && (forall a :: ExpPositive(E, a))
  }

  predicate LogInverts(E: real -> real, Lg: real -> real, x: real) { x > 0.0 ==> E(Lg(x)) == x }

  ghost predicate IsLog(E: real -> real, Lg: real -> real) {
    forall x :: LogInverts(E, Lg, x)
  }

  /** exp2 of a score; a masked score weighs nothing. */
  function ExpScore(E: real -> real, s: Score, m: real): real {
    if s.NegInf? then 0.0 else E(s.value - m)
  }

  lemma ExpShift(E: real -> real, a: real, b: real)
    requires IsExp(E)
    ensures E(a - b) * E(b) == E(a)
    ensures E(b) > 0.0 && E(a - b) > 0.0
  {
    assert ExpAdds(E, a - b, b);
    assert a - b + b == a;
    assert ExpPositive(E, b) && ExpPositive(E, a - b);
  }

  // ---------------------------------------------------------------- one head

  /** A tensor slice in memory. Cells outside its shape hold arbitrary values. */
  type Tensor = (int, int) -> real

  datatype Bias = NoBias | Bias(b: Tensor)

  /** Dropout of one head: the probability, the stream, the head's base offset and the row stride. */
  datatype DropoutSpec = NoDropout | DropoutSpec(p: real, rng: Rng, base: int, stride: int)
  {
    /** The threshold that the kernels compute from the probability. */
    function IdropoutP(): int
      requires DropoutSpec?
    {
      Threshold(p)
    }
  }

  /** Log-sum-exp as stored; fully masked tiles store plus infinity. */
  datatype Lse = PosInf | Lse(value: real)

  datatype Head = Head(
    seqlenQ: int, seqlenK: int, hdimQk: int, hdimVo: int,
    q: Tensor, k: Tensor, v: Tensor, bias: Bias,
    smScale: real,
    isCausal: bool, windowLeft: int, windowRight: int,
    dropout: DropoutSpec)
  {
    predicate Valid() {
      && seqlenQ >= 1 && seqlenK >= 1 && hdimQk >= 0 && hdimVo >= 0
      && (dropout.DropoutSpec? ==> dropout.p < 1.0)
    }

    predicate Sees(m: int, n: int) {
      Visible(isCausal, windowLeft, windowRight, seqlenQ, seqlenK, m, n)
    }

    function Dot(m: int, n: int): real { Sum(d => q(m, d) * k(n, d), 0, hdimQk) }

    function BiasAt(m: int, n: int): real { if bias.NoBias? then 0.0 else bias.b(m, n) }

    predicate Keeps(m: int, n: int)
      requires n >= 0
    {
      dropout.NoDropout? || Keep(dropout.rng, dropout.IdropoutP(), dropout.base, m, n, dropout.stride)
    }

    /** 1 / (1 - p) */
    function DropoutScale(): real
      requires Valid()
    {
      if dropout.NoDropout? then 1.0 else 1.0 / (1.0 - dropout.p)
    }

    /** Scores are scaled by log2(e) so that exp2 can be used for exp. */
    function QkScale(log2e: real): real { smScale * log2e }

    /** The base-2 logit of a pair; log2e is log2(e). */
    function Logit(log2e: real, m: int, n: int): real {
      QkScale(log2e) * Dot(m, n) + BiasAt(m, n) * log2e
    }

    function ScoreAt(log2e: real, m: int, n: int): Score {
      if Sees(m, n) then Fin(Logit(log2e, m, n)) else NegInf
    }
  }

  function ScoreFn(h: Head, log2e: real, m: int): int -> Score { n => h.ScoreAt(log2e, m, n) }

  /** exp2(logit) of a visible pair, zero otherwise. */
  function WeightFn(E: real -> real, h: Head, log2e: real, m: int): int -> real {
    n => if h.Sees(m, n) then E(h.Logit(log2e, m, n)) else 0.0
  }

  /** The same, zero for a dropped pair, times V[n, d]. */
  function ValueFn(E: real -> real, h: Head, log2e: real, m: int, d: int): int -> real {
    n => if h.Sees(m, n) && h.Keeps(m, n) then E(h.Logit(log2e, m, n)) * h.v(n, d) else 0.0
  }

  // ---------------------------------------------------------------- reference attention

  /** The seed of the running maximum. It acts as one more key of this score whose value is zero. */
  const SINK: real := -340282000000000000000000000000000000000.0

  /** The softmax denominator of row m, relative to score zero. */
  function Denominator(E: real -> real, h: Head, log2e: real, m: int): real {
    E(SINK) + Sum(WeightFn(E, h, log2e, m), 0, h.seqlenK)
  }

  lemma DenominatorPositive(E: real -> real, h: Head, log2e: real, m: int)
    requires IsExp(E)
    ensures Denominator(E, h, log2e, m) > 0.0
  {
    assert ExpPositive(E, SINK);
    forall n | 0 <= n < h.seqlenK ensures WeightFn(E, h, log2e, m)(n) >= 0.0 {
      assert ExpPositive(E, h.Logit(log2e, m, n));
    }
    SumNonNegative(WeightFn(E, h, log2e, m), 0, h.seqlenK);
  }

  /** softmax(q k^T * scale + bias, masked) with dropout, times v: row m, column d. */
  ghost function AttentionAt(E: real -> real, h: Head, log2e: real, m: int, d: int): real
    requires IsExp(E) && h.Valid()
  {
    DenominatorPositive(E, h, log2e, m);
    h.DropoutScale() * Sum(ValueFn(E, h, log2e, m, d), 0, h.seqlenK) / Denominator(E, h, log2e, m)
  }

  /** The largest logit of row m, the sink's included. */
  function RowMax(h: Head, log2e: real, m: int): real {
    MaxOver(SINK, ScoreFn(h, log2e, m), 0, h.seqlenK)
  }

  /** The log-sum-exp of row m in base 2, in the form the kernel computes it. */
  ghost function LseBase2At(E: real -> real, Lg: real -> real, h: Head, log2e: real, m: int): real
    requires IsExp(E)
  {
    assert ExpPositive(E, RowMax(h, log2e, m));
    RowMax(h, log2e, m) + Lg(Denominator(E, h, log2e, m) / E(RowMax(h, log2e, m)))
  }

  /** The stored log-sum-exp. */
  ghost function LseAt(E: real -> real, Lg: real -> real, h: Head, log2e: real, ln2: real, m: int): real
    requires IsExp(E)
  {
    LseBase2At(E, Lg, h, log2e, m) * ln2
  }

  /** Whatever the maximum was, this is the logarithm of the denominator. */
  lemma LseIsLogOfDenominator(E: real -> real, Lg: real -> real, h: Head, log2e: real, m: int)
    requires IsExp(E) && IsLog(E, Lg)
    ensures E(LseBase2At(E, Lg, h, log2e, m)) == Denominator(E, h, log2e, m)
  {
    hide Denominator, RowMax;
    var z, top := Denominator(E, h, log2e, m), RowMax(h, log2e, m);
    DenominatorPositive(E, h, log2e, m);
    assert ExpPositive(E, top);
    var l := z / E(top);
    assert LogInverts(E, Lg, l);
    QuotientPositive(z, E(top));
    assert ExpAdds(E, top, Lg(l));
  }

  lemma QuotientPositive(a: real, b: real)
    requires a > 0.0 && b > 0.0
    ensures a / b > 0.0 && b * (a / b) == a
  {
  }

  /** log2(e) and ln(2) as the kernels write them. The forward and the dk/dv kernel scale scores by LOG2E,
      the dq kernel by RCP_LN2; the log-sum-exp is stored with LN2 and read back with RCP_LN2. */
  const LOG2E: real := 1.44269504089
  const RCP_LN2: real := 1.4426950408889634
  const LN2: real := 0.6931471824645996
}
