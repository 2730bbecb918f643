/** The backward pass of masked attention as plain sums, with no tile and no block in it, and what these
    sums have to do with the forward pass. */
module Gradients {
  import opened RealSums
  import opened Attention

  /** What the backward kernels read besides the head itself: dO, the stored log-sum-exp and delta. */
  datatype Grad = Grad(dO: Tensor, lse: int -> Lse, delta: int -> real)

  function Exponent(scale: real, qk: real, lse: real): real { scale * qk - lse }

  /** exp2(scale * qk - lse): the probability the backward pass rebuilds for a score. */
  function Rebuild(E: real -> real, scale: real, qk: Score, lse: Lse): real {
    if qk.NegInf? || lse.PosInf? then 0.0 else E(Exponent(scale, qk.value, lse.value))
  }

  /** The log-sum-exp read back into base 2. */
  function Base2(lse: Lse): Lse {
    if lse.PosInf? then PosInf else Lse.Lse(lse.value * RCP_LN2)
  }

  /** q k^T plus the bias divided by the softmax scale. */
  function RawScore(h: Head, m: int, n: int): real
    requires h.smScale != 0.0
  {
    h.Dot(m, n) + h.BiasAt(m, n) * (1.0 / h.smScale)
  }

  function ScaledScore(h: Head, m: int, n: int): real
    requires h.smScale != 0.0
  {
    h.smScale * RawScore(h, m, n)
  }

  function ProbAt(E: real -> real, h: Head, g: Grad, log2e: real, m: int, n: int): real
    requires h.smScale != 0.0
  {
    if h.Sees(m, n) then Rebuild(E, h.QkScale(log2e), Fin(RawScore(h, m, n)), Base2(g.lse(m))) else 0.0
  }

  function DoDotV(h: Head, g: Grad, m: int, n: int): real { Sum(d => g.dO(m, d) * h.v(n, d), 0, h.hdimVo) }

  /** dp after dropout */
  function DpAt(h: Head, g: Grad, m: int, n: int): real
    requires h.Valid() && n >= 0
  {
    if h.Keeps(m, n) then DoDotV(h, g, m, n) * h.DropoutScale() else 0.0
  }

  function DsAt(E: real -> real, h: Head, g: Grad, log2e: real, m: int, n: int): real
    requires h.Valid() && h.smScale != 0.0
  {
    if h.Sees(m, n) then ProbAt(E, h, g, log2e, m, n) * (DpAt(h, g, m, n) - g.delta(m)) else 0.0
  }

  /** The probability after dropout, as dV uses it. */
  function DroppedProbAt(E: real -> real, h: Head, g: Grad, log2e: real, m: int, n: int): real
    requires h.Valid() && h.smScale != 0.0
  {
    if h.Sees(m, n) && h.Keeps(m, n) then ProbAt(E, h, g, log2e, m, n) * h.DropoutScale() else 0.0
  }

  type Terms = int -> (int -> real)

  /** Column d of a row of dQ, dK or dV: the term of each key, or of each query. */
  function DqTerms(E: real -> real, h: Head, g: Grad, log2e: real, m: int): Terms
    requires h.Valid() && h.smScale != 0.0
  {
    d => n => DsAt(E, h, g, log2e, m, n) * h.k(n, d)
  }

  function DkTerms(E: real -> real, h: Head, g: Grad, log2e: real, n: int): Terms
    requires h.Valid() && h.smScale != 0.0
  {
    d => m => DsAt(E, h, g, log2e, m, n) * h.q(m, d)
  }

  function DvTerms(E: real -> real, h: Head, g: Grad, log2e: real, n: int): Terms
    requires h.Valid() && h.smScale != 0.0
  {
    d => m => DroppedProbAt(E, h, g, log2e, m, n) * g.dO(m, d)
  }

  function DqAt(E: real -> real, h: Head, g: Grad, log2e: real, m: int, d: int): real
    requires h.Valid() && h.smScale != 0.0
  {
    Sum(DqTerms(E, h, g, log2e, m)(d), 0, h.seqlenK) * h.smScale
  }

  /** dK and dV of one head; the kernel adds up the heads of a group. */
  function DkSum(E: real -> real, h: Head, g: Grad, log2e: real, n: int, d: int): real
    requires h.Valid() && h.smScale != 0.0
  {
    Sum(DkTerms(E, h, g, log2e, n)(d), 0, h.seqlenQ)
  }

  function DvSum(E: real -> real, h: Head, g: Grad, log2e: real, n: int, d: int): real
    requires h.Valid() && h.smScale != 0.0
  {
    Sum(DvTerms(E, h, g, log2e, n)(d), 0, h.seqlenQ)
  }

  // ---------------------------------------------------------------- forward and backward agree

  /** The forward softmax weight of a pair. */
  ghost function ForwardWeight(E: real -> real, h: Head, log2e: real, m: int, n: int): real
    requires IsExp(E)
  {
    DenominatorPositive(E, h, log2e, m);
    WeightFn(E, h, log2e, m)(n) / Denominator(E, h, log2e, m)
  }

  /** How far the exponent of the rebuilt probability is off when the decimal constants disagree:
      log2e forward, log2b backward, ln2 when storing and rcpLn2 when reading back. */
  function ExponentError(lseBase2: real, log2e: real, log2b: real, ln2: real, scaledScore: real): real {
    (log2b - log2e) * scaledScore - (RCP_LN2 * ln2 - 1.0) * lseBase2
  }

  /** The probability rebuilt from the stored log-sum-exp is the forward weight times exp2 of that error,
      and so exactly the forward weight when the constants are exact. The bias, divided by the scale
      before and multiplied by it afterwards, is the forward bias. */
  lemma RebuiltProbIsForwardWeight(E: real -> real, Lg: real -> real, h: Head, g: Grad, log2e: real, log2b: real, ln2: real, m: int, n: int)
    requires IsExp(E) && IsLog(E, Lg) && h.smScale > 0.0
    requires h.Sees(m, n) && g.lse(m) == Lse.Lse(LseAt(E, Lg, h, log2e, ln2, m))
    ensures var err := ExponentError(LseBase2At(E, Lg, h, log2e, m), log2e, log2b, ln2, ScaledScore(h, m, n));
      && ProbAt(E, h, g, log2b, m, n) == ForwardWeight(E, h, log2e, m, n) * E(err)
      && (log2b == log2e && ln2 * RCP_LN2 == 1.0 ==> E(err) == 1.0)
  {
    hide Denominator, LseBase2At, RawScore, ProbAt;
    var stored := LseAt(E, Lg, h, log2e, ln2, m);
    var lse2, s := LseBase2At(E, Lg, h, log2e, m), ScaledScore(h, m, n);
    var err := ExponentError(lse2, log2e, log2b, ln2, s);
    ScaledRawScore(h, log2e, m, n);
    LseIsLogOfDenominator(E, Lg, h, log2e, m);
    DenominatorPositive(E, h, log2e, m);
    ExponentSplits(s, log2e, log2b, ln2, lse2, stored, err, h.smScale, RawScore(h, m, n));
    var x := h.Logit(log2e, m, n);
    assert ExpAdds(E, x - lse2, err);
    ExpShift(E, x, lse2);
    QuotientOf(E(x - lse2), Denominator(E, h, log2e, m), E(x));
    var exponent := Exponent(h.QkScale(log2b), RawScore(h, m, n), Base2(Lse.Lse(stored)).value);
    assert Base2(Lse.Lse(stored)).value == stored * RCP_LN2;
    assert exponent == x - lse2 + err;
    RebuiltExponent(E, h, g, log2b, m, n, stored);
    assert ForwardWeight(E, h, log2e, m, n) == E(x) / Denominator(E, h, log2e, m);
    if log2b == log2e && ln2 * RCP_LN2 == 1.0 {
      ErrorVanishes(lse2, log2e, log2b, ln2, s);
      ExpZero(E);
    }
  }

  lemma RebuiltExponent(E: real -> real, h: Head, g: Grad, log2b: real, m: int, n: int, stored: real)
    requires h.smScale > 0.0 && h.Sees(m, n) && g.lse(m) == Lse.Lse(stored)
    ensures ProbAt(E, h, g, log2b, m, n) == E(Exponent(h.QkScale(log2b), RawScore(h, m, n), Base2(Lse.Lse(stored)).value))
  {
    hide RawScore, Exponent, Head.QkScale;
  }

  lemma ErrorVanishes(lseBase2: real, log2e: real, log2b: real, ln2: real, scaledScore: real)
    requires log2b == log2e && ln2 * RCP_LN2 == 1.0
    ensures ExponentError(lseBase2, log2e, log2b, ln2, scaledScore) == 0.0
  {
    assert (log2b - log2e) * scaledScore == 0.0 * scaledScore;
    assert (RCP_LN2 * ln2 - 1.0) * lseBase2 == 0.0 * lseBase2;
  }

  lemma ExpZero(E: real -> real)
    requires IsExp(E)
    ensures E(0.0) == 1.0
  {
    assert ExpAdds(E, 0.0, 0.0) && ExpPositive(E, 0.0);
    assert 0.0 + 0.0 == 0.0;
    QuotientOf(E(0.0), E(0.0), E(0.0));
    assert E(0.0) / E(0.0) == 1.0;
  }

  lemma QuotientOf(p: real, z: real, e: real)
    requires z > 0.0 && p * z == e
    ensures p == e / z
  {
  }

  lemma ScaledRawScore(h: Head, log2e: real, m: int, n: int)
    requires h.smScale > 0.0
    ensures h.smScale * RawScore(h, m, n) * log2e == h.Logit(log2e, m, n)
  {
    hide Sum;
    var s, b, x := h.smScale, h.BiasAt(m, n), h.Dot(m, n);
    assert s * (b * (1.0 / s)) == b;
    assert s * (x + b * (1.0 / s)) == s * x + b;
    assert (s * x + b) * log2e == s * log2e * x + b * log2e;
  }

  lemma ExponentSplits(s: real, log2e: real, log2b: real, ln2: real, lse2: real, stored: real, err: real, sm: real, raw: real)
    requires stored == lse2 * ln2 && s == sm * raw
    requires err == ExponentError(lse2, log2e, log2b, ln2, s)
    ensures sm * log2b * raw - stored * RCP_LN2 == s * log2e - lse2 + err
  {
    assert sm * log2b * raw == log2b * s;
    assert stored * RCP_LN2 == RCP_LN2 * ln2 * lse2;
  }

  // ---------------------------------------------------------------- the exact gradient of the scores

  function RowOf(x: Tensor, m: int): int -> real { d => x(m, d) }

  /** What the preprocess kernel stores: the row sum of out * dO. */
  ghost function DeltaAt(E: real -> real, h: Head, g: Grad, log2e: real, m: int): real
    requires IsExp(E) && h.Valid()
  {
    Sum(OutDo(E, h, g, log2e, m), 0, h.hdimVo)
  }

  ghost function OutDo(E: real -> real, h: Head, g: Grad, log2e: real, m: int): int -> real
    requires IsExp(E) && h.Valid()
  {
    d => AttentionAt(E, h, log2e, m, d) * g.dO(m, d)
  }

  /** ds of the forward weights themselves. Of g it sees dO alone, not what the passes store. */
  ghost function TrueDs(E: real -> real, h: Head, g: Grad, log2e: real, m: int, n: int): real
    requires IsExp(E) && h.Valid()
  {
    if h.Sees(m, n) then ForwardWeight(E, h, log2e, m, n) * (DpAt(h, g, m, n) - DeltaAt(E, h, g, log2e, m)) else 0.0
  }

  ghost function TrueDropped(E: real -> real, h: Head, log2e: real, m: int, n: int): real
    requires IsExp(E) && h.Valid()
  {
    if h.Sees(m, n) && h.Keeps(m, n) then ForwardWeight(E, h, log2e, m, n) * h.DropoutScale() else 0.0
  }

  ghost function WeightShareFn(E: real -> real, h: Head, log2e: real, m: int): int -> real
    requires IsExp(E)
  {
    n => ForwardWeight(E, h, log2e, m, n)
  }

  ghost function TrueDsFn(E: real -> real, h: Head, g: Grad, log2e: real, m: int): int -> real
    requires IsExp(E) && h.Valid()
  {
    n => TrueDs(E, h, g, log2e, m, n)
  }

  ghost function TrueDroppedFn(E: real -> real, h: Head, log2e: real, m: int): int -> real
    requires IsExp(E) && h.Valid()
  {
    n => TrueDropped(E, h, log2e, m, n)
  }

  /** The weight of the seed of the running maximum. */
  ghost function SinkShare(E: real -> real, h: Head, log2e: real, m: int): real
    requires IsExp(E)
  {
    DenominatorPositive(E, h, log2e, m);
    E(SINK) / Denominator(E, h, log2e, m)
  }

  lemma ShareOf(w: real, z: real)
    requires z > 0.0
    ensures w / z == 1.0 / z * w && z * (w / z) == w
  {
  }

  /** The forward weights of a row and the sink's share sum to one. */
  lemma WeightsAndSinkSumToOne(E: real -> real, h: Head, log2e: real, m: int)
    requires IsExp(E)
    ensures Sum(WeightShareFn(E, h, log2e, m), 0, h.seqlenK) + SinkShare(E, h, log2e, m) == 1.0
  {
    hide Sum, WeightFn;
    var z := Denominator(E, h, log2e, m);
    DenominatorPositive(E, h, log2e, m);
    forall n ensures WeightShareFn(E, h, log2e, m)(n) == 1.0 / z * WeightFn(E, h, log2e, m)(n) {
      ShareOf(WeightFn(E, h, log2e, m)(n), z);
    }
    SumScale(1.0 / z, WeightFn(E, h, log2e, m), WeightShareFn(E, h, log2e, m), 0, h.seqlenK);
    SharesOfWhole(E(SINK), Sum(WeightFn(E, h, log2e, m), 0, h.seqlenK), z);
  }

  lemma SharesOfWhole(a: real, w: real, z: real)
    requires z > 0.0 && z == a + w
    ensures 1.0 / z * w + a / z == 1.0
  {
    assert (1.0 / z * w + a / z) * z == w + a;
  }

  /** The forward output is the dropped weights times V. */
  lemma AttentionFromWeights(E: real -> real, h: Head, log2e: real, m: int, d: int)
    requires IsExp(E) && h.Valid()
    ensures AttentionAt(E, h, log2e, m, d) == Sum(ColTerm(TrueDroppedFn(E, h, log2e, m), h.v, d), 0, h.seqlenK)
  {
    hide Sum, Denominator, TrueDroppedFn, ValueFn, ColTerm;
    DenominatorPositive(E, h, log2e, m);
    var z, s := Denominator(E, h, log2e, m), h.DropoutScale();
    var f, t := ValueFn(E, h, log2e, m, d), ColTerm(TrueDroppedFn(E, h, log2e, m), h.v, d);
    forall n | 0 <= n < h.seqlenK ensures t(n) == s / z * f(n) { DroppedValue(E, h, log2e, m, n, d); }
    SumScale(s / z, f, t, 0, h.seqlenK);
    QuotientFirst(s, Sum(f, 0, h.seqlenK), z);
  }

  lemma QuotientFirst(s: real, x: real, z: real)
    requires z > 0.0
    ensures s * x / z == s / z * x
  {
  }

  lemma DroppedValue(E: real -> real, h: Head, log2e: real, m: int, n: int, d: int)
    requires IsExp(E) && h.Valid()
    ensures Denominator(E, h, log2e, m) > 0.0
    ensures ColTerm(TrueDroppedFn(E, h, log2e, m), h.v, d)(n)
         == h.DropoutScale() / Denominator(E, h, log2e, m) * ValueFn(E, h, log2e, m, d)(n)
  {
    hide Head.Logit, Denominator;
    DenominatorPositive(E, h, log2e, m);
    var z, e := Denominator(E, h, log2e, m), E(h.Logit(log2e, m, n));
    if h.Sees(m, n) && h.Keeps(m, n) {
      RegroupProduct(e, h.DropoutScale(), z, h.v(n, d), e / z, TrueDropped(E, h, log2e, m, n), ValueFn(E, h, log2e, m, d)(n));
    } else {
      assert TrueDroppedFn(E, h, log2e, m)(n) == 0.0;
    }
  }

  lemma RegroupProduct(e: real, s: real, z: real, v: real, p: real, pd: real, ev: real)
    requires z > 0.0 && p == e / z && pd == p * s && ev == e * v
    ensures pd * v == s / z * ev
  {
    assert e / z * s * v == s / z * (e * v);
  }

  /** Each row of ds sums to delta times the sink's share: to zero as far as the seed of the running
      maximum is negligible, with or without dropout. */
  lemma TrueDsRowSum(E: real -> real, h: Head, g: Grad, log2e: real, m: int)
    requires IsExp(E) && h.Valid()
    ensures Sum(TrueDsFn(E, h, g, log2e, m), 0, h.seqlenK) == DeltaAt(E, h, g, log2e, m) * SinkShare(E, h, log2e, m)
  {
    hide Sum, SinkShare, DeltaAt, DpAt;
    WeightsAndSinkSumToOne(E, h, log2e, m);
    DeltaFromWeights(E, h, g, log2e, m);
    var p, ds, pdp, delta := WeightShareFn(E, h, log2e, m), TrueDsFn(E, h, g, log2e, m), PdpFn(E, h, g, log2e, m), DeltaAt(E, h, g, log2e, m);
    var minus := (n: int) => -delta * p(n);
    SumScale(-delta, p, minus, 0, h.seqlenK);
    forall n | 0 <= n < h.seqlenK ensures ds(n) == pdp(n) + minus(n) {
      if h.Sees(m, n) { Distribute(p(n), DpAt(h, g, m, n), delta); } else { MaskedWeight(E, h, log2e, m, n); }
    }
    SumAdd(pdp, minus, ds, 0, h.seqlenK);
    assert delta + -delta * Sum(p, 0, h.seqlenK) == delta * (1.0 - Sum(p, 0, h.seqlenK));
  }

  lemma MaskedWeight(E: real -> real, h: Head, log2e: real, m: int, n: int)
    requires IsExp(E) && !h.Sees(m, n)
    ensures ForwardWeight(E, h, log2e, m, n) == 0.0
  {
    hide Denominator;
    DenominatorPositive(E, h, log2e, m);
  }

  lemma Distribute(p: real, dp: real, delta: real)
    ensures p * (dp - delta) == p * dp + -delta * p
  {
  }

  /** p * dp of the visible keys */
  ghost function PdpFn(E: real -> real, h: Head, g: Grad, log2e: real, m: int): int -> real
    requires IsExp(E) && h.Valid()
  {
    n => if h.Sees(m, n) then ForwardWeight(E, h, log2e, m, n) * DpAt(h, g, m, n) else 0.0
  }

  lemma DeltaFromWeights(E: real -> real, h: Head, g: Grad, log2e: real, m: int)
    requires IsExp(E) && h.Valid()
    ensures DeltaAt(E, h, g, log2e, m) == Sum(PdpFn(E, h, g, log2e, m), 0, h.seqlenK)
  {
    hide Sum, AttentionAt, TrueDroppedFn, PdpFn;
    var c, y := TrueDroppedFn(E, h, log2e, m), RowOf(g.dO, m);
    forall d ensures OutDo(E, h, g, log2e, m)(d) == Sum(ColTerm(c, h.v, d), 0, h.seqlenK) * 1.0 * y(d) {
      AttentionFromWeights(E, h, log2e, m, d);
    }
    forall n | 0 <= n < h.seqlenK
      ensures PdpFn(E, h, g, log2e, m)(n) == 1.0 * (c(n) * Sum(RowTerm(h.v, y, n), 0, h.hdimVo))
    {
      PdpOfKey(E, h, g, log2e, m, n);
    }
    ScaledExchange(1.0, c, h.v, y, h.seqlenK, h.hdimVo, OutDo(E, h, g, log2e, m), PdpFn(E, h, g, log2e, m));
  }

  lemma PdpOfKey(E: real -> real, h: Head, g: Grad, log2e: real, m: int, n: int)
    requires IsExp(E) && h.Valid()
    ensures PdpFn(E, h, g, log2e, m)(n) == TrueDroppedFn(E, h, log2e, m)(n) * Sum(RowTerm(h.v, RowOf(g.dO, m), n), 0, h.hdimVo)
  {
    hide Sum, ForwardWeight;
    SumEqual(RowTerm(h.v, RowOf(g.dO, m), n), d => g.dO(m, d) * h.v(n, d), 0, h.hdimVo);
    if h.Sees(m, n) {
      MoveScale(ForwardWeight(E, h, log2e, m, n), h.DropoutScale(), DoDotV(h, g, m, n),
                TrueDropped(E, h, log2e, m, n), DpAt(h, g, m, n), h.Keeps(m, n));
    }
  }

  lemma MoveScale(p: real, s: real, x: real, c: real, dp: real, kept: bool)
    requires c == if kept then p * s else 0.0
    requires dp == if kept then x * s else 0.0
    ensures c * x == p * dp
  {
  }

  // ---------------------------------------------------------------- what the backward pass makes of the stored row

  /** What the forward pass and the preprocess kernel leave for a row: delta, and the log-sum-exp, or plus
      infinity for a row that sees no key. */
  ghost predicate StoredRow(E: real -> real, Lg: real -> real, h: Head, g: Grad, log2e: real, ln2: real, m: int) {
    && IsExp(E) && IsLog(E, Lg) && h.Valid() && h.smScale > 0.0
    && g.delta(m) == DeltaAt(E, h, g, log2e, m)
    && (if g.lse(m).PosInf? then forall n :: !h.Sees(m, n) else g.lse(m) == Lse.Lse(LseAt(E, Lg, h, log2e, ln2, m)))
  }

  /** By what factor the backward pass with scale log2b is off at a pair, and at a whole row when the
      forward pass used the same scale. */
  ghost function PairFactor(E: real -> real, Lg: real -> real, h: Head, log2e: real, log2b: real, ln2: real, m: int, n: int): real
    requires IsExp(E) && h.smScale != 0.0
  {
    E(ExponentError(LseBase2At(E, Lg, h, log2e, m), log2e, log2b, ln2, ScaledScore(h, m, n)))
  }

  ghost function RowFactor(E: real -> real, Lg: real -> real, h: Head, log2e: real, ln2: real, m: int): real
    requires IsExp(E)
  {
    E(ExponentError(LseBase2At(E, Lg, h, log2e, m), log2e, log2e, ln2, 0.0))
  }

  lemma PairFactorIsRowFactor(E: real -> real, Lg: real -> real, h: Head, log2e: real, ln2: real, m: int, n: int)
    requires IsExp(E) && h.smScale != 0.0
    ensures PairFactor(E, Lg, h, log2e, log2e, ln2, m, n) == RowFactor(E, Lg, h, log2e, ln2, m)
  {
    hide LseBase2At, RawScore;
    var s := ScaledScore(h, m, n);
    assert (log2e - log2e) * s == 0.0 && (log2e - log2e) * 0.0 == 0.0;
  }

  /** Whatever the constants: every stored row gives the exact probability, ds and dropped probability of
      each pair, times the pair's factor. */
  lemma StoredPair(E: real -> real, Lg: real -> real, h: Head, g: Grad, log2e: real, log2b: real, ln2: real, m: int, n: int)
    requires StoredRow(E, Lg, h, g, log2e, ln2, m)
    ensures ProbAt(E, h, g, log2b, m, n) == PairFactor(E, Lg, h, log2e, log2b, ln2, m, n) * ForwardWeight(E, h, log2e, m, n)
    ensures DsAt(E, h, g, log2b, m, n) == PairFactor(E, Lg, h, log2e, log2b, ln2, m, n) * TrueDs(E, h, g, log2e, m, n)
    ensures DroppedProbAt(E, h, g, log2b, m, n) == PairFactor(E, Lg, h, log2e, log2b, ln2, m, n) * TrueDropped(E, h, log2e, m, n)
  {
    hide LseAt, LseBase2At, DeltaAt, DpAt, ForwardWeight, ExponentError, ProbAt;
    if h.Sees(m, n) {
      RebuiltProbIsForwardWeight(E, Lg, h, g, log2e, log2b, ln2, m, n);
      var f, p := PairFactor(E, Lg, h, log2e, log2b, ln2, m, n), ForwardWeight(E, h, log2e, m, n);
      MoveFactor(p, f, DpAt(h, g, m, n) - g.delta(m));
      MoveFactor(p, f, h.DropoutScale());
    } else {
      MaskedWeight(E, h, log2e, m, n);
      MaskedProb(E, h, g, log2b, m, n);
    }
  }

  lemma MoveFactor(p: real, f: real, x: real)
    ensures p * f * x == f * (p * x)
  {
  }

  lemma MaskedProb(E: real -> real, h: Head, g: Grad, log2e: real, m: int, n: int)
    requires h.smScale != 0.0 && !h.Sees(m, n)
    ensures ProbAt(E, h, g, log2e, m, n) == 0.0
  {
  }

  function ProbFn(E: real -> real, h: Head, g: Grad, log2e: real, m: int): int -> real
    requires h.smScale != 0.0
  {
    n => ProbAt(E, h, g, log2e, m, n)
  }

  function DsFn(E: real -> real, h: Head, g: Grad, log2e: real, m: int): int -> real
    requires h.Valid() && h.smScale != 0.0
  {
    n => DsAt(E, h, g, log2e, m, n)
  }

  function DroppedFn(E: real -> real, h: Head, g: Grad, log2e: real, m: int): int -> real
    requires h.Valid() && h.smScale != 0.0
  {
    n => DroppedProbAt(E, h, g, log2e, m, n)
  }

  /** With one scale in both passes a stored row is exact up to its factor, as a whole. */
  lemma StoredRowSums(E: real -> real, Lg: real -> real, h: Head, g: Grad, log2e: real, ln2: real, m: int, f: int -> real, f': int -> real)
    requires StoredRow(E, Lg, h, g, log2e, ln2, m)
    requires forall n :: f(n) == PairFactor(E, Lg, h, log2e, log2e, ln2, m, n) * f'(n)
    ensures Sum(f, 0, h.seqlenK) == RowFactor(E, Lg, h, log2e, ln2, m) * Sum(f', 0, h.seqlenK)
  {
    hide Sum, LseAt, DeltaAt, PairFactor, RowFactor;
    forall n ensures f(n) == RowFactor(E, Lg, h, log2e, ln2, m) * f'(n) { PairFactorIsRowFactor(E, Lg, h, log2e, ln2, m, n); }
    SumScale(RowFactor(E, Lg, h, log2e, ln2, m), f', f, 0, h.seqlenK);
  }

  /** The rebuilt probabilities of a row and the sink's share sum to one, up to the row's factor. */
  lemma ProbsAndSinkSumToOne(E: real -> real, Lg: real -> real, h: Head, g: Grad, log2e: real, ln2: real, m: int)
    requires StoredRow(E, Lg, h, g, log2e, ln2, m)
    ensures Sum(ProbFn(E, h, g, log2e, m), 0, h.seqlenK)
         == RowFactor(E, Lg, h, log2e, ln2, m) * (1.0 - SinkShare(E, h, log2e, m))
  {
    hide Sum, ProbAt, LseAt, DeltaAt, PairFactor, RowFactor, SinkShare, ForwardWeight;
    forall n ensures ProbFn(E, h, g, log2e, m)(n) == PairFactor(E, Lg, h, log2e, log2e, ln2, m, n) * WeightShareFn(E, h, log2e, m)(n) {
      StoredPair(E, Lg, h, g, log2e, log2e, ln2, m, n);
    }
    StoredRowSums(E, Lg, h, g, log2e, ln2, m, ProbFn(E, h, g, log2e, m), WeightShareFn(E, h, log2e, m));
    WeightsAndSinkSumToOne(E, h, log2e, m);
  }

  /** The dropped probabilities times V are the forward output, up to the row's factor. */
  lemma AttentionFromProbs(E: real -> real, Lg: real -> real, h: Head, g: Grad, log2e: real, ln2: real, m: int, d: int)
    requires StoredRow(E, Lg, h, g, log2e, ln2, m)
    ensures Sum(ColTerm(DroppedFn(E, h, g, log2e, m), h.v, d), 0, h.seqlenK)
         == RowFactor(E, Lg, h, log2e, ln2, m) * AttentionAt(E, h, log2e, m, d)
  {
    hide Sum, AttentionAt, DroppedProbAt, TrueDropped, LseAt, DeltaAt, PairFactor, RowFactor;
    var f, f' := ColTerm(DroppedFn(E, h, g, log2e, m), h.v, d), ColTerm(TrueDroppedFn(E, h, log2e, m), h.v, d);
    forall n ensures f(n) == PairFactor(E, Lg, h, log2e, log2e, ln2, m, n) * f'(n) {
      StoredPair(E, Lg, h, g, log2e, log2e, ln2, m, n);
      FactorOut(PairFactor(E, Lg, h, log2e, log2e, ln2, m, n), TrueDropped(E, h, log2e, m, n), h.v(n, d));
    }
    StoredRowSums(E, Lg, h, g, log2e, ln2, m, f, f');
    AttentionFromWeights(E, h, log2e, m, d);
  }

  lemma FactorOut(f: real, x: real, y: real)
    ensures f * x * y == f * (x * y)
  {
  }

  /** Each row of ds sums to delta times what the row's probabilities miss of its factor: delta times the
      sink's share, up to that factor, with or without dropout. */
  lemma DsRowSum(E: real -> real, Lg: real -> real, h: Head, g: Grad, log2e: real, ln2: real, m: int)
    requires StoredRow(E, Lg, h, g, log2e, ln2, m)
    ensures var c, ds := RowFactor(E, Lg, h, log2e, ln2, m), Sum(DsFn(E, h, g, log2e, m), 0, h.seqlenK);
      && ds == g.delta(m) * (c - Sum(ProbFn(E, h, g, log2e, m), 0, h.seqlenK))
      && ds == c * (g.delta(m) * SinkShare(E, h, log2e, m))
  {
    hide Sum, DsAt, TrueDs, LseAt, DeltaAt, PairFactor, RowFactor, SinkShare;
    forall n ensures DsFn(E, h, g, log2e, m)(n) == PairFactor(E, Lg, h, log2e, log2e, ln2, m, n) * TrueDsFn(E, h, g, log2e, m)(n) {
      StoredPair(E, Lg, h, g, log2e, log2e, ln2, m, n);
    }
    StoredRowSums(E, Lg, h, g, log2e, ln2, m, DsFn(E, h, g, log2e, m), TrueDsFn(E, h, g, log2e, m));
    TrueDsRowSum(E, h, g, log2e, m);
    ProbsAndSinkSumToOne(E, Lg, h, g, log2e, ln2, m);
    MissedShare(RowFactor(E, Lg, h, log2e, ln2, m), g.delta(m), SinkShare(E, h, log2e, m));
  }

  lemma MissedShare(c: real, delta: real, sink: real)
    ensures c * (delta * sink) == delta * (c - c * (1.0 - sink))
  {
  }

  // ---------------------------------------------------------------- dQ against dK

  function ScoreCell(E: real -> real, h: Head, g: Grad, log2e: real): Tensor
    requires h.Valid() && h.smScale != 0.0
  {
    (m, n) => h.smScale * (DsAt(E, h, g, log2e, m, n) * h.Dot(m, n))
  }

  /** By how much two backward scales differ at a pair, times ds and the score. */
  ghost function GapCell(E: real -> real, Lg: real -> real, h: Head, g: Grad, log2e: real, log2q: real, log2k: real, ln2: real): Tensor
    requires IsExp(E) && h.Valid() && h.smScale != 0.0
  {
    (m, n) => h.smScale * ((PairFactor(E, Lg, h, log2e, log2q, ln2, m, n) - PairFactor(E, Lg, h, log2e, log2k, ln2, m, n))
                           * TrueDs(E, h, g, log2e, m, n) * h.Dot(m, n))
  }

  /** dQ and dK come from two kernels that sweep the score matrix in two directions with two block shapes and
      two scales; contracted with Q and K they differ by exactly what the two scales make of each pair. */
  lemma QueryKeyBalance(E: real -> real, Lg: real -> real, h: Head, g: Grad, log2e: real, log2q: real, log2k: real, ln2: real)
    requires IsExp(E) && h.Valid() && h.smScale != 0.0
    requires forall m :: 0 <= m < h.seqlenQ ==> StoredRow(E, Lg, h, g, log2e, ln2, m)
    ensures Sum(m => Sum(d => DqAt(E, h, g, log2q, m, d) * h.q(m, d), 0, h.hdimQk), 0, h.seqlenQ)
         == Sum(n => Sum(d => DkSum(E, h, g, log2k, n, d) * h.smScale * h.k(n, d), 0, h.hdimQk), 0, h.seqlenK)
            + Sum(SumCols(GapCell(E, Lg, h, g, log2e, log2q, log2k, ln2), 0, h.seqlenK), 0, h.seqlenQ)
  {
    hide Sum, DsAt, StoredRow, GapCell;
    var f, gap := ScoreCell(E, h, g, log2k), GapCell(E, Lg, h, g, log2e, log2q, log2k, ln2);
    var left := m => Sum(d => DqAt(E, h, g, log2q, m, d) * h.q(m, d), 0, h.hdimQk);
    var right := n => Sum(d => DkSum(E, h, g, log2k, n, d) * h.smScale * h.k(n, d), 0, h.hdimQk);
    forall m | 0 <= m < h.seqlenQ ensures left(m) == SumCols(f, 0, h.seqlenK)(m) + SumCols(gap, 0, h.seqlenK)(m) {
      DqRowContracted(E, h, g, log2q, m, ScoreCell(E, h, g, log2q));
      forall n ensures ScoreCell(E, h, g, log2q)(m, n) == f(m, n) + gap(m, n) { CellGap(E, Lg, h, g, log2e, log2q, log2k, ln2, m, n); }
      SumAdd(n => f(m, n), n => gap(m, n), n => ScoreCell(E, h, g, log2q)(m, n), 0, h.seqlenK);
    }
    forall n ensures right(n) == SumRows(f, 0, h.seqlenQ)(n) { DkRowContracted(E, h, g, log2k, n, f); }
    SumAdd(SumCols(f, 0, h.seqlenK), SumCols(gap, 0, h.seqlenK), left, 0, h.seqlenQ);
    SumEqual(right, SumRows(f, 0, h.seqlenQ), 0, h.seqlenK);
    SumExchange(f, 0, h.seqlenQ, 0, h.seqlenK);
  }

  lemma CellGap(E: real -> real, Lg: real -> real, h: Head, g: Grad, log2e: real, log2q: real, log2k: real, ln2: real, m: int, n: int)
    requires StoredRow(E, Lg, h, g, log2e, ln2, m)
    ensures ScoreCell(E, h, g, log2q)(m, n)
         == ScoreCell(E, h, g, log2k)(m, n) + GapCell(E, Lg, h, g, log2e, log2q, log2k, ln2)(m, n)
  {
    hide Sum, DsAt, PairFactor, TrueDs, LseAt, DeltaAt;
    StoredPair(E, Lg, h, g, log2e, log2q, ln2, m, n);
    StoredPair(E, Lg, h, g, log2e, log2k, ln2, m, n);
    GapSplits(h.smScale, PairFactor(E, Lg, h, log2e, log2q, ln2, m, n), PairFactor(E, Lg, h, log2e, log2k, ln2, m, n),
              TrueDs(E, h, g, log2e, m, n), h.Dot(m, n));
  }

  lemma GapSplits(s: real, a: real, b: real, ds: real, x: real)
    ensures s * (a * ds * x) == s * (b * ds * x) + s * ((a - b) * ds * x)
  {
  }

  lemma DqRowContracted(E: real -> real, h: Head, g: Grad, log2e: real, m: int, f: Tensor)
    requires h.Valid() && h.smScale != 0.0
    requires forall n :: f(m, n) == h.smScale * (DsAt(E, h, g, log2e, m, n) * h.Dot(m, n))
    ensures Sum(d => DqAt(E, h, g, log2e, m, d) * h.q(m, d), 0, h.hdimQk) == SumCols(f, 0, h.seqlenK)(m)
  {
    hide Sum, DsAt;
    var c, y := DsFn(E, h, g, log2e, m), RowOf(h.q, m);
    forall d ensures DqAt(E, h, g, log2e, m, d) == Sum(ColTerm(c, h.k, d), 0, h.seqlenK) * h.smScale {
      SumEqual(DqTerms(E, h, g, log2e, m)(d), ColTerm(c, h.k, d), 0, h.seqlenK);
    }
    forall n ensures h.Dot(m, n) == Sum(RowTerm(h.k, y, n), 0, h.hdimQk) {
      SumEqual(RowTerm(h.k, y, n), d => h.q(m, d) * h.k(n, d), 0, h.hdimQk);
    }
    ScaledExchange(h.smScale, c, h.k, y, h.seqlenK, h.hdimQk,
                   d => DqAt(E, h, g, log2e, m, d) * h.q(m, d), n => f(m, n));
  }

  lemma DkRowContracted(E: real -> real, h: Head, g: Grad, log2e: real, n: int, f: Tensor)
    requires h.Valid() && h.smScale != 0.0
    requires forall m :: f(m, n) == h.smScale * (DsAt(E, h, g, log2e, m, n) * h.Dot(m, n))
    ensures Sum(d => DkSum(E, h, g, log2e, n, d) * h.smScale * h.k(n, d), 0, h.hdimQk) == SumRows(f, 0, h.seqlenQ)(n)
  {
    hide Sum, DsAt;
    var c, y := m => DsAt(E, h, g, log2e, m, n), RowOf(h.k, n);
    forall d ensures DkSum(E, h, g, log2e, n, d) == Sum(ColTerm(c, h.q, d), 0, h.seqlenQ) {
      SumEqual(DkTerms(E, h, g, log2e, n)(d), ColTerm(c, h.q, d), 0, h.seqlenQ);
    }
    forall m ensures h.Dot(m, n) == Sum(RowTerm(h.q, y, m), 0, h.hdimQk) {
      SumEqual(RowTerm(h.q, y, m), d => h.q(m, d) * h.k(n, d), 0, h.hdimQk);
    }
    ScaledExchange(h.smScale, c, h.q, y, h.seqlenQ, h.hdimQk,
                   d => DkSum(E, h, g, log2e, n, d) * h.smScale * h.k(n, d), m => f(m, n));
  }
}
