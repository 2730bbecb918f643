/** How accurate the decimal constants leave attention and its gradients, and how little the seed of the running
    maximum weighs, for scores below a stated bound. */
module Accuracy {
  import opened RealSums
  import opened Intervals
  import opened Attention
  import opened Gradients
  import opened SoftmaxGradient
  import opened Slopes
  import opened Derivatives
  import opened Exp2
  import opened BackwardKernels
  import opened KernelGradients

  /** The score of a pair before any change of base: softmax is taken of this. */
  function NaturalScore(h: Head, m: int, n: int): real {
    h.smScale * Sum(d => h.q(m, d) * h.k(n, d), 0, h.hdimQk) + if h.bias.NoBias? then 0.0 else h.bias.b(m, n)
  }

  lemma ScoreIsNatural(h: Head, log2e: real, m: int, n: int)
    requires h.smScale > 0.0
    ensures h.Logit(log2e, m, n) == Mul(NaturalScore(h, m, n), log2e)
    ensures ScaledScore(h, m, n) == NaturalScore(h, m, n)
  {
    hide Sum;
    SumEqual(d => h.q(m, d) * h.k(n, d), d => h.q(m, d) * h.k(n, d), 0, h.hdimQk);
    var dot, bias := h.Dot(m, n), h.BiasAt(m, n);
    assert NaturalScore(h, m, n) == h.smScale * dot + bias;
    assert (h.smScale * dot + bias) * log2e == h.smScale * log2e * dot + bias * log2e;
    assert h.smScale * (bias * (1.0 / h.smScale)) == bias;
    assert h.smScale * (dot + bias * (1.0 / h.smScale)) == h.smScale * dot + bias;
  }

  /** The scores of a row's visible keys stay within [-s, s]. */
  ghost predicate RowWithin(h: Head, m: int, s: real) {
    forall n :: h.Sees(m, n) ==> Abs(NaturalScore(h, m, n)) <= s
  }

  lemma {:induction false} SumAtMost(f: int -> real, bound: real, lo: int, hi: int)
    requires lo <= hi && forall x :: lo <= x < hi ==> f(x) <= bound
    ensures Sum(f, lo, hi) <= (hi - lo) as real * bound
    decreases hi - lo
  {
    if lo < hi { SumAtMost(f, bound, lo, hi - 1); }
  }

  lemma {:induction false} SumAtLeast(f: int -> real, lo: int, hi: int, x: int)
    requires lo <= x < hi && forall y :: lo <= y < hi ==> f(y) >= 0.0
    ensures Sum(f, lo, hi) >= f(x)
    decreases hi - lo
  {
    if x == hi - 1 { SumNonNegative(f, lo, hi - 1); } else { SumAtLeast(f, lo, hi - 1, x); }
  }

  // ---------------------------------------------------------------- the log-sum-exp is bounded

  lemma WeightWithin(E: real -> real, c: real, h: Head, log2e: real, m: int, n: int, s: real, top: real)
    requires IsExp(E) && Expands(E, 1.0, c) && c > 0.0 && h.smScale > 0.0 && RowWithin(h, m, s) && log2e >= 0.0 && top == Mul(s, log2e)
    ensures 0.0 <= WeightFn(E, h, log2e, m)(n) <= E(top)
    ensures h.Sees(m, n) ==> E(-top) <= WeightFn(E, h, log2e, m)(n)
  {
    hide Sum, Head.Sees, Head.Logit, Expands;
    assert ExpPositive(E, top);
    if h.Sees(m, n) {
      ScoreIsNatural(h, log2e, m, n);
      var x := NaturalScore(h, m, n);
      TimesMono(x, s, log2e);
      TimesMono(-s, x, log2e);
      assert -s * log2e == -top;
      Increases(E, c, h.Logit(log2e, m, n), top);
      Increases(E, c, -top, h.Logit(log2e, m, n));
      assert ExpPositive(E, h.Logit(log2e, m, n));
    }
  }

  /** The most a log-sum-exp can be in base 2, and minus the least. */
  function LseTop(Lg: real -> real, h: Head, log2e: real, s: real): real { Mul(s, log2e) + Lg((h.seqlenK + 1) as real) }

  lemma LseBounded(E: real -> real, Lg: real -> real, c: real, h: Head, log2e: real, m: int, n: int, s: real)
    requires IsExp(E) && IsLog(E, Lg) && Expands(E, 1.0, c) && c > 0.0 && h.Valid() && h.smScale > 0.0
    requires s >= 0.0 && log2e >= 0.0 && RowWithin(h, m, s) && h.Sees(m, n)
    ensures Lg((h.seqlenK + 1) as real) >= 0.0
    ensures Abs(LseBase2At(E, Lg, h, log2e, m)) <= LseTop(Lg, h, log2e, s)
  {
    hide Expands, Denominator, LseBase2At, IsLog;
    var top, keys := Mul(s, log2e), (h.seqlenK + 1) as real;
    DenominatorBounded(E, c, h, log2e, m, n, s, top, keys);
    LseIsLogOfDenominator(E, Lg, h, log2e, m);
    Reflects(E, c, -top, LseBase2At(E, Lg, h, log2e, m));
    assert LogInverts(E, Lg, keys) by { LogOf(E, Lg, keys); }
    ExpOfZero(E);
    Reflects(E, c, 0.0, Lg(keys));
    ExpSquares(E, top, Lg(keys), top + Lg(keys));
    Reflects(E, c, LseBase2At(E, Lg, h, log2e, m), top + Lg(keys));
    TimesMono(0.0, s, log2e);
  }

  lemma LogOf(E: real -> real, Lg: real -> real, x: real)
    requires IsLog(E, Lg)
    ensures LogInverts(E, Lg, x)
  {
  }

  /** One visible key from below, as many as there are from above; the seed counts as one more. */
  lemma DenominatorBounded(E: real -> real, c: real, h: Head, log2e: real, m: int, n: int, s: real, top: real, keys: real)
    requires IsExp(E) && Expands(E, 1.0, c) && c > 0.0 && h.Valid() && h.smScale > 0.0
    requires s >= 0.0 && log2e >= 0.0 && RowWithin(h, m, s) && h.Sees(m, n) && top == Mul(s, log2e) && keys == (h.seqlenK + 1) as real
    ensures E(-top) <= Denominator(E, h, log2e, m) <= Mul(E(top), keys)
  {
    hide Expands, Sum, WeightFn, RowWithin;
    var w := WeightFn(E, h, log2e, m);
    forall k ensures 0.0 <= w(k) <= E(top) && (h.Sees(m, k) ==> E(-top) <= w(k)) { WeightWithin(E, c, h, log2e, m, k, s, top); }
    SumAtMost(w, E(top), 0, h.seqlenK);
    SumAtLeast(w, 0, h.seqlenK, n);
    TimesMono(0.0, s, log2e);
    Increases(E, c, SINK, top);
    assert ExpPositive(E, SINK);
    OneMore(h.seqlenK, E(top), keys);
  }

  lemma OneMore(n: int, e: real, keys: real)
    requires keys == (n + 1) as real
    ensures n as real * e + e == Mul(e, keys)
  {
  }

  // ---------------------------------------------------------------- the factor of a pair is near one

  /** How far an exponent can be off: the two decimals of log2(e) against the score, and the product of ln(2)
      and log2(e) against the log-sum-exp. */
  function Tolerance(Lg: real -> real, h: Head, s: real): real {
    0.00000000001 * s + 0.00000001 * LseTop(Lg, h, LOG2E, s)
  }

  predicate BackwardScale(log2b: real) { log2b == LOG2E || log2b == RCP_LN2 }

  lemma ErrorWithin(lse2: real, top: real, log2b: real, x: real, s: real)
    requires BackwardScale(log2b) && Abs(x) <= s && Abs(lse2) <= top
    ensures Abs(ExponentError(lse2, LOG2E, log2b, LN2, x)) <= 0.00000000001 * s + 0.00000001 * top
  {
    var a, b := log2b - LOG2E, RCP_LN2 * LN2 - 1.0;
    assert Abs(a) <= 0.00000000001 && Abs(b) <= 0.00000001;
    AbsTimes(a, x);
    AbsTimes(b, lse2);
    TimesMono(Abs(a), 0.00000000001, Abs(x));
    TimesMono(Abs(b), 0.00000001, Abs(lse2));
  }

  /** With the kernels' constants a backward pass is off by at most the tolerance in every exponent: each
      probability, each ds and each gradient term by at most twice that. */
  lemma PairFactorNearOne(E: real -> real, Lg: real -> real, c: real, h: Head, log2b: real, m: int, n: int, s: real)
    requires IsExp2(E, c) && IsLog(E, Lg) && h.Valid() && h.smScale > 0.0 && BackwardScale(log2b)
    requires s >= 0.0 && RowWithin(h, m, s) && h.Sees(m, n) && Tolerance(Lg, h, s) <= 0.5
    ensures var eps, f := Tolerance(Lg, h, s), PairFactor(E, Lg, h, LOG2E, log2b, LN2, m, n);
      E(-eps) <= f <= E(eps) && Abs(f - 1.0) <= 2.0 * eps
  {
    SlopeBounds(E, c);
    Unpack(E, c);
    hide IsExp2, Expands, LseBase2At, ExponentError, NaturalScore, PairFactor, IsExp, IsLog, Head.Sees, Tolerance;
    var x, lse2 := NaturalScore(h, m, n), LseBase2At(E, Lg, h, LOG2E, m);
    LseBounded(E, Lg, c, h, LOG2E, m, n, s);
    ScoreInRow(h, m, n, s);
    FactorOfScore(E, Lg, h, LOG2E, log2b, LN2, m, n);
    ErrorWithin(lse2, LseTop(Lg, h, LOG2E, s), log2b, x, s);
    ToleranceIs(Lg, h, s);
    NearOne(E, c, ExponentError(lse2, LOG2E, log2b, LN2, x), Tolerance(Lg, h, s));
  }

  lemma ToleranceIs(Lg: real -> real, h: Head, s: real)
    ensures Tolerance(Lg, h, s) == 0.00000000001 * s + 0.00000001 * LseTop(Lg, h, LOG2E, s)
  {
  }

  lemma ScoreInRow(h: Head, m: int, n: int, s: real)
    requires RowWithin(h, m, s) && h.Sees(m, n)
    ensures Abs(NaturalScore(h, m, n)) <= s
  {
  }

  lemma FactorOfScore(E: real -> real, Lg: real -> real, h: Head, log2e: real, log2b: real, ln2: real, m: int, n: int)
    requires IsExp(E) && h.smScale > 0.0
    ensures PairFactor(E, Lg, h, log2e, log2b, ln2, m, n)
         == E(ExponentError(LseBase2At(E, Lg, h, log2e, m), log2e, log2b, ln2, NaturalScore(h, m, n)))
  {
    ScoreIsNatural(h, log2e, m, n);
    hide LseBase2At, NaturalScore, ScaledScore, ExponentError;
  }

  lemma Unpack(E: real -> real, c: real)
    requires IsExp2(E, c)
    ensures IsExp(E) && Expands(E, 1.0, c)
  {
  }

  // ---------------------------------------------------------------- the gradients are near the exact ones

  function Absolutes(f: int -> real): int -> real { n => Abs(f(n)) }

  /** x is y up to t times the size. */
  predicate NearTo(x: real, y: real, t: real, size: real) { Abs(x - y) <= Mul(t, size) }

  lemma NearAdds(x: real, y: real, size: real, x': real, y': real, size': real, t: real)
    requires NearTo(x, y, t, size) && NearTo(x', y', t, size')
    ensures NearTo(x + x', y + y', t, size + size')
  {
    Triangle(x - y, x' - y');
    assert Mul(t, size + size') == Mul(t, size) + Mul(t, size');
  }

  lemma NearNothing(t: real)
    ensures NearTo(0.0, 0.0, t, 0.0)
  {
    assert Mul(t, 0.0) == 0.0;
  }

  /** The same of two sums, relative to the sizes of the exact terms. */
  ghost predicate SumsNear(f: int -> real, g: int -> real, t: real, hi: int) {
    NearTo(Sum(f, 0, hi), Sum(g, 0, hi), t, Sum(Absolutes(g), 0, hi))
  }

  lemma {:induction false} SumNear(f: int -> real, g: int -> real, t: real, hi: int)
    requires forall n :: 0 <= n < hi ==> NearTo(f(n), g(n), t, Absolutes(g)(n))
    ensures SumsNear(f, g, t, hi)
    decreases if hi < 0 then 0 else hi
  {
    hide NearTo;
    if 0 < hi {
      SumNear(f, g, t, hi - 1);
      NearAdds(Sum(f, 0, hi - 1), Sum(g, 0, hi - 1), Sum(Absolutes(g), 0, hi - 1), f(hi - 1), g(hi - 1), Absolutes(g)(hi - 1), t);
    } else {
      NearNothing(t);
    }
  }

  /** A factor near one keeps a term near itself. */
  lemma TermNear(f: real, x: real, t: real)
    requires Abs(f - 1.0) <= t || x == 0.0
    ensures NearTo(f * x, x, t, Abs(x))
  {
    if x == 0.0 {
      assert f * x == 0.0 && Mul(t, Abs(x)) == 0.0;
    } else {
      AbsOfProduct(f - 1.0, x, f * x - x);
      TimesMono(Abs(f - 1.0), t, Abs(x));
    }
  }

  /** All scores of the head stay within [-s, s], and s leaves a tolerance of at most one half. */
  ghost predicate HeadWithin(Lg: real -> real, h: Head, s: real) {
    s >= 0.0 && Tolerance(Lg, h, s) <= 0.5 && forall m :: RowWithin(h, m, s)
  }

  /** What all the accuracy lemmas ask for. */
  ghost predicate Usual(E: real -> real, Lg: real -> real, c: real, h: Head, s: real) {
    IsExp2(E, c) && IsLog(E, Lg) && h.Valid() && h.smScale > 0.0 && HeadWithin(Lg, h, s)
  }

  lemma UsualExp(E: real -> real, Lg: real -> real, c: real, h: Head, s: real)
    requires Usual(E, Lg, c, h, s)
    ensures IsExp(E) && h.Valid() && h.smScale != 0.0
  {
  }

  lemma FactorNearOne(E: real -> real, Lg: real -> real, c: real, h: Head, log2b: real, m: int, n: int, s: real)
    requires Usual(E, Lg, c, h, s) && BackwardScale(log2b)
    ensures IsExp(E) && h.smScale != 0.0
    ensures h.Sees(m, n) ==> Abs(PairFactor(E, Lg, h, LOG2E, log2b, LN2, m, n) - 1.0) <= TwiceTolerance(Lg, h, s)
  {
    hide RowWithin, Tolerance, PairFactor;
    if h.Sees(m, n) { PairFactorNearOne(E, Lg, c, h, log2b, m, n, s); }
  }

  /** The exact terms of a row of dQ, and of one head's row of dK and dV. */
  ghost function DqExact(E: real -> real, h: Head, g: Grad, log2e: real, m: int, d: int): int -> real
    requires IsExp(E) && h.Valid()
  {
    ColTerm(TrueDsFn(E, h, g, log2e, m), h.k, d)
  }

  ghost function DkExact(E: real -> real, h: Head, g: Grad, log2e: real, n: int, d: int): int -> real
    requires IsExp(E) && h.Valid()
  {
    ColTerm(TrueDsCol(E, h, g, log2e, n), h.q, d)
  }

  ghost function DvExact(E: real -> real, h: Head, g: Grad, log2e: real, n: int, d: int): int -> real
    requires IsExp(E) && h.Valid()
  {
    ColTerm(TrueDvFn(E, h, log2e, n), g.dO, d)
  }

  lemma DqTermNear(E: real -> real, Lg: real -> real, c: real, h: Head, g: Grad, log2b: real, m: int, n: int, d: int, s: real)
    requires Usual(E, Lg, c, h, s) && BackwardScale(log2b)
    ensures IsExp(E) && h.Valid() && h.smScale != 0.0
    ensures NearTo(DqFactored(E, Lg, h, g, LOG2E, log2b, LN2, m, d)(n), DqExact(E, h, g, LOG2E, m, d)(n), TwiceTolerance(Lg, h, s), Absolutes(DqExact(E, h, g, LOG2E, m, d))(n))
  {
    UsualExp(E, Lg, c, h, s);
    FactorNearOne(E, Lg, c, h, log2b, m, n, s);
    InvisibleTerms(E, h, g, LOG2E, m, n);
    hide Usual, IsExp, PairFactor, TrueDs, TrueDropped, TwiceTolerance, Abs, Head.Sees, NearTo, Head.Valid;
    TermNearIf(h.Sees(m, n), PairFactor(E, Lg, h, LOG2E, log2b, LN2, m, n), TrueDs(E, h, g, LOG2E, m, n), h.k(n, d), TwiceTolerance(Lg, h, s),
               DqExact(E, h, g, LOG2E, m, d)(n), DqFactored(E, Lg, h, g, LOG2E, log2b, LN2, m, d)(n), Absolutes(DqExact(E, h, g, LOG2E, m, d))(n));
  }

  lemma DkTermNear(E: real -> real, Lg: real -> real, c: real, h: Head, g: Grad, log2b: real, m: int, n: int, d: int, s: real)
    requires Usual(E, Lg, c, h, s) && BackwardScale(log2b)
    ensures IsExp(E) && h.Valid() && h.smScale != 0.0
    ensures NearTo(DkFactored(E, Lg, h, g, LOG2E, log2b, LN2, n, d)(m), DkExact(E, h, g, LOG2E, n, d)(m), TwiceTolerance(Lg, h, s), Absolutes(DkExact(E, h, g, LOG2E, n, d))(m))
  {
    UsualExp(E, Lg, c, h, s);
    FactorNearOne(E, Lg, c, h, log2b, m, n, s);
    InvisibleTerms(E, h, g, LOG2E, m, n);
    hide Usual, IsExp, PairFactor, TrueDs, TrueDropped, TwiceTolerance, Abs, Head.Sees, NearTo, Head.Valid;
    TermNearIf(h.Sees(m, n), PairFactor(E, Lg, h, LOG2E, log2b, LN2, m, n), TrueDs(E, h, g, LOG2E, m, n), h.q(m, d), TwiceTolerance(Lg, h, s),
               DkExact(E, h, g, LOG2E, n, d)(m), DkFactored(E, Lg, h, g, LOG2E, log2b, LN2, n, d)(m), Absolutes(DkExact(E, h, g, LOG2E, n, d))(m));
  }

  lemma DvTermNear(E: real -> real, Lg: real -> real, c: real, h: Head, g: Grad, log2b: real, m: int, n: int, d: int, s: real)
    requires Usual(E, Lg, c, h, s) && BackwardScale(log2b)
    ensures IsExp(E) && h.Valid() && h.smScale != 0.0
    ensures NearTo(DvFactored(E, Lg, h, g, LOG2E, log2b, LN2, n, d)(m), DvExact(E, h, g, LOG2E, n, d)(m), TwiceTolerance(Lg, h, s), Absolutes(DvExact(E, h, g, LOG2E, n, d))(m))
  {
    UsualExp(E, Lg, c, h, s);
    FactorNearOne(E, Lg, c, h, log2b, m, n, s);
    InvisibleTerms(E, h, g, LOG2E, m, n);
    hide Usual, IsExp, PairFactor, TrueDs, TrueDropped, TwiceTolerance, Abs, Head.Sees, NearTo, Head.Valid;
    TermNearIf(h.Sees(m, n), PairFactor(E, Lg, h, LOG2E, log2b, LN2, m, n), TrueDropped(E, h, LOG2E, m, n), g.dO(m, d), TwiceTolerance(Lg, h, s),
               DvExact(E, h, g, LOG2E, n, d)(m), DvFactored(E, Lg, h, g, LOG2E, log2b, LN2, n, d)(m), Absolutes(DvExact(E, h, g, LOG2E, n, d))(m));
  }

  /** Twice the tolerance: what a gradient term can be off by, relative to its size. */
  function TwiceTolerance(Lg: real -> real, h: Head, s: real): real { 2.0 * Tolerance(Lg, h, s) }

  lemma InvisibleTerms(E: real -> real, h: Head, g: Grad, log2e: real, m: int, n: int)
    requires IsExp(E) && h.Valid()
    ensures !h.Sees(m, n) ==> TrueDs(E, h, g, log2e, m, n) == 0.0 && TrueDropped(E, h, log2e, m, n) == 0.0
  {
  }

  lemma TermNearIf(sees: bool, f: real, ds: real, y: real, t: real, x: real, fx: real, size: real)
    requires if sees then Abs(f - 1.0) <= t else ds == 0.0
    requires x == ds * y && fx == f * (ds * y) && size == Abs(x)
    ensures NearTo(fx, x, t, size)
  {
    if !sees { assert x == 0.0; }
    assert fx == f * x;
    TermNear(f, x, t);
  }

  /** A row of dQ, from whatever the forward pass stored, is within twice the tolerance of the exact one,
      relative to the sizes of its terms. */
  lemma DqSumNear(E: real -> real, Lg: real -> real, c: real, h: Head, g: Grad, log2b: real, m: int, d: int, s: real)
    requires Usual(E, Lg, c, h, s) && BackwardScale(log2b)
    ensures IsExp(E) && h.Valid() && h.smScale != 0.0
    ensures SumsNear(DqFactored(E, Lg, h, g, LOG2E, log2b, LN2, m, d), DqExact(E, h, g, LOG2E, m, d), TwiceTolerance(Lg, h, s), h.seqlenK)
  {
    UsualExp(E, Lg, c, h, s);
    hide Usual, IsExp, NearTo, SumsNear, Absolutes, DqExact, DqFactored, TwiceTolerance;
    forall x ensures NearTo(DqFactored(E, Lg, h, g, LOG2E, log2b, LN2, m, d)(x), DqExact(E, h, g, LOG2E, m, d)(x), TwiceTolerance(Lg, h, s),
                            Absolutes(DqExact(E, h, g, LOG2E, m, d))(x)) {
      DqTermNear(E, Lg, c, h, g, log2b, m, x, d, s);
    }
    SumNear(DqFactored(E, Lg, h, g, LOG2E, log2b, LN2, m, d), DqExact(E, h, g, LOG2E, m, d), TwiceTolerance(Lg, h, s), h.seqlenK);
  }

  /** So is one head's row of dK, */
  lemma DkSumNear(E: real -> real, Lg: real -> real, c: real, h: Head, g: Grad, log2b: real, n: int, d: int, s: real)
    requires Usual(E, Lg, c, h, s) && BackwardScale(log2b)
    ensures IsExp(E) && h.Valid() && h.smScale != 0.0
    ensures SumsNear(DkFactored(E, Lg, h, g, LOG2E, log2b, LN2, n, d), DkExact(E, h, g, LOG2E, n, d), TwiceTolerance(Lg, h, s), h.seqlenQ)
  {
    UsualExp(E, Lg, c, h, s);
    hide Usual, IsExp, NearTo, SumsNear, Absolutes, DkExact, DkFactored, TwiceTolerance;
    forall x ensures NearTo(DkFactored(E, Lg, h, g, LOG2E, log2b, LN2, n, d)(x), DkExact(E, h, g, LOG2E, n, d)(x), TwiceTolerance(Lg, h, s),
                            Absolutes(DkExact(E, h, g, LOG2E, n, d))(x)) {
      DkTermNear(E, Lg, c, h, g, log2b, x, n, d, s);
    }
    SumNear(DkFactored(E, Lg, h, g, LOG2E, log2b, LN2, n, d), DkExact(E, h, g, LOG2E, n, d), TwiceTolerance(Lg, h, s), h.seqlenQ);
  }

  /** and of dV. */
  lemma DvSumNear(E: real -> real, Lg: real -> real, c: real, h: Head, g: Grad, log2b: real, n: int, d: int, s: real)
    requires Usual(E, Lg, c, h, s) && BackwardScale(log2b)
    ensures IsExp(E) && h.Valid() && h.smScale != 0.0
    ensures SumsNear(DvFactored(E, Lg, h, g, LOG2E, log2b, LN2, n, d), DvExact(E, h, g, LOG2E, n, d), TwiceTolerance(Lg, h, s), h.seqlenQ)
  {
    UsualExp(E, Lg, c, h, s);
    hide Usual, IsExp, NearTo, SumsNear, Absolutes, DvExact, DvFactored, TwiceTolerance;
    forall x ensures NearTo(DvFactored(E, Lg, h, g, LOG2E, log2b, LN2, n, d)(x), DvExact(E, h, g, LOG2E, n, d)(x), TwiceTolerance(Lg, h, s),
                            Absolutes(DvExact(E, h, g, LOG2E, n, d))(x)) {
      DvTermNear(E, Lg, c, h, g, log2b, x, n, d, s);
    }
    SumNear(DvFactored(E, Lg, h, g, LOG2E, log2b, LN2, n, d), DvExact(E, h, g, LOG2E, n, d), TwiceTolerance(Lg, h, s), h.seqlenQ);
  }

  // ---------------------------------------------------------------- scaled, and summed over a group

  lemma NearScaled(x: real, y: real, t: real, size: real, k: real)
    requires NearTo(x, y, t, size) && k >= 0.0
    ensures NearTo(Mul(x, k), Mul(y, k), t, Mul(size, k))
  {
    AbsOfProduct(x - y, k, Mul(x, k) - Mul(y, k));
    TimesMono(Abs(x - y), Mul(t, size), k);
    assert Mul(t, size) * k == Mul(t, Mul(size, k));
  }

  lemma IsMul(x: real, k: real, product: real)
    requires product == x * k
    ensures product == Mul(x, k)
  {
  }

  /** The sizes of the exact terms, summed: what the error of a gradient is relative to. */
  ghost function DqSize(E: real -> real, h: Head, g: Grad, m: int, d: int): real
    requires IsExp(E) && h.Valid()
  {
    Mul(Sum(Absolutes(DqExact(E, h, g, LOG2E, m, d)), 0, h.seqlenK), h.smScale)
  }

  ghost function DkSize(E: real -> real, h: Head, g: Grad, n: int, d: int): real
    requires IsExp(E) && h.Valid()
  {
    Mul(Sum(Absolutes(DkExact(E, h, g, LOG2E, n, d)), 0, h.seqlenQ), h.smScale)
  }

  ghost function DvSize(E: real -> real, h: Head, g: Grad, n: int, d: int): real
    requires IsExp(E) && h.Valid()
  {
    Sum(Absolutes(DvExact(E, h, g, LOG2E, n, d)), 0, h.seqlenQ)
  }

  lemma DqNear(E: real -> real, Lg: real -> real, c: real, h: Head, g: Grad, log2b: real, m: int, d: int, s: real, stored: real)
    requires Usual(E, Lg, c, h, s) && BackwardScale(log2b)
    requires IsExp(E) && h.Valid() && h.smScale != 0.0 && stored == Sum(DqFactored(E, Lg, h, g, LOG2E, log2b, LN2, m, d), 0, h.seqlenK) * h.smScale
    ensures NearTo(stored, TrueDq(E, h, g, LOG2E, m, d), TwiceTolerance(Lg, h, s), DqSize(E, h, g, m, d))
  {
    hide *;
    UsualScale(E, Lg, c, h, s);
    DqSumNear(E, Lg, c, h, g, log2b, m, d, s);
    var f, x := DqFactored(E, Lg, h, g, LOG2E, log2b, LN2, m, d), DqExact(E, h, g, LOG2E, m, d);
    UnpackSums(f, x, TwiceTolerance(Lg, h, s), h.seqlenK);
    NearScaled(Sum(f, 0, h.seqlenK), Sum(x, 0, h.seqlenK), TwiceTolerance(Lg, h, s), Sum(Absolutes(x), 0, h.seqlenK), h.smScale);
    IsMul(Sum(f, 0, h.seqlenK), h.smScale, stored);
    DqIsMul(E, h, g, m, d);
  }

  lemma DqIsMul(E: real -> real, h: Head, g: Grad, m: int, d: int)
    requires IsExp(E) && h.Valid()
    ensures TrueDq(E, h, g, LOG2E, m, d) == Mul(Sum(DqExact(E, h, g, LOG2E, m, d), 0, h.seqlenK), h.smScale)
    ensures DqSize(E, h, g, m, d) == Mul(Sum(Absolutes(DqExact(E, h, g, LOG2E, m, d)), 0, h.seqlenK), h.smScale)
  {
    hide Sum, IsExp, TrueDs;
  }

  lemma DkNear(E: real -> real, Lg: real -> real, c: real, h: Head, g: Grad, log2b: real, n: int, d: int, s: real, stored: real)
    requires Usual(E, Lg, c, h, s) && BackwardScale(log2b)
    requires IsExp(E) && h.Valid() && h.smScale != 0.0 && stored == Mul(Sum(DkFactored(E, Lg, h, g, LOG2E, log2b, LN2, n, d), 0, h.seqlenQ), h.smScale)
    ensures NearTo(stored, TrueDk(E, h, g, LOG2E, n, d), TwiceTolerance(Lg, h, s), DkSize(E, h, g, n, d))
  {
    hide *;
    UsualScale(E, Lg, c, h, s);
    DkSumNear(E, Lg, c, h, g, log2b, n, d, s);
    var f, x := DkFactored(E, Lg, h, g, LOG2E, log2b, LN2, n, d), DkExact(E, h, g, LOG2E, n, d);
    UnpackSums(f, x, TwiceTolerance(Lg, h, s), h.seqlenQ);
    NearScaled(Sum(f, 0, h.seqlenQ), Sum(x, 0, h.seqlenQ), TwiceTolerance(Lg, h, s), Sum(Absolutes(x), 0, h.seqlenQ), h.smScale);
    DkIsMul(E, h, g, n, d);
  }

  lemma DkIsMul(E: real -> real, h: Head, g: Grad, n: int, d: int)
    requires IsExp(E) && h.Valid()
    ensures TrueDk(E, h, g, LOG2E, n, d) == Mul(Sum(DkExact(E, h, g, LOG2E, n, d), 0, h.seqlenQ), h.smScale)
    ensures DkSize(E, h, g, n, d) == Mul(Sum(Absolutes(DkExact(E, h, g, LOG2E, n, d)), 0, h.seqlenQ), h.smScale)
  {
    hide Sum, IsExp, TrueDs;
  }

  lemma UnpackSums(f: int -> real, g: int -> real, t: real, hi: int)
    requires SumsNear(f, g, t, hi)
    ensures NearTo(Sum(f, 0, hi), Sum(g, 0, hi), t, Sum(Absolutes(g), 0, hi))
  {
  }

  lemma UsualScale(E: real -> real, Lg: real -> real, c: real, h: Head, s: real)
    requires Usual(E, Lg, c, h, s)
    ensures IsExp(E) && h.Valid() && h.smScale > 0.0
  {
  }

  lemma DvNear(E: real -> real, Lg: real -> real, c: real, h: Head, g: Grad, log2b: real, n: int, d: int, s: real)
    requires Usual(E, Lg, c, h, s) && BackwardScale(log2b)
    ensures IsExp(E) && h.Valid() && h.smScale != 0.0
    ensures NearTo(Sum(DvFactored(E, Lg, h, g, LOG2E, log2b, LN2, n, d), 0, h.seqlenQ), TrueDv(E, h, g, LOG2E, n, d),
                   TwiceTolerance(Lg, h, s), DvSize(E, h, g, n, d))
  {
    DvSumNear(E, Lg, c, h, g, log2b, n, d, s);
    hide Usual, IsExp, NearTo, Sum, DvFactored, Absolutes, TwiceTolerance;
  }

  lemma {:induction false} GroupNear(f: int -> real, g: int -> real, size: int -> real, t: real, hi: int)
    requires forall j :: 0 <= j < hi ==> NearTo(f(j), g(j), t, size(j))
    ensures NearTo(Sum(f, 0, hi), Sum(g, 0, hi), t, Sum(size, 0, hi))
    decreases if hi < 0 then 0 else hi
  {
    hide NearTo;
    if 0 < hi {
      GroupNear(f, g, size, t, hi - 1);
      NearAdds(Sum(f, 0, hi - 1), Sum(g, 0, hi - 1), Sum(size, 0, hi - 1), f(hi - 1), g(hi - 1), size(hi - 1), t);
    } else {
      NearNothing(t);
    }
  }

  // ---------------------------------------------------------------- what the softmax is

  /** The weights of a row are the softmax of its scores: any two visible keys weigh in the ratio of the
      exponentials of their scores, in base 2 after conversion, and the seed as one more key with its own. */
  lemma WeightsAreSoftmax(E: real -> real, h: Head, log2e: real, m: int, a: int, b: int)
    requires IsExp(E) && h.smScale > 0.0 && h.Sees(m, a) && h.Sees(m, b)
    ensures ForwardWeight(E, h, log2e, m, a) * E(Mul(NaturalScore(h, m, b), log2e))
         == ForwardWeight(E, h, log2e, m, b) * E(Mul(NaturalScore(h, m, a), log2e))
    ensures SinkShare(E, h, log2e, m) * E(Mul(NaturalScore(h, m, a), log2e))
         == ForwardWeight(E, h, log2e, m, a) * E(-340282000000000000000000000000000000000.0)
  {
    hide Denominator, NaturalScore, Mul, Head.Logit, Head.Sees;
    DenominatorPositive(E, h, log2e, m);
    ScoreIsNatural(h, log2e, m, a);
    ScoreIsNatural(h, log2e, m, b);
    var z := Denominator(E, h, log2e, m);
    CrossRatio(E(h.Logit(log2e, m, a)), E(h.Logit(log2e, m, b)), z);
    CrossRatio(E(SINK), E(h.Logit(log2e, m, a)), z);
  }

  lemma CrossRatio(x: real, y: real, z: real)
    requires z > 0.0
    ensures x / z * y == y / z * x
  {
  }

  /** The seed is negligible: with scores within s its share is at most exp2 of s in base 2 minus 3.4e38. */
  lemma SinkIsNegligible(E: real -> real, c: real, h: Head, log2e: real, m: int, n: int, s: real)
    requires IsExp2(E, c) && h.Valid() && h.smScale > 0.0 && log2e >= 0.0 && s >= 0.0 && RowWithin(h, m, s) && h.Sees(m, n)
    ensures 0.0 < SinkShare(E, h, log2e, m) <= E(Mul(s, log2e) - 340282000000000000000000000000000000000.0)
    ensures Mul(s, log2e) <= 300000000000000000000000000000000000000.0 ==>
      SinkShare(E, h, log2e, m) < 0.0000000000000000000000000000000000001
  {
    SlopeBounds(E, c);
    hide Expands, Denominator, RowWithin, NaturalScore;
    var top := Mul(s, log2e);
    var y := top - 340282000000000000000000000000000000000.0;
    DenominatorBounded(E, c, h, log2e, m, n, s, top, (h.seqlenK + 1) as real);
    assert ExpPositive(E, SINK) && ExpPositive(E, -top);
    ExpSquares(E, -top, y, SINK);
    ShareAtMost(E(SINK), Denominator(E, h, log2e, m), E(-top), E(y));
    if top <= 300000000000000000000000000000000000000.0 {
      TangentBelow(E, c, -y);
      ExpSquares(E, y, -y, 0.0);
      ExpOfZero(E);
      TimesMono(0.5, c, -y);
      TinyInverse(E(y), E(-y), -y);
    }
  }

  lemma ShareAtMost(sink: real, z: real, low: real, e: real)
    requires 0.0 < low <= z && sink == Mul(low, e) && sink > 0.0
    ensures 0.0 < sink / z <= e
  {
    var r := sink / z;
    assert r * z == sink;
    if r <= 0.0 { TimesMono(r, 0.0, z); }
    if r > e { LessTimes(e, r, low); TimesMono(low, z, r); }
  }

  lemma TinyInverse(e: real, inverse: real, y: real)
    requires Mul(e, inverse) == 1.0 && inverse >= 1.0 + 0.5 * y && y >= 40000000000000000000000000000000000000.0
    ensures e < 0.0000000000000000000000000000000000001
  {
    if e >= 0.0000000000000000000000000000000000001 { TimesMono(0.0000000000000000000000000000000000001, e, inverse); }
  }
}
