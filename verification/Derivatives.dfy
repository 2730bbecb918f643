/** dQ, dK and the bias gradient as derivatives: the loss out . dO along any move of Q, of K or of the bias.
    All that is asked of exp2 besides IsExp is a derivative lam at zero (the natural logarithm of two). */
module Derivatives {
  import opened RealSums
  import opened Attention
  import opened Gradients
  import opened SoftmaxGradient
  import opened Slopes

  // ---------------------------------------------------------------- any move of the scores

  function Along(y: Tensor, m: int, t: real): int -> real { n => Mul(t, y(m, n)) }

  ghost predicate MovedRow(h: Head, heads: real -> Head, log2e: real, y: Tensor, t: real, m: int) {
    heads(t).seqlenQ == h.seqlenQ && Shifted(h, heads(t), log2e, m, Along(y, m, t))
  }

  /** heads(t) is h with the base-2 logits moved along y, in proportion to t. */
  ghost predicate MovesAlong(h: Head, heads: real -> Head, log2e: real, y: Tensor) {
    forall t, m :: MovedRow(h, heads, log2e, y, t, m)
  }

  lemma MovedAreValid(h: Head, heads: real -> Head, log2e: real, y: Tensor, t: real)
    requires MovesAlong(h, heads, log2e, y)
    ensures heads(t).Valid() && heads(t).seqlenQ == h.seqlenQ
  {
    assert MovedRow(h, heads, log2e, y, t, 0);
  }

  ghost function RowLoss(E: real -> real, heads: real -> Head, g: Grad, log2e: real, m: int): real -> real
    requires IsExp(E) && forall t :: heads(t).Valid()
  {
    t => DeltaAt(E, heads(t), g, log2e, m)
  }

  ghost function LossAlong(E: real -> real, heads: real -> Head, g: Grad, log2e: real): real -> real
    requires IsExp(E) && forall t :: heads(t).Valid()
  {
    t => Loss(E, heads(t), g, log2e)
  }

  /** The growth of the weights of a row along y, against f. */
  function GrowthAgainst(E: real -> real, y: Tensor, m: int, f: int -> real, len: int): real -> real {
    t => Sum(Times(Growth(E, Along(y, m, t)), f), 0, len)
  }

  function LessOne(f: real -> real): real -> real { t => f(t) - 1.0 }

  /** The growth of one weight, against c. */
  function OneGrowth(E: real -> real, y: real, c: real): real -> real { t => c * LessOne(Inner(E, y))(t) }

  lemma OneGrowthSlope(E: real -> real, lam: real, y: real, c: real, slope: real)
    requires Expands(E, 1.0, lam) && slope == c * (lam * y)
    ensures Expands(OneGrowth(E, y, c), 0.0, slope)
  {
    hide Expands;
    var minus := (t: real) => -1.0;
    SlopeInner(E, y, 1.0, lam, lam * y);
    SlopeConstant(minus, -1.0);
    SlopeAdd(Inner(E, y), minus, LessOne(Inner(E, y)), 1.0, -1.0, 0.0, lam * y, 0.0, lam * y);
    SlopeScale(c, LessOne(Inner(E, y)), OneGrowth(E, y, c), 0.0, lam * y, 0.0, slope);
  }

  function EachGrowth(E: real -> real, y: Tensor, m: int, f: int -> real): int -> (real -> real) {
    n => OneGrowth(E, y(m, n), f(n))
  }

  function Zero(): int -> real { n => 0.0 }

  function ScaledBy(c: real, f: int -> real): int -> real { n => Mul(c, f(n)) }

  lemma ScaledSum(c: real, f: int -> real, lo: int, hi: int)
    ensures Sum(ScaledBy(c, f), lo, hi) == Mul(c, Sum(f, lo, hi))
  {
    SumScale(c, f, ScaledBy(c, f), lo, hi);
  }

  lemma GrowthSlope(E: real -> real, lam: real, y: Tensor, m: int, f: int -> real, len: int)
    requires Expands(E, 1.0, lam)
    ensures Expands(GrowthAgainst(E, y, m, f, len), 0.0, Mul(lam, Sum(Times(RowOf(y, m), f), 0, len)))
  {
    hide Expands, Sum, OneGrowth;
    var each, slope := EachGrowth(E, y, m, f), ScaledBy(lam, Times(RowOf(y, m), f));
    forall n ensures Expands(each(n), Zero()(n), slope(n)) {
      ThreeCommute(f(n), lam, y(m, n), Times(RowOf(y, m), f)(n), slope(n));
      OneGrowthSlope(E, lam, y(m, n), f(n), slope(n));
    }
    forall t ensures GrowthAgainst(E, y, m, f, len)(t) == Sum(AtArg(each, t), 0, len) {
      forall n ensures Times(Growth(E, Along(y, m, t)), f)(n) == AtArg(each, t)(n) { GrowthOfKey(E, y, m, f, t, n); }
      SumEqual(Times(Growth(E, Along(y, m, t)), f), AtArg(each, t), 0, len);
    }
    SlopeSum(each, Zero(), slope, 0, len, GrowthAgainst(E, y, m, f, len));
    SumZero(Zero(), 0, len);
    ScaledSum(lam, Times(RowOf(y, m), f), 0, len);
  }

  lemma GrowthOfKey(E: real -> real, y: Tensor, m: int, f: int -> real, t: real, n: int)
    ensures Times(Growth(E, Along(y, m, t)), f)(n) == AtArg(EachGrowth(E, y, m, f), t)(n)
  {
    var u := E(Mul(t, y(m, n))) - 1.0;
    assert Growth(E, Along(y, m, t))(n) == u && LessOne(Inner(E, y(m, n)))(t) == u;
    assert u * f(n) == f(n) * u;
  }

  lemma ThreeCommute(f: real, lam: real, y: real, yf: real, x: real)
    requires yf == y * f && x == Mul(lam, yf)
    ensures x == f * (lam * y)
  {
  }

  lemma RowDerivative(E: real -> real, h: Head, heads: real -> Head, g: Grad, log2e: real, lam: real, y: Tensor, m: int)
    requires IsExp(E) && h.Valid() && Expands(E, 1.0, lam) && MovesAlong(h, heads, log2e, y)
    ensures forall t :: heads(t).Valid()
    ensures Expands(RowLoss(E, heads, g, log2e, m), DeltaAt(E, h, g, log2e, m),
                    Mul(lam, DsAgainst(E, h, g, log2e, y)(m)))
  {
    forall t ensures heads(t).Valid() { MovedAreValid(h, heads, log2e, y, t); }
    RowIsOver(E, h, heads, g, log2e, y, m);
    DsAgainstAt(E, h, g, log2e, y, m);
    hide Expands, Sum, DeltaAt, TrueDsFn, WeightShareFn, MovesAlong, RowLoss, GrowthAgainst, IsOver, DsAgainst, Mul;
    GrowthSlope(E, lam, y, m, TrueDsFn(E, h, g, log2e, m), h.seqlenK);
    GrowthSlope(E, lam, y, m, WeightShareFn(E, h, log2e, m), h.seqlenK);
    SlopeOver(GrowthAgainst(E, y, m, TrueDsFn(E, h, g, log2e, m), h.seqlenK),
              GrowthAgainst(E, y, m, WeightShareFn(E, h, log2e, m), h.seqlenK),
              RowLoss(E, heads, g, log2e, m), DeltaAt(E, h, g, log2e, m),
              Mul(lam, Sum(Times(RowOf(y, m), TrueDsFn(E, h, g, log2e, m)), 0, h.seqlenK)),
              Mul(lam, Sum(Times(RowOf(y, m), WeightShareFn(E, h, log2e, m)), 0, h.seqlenK)));
  }

  lemma RowIsOver(E: real -> real, h: Head, heads: real -> Head, g: Grad, log2e: real, y: Tensor, m: int)
    requires IsExp(E) && h.Valid() && MovesAlong(h, heads, log2e, y) && forall t :: heads(t).Valid()
    ensures forall t :: IsOver(RowLoss(E, heads, g, log2e, m), DeltaAt(E, h, g, log2e, m),
                               GrowthAgainst(E, y, m, TrueDsFn(E, h, g, log2e, m), h.seqlenK),
                               GrowthAgainst(E, y, m, WeightShareFn(E, h, log2e, m), h.seqlenK), t)
  {
    hide Sum, DeltaAt, TrueDsFn, WeightShareFn, Shifted, Growth, Times;
    forall t ensures IsOver(RowLoss(E, heads, g, log2e, m), DeltaAt(E, h, g, log2e, m),
                            GrowthAgainst(E, y, m, TrueDsFn(E, h, g, log2e, m), h.seqlenK),
                            GrowthAgainst(E, y, m, WeightShareFn(E, h, log2e, m), h.seqlenK), t) {
      assert MovedRow(h, heads, log2e, y, t, m);
      TrueDsIsTheGradient(E, h, heads(t), g, log2e, m, Along(y, m, t));
    }
  }

  /** ds of each row against the move of its scores. */
  ghost function DsAgainst(E: real -> real, h: Head, g: Grad, log2e: real, y: Tensor): int -> real
    requires IsExp(E) && h.Valid()
  {
    m => Sum(Times(RowOf(y, m), TrueDsFn(E, h, g, log2e, m)), 0, h.seqlenK)
  }

  /** The derivative of the loss along any move of the scores is ds against that move. */
  lemma LossDerivative(E: real -> real, h: Head, heads: real -> Head, g: Grad, log2e: real, lam: real, y: Tensor)
    requires IsExp(E) && h.Valid() && Expands(E, 1.0, lam) && MovesAlong(h, heads, log2e, y)
    ensures forall t :: heads(t).Valid()
    ensures Expands(LossAlong(E, heads, g, log2e), Loss(E, h, g, log2e), Mul(lam, Sum(DsAgainst(E, h, g, log2e, y), 0, h.seqlenQ)))
  {
    forall t ensures heads(t).Valid() && heads(t).seqlenQ == h.seqlenQ { MovedAreValid(h, heads, log2e, y, t); }
    LossIsSum(E, h, heads, g, log2e);
    hide Expands, Sum, DeltaAt, MovesAlong, DsAgainst, Mul, LossAlong, Loss;
    var slope := ScaledBy(lam, DsAgainst(E, h, g, log2e, y));
    forall m ensures Expands(EachRow(E, heads, g, log2e)(m), DeltaFn(E, h, g, log2e)(m), slope(m)) {
      RowDerivative(E, h, heads, g, log2e, lam, y, m);
    }
    SlopeSum(EachRow(E, heads, g, log2e), DeltaFn(E, h, g, log2e), slope, 0, h.seqlenQ, LossAlong(E, heads, g, log2e));
    ScaledSum(lam, DsAgainst(E, h, g, log2e, y), 0, h.seqlenQ);
  }

  lemma LossIsSum(E: real -> real, h: Head, heads: real -> Head, g: Grad, log2e: real)
    requires IsExp(E) && h.Valid() && forall t :: heads(t).Valid() && heads(t).seqlenQ == h.seqlenQ
    ensures Loss(E, h, g, log2e) == Sum(DeltaFn(E, h, g, log2e), 0, h.seqlenQ)
    ensures forall t :: LossAlong(E, heads, g, log2e)(t) == Sum(AtArg(EachRow(E, heads, g, log2e), t), 0, h.seqlenQ)
  {
    hide Sum, DeltaAt;
    forall t ensures LossAlong(E, heads, g, log2e)(t) == Sum(AtArg(EachRow(E, heads, g, log2e), t), 0, h.seqlenQ) {
      SumEqual(DeltaFn(E, heads(t), g, log2e), AtArg(EachRow(E, heads, g, log2e), t), 0, h.seqlenQ);
    }
  }

  lemma DsAgainstAt(E: real -> real, h: Head, g: Grad, log2e: real, y: Tensor, m: int)
    requires IsExp(E) && h.Valid()
    ensures DsAgainst(E, h, g, log2e, y)(m) == Sum(Times(RowOf(y, m), TrueDsFn(E, h, g, log2e, m)), 0, h.seqlenK)
  {
    hide Sum;
  }

  ghost function EachRow(E: real -> real, heads: real -> Head, g: Grad, log2e: real): int -> (real -> real)
    requires IsExp(E) && forall t :: heads(t).Valid()
  {
    m => RowLoss(E, heads, g, log2e, m)
  }

  // ---------------------------------------------------------------- moves of Q, of K and of the bias

  function MoveQ(h: Head, x: Tensor): real -> Head { t => h.(q := (m, d) => h.q(m, d) + Mul(t, x(m, d))) }

  function MoveK(h: Head, x: Tensor): real -> Head { t => h.(k := (n, d) => h.k(n, d) + Mul(t, x(n, d))) }

  function MoveBias(h: Head, x: Tensor): real -> Head { t => h.(bias := Bias((m, n) => h.BiasAt(m, n) + Mul(t, x(m, n)))) }

  /** dQ, dK of the forward weights themselves. */
  ghost function TrueDq(E: real -> real, h: Head, g: Grad, log2e: real, m: int, d: int): real
    requires IsExp(E) && h.Valid()
  {
    Sum(ColTerm(TrueDsFn(E, h, g, log2e, m), h.k, d), 0, h.seqlenK) * h.smScale
  }

  ghost function TrueDsCol(E: real -> real, h: Head, g: Grad, log2e: real, n: int): int -> real
    requires IsExp(E) && h.Valid()
  {
    m => TrueDs(E, h, g, log2e, m, n)
  }

  ghost function TrueDk(E: real -> real, h: Head, g: Grad, log2e: real, n: int, d: int): real
    requires IsExp(E) && h.Valid()
  {
    Sum(ColTerm(TrueDsCol(E, h, g, log2e, n), h.q, d), 0, h.seqlenQ) * h.smScale
  }

  ghost function DqRows(E: real -> real, h: Head, g: Grad, log2e: real, x: Tensor): int -> real
    requires IsExp(E) && h.Valid()
  {
    m => Sum(d => TrueDq(E, h, g, log2e, m, d) * x(m, d), 0, h.hdimQk)
  }

  ghost function DkRows(E: real -> real, h: Head, g: Grad, log2e: real, x: Tensor): int -> real
    requires IsExp(E) && h.Valid()
  {
    n => Sum(d => TrueDk(E, h, g, log2e, n, d) * x(n, d), 0, h.hdimQk)
  }

  ghost function DbRows(E: real -> real, h: Head, g: Grad, log2e: real, x: Tensor): int -> real
    requires IsExp(E) && h.Valid()
  {
    m => Sum(Times(RowOf(x, m), TrueDsFn(E, h, g, log2e, m)), 0, h.seqlenK)
  }

  function MovedScoreQ(h: Head, log2e: real, x: Tensor): Tensor { (m, n) => QueryShift(h, log2e, RowOf(x, m))(n) }

  function MovedScoreK(h: Head, log2e: real, x: Tensor): Tensor { (m, n) => KeyShift(h, log2e, x, m)(n) }

  function MovedScoreBias(log2e: real, x: Tensor): Tensor { (m, n) => x(m, n) * log2e }

  lemma ShiftedByEqual(h: Head, h': Head, log2e: real, m: int, y: int -> real, y': int -> real)
    requires Shifted(h, h', log2e, m, y) && forall n :: y(n) == y'(n)
    ensures Shifted(h, h', log2e, m, y')
  {
    forall n ensures LogitShifted(h, h', log2e, m, y', n) { assert LogitShifted(h, h', log2e, m, y, n); }
  }

  lemma TimesOut(a: real, t: real, s: real, s': real, moved: real, y: real)
    requires s' == t * s && moved == a * s' && y == a * s
    ensures moved == Mul(t, y)
  {
  }

  lemma QueryScore(h: Head, log2e: real, x: int -> real, n: int)
    ensures QueryShift(h, log2e, x)(n) == h.QkScale(log2e) * Sum(RowTerm(h.k, x, n), 0, h.hdimQk)
  {
    hide Sum;
  }

  lemma KeyScore(h: Head, log2e: real, x: Tensor, m: int, n: int)
    ensures KeyShift(h, log2e, x, m)(n) == h.QkScale(log2e) * Sum(RowTerm(x, RowOf(h.q, m), n), 0, h.hdimQk)
    ensures KeyShift(h, log2e, x, m)(n) == h.QkScale(log2e) * Sum(RowTerm(h.q, RowOf(x, n), m), 0, h.hdimQk)
  {
    hide Sum;
    SumEqual(RowTerm(x, RowOf(h.q, m), n), RowTerm(h.q, RowOf(x, n), m), 0, h.hdimQk);
  }

  lemma MoveQMoves(h: Head, log2e: real, x: Tensor)
    requires h.Valid()
    ensures MovesAlong(h, MoveQ(h, x), log2e, MovedScoreQ(h, log2e, x))
  {
    hide Sum, Shifted;
    forall t, m ensures MovedRow(h, MoveQ(h, x), log2e, MovedScoreQ(h, log2e, x), t, m) {
      var tx := (d: int) => Mul(t, x(m, d));
      MovedQueryShifts(h, MoveQ(h, x)(t), log2e, m, tx);
      forall n ensures QueryShift(h, log2e, tx)(n) == Along(MovedScoreQ(h, log2e, x), m, t)(n) { QueryScoreMoves(h, log2e, x, m, t, tx, n); }
      ShiftedByEqual(h, MoveQ(h, x)(t), log2e, m, QueryShift(h, log2e, tx), Along(MovedScoreQ(h, log2e, x), m, t));
    }
  }

  lemma QueryScoreMoves(h: Head, log2e: real, x: Tensor, m: int, t: real, tx: int -> real, n: int)
    requires forall d :: tx(d) == Mul(t, x(m, d))
    ensures QueryShift(h, log2e, tx)(n) == Along(MovedScoreQ(h, log2e, x), m, t)(n)
  {
    hide Sum, QueryShift;
    var y := RowOf(x, m);
    forall d ensures RowTerm(h.k, tx, n)(d) == t * RowTerm(h.k, y, n)(d) { MulMoves(h.k(n, d), t, x(m, d)); }
    SumScale(t, RowTerm(h.k, y, n), RowTerm(h.k, tx, n), 0, h.hdimQk);
    QueryScore(h, log2e, tx, n);
    QueryScore(h, log2e, y, n);
    TimesOut(h.QkScale(log2e), t, Sum(RowTerm(h.k, y, n), 0, h.hdimQk), Sum(RowTerm(h.k, tx, n), 0, h.hdimQk),
             QueryShift(h, log2e, tx)(n), QueryShift(h, log2e, y)(n));
  }

  lemma KeyScoreMoves(h: Head, log2e: real, x: Tensor, m: int, t: real, tx: Tensor, n: int)
    requires forall n, d :: tx(n, d) == Mul(t, x(n, d))
    ensures KeyShift(h, log2e, tx, m)(n) == Along(MovedScoreK(h, log2e, x), m, t)(n)
  {
    hide Sum, KeyShift;
    var q := RowOf(h.q, m);
    forall d ensures RowTerm(tx, q, n)(d) == t * RowTerm(x, q, n)(d) { MulMoves(q(d), t, x(n, d)); }
    SumScale(t, RowTerm(x, q, n), RowTerm(tx, q, n), 0, h.hdimQk);
    KeyScore(h, log2e, tx, m, n);
    KeyScore(h, log2e, x, m, n);
    TimesOut(h.QkScale(log2e), t, Sum(RowTerm(x, q, n), 0, h.hdimQk), Sum(RowTerm(tx, q, n), 0, h.hdimQk),
             KeyShift(h, log2e, tx, m)(n), KeyShift(h, log2e, x, m)(n));
  }

  lemma MulMoves(k: real, t: real, x: real)
    ensures k * Mul(t, x) == t * (k * x)
  {
  }

  lemma MoveKMoves(h: Head, log2e: real, x: Tensor)
    requires h.Valid()
    ensures MovesAlong(h, MoveK(h, x), log2e, MovedScoreK(h, log2e, x))
  {
    hide Sum, Shifted;
    forall t, m ensures MovedRow(h, MoveK(h, x), log2e, MovedScoreK(h, log2e, x), t, m) {
      var tx := (n: int, d: int) => Mul(t, x(n, d));
      MovedKeysShift(h, MoveK(h, x)(t), log2e, m, tx);
      forall n ensures KeyShift(h, log2e, tx, m)(n) == Along(MovedScoreK(h, log2e, x), m, t)(n) { KeyScoreMoves(h, log2e, x, m, t, tx, n); }
      ShiftedByEqual(h, MoveK(h, x)(t), log2e, m, KeyShift(h, log2e, tx, m), Along(MovedScoreK(h, log2e, x), m, t));
    }
  }

  lemma MoveBiasMoves(h: Head, log2e: real, x: Tensor)
    requires h.Valid()
    ensures MovesAlong(h, MoveBias(h, x), log2e, MovedScoreBias(log2e, x))
  {
    hide Shifted;
    forall t, m ensures MovedRow(h, MoveBias(h, x), log2e, MovedScoreBias(log2e, x), t, m) {
      var tx := (m: int, n: int) => Mul(t, x(m, n));
      MovedBiasShifts(h, MoveBias(h, x)(t), log2e, m, tx);
      forall n ensures BiasShift(log2e, tx, m)(n) == Along(MovedScoreBias(log2e, x), m, t)(n) {
        MulOut(t, x(m, n), log2e, BiasShift(log2e, tx, m)(n), MovedScoreBias(log2e, x)(m, n));
      }
      ShiftedByEqual(h, MoveBias(h, x)(t), log2e, m, BiasShift(log2e, tx, m), Along(MovedScoreBias(log2e, x), m, t));
    }
  }

  lemma MulOut(t: real, x: real, c: real, moved: real, y: real)
    requires moved == Mul(t, x) * c && y == x * c
    ensures moved == Mul(t, y)
  {
  }

  // ---------------------------------------------------------------- the derivatives

  /** c(n) times x(n, .) . y, with a common factor. */
  function Weighted(scale: real, c: int -> real, x: Tensor, y: int -> real, dims: int): int -> real {
    n => scale * (c(n) * Sum(RowTerm(x, y, n), 0, dims))
  }

  lemma WeightedScore(s: real, log2e: real, c: int -> real, x: Tensor, y: int -> real, dims: int, n: int, qk: real, shift: real, left: real)
    requires qk == s * log2e && shift == qk * Sum(RowTerm(x, y, n), 0, dims) && left == shift * c(n)
    ensures left == log2e * Weighted(s, c, x, y, dims)(n)
  {
    hide Sum;
    MoveLog(s, log2e, Sum(RowTerm(x, y, n), 0, dims), c(n), qk, shift, left, Weighted(s, c, x, y, dims)(n));
  }

  /** ds against what a move of Q does to the scores of a row is dQ against the move. */
  lemma DqContracts(E: real -> real, h: Head, g: Grad, log2e: real, x: Tensor, m: int)
    requires IsExp(E) && h.Valid()
    ensures DsAgainst(E, h, g, log2e, MovedScoreQ(h, log2e, x))(m) == log2e * DqRows(E, h, g, log2e, x)(m)
  {
    hide Sum, QueryShift, Weighted, DqRows, Times, MovedScoreQ, TrueDsFn, DsAgainst;
    var c, y := TrueDsFn(E, h, g, log2e, m), RowOf(x, m);
    DqRowSum(E, h, g, log2e, x, m);
    DsAgainstAt(E, h, g, log2e, MovedScoreQ(h, log2e, x), m);
    QueryRowSum(h, log2e, x, m, c);
    TimesEqual(log2e, Sum(Weighted(h.smScale, c, h.k, y, h.hdimQk), 0, h.seqlenK), DqRows(E, h, g, log2e, x)(m),
               DsAgainst(E, h, g, log2e, MovedScoreQ(h, log2e, x))(m));
  }

  lemma TimesEqual(a: real, x: real, y: real, ax: real)
    requires ax == a * x && x == y
    ensures ax == a * y
  {
  }

  lemma QueryRowSum(h: Head, log2e: real, x: Tensor, m: int, c: int -> real)
    ensures Sum(Times(RowOf(MovedScoreQ(h, log2e, x), m), c), 0, h.seqlenK)
         == log2e * Sum(Weighted(h.smScale, c, h.k, RowOf(x, m), h.hdimQk), 0, h.seqlenK)
  {
    hide Sum, Weighted, Times, MovedScoreQ;
    var left, total := Times(RowOf(MovedScoreQ(h, log2e, x), m), c), Weighted(h.smScale, c, h.k, RowOf(x, m), h.hdimQk);
    forall n ensures left(n) == log2e * total(n) { QueryCell(h, log2e, x, m, c, n); }
    SumScale(log2e, total, left, 0, h.seqlenK);
  }

  lemma QueryCell(h: Head, log2e: real, x: Tensor, m: int, c: int -> real, n: int)
    ensures Times(RowOf(MovedScoreQ(h, log2e, x), m), c)(n) == log2e * Weighted(h.smScale, c, h.k, RowOf(x, m), h.hdimQk)(n)
  {
    hide Sum, QueryShift, Weighted;
    var shift := QueryShift(h, log2e, RowOf(x, m))(n);
    QueryScore(h, log2e, RowOf(x, m), n);
    assert RowOf(MovedScoreQ(h, log2e, x), m)(n) == shift;
    WeightedScore(h.smScale, log2e, c, h.k, RowOf(x, m), h.hdimQk, n, h.QkScale(log2e), shift, shift * c(n));
  }

  lemma DqRowSum(E: real -> real, h: Head, g: Grad, log2e: real, x: Tensor, m: int)
    requires IsExp(E) && h.Valid()
    ensures DqRows(E, h, g, log2e, x)(m)
         == Sum(Weighted(h.smScale, TrueDsFn(E, h, g, log2e, m), h.k, RowOf(x, m), h.hdimQk), 0, h.seqlenK)
  {
    hide Sum, TrueDq;
    var c, y := TrueDsFn(E, h, g, log2e, m), RowOf(x, m);
    var outer := (d: int) => TrueDq(E, h, g, log2e, m, d) * x(m, d);
    forall d ensures outer(d) == Sum(ColTerm(c, h.k, d), 0, h.seqlenK) * h.smScale * y(d) { DqColumn(E, h, g, log2e, m, d); }
    ScaledExchange(h.smScale, c, h.k, y, h.seqlenK, h.hdimQk, outer, Weighted(h.smScale, c, h.k, y, h.hdimQk));
    SumEqual(outer, d => TrueDq(E, h, g, log2e, m, d) * x(m, d), 0, h.hdimQk);
  }

  lemma DqColumn(E: real -> real, h: Head, g: Grad, log2e: real, m: int, d: int)
    requires IsExp(E) && h.Valid()
    ensures TrueDq(E, h, g, log2e, m, d) == Sum(ColTerm(TrueDsFn(E, h, g, log2e, m), h.k, d), 0, h.seqlenK) * h.smScale
  {
    hide Sum;
  }

  lemma MoveLog(s: real, log2e: real, x: real, c: real, qk: real, shift: real, left: real, total: real)
    requires qk == s * log2e && shift == qk * x && left == shift * c && total == s * (c * x)
    ensures left == log2e * total
  {
    assert left == s * log2e * x * c;
  }

  /** lam is the logarithm of two as exp2 has it, log2e the constant of the kernel: their product is one as far
      as log2e is log2(e). */
  function Rate(lam: real, log2e: real, total: real): real { lam * log2e * total }

  lemma TwoConstants(lam: real, log2e: real, total: real, scaled: real)
    requires scaled == log2e * total
    ensures Mul(lam, scaled) == Rate(lam, log2e, total)
  {
  }

  /** dQ is the derivative: along any move of Q the loss changes at the rate dQ against the move. */
  lemma DqIsTheDerivative(E: real -> real, h: Head, g: Grad, log2e: real, lam: real, x: Tensor)
    requires IsExp(E) && h.Valid() && Expands(E, 1.0, lam)
    ensures forall t :: MoveQ(h, x)(t).Valid()
    ensures Expands(LossAlong(E, MoveQ(h, x), g, log2e), Loss(E, h, g, log2e),
                    Rate(lam, log2e, Sum(DqRows(E, h, g, log2e, x), 0, h.seqlenQ)))
  {
    hide Expands, Sum, Loss, LossAlong, DsAgainst, DqRows, MovesAlong;
    var y := MovedScoreQ(h, log2e, x);
    MoveQMoves(h, log2e, x);
    LossDerivative(E, h, MoveQ(h, x), g, log2e, lam, y);
    forall m ensures DsAgainst(E, h, g, log2e, y)(m) == log2e * DqRows(E, h, g, log2e, x)(m) { DqContracts(E, h, g, log2e, x, m); }
    SumScale(log2e, DqRows(E, h, g, log2e, x), DsAgainst(E, h, g, log2e, y), 0, h.seqlenQ);
    TwoConstants(lam, log2e, Sum(DqRows(E, h, g, log2e, x), 0, h.seqlenQ), Sum(DsAgainst(E, h, g, log2e, y), 0, h.seqlenQ));
  }

  /** ds of a pair against what a move of K does to its score */
  ghost function KeyCell(E: real -> real, h: Head, g: Grad, log2e: real, x: Tensor): Tensor
    requires IsExp(E) && h.Valid()
  {
    (m, n) => MovedScoreK(h, log2e, x)(m, n) * TrueDs(E, h, g, log2e, m, n)
  }

  lemma DkContracts(E: real -> real, h: Head, g: Grad, log2e: real, x: Tensor, n: int)
    requires IsExp(E) && h.Valid()
    ensures SumRows(KeyCell(E, h, g, log2e, x), 0, h.seqlenQ)(n) == log2e * DkRows(E, h, g, log2e, x)(n)
  {
    hide *;
    DkRowSum(E, h, g, log2e, x, n);
    DkColumnSum(E, h, g, log2e, x, n);
  }

  lemma DkColumnSum(E: real -> real, h: Head, g: Grad, log2e: real, x: Tensor, n: int)
    requires IsExp(E) && h.Valid()
    ensures SumRows(KeyCell(E, h, g, log2e, x), 0, h.seqlenQ)(n)
         == log2e * Sum(Weighted(h.smScale, TrueDsCol(E, h, g, log2e, n), h.q, RowOf(x, n), h.hdimQk), 0, h.seqlenQ)
  {
    hide *;
    var total := Weighted(h.smScale, TrueDsCol(E, h, g, log2e, n), h.q, RowOf(x, n), h.hdimQk);
    forall m ensures KeyCell(E, h, g, log2e, x)(m, n) == log2e * total(m) { KeyCellAt(E, h, g, log2e, x, m, n); }
    ScaledColumn(KeyCell(E, h, g, log2e, x), log2e, total, h.seqlenQ, n);
  }

  lemma ScaledColumn(f: Tensor, k: real, column: int -> real, hi: int, n: int)
    requires forall m :: f(m, n) == k * column(m)
    ensures SumRows(f, 0, hi)(n) == k * Sum(column, 0, hi)
  {
    hide Sum;
    SumScale(k, column, m => f(m, n), 0, hi);
  }

  lemma KeyCellAt(E: real -> real, h: Head, g: Grad, log2e: real, x: Tensor, m: int, n: int)
    requires IsExp(E) && h.Valid()
    ensures KeyCell(E, h, g, log2e, x)(m, n)
         == log2e * Weighted(h.smScale, TrueDsCol(E, h, g, log2e, n), h.q, RowOf(x, n), h.hdimQk)(m)
  {
    hide Sum, KeyShift, Weighted, TrueDs;
    var shift, c := KeyShift(h, log2e, x, m)(n), TrueDsCol(E, h, g, log2e, n);
    KeyScore(h, log2e, x, m, n);
    assert MovedScoreK(h, log2e, x)(m, n) == shift && c(m) == TrueDs(E, h, g, log2e, m, n);
    WeightedScore(h.smScale, log2e, c, h.q, RowOf(x, n), h.hdimQk, m, h.QkScale(log2e), shift, shift * c(m));
  }

  lemma DkRowSum(E: real -> real, h: Head, g: Grad, log2e: real, x: Tensor, n: int)
    requires IsExp(E) && h.Valid()
    ensures DkRows(E, h, g, log2e, x)(n)
         == Sum(Weighted(h.smScale, TrueDsCol(E, h, g, log2e, n), h.q, RowOf(x, n), h.hdimQk), 0, h.seqlenQ)
  {
    hide Sum, TrueDk;
    var c, y := TrueDsCol(E, h, g, log2e, n), RowOf(x, n);
    var outer := (d: int) => TrueDk(E, h, g, log2e, n, d) * x(n, d);
    forall d ensures outer(d) == Sum(ColTerm(c, h.q, d), 0, h.seqlenQ) * h.smScale * y(d) { DkColumn(E, h, g, log2e, n, d); }
    ScaledExchange(h.smScale, c, h.q, y, h.seqlenQ, h.hdimQk, outer, Weighted(h.smScale, c, h.q, y, h.hdimQk));
    SumEqual(outer, d => TrueDk(E, h, g, log2e, n, d) * x(n, d), 0, h.hdimQk);
  }

  lemma DkColumn(E: real -> real, h: Head, g: Grad, log2e: real, n: int, d: int)
    requires IsExp(E) && h.Valid()
    ensures TrueDk(E, h, g, log2e, n, d) == Sum(ColTerm(TrueDsCol(E, h, g, log2e, n), h.q, d), 0, h.seqlenQ) * h.smScale
  {
    hide Sum;
  }

  /** dK is the derivative: along any move of K the loss of all rows changes at the rate dK against the move. */
  lemma DkIsTheDerivative(E: real -> real, h: Head, g: Grad, log2e: real, lam: real, x: Tensor)
    requires IsExp(E) && h.Valid() && Expands(E, 1.0, lam)
    ensures forall t :: MoveK(h, x)(t).Valid()
    ensures Expands(LossAlong(E, MoveK(h, x), g, log2e), Loss(E, h, g, log2e),
                    Rate(lam, log2e, Sum(DkRows(E, h, g, log2e, x), 0, h.seqlenK)))
  {
    hide Expands, Sum, Loss, LossAlong, DsAgainst, DkRows, MovesAlong, KeyCell;
    var y, f := MovedScoreK(h, log2e, x), KeyCell(E, h, g, log2e, x);
    MoveKMoves(h, log2e, x);
    LossDerivative(E, h, MoveK(h, x), g, log2e, lam, y);
    forall m ensures DsAgainst(E, h, g, log2e, y)(m) == SumCols(f, 0, h.seqlenK)(m) { KeyCellsOfRow(E, h, g, log2e, x, m); }
    SumEqual(DsAgainst(E, h, g, log2e, y), SumCols(f, 0, h.seqlenK), 0, h.seqlenQ);
    SumExchange(f, 0, h.seqlenQ, 0, h.seqlenK);
    forall n ensures SumRows(f, 0, h.seqlenQ)(n) == log2e * DkRows(E, h, g, log2e, x)(n) { DkContracts(E, h, g, log2e, x, n); }
    SumScale(log2e, DkRows(E, h, g, log2e, x), SumRows(f, 0, h.seqlenQ), 0, h.seqlenK);
    TwoConstants(lam, log2e, Sum(DkRows(E, h, g, log2e, x), 0, h.seqlenK), Sum(DsAgainst(E, h, g, log2e, y), 0, h.seqlenQ));
  }

  lemma KeyCellsOfRow(E: real -> real, h: Head, g: Grad, log2e: real, x: Tensor, m: int)
    requires IsExp(E) && h.Valid()
    ensures DsAgainst(E, h, g, log2e, MovedScoreK(h, log2e, x))(m) == SumCols(KeyCell(E, h, g, log2e, x), 0, h.seqlenK)(m)
  {
    hide Sum, TrueDs, MovedScoreK;
    var f := KeyCell(E, h, g, log2e, x);
    SumEqual(Times(RowOf(MovedScoreK(h, log2e, x), m), TrueDsFn(E, h, g, log2e, m)), n => f(m, n), 0, h.seqlenK);
  }

  /** ds is the derivative by the bias. */
  lemma DsIsTheBiasDerivative(E: real -> real, h: Head, g: Grad, log2e: real, lam: real, x: Tensor)
    requires IsExp(E) && h.Valid() && Expands(E, 1.0, lam)
    ensures forall t :: MoveBias(h, x)(t).Valid()
    ensures Expands(LossAlong(E, MoveBias(h, x), g, log2e), Loss(E, h, g, log2e),
                    Rate(lam, log2e, Sum(DbRows(E, h, g, log2e, x), 0, h.seqlenQ)))
  {
    hide Expands, Sum, Loss, LossAlong, DsAgainst, DbRows, MovesAlong;
    var y := MovedScoreBias(log2e, x);
    MoveBiasMoves(h, log2e, x);
    LossDerivative(E, h, MoveBias(h, x), g, log2e, lam, y);
    forall m ensures DsAgainst(E, h, g, log2e, y)(m) == log2e * DbRows(E, h, g, log2e, x)(m) { DbContracts(E, h, g, log2e, x, m); }
    SumScale(log2e, DbRows(E, h, g, log2e, x), DsAgainst(E, h, g, log2e, y), 0, h.seqlenQ);
    TwoConstants(lam, log2e, Sum(DbRows(E, h, g, log2e, x), 0, h.seqlenQ), Sum(DsAgainst(E, h, g, log2e, y), 0, h.seqlenQ));
  }

  lemma DbContracts(E: real -> real, h: Head, g: Grad, log2e: real, x: Tensor, m: int)
    requires IsExp(E) && h.Valid()
    ensures DsAgainst(E, h, g, log2e, MovedScoreBias(log2e, x))(m) == log2e * DbRows(E, h, g, log2e, x)(m)
  {
    hide Sum, TrueDs;
    var c := TrueDsFn(E, h, g, log2e, m);
    var left, right := Times(RowOf(MovedScoreBias(log2e, x), m), c), Times(RowOf(x, m), c);
    forall n ensures left(n) == log2e * right(n) { LogOut(x(m, n), log2e, c(n)); }
    SumScale(log2e, right, left, 0, h.seqlenK);
  }

  lemma LogOut(x: real, log2e: real, c: real)
    ensures x * log2e * c == log2e * (x * c)
  {
  }
}
