/** How the forward pass responds to a change of scores or of V, exactly and without limits. */
module SoftmaxGradient {
  import opened RealSums
  import opened Attention
  import opened Gradients

  // ---------------------------------------------------------------- a change of scores

  /** h' is h with the base-2 logits of row m shifted by y, and nothing else that the output of the row sees. */
  ghost predicate Shifted(h: Head, h': Head, log2e: real, m: int, y: int -> real) {
    && h'.Valid() && h'.seqlenK == h.seqlenK && h'.hdimVo == h.hdimVo && h'.v == h.v && h'.dropout == h.dropout
    && forall n :: LogitShifted(h, h', log2e, m, y, n)
  }

  ghost predicate LogitShifted(h: Head, h': Head, log2e: real, m: int, y: int -> real, n: int) {
    h'.Logit(log2e, m, n) == h.Logit(log2e, m, n) + y(n) && h'.Sees(m, n) == h.Sees(m, n)
  }

  /** By how much the shift grows each key's weight, as a factor minus one. */
  function Growth(E: real -> real, y: int -> real): int -> real { n => E(y(n)) - 1.0 }

  function Times(u: int -> real, f: int -> real): int -> real { n => u(n) * f(n) }

  /** Each key's weight grows by its factor; so does the denominator's sum. */
  lemma ShiftedWeights(E: real -> real, h: Head, h': Head, log2e: real, m: int, y: int -> real)
    requires IsExp(E) && Shifted(h, h', log2e, m, y)
    ensures Denominator(E, h', log2e, m)
         == Denominator(E, h, log2e, m) + Sum(Times(Growth(E, y), WeightFn(E, h, log2e, m)), 0, h.seqlenK)
  {
    hide Sum, Head.Logit, Head.Sees;
    var f, g, u := WeightFn(E, h, log2e, m), WeightFn(E, h', log2e, m), Growth(E, y);
    forall n ensures g(n) == f(n) + Times(u, f)(n) {
      assert LogitShifted(h, h', log2e, m, y, n);
      assert ExpAdds(E, h.Logit(log2e, m, n), y(n));
      GrowTerm(E(h.Logit(log2e, m, n)), E(y(n)));
    }
    SumAdd(f, Times(u, f), g, 0, h.seqlenK);
  }

  lemma GrowTerm(e: real, t: real)
    ensures e * t == e + (t - 1.0) * e
  {
  }

  lemma ShiftedValues(E: real -> real, h: Head, h': Head, log2e: real, m: int, y: int -> real, d: int)
    requires IsExp(E) && Shifted(h, h', log2e, m, y)
    ensures Sum(ValueFn(E, h', log2e, m, d), 0, h.seqlenK)
         == Sum(ValueFn(E, h, log2e, m, d), 0, h.seqlenK) + Sum(Times(Growth(E, y), ValueFn(E, h, log2e, m, d)), 0, h.seqlenK)
  {
    hide Sum, Head.Logit, Head.Sees;
    var f, g, u := ValueFn(E, h, log2e, m, d), ValueFn(E, h', log2e, m, d), Growth(E, y);
    forall n | 0 <= n < h.seqlenK ensures g(n) == f(n) + Times(u, f)(n) {
      assert LogitShifted(h, h', log2e, m, y, n) && h'.Keeps(m, n) == h.Keeps(m, n);
      assert ExpAdds(E, h.Logit(log2e, m, n), y(n));
      GrowValue(E(h.Logit(log2e, m, n)), E(y(n)), h.v(n, d));
    }
    SumAdd(f, Times(u, f), g, 0, h.seqlenK);
  }

  lemma GrowValue(e: real, t: real, v: real)
    ensures e * t * v == e * v + (t - 1.0) * (e * v)
  {
  }

  /** s (A + a) / Z' - s A / Z, with Z' = Z + w */
  lemma QuotientChange(s: real, total: real, a: real, z: real, w: real, z': real)
    requires z > 0.0 && z' > 0.0 && z' == z + w
    ensures s * (total + a) / z' == s * total / z + 1.0 / z' * (s * a - w * (s * total / z))
  {
    var o := s * total / z;
    assert o * z == s * total;
    assert s * (total + a) == o * z' + (s * a - w * o) by { assert o * z == o * z' - w * o; }
    DivideSum(o, z', s * a - w * o);
  }

  lemma DivideSum(o: real, z: real, r: real)
    requires z > 0.0
    ensures (o * z + r) / z == o + 1.0 / z * r
  {
    assert (o + 1.0 / z * r) * z == o * z + r;
  }

  /** dO times column d of V at key n, after dropout: the d-th term of dp, times the key's weight. */
  function ValueDo(E: real -> real, h: Head, g: Grad, log2e: real, m: int, n: int): int -> real
    requires h.Valid()
  {
    d => h.DropoutScale() * ValueFn(E, h, log2e, m, d)(n) * g.dO(m, d)
  }

  /** What key n contributes to out . dO, before normalisation, is its weight times dp. */
  lemma ValueDoIsDp(E: real -> real, h: Head, g: Grad, log2e: real, m: int, n: int)
    requires h.Valid() && 0 <= n
    ensures Sum(ValueDo(E, h, g, log2e, m, n), 0, h.hdimVo) == WeightFn(E, h, log2e, m)(n) * DpAt(h, g, m, n)
  {
    hide Sum, Head.Logit;
    var w, s, f := WeightFn(E, h, log2e, m)(n), h.DropoutScale(), ValueDo(E, h, g, log2e, m, n);
    if h.Sees(m, n) && h.Keeps(m, n) {
      var dov := (d: int) => g.dO(m, d) * h.v(n, d);
      forall d ensures f(d) == w * s * dov(d) { Regroup(s, w, h.v(n, d), g.dO(m, d)); }
      SumScale(w * s, dov, f, 0, h.hdimVo);
      SumEqual(dov, d => g.dO(m, d) * h.v(n, d), 0, h.hdimVo);
      assert w * s * DoDotV(h, g, m, n) == w * (DoDotV(h, g, m, n) * s);
    } else {
      forall d ensures f(d) == 0.0 { assert ValueFn(E, h, log2e, m, d)(n) == 0.0; }
      SumZero(f, 0, h.hdimVo);
    }
  }

  lemma Regroup(s: real, w: real, v: real, o: real)
    ensures s * (w * v) * o == w * s * (o * v)
  {
  }

  /** u w dp: what the shift adds to the unnormalised out . dO, key by key. */
  function GrownDp(E: real -> real, h: Head, g: Grad, log2e: real, m: int, y: int -> real): int -> real
    requires h.Valid()
  {
    n => if n < 0 then 0.0 else Growth(E, y)(n) * (WeightFn(E, h, log2e, m)(n) * DpAt(h, g, m, n))
  }

  /** What the shift adds to column d of the unnormalised output, times dO. */
  function GrownDo(E: real -> real, h: Head, g: Grad, log2e: real, m: int, y: int -> real): int -> real
    requires h.Valid()
  {
    d => h.DropoutScale() * Sum(Times(Growth(E, y), ValueFn(E, h, log2e, m, d)), 0, h.seqlenK) * g.dO(m, d)
  }

  lemma GrownSums(E: real -> real, h: Head, g: Grad, log2e: real, m: int, y: int -> real)
    requires h.Valid()
    ensures Sum(GrownDo(E, h, g, log2e, m, y), 0, h.hdimVo) == Sum(GrownDp(E, h, g, log2e, m, y), 0, h.seqlenK)
  {
    hide Sum, GrownDo, GrownDp, GrownCell;
    var f := GrownCell(E, h, g, log2e, m, y);
    forall d ensures GrownDo(E, h, g, log2e, m, y)(d) == SumCols(f, 0, h.seqlenK)(d) { GrownColumn(E, h, g, log2e, m, y, d); }
    SumEqual(GrownDo(E, h, g, log2e, m, y), SumCols(f, 0, h.seqlenK), 0, h.hdimVo);
    SumExchange(f, 0, h.hdimVo, 0, h.seqlenK);
    forall n | 0 <= n < h.seqlenK ensures GrownDp(E, h, g, log2e, m, y)(n) == SumRows(f, 0, h.hdimVo)(n) {
      GrownKey(E, h, g, log2e, m, y, n);
    }
    SumEqual(GrownDp(E, h, g, log2e, m, y), SumRows(f, 0, h.hdimVo), 0, h.seqlenK);
  }

  /** One column and one key of what the shift adds. */
  function GrownCell(E: real -> real, h: Head, g: Grad, log2e: real, m: int, y: int -> real): Tensor
    requires h.Valid()
  {
    (d, n) => h.DropoutScale() * (Growth(E, y)(n) * ValueFn(E, h, log2e, m, d)(n)) * g.dO(m, d)
  }

  lemma GrownColumn(E: real -> real, h: Head, g: Grad, log2e: real, m: int, y: int -> real, d: int)
    requires h.Valid()
    ensures GrownDo(E, h, g, log2e, m, y)(d) == SumCols(GrownCell(E, h, g, log2e, m, y), 0, h.seqlenK)(d)
  {
    hide Sum, ValueFn, Growth;
    var s, o, f, t := h.DropoutScale(), g.dO(m, d), GrownCell(E, h, g, log2e, m, y), Times(Growth(E, y), ValueFn(E, h, log2e, m, d));
    forall n ensures f(d, n) == s * o * t(n) { LastTwoCommute(s, t(n), o); }
    SumScale(s * o, t, n => f(d, n), 0, h.seqlenK);
    LastTwoCommute(s, Sum(t, 0, h.seqlenK), o);
  }

  lemma GrownKey(E: real -> real, h: Head, g: Grad, log2e: real, m: int, y: int -> real, n: int)
    requires h.Valid() && 0 <= n
    ensures GrownDp(E, h, g, log2e, m, y)(n) == SumRows(GrownCell(E, h, g, log2e, m, y), 0, h.hdimVo)(n)
  {
    hide Sum, ValueFn, WeightFn, DpAt, Growth;
    var u, f, v := Growth(E, y)(n), GrownCell(E, h, g, log2e, m, y), ValueDo(E, h, g, log2e, m, n);
    forall d ensures f(d, n) == u * v(d) { PullFactor(h.DropoutScale(), u, ValueFn(E, h, log2e, m, d)(n), g.dO(m, d)); }
    SumScale(u, v, d => f(d, n), 0, h.hdimVo);
    ValueDoIsDp(E, h, g, log2e, m, n);
  }

  lemma LastTwoCommute(s: real, x: real, o: real)
    ensures s * x * o == s * o * x
  {
  }

  lemma PullFactor(s: real, u: real, x: real, o: real)
    ensures s * (u * x) * o == u * (s * x * o)
  {
  }

  /** How out . dO of the row responds, over the new denominator. */
  lemma ShiftedDelta(E: real -> real, h: Head, h': Head, g: Grad, log2e: real, m: int, y: int -> real)
    requires IsExp(E) && h.Valid() && Shifted(h, h', log2e, m, y)
    ensures Denominator(E, h', log2e, m) > 0.0
    ensures var w := Sum(Times(Growth(E, y), WeightFn(E, h, log2e, m)), 0, h.seqlenK);
      DeltaAt(E, h', g, log2e, m) == DeltaAt(E, h, g, log2e, m) + 1.0 / Denominator(E, h', log2e, m)
        * (Sum(GrownDp(E, h, g, log2e, m, y), 0, h.seqlenK) - w * DeltaAt(E, h, g, log2e, m))
  {
    hide Sum, Denominator, ValueFn, WeightFn, DpAt, AttentionAt, Growth;
    DenominatorPositive(E, h', log2e, m);
    var w, z' := Sum(Times(Growth(E, y), WeightFn(E, h, log2e, m)), 0, h.seqlenK), Denominator(E, h', log2e, m);
    var before, after, direct := OutDo(E, h, g, log2e, m), OutDo(E, h', g, log2e, m), GrownDo(E, h, g, log2e, m, y);
    var c := 1.0 / z';
    forall d ensures after(d) == before(d) + (c * direct(d) + -(c * w) * before(d)) {
      ShiftedOut(E, h, h', g, log2e, m, y, d);
    }
    CombineSums(after, before, direct, c, w, h.hdimVo);
    GrownSums(E, h, g, log2e, m, y);
    Spread(c, w, Sum(direct, 0, h.hdimVo), DeltaAt(E, h, g, log2e, m));
  }

  lemma ShiftedOut(E: real -> real, h: Head, h': Head, g: Grad, log2e: real, m: int, y: int -> real, d: int)
    requires IsExp(E) && h.Valid() && Shifted(h, h', log2e, m, y) && Denominator(E, h', log2e, m) > 0.0
    ensures var c, w := 1.0 / Denominator(E, h', log2e, m), Sum(Times(Growth(E, y), WeightFn(E, h, log2e, m)), 0, h.seqlenK);
      var before := OutDo(E, h, g, log2e, m)(d);
      OutDo(E, h', g, log2e, m)(d) == before + (c * GrownDo(E, h, g, log2e, m, y)(d) + -(c * w) * before)
  {
    hide Sum, Denominator, ValueFn, WeightFn, Growth, LogitShifted;
    DenominatorPositive(E, h, log2e, m);
    ShiftedWeights(E, h, h', log2e, m, y);
    ShiftedValues(E, h, h', log2e, m, y, d);
    var s, total := h.DropoutScale(), Sum(ValueFn(E, h, log2e, m, d), 0, h.seqlenK);
    var a := Sum(Times(Growth(E, y), ValueFn(E, h, log2e, m, d)), 0, h.seqlenK);
    var w, z' := Sum(Times(Growth(E, y), WeightFn(E, h, log2e, m)), 0, h.seqlenK), Denominator(E, h', log2e, m);
    QuotientChange(s, total, a, Denominator(E, h, log2e, m), w, z');
    TimesDo(AttentionAt(E, h', log2e, m, d), AttentionAt(E, h, log2e, m, d), 1.0 / z', s * a, w, g.dO(m, d));
  }

  lemma TimesDo(o': real, o: real, c: real, sa: real, w: real, y: real)
    requires o' == o + c * (sa - w * o)
    ensures o' * y == o * y + (c * (sa * y) + -(c * w) * (o * y))
  {
  }

  lemma CombineSums(after: int -> real, before: int -> real, direct: int -> real, c: real, w: real, n: int)
    requires forall d :: after(d) == before(d) + (c * direct(d) + -(c * w) * before(d))
    ensures Sum(after, 0, n) == Sum(before, 0, n) + (c * Sum(direct, 0, n) + -(c * w) * Sum(before, 0, n))
  {
    hide Sum;
    var p, q := (d: int) => c * direct(d), (d: int) => -(c * w) * before(d);
    var r := (d: int) => p(d) + q(d);
    SumScale(c, direct, p, 0, n);
    SumScale(-(c * w), before, q, 0, n);
    SumAdd(p, q, r, 0, n);
    SumAdd(before, r, after, 0, n);
  }

  lemma Spread(c: real, w: real, x: real, delta: real)
    ensures c * x + -(c * w) * delta == c * (x - w * delta)
  {
  }

  /** ds is the gradient: whatever the scores of a row change by, its out . dO changes by exactly the sum of
      ds times (growth of the key's weight), over one plus the same sum for p. With or without dropout. */
  lemma TrueDsIsTheGradient(E: real -> real, h: Head, h': Head, g: Grad, log2e: real, m: int, y: int -> real)
    requires IsExp(E) && h.Valid() && Shifted(h, h', log2e, m, y)
    ensures var u := Growth(E, y);
      var grown := 1.0 + Sum(Times(u, WeightShareFn(E, h, log2e, m)), 0, h.seqlenK);
      && grown > 0.0
      && DeltaAt(E, h', g, log2e, m) - DeltaAt(E, h, g, log2e, m)
           == Sum(Times(u, TrueDsFn(E, h, g, log2e, m)), 0, h.seqlenK) / grown
  {
    hide Sum, Denominator, WeightFn, DpAt, DeltaAt, Growth;
    DenominatorPositive(E, h, log2e, m);
    ShiftedDelta(E, h, h', g, log2e, m, y);
    ShiftedWeights(E, h, h', log2e, m, y);
    var u, z, z' := Growth(E, y), Denominator(E, h, log2e, m), Denominator(E, h', log2e, m);
    var w, p, ds := WeightFn(E, h, log2e, m), WeightShareFn(E, h, log2e, m), TrueDsFn(E, h, g, log2e, m);
    forall n | 0 <= n < h.seqlenK ensures Times(u, w)(n) == z * Times(u, p)(n) { ShareBack(u(n), w(n), z, p(n)); }
    SumScale(z, Times(u, p), Times(u, w), 0, h.seqlenK);
    GrownDs(E, h, g, log2e, m, y);
    OverShares(z, z', Sum(Times(u, p), 0, h.seqlenK), Sum(Times(u, w), 0, h.seqlenK),
               Sum(GrownDp(E, h, g, log2e, m, y), 0, h.seqlenK), DeltaAt(E, h, g, log2e, m), Sum(Times(u, ds), 0, h.seqlenK));
  }

  lemma ShareBack(u: real, w: real, z: real, p: real)
    requires z > 0.0 && p == w / z
    ensures u * w == z * (u * p)
  {
    assert z * p == w;
  }

  /** Key by key, u w dp is Z times u ds plus u w delta. */
  lemma GrownDs(E: real -> real, h: Head, g: Grad, log2e: real, m: int, y: int -> real)
    requires IsExp(E) && h.Valid()
    ensures var u, w := Growth(E, y), WeightFn(E, h, log2e, m);
      Sum(GrownDp(E, h, g, log2e, m, y), 0, h.seqlenK)
        == Denominator(E, h, log2e, m) * Sum(Times(u, TrueDsFn(E, h, g, log2e, m)), 0, h.seqlenK)
           + DeltaAt(E, h, g, log2e, m) * Sum(Times(u, w), 0, h.seqlenK)
  {
    hide Sum, Denominator, GrownDp, TrueDsFn, DeltaAt, Growth, WeightFn, Times;
    var u, w, ds := Growth(E, y), WeightFn(E, h, log2e, m), TrueDsFn(E, h, g, log2e, m);
    var z, delta := Denominator(E, h, log2e, m), DeltaAt(E, h, g, log2e, m);
    forall n | 0 <= n < h.seqlenK
      ensures GrownDp(E, h, g, log2e, m, y)(n) == z * Times(u, ds)(n) + delta * Times(u, w)(n)
    {
      GrownDsOfKey(E, h, g, log2e, m, y, n);
    }
    SumCombination(GrownDp(E, h, g, log2e, m, y), z, Times(u, ds), delta, Times(u, w), h.seqlenK);
  }

  lemma SumCombination(f: int -> real, z: real, a: int -> real, delta: real, b: int -> real, hi: int)
    requires forall n :: 0 <= n < hi ==> f(n) == z * a(n) + delta * b(n)
    ensures Sum(f, 0, hi) == z * Sum(a, 0, hi) + delta * Sum(b, 0, hi)
  {
    hide Sum;
    var za, db := (n: int) => z * a(n), (n: int) => delta * b(n);
    SumScale(z, a, za, 0, hi);
    SumScale(delta, b, db, 0, hi);
    SumAdd(za, db, f, 0, hi);
  }

  lemma GrownDsOfKey(E: real -> real, h: Head, g: Grad, log2e: real, m: int, y: int -> real, n: int)
    requires IsExp(E) && h.Valid() && 0 <= n
    ensures var u := Growth(E, y);
      GrownDp(E, h, g, log2e, m, y)(n) == Denominator(E, h, log2e, m) * Times(u, TrueDsFn(E, h, g, log2e, m))(n)
        + DeltaAt(E, h, g, log2e, m) * Times(u, WeightFn(E, h, log2e, m))(n)
  {
    hide Denominator, DpAt, DeltaAt, Growth, Head.Logit;
    DenominatorPositive(E, h, log2e, m);
    var u, w, z := Growth(E, y)(n), WeightFn(E, h, log2e, m)(n), Denominator(E, h, log2e, m);
    if h.Sees(m, n) {
      DsTimesZ(z, u, w, ForwardWeight(E, h, log2e, m, n), DpAt(h, g, m, n), DeltaAt(E, h, g, log2e, m));
    } else {
      NothingGrows(z, u, w, TrueDsFn(E, h, g, log2e, m)(n), if 0 <= n then DpAt(h, g, m, n) else 0.0, DeltaAt(E, h, g, log2e, m));
    }
  }

  lemma NothingGrows(z: real, u: real, w: real, ds: real, dp: real, delta: real)
    requires w == 0.0 && ds == 0.0
    ensures u * (w * dp) == z * (u * ds) + delta * (u * w)
  {
  }

  lemma DsTimesZ(z: real, u: real, w: real, p: real, dp: real, delta: real)
    requires z > 0.0 && p == w / z
    ensures u * (w * dp) == z * (u * (p * (dp - delta))) + delta * (u * w)
  {
    assert z * p == w;
    assert z * (u * (p * (dp - delta))) == u * ((z * p) * (dp - delta));
  }

  lemma OverShares(z: real, z': real, p: real, w: real, grownDp: real, delta: real, ds: real)
    requires z > 0.0 && z' > 0.0 && z' == z + w && w == z * p && grownDp == z * ds + delta * w
    ensures 1.0 + p > 0.0 && 1.0 / z' * (grownDp - w * delta) == ds / (1.0 + p)
  {
    var q := 1.0 + p;
    assert q * z == z';
    QuotientPositive(z', z);
    QuotientOf(q, z, z');
    assert grownDp - w * delta == z * ds;
    CancelShare(z, q, ds);
  }

  lemma CancelShare(z: real, q: real, ds: real)
    requires z > 0.0 && q > 0.0
    ensures q * z > 0.0 && 1.0 / (q * z) * (z * ds) == ds / q
  {
    var r := ds / q;
    assert r * q == ds;
    assert 1.0 / (q * z) * (z * (r * q)) == r by { assert 1.0 / (q * z) * (q * z * r) == r; assert z * (r * q) == q * z * r; }
  }

  /** The same of what the kernels compute: the rebuilt ds and p of a stored row are the gradient, the row's
      factor standing where the exact formula has one. */
  lemma DsIsTheGradient(E: real -> real, Lg: real -> real, h: Head, h': Head, g: Grad, log2e: real, ln2: real, m: int, y: int -> real)
    requires StoredRow(E, Lg, h, g, log2e, ln2, m) && Shifted(h, h', log2e, m, y)
    ensures var u := Growth(E, y);
      var grown := RowFactor(E, Lg, h, log2e, ln2, m) + Sum(Times(u, ProbFn(E, h, g, log2e, m)), 0, h.seqlenK);
      && grown > 0.0
      && DeltaAt(E, h', g, log2e, m) - DeltaAt(E, h, g, log2e, m)
           == Sum(Times(u, DsFn(E, h, g, log2e, m)), 0, h.seqlenK) / grown
  {
    hide Sum, LseAt, DeltaAt, ProbAt, DsAt, ForwardWeight, TrueDs, Growth, PairFactor, RowFactor, Shifted, Times;
    var u := Growth(E, y);
    TrueDsIsTheGradient(E, h, h', g, log2e, m, y);
    StoredGrowths(E, Lg, h, g, log2e, ln2, m, u);
    RowFactorPositive(E, Lg, h, log2e, ln2, m);
    CommonFactor(RowFactor(E, Lg, h, log2e, ln2, m), Sum(Times(u, TrueDsFn(E, h, g, log2e, m)), 0, h.seqlenK),
                 Sum(Times(u, WeightShareFn(E, h, log2e, m)), 0, h.seqlenK),
                 Sum(Times(u, DsFn(E, h, g, log2e, m)), 0, h.seqlenK), Sum(Times(u, ProbFn(E, h, g, log2e, m)), 0, h.seqlenK));
  }

  lemma StoredGrowths(E: real -> real, Lg: real -> real, h: Head, g: Grad, log2e: real, ln2: real, m: int, u: int -> real)
    requires StoredRow(E, Lg, h, g, log2e, ln2, m)
    ensures Sum(Times(u, ProbFn(E, h, g, log2e, m)), 0, h.seqlenK)
         == RowFactor(E, Lg, h, log2e, ln2, m) * Sum(Times(u, WeightShareFn(E, h, log2e, m)), 0, h.seqlenK)
    ensures Sum(Times(u, DsFn(E, h, g, log2e, m)), 0, h.seqlenK)
         == RowFactor(E, Lg, h, log2e, ln2, m) * Sum(Times(u, TrueDsFn(E, h, g, log2e, m)), 0, h.seqlenK)
  {
    hide Sum, LseAt, DeltaAt, ProbAt, DsAt, ForwardWeight, TrueDs, PairFactor, RowFactor, Times;
    var p, p', ds, ds' := ProbFn(E, h, g, log2e, m), WeightShareFn(E, h, log2e, m), DsFn(E, h, g, log2e, m), TrueDsFn(E, h, g, log2e, m);
    forall n
      ensures p(n) == PairFactor(E, Lg, h, log2e, log2e, ln2, m, n) * p'(n)
      ensures ds(n) == PairFactor(E, Lg, h, log2e, log2e, ln2, m, n) * ds'(n)
    {
      StoredPair(E, Lg, h, g, log2e, log2e, ln2, m, n);
    }
    StoredGrowth(E, Lg, h, g, log2e, ln2, m, u, p, p');
    StoredGrowth(E, Lg, h, g, log2e, ln2, m, u, ds, ds');
  }

  lemma StoredGrowth(E: real -> real, Lg: real -> real, h: Head, g: Grad, log2e: real, ln2: real, m: int,
                     u: int -> real, f: int -> real, f': int -> real)
    requires StoredRow(E, Lg, h, g, log2e, ln2, m)
    requires forall n :: f(n) == PairFactor(E, Lg, h, log2e, log2e, ln2, m, n) * f'(n)
    ensures Sum(Times(u, f), 0, h.seqlenK) == RowFactor(E, Lg, h, log2e, ln2, m) * Sum(Times(u, f'), 0, h.seqlenK)
  {
    hide Sum, LseAt, DeltaAt, PairFactor, RowFactor;
    forall n ensures Times(u, f)(n) == PairFactor(E, Lg, h, log2e, log2e, ln2, m, n) * Times(u, f')(n) {
      CommuteFactor(u(n), PairFactor(E, Lg, h, log2e, log2e, ln2, m, n), f'(n));
    }
    StoredRowSums(E, Lg, h, g, log2e, ln2, m, Times(u, f), Times(u, f'));
  }

  lemma RowFactorPositive(E: real -> real, Lg: real -> real, h: Head, log2e: real, ln2: real, m: int)
    requires IsExp(E)
    ensures RowFactor(E, Lg, h, log2e, ln2, m) > 0.0
  {
    hide LseBase2At, ExponentError;
    assert ExpPositive(E, ExponentError(LseBase2At(E, Lg, h, log2e, m), log2e, log2e, ln2, 0.0));
  }

  lemma CommuteFactor(u: real, f: real, x: real)
    ensures u * (f * x) == f * (u * x)
  {
  }

  lemma CommonFactor(c: real, s: real, p: real, s': real, p': real)
    requires c > 0.0 && 1.0 + p > 0.0 && s' == c * s && p' == c * p
    ensures c + p' > 0.0 && s' / (c + p') == s / (1.0 + p)
  {
    var q := 1.0 + p;
    var r := s / q;
    assert c + p' == c * q;
    QuotientTimes(s, q);
    ProductMoves(r, c, q, s);
    QuotientOf(r, c + p', s');
  }

  lemma QuotientTimes(s: real, q: real)
    requires q > 0.0
    ensures s / q * q == s
  {
  }

  lemma ProductMoves(r: real, c: real, q: real, s: real)
    requires r * q == s && c > 0.0 && q > 0.0
    ensures r * (c * q) == c * s && c * q > 0.0
  {
    assert r * (c * q) == c * (r * q);
  }

  // ---------------------------------------------------------------- changes that shift scores

  /** The scores of a row move by its bias's move, converted to base 2. */
  function BiasShift(log2e: real, x: Tensor, m: int): int -> real { n => x(m, n) * log2e }

  lemma MovedBiasShifts(h: Head, h': Head, log2e: real, m: int, x: Tensor)
    requires h.Valid() && h' == h.(bias := h'.bias)
    requires forall n :: h'.BiasAt(m, n) == h.BiasAt(m, n) + x(m, n)
    ensures Shifted(h, h', log2e, m, BiasShift(log2e, x, m))
  {
    hide Sum;
    forall n ensures LogitShifted(h, h', log2e, m, BiasShift(log2e, x, m), n) {
      assert h'.Dot(m, n) == h.Dot(m, n) && h'.QkScale(log2e) == h.QkScale(log2e);
      SumTimes(h.BiasAt(m, n), x(m, n), log2e);
    }
  }

  lemma SumTimes(a: real, b: real, c: real)
    ensures (a + b) * c == a * c + b * c
  {
  }

  /** The scores of a row move by the scale times x . k when its query moves by x. */
  function QueryShift(h: Head, log2e: real, x: int -> real): int -> real { n => h.QkScale(log2e) * Sum(RowTerm(h.k, x, n), 0, h.hdimQk) }

  lemma MovedQueryShifts(h: Head, h': Head, log2e: real, m: int, x: int -> real)
    requires h.Valid() && h' == h.(q := h'.q) && forall d :: h'.q(m, d) == h.q(m, d) + x(d)
    ensures Shifted(h, h', log2e, m, QueryShift(h, log2e, x))
  {
    hide Sum;
    forall n ensures LogitShifted(h, h', log2e, m, QueryShift(h, log2e, x), n) {
      var a, b, c := (d: int) => h.q(m, d) * h.k(n, d), RowTerm(h.k, x, n), (d: int) => h'.q(m, d) * h'.k(n, d);
      forall d ensures c(d) == a(d) + b(d) { assert (h.q(m, d) + x(d)) * h.k(n, d) == h.q(m, d) * h.k(n, d) + h.k(n, d) * x(d); }
      SumAdd(a, b, c, 0, h.hdimQk);
      SumEqual(a, d => h.q(m, d) * h.k(n, d), 0, h.hdimQk);
      SumEqual(c, d => h'.q(m, d) * h'.k(n, d), 0, h.hdimQk);
      assert h'.QkScale(log2e) == h.QkScale(log2e) && h'.BiasAt(m, n) == h.BiasAt(m, n);
      ScaleSplits(h.QkScale(log2e), h.Dot(m, n), Sum(b, 0, h.hdimQk));
    }
  }

  lemma ScaleSplits(s: real, a: real, b: real)
    ensures s * (a + b) == s * a + s * b
  {
  }

  /** When the keys move, the scores of a row move by the scale times its query against each key's move. */
  function KeyShift(h: Head, log2e: real, x: Tensor, m: int): int -> real { n => h.QkScale(log2e) * Sum(RowTerm(x, RowOf(h.q, m), n), 0, h.hdimQk) }

  lemma MovedKeysShift(h: Head, h': Head, log2e: real, m: int, x: Tensor)
    requires h.Valid() && h' == h.(k := h'.k) && forall n, d :: h'.k(n, d) == h.k(n, d) + x(n, d)
    ensures Shifted(h, h', log2e, m, KeyShift(h, log2e, x, m))
  {
    hide Sum;
    forall n ensures LogitShifted(h, h', log2e, m, KeyShift(h, log2e, x, m), n) {
      var a, b, c := (d: int) => h.q(m, d) * h.k(n, d), RowTerm(x, RowOf(h.q, m), n), (d: int) => h'.q(m, d) * h'.k(n, d);
      forall d ensures c(d) == a(d) + b(d) { assert h.q(m, d) * (h.k(n, d) + x(n, d)) == h.q(m, d) * h.k(n, d) + x(n, d) * h.q(m, d); }
      SumAdd(a, b, c, 0, h.hdimQk);
      SumEqual(a, d => h.q(m, d) * h.k(n, d), 0, h.hdimQk);
      SumEqual(c, d => h'.q(m, d) * h'.k(n, d), 0, h.hdimQk);
      assert h'.QkScale(log2e) == h.QkScale(log2e) && h'.BiasAt(m, n) == h.BiasAt(m, n);
      ScaleSplits(h.QkScale(log2e), h.Dot(m, n), Sum(b, 0, h.hdimQk));
    }
  }

  // ---------------------------------------------------------------- dV

  /** out . dO of every row; the loss whose gradient the backward pass computes is their sum. */
  ghost function DeltaFn(E: real -> real, h: Head, g: Grad, log2e: real): int -> real
    requires IsExp(E) && h.Valid()
  {
    m => DeltaAt(E, h, g, log2e, m)
  }

  ghost function Loss(E: real -> real, h: Head, g: Grad, log2e: real): real
    requires IsExp(E) && h.Valid()
  {
    Sum(DeltaFn(E, h, g, log2e), 0, h.seqlenQ)
  }

  /** The loss is the inner product of the forward output with dO. */
  lemma LossIsInnerProduct(E: real -> real, h: Head, g: Grad, log2e: real)
    requires IsExp(E) && h.Valid()
    ensures Loss(E, h, g, log2e)
         == Sum(d => Sum(m => AttentionAt(E, h, log2e, m, d) * g.dO(m, d), 0, h.seqlenQ), 0, h.hdimVo)
  {
    hide Sum, AttentionAt;
    var f := (m: int, d: int) => AttentionAt(E, h, log2e, m, d) * g.dO(m, d);
    forall m ensures DeltaFn(E, h, g, log2e)(m) == SumCols(f, 0, h.hdimVo)(m) {
      SumEqual(OutDo(E, h, g, log2e, m), d => f(m, d), 0, h.hdimVo);
    }
    SumEqual(DeltaFn(E, h, g, log2e), SumCols(f, 0, h.hdimVo), 0, h.seqlenQ);
    SumExchange(f, 0, h.seqlenQ, 0, h.hdimVo);
    forall d ensures SumRows(f, 0, h.seqlenQ)(d) == Sum(m => AttentionAt(E, h, log2e, m, d) * g.dO(m, d), 0, h.seqlenQ) {
      SumEqual(m => f(m, d), m => AttentionAt(E, h, log2e, m, d) * g.dO(m, d), 0, h.seqlenQ);
    }
    SumEqual(SumRows(f, 0, h.seqlenQ), d => Sum(m => AttentionAt(E, h, log2e, m, d) * g.dO(m, d), 0, h.seqlenQ), 0, h.hdimVo);
  }

  ghost function TrueDvFn(E: real -> real, h: Head, log2e: real, n: int): int -> real
    requires IsExp(E) && h.Valid()
  {
    m => TrueDropped(E, h, log2e, m, n)
  }

  /** dV of the forward weights themselves. */
  ghost function TrueDv(E: real -> real, h: Head, g: Grad, log2e: real, n: int, d: int): real
    requires IsExp(E) && h.Valid()
  {
    Sum(ColTerm(TrueDvFn(E, h, log2e, n), g.dO, d), 0, h.seqlenQ)
  }

  /** The weights do not depend on V. */
  lemma SameWeights(E: real -> real, h: Head, h': Head, log2e: real, m: int, n: int)
    requires IsExp(E) && h.Valid() && h' == h.(v := h'.v)
    ensures h'.Valid() && TrueDropped(E, h', log2e, m, n) == TrueDropped(E, h, log2e, m, n)
  {
    hide Sum;
    forall k ensures h'.Logit(log2e, m, k) == h.Logit(log2e, m, k) && h'.Sees(m, k) == h.Sees(m, k) {
      assert h'.Dot(m, k) == h.Dot(m, k);
    }
    hide Head.Logit, Head.Sees;
    SumEqual(WeightFn(E, h', log2e, m), WeightFn(E, h, log2e, m), 0, h.seqlenK);
    if h.Sees(m, n) { assert h'.Keeps(m, n) == h.Keeps(m, n); }
  }

  /** How out . dO of a row responds to another V. */
  lemma RowRespondsToV(E: real -> real, h: Head, h': Head, g: Grad, log2e: real, m: int, w: Tensor)
    requires IsExp(E) && h.Valid() && h' == h.(v := h'.v)
    requires forall n, d :: w(n, d) == h'.v(n, d) - h.v(n, d)
    ensures h'.Valid()
    ensures DeltaAt(E, h', g, log2e, m) - DeltaAt(E, h, g, log2e, m) == SumCols(Answer(E, h, g, log2e, w), 0, h.seqlenK)(m)
  {
    hide Sum, AttentionAt, TrueDropped;
    SameWeights(E, h, h', log2e, m, 0);
    var c, c', y := TrueDroppedFn(E, h, log2e, m), TrueDroppedFn(E, h', log2e, m), RowOf(g.dO, m);
    var before, after := OutDo(E, h, g, log2e, m), OutDo(E, h', g, log2e, m);
    var change := (d: int) => Sum(ColTerm(c, w, d), 0, h.seqlenK) * y(d);
    forall d ensures after(d) == before(d) + change(d) {
      AttentionFromWeights(E, h, log2e, m, d);
      AttentionFromWeights(E, h', log2e, m, d);
      forall n ensures ColTerm(c', h'.v, d)(n) == ColTerm(c, h.v, d)(n) + ColTerm(c, w, d)(n) {
        SameWeights(E, h, h', log2e, m, n);
        assert c(n) * h'.v(n, d) == c(n) * h.v(n, d) + c(n) * w(n, d);
      }
      SumAdd(ColTerm(c, h.v, d), ColTerm(c, w, d), ColTerm(c', h'.v, d), 0, h.seqlenK);
      SumTimes(Sum(ColTerm(c, h.v, d), 0, h.seqlenK), Sum(ColTerm(c, w, d), 0, h.seqlenK), y(d));
    }
    SumAdd(before, change, after, 0, h.hdimVo);
    WeightedExchange(c, w, y, h.seqlenK, h.hdimVo);
    SumEqual(change, d => Sum(ColTerm(c, w, d), 0, h.seqlenK) * y(d), 0, h.hdimVo);
    var f := Answer(E, h, g, log2e, w);
    forall n ensures f(m, n) == c(n) * Sum(RowTerm(w, y, n), 0, h.hdimVo) { }
    SumEqual(n => c(n) * Sum(RowTerm(w, y, n), 0, h.hdimVo), n => f(m, n), 0, h.seqlenK);
  }

  function ChangeOfV(h: Head, h': Head): Tensor { (n, d) => h'.v(n, d) - h.v(n, d) }

  /** Row n of dV against row n of a change w of V. */
  ghost function DvRows(E: real -> real, h: Head, g: Grad, log2e: real, w: Tensor): int -> real
    requires IsExp(E) && h.Valid()
  {
    n => Sum(d => TrueDv(E, h, g, log2e, n, d) * w(n, d), 0, h.hdimVo)
  }

  /** What row m answers to the change of key n. */
  ghost function Answer(E: real -> real, h: Head, g: Grad, log2e: real, w: Tensor): Tensor
    requires IsExp(E) && h.Valid()
  {
    (m, n) => TrueDropped(E, h, log2e, m, n) * Sum(RowTerm(w, RowOf(g.dO, m), n), 0, h.hdimVo)
  }

  /** dV is the gradient: attention is linear in V, and replacing V changes the loss by exactly dV . (V' - V). */
  lemma DvIsTheGradient(E: real -> real, h: Head, h': Head, g: Grad, log2e: real)
    requires IsExp(E) && h.Valid() && h' == h.(v := h'.v)
    ensures h'.Valid()
    ensures Loss(E, h', g, log2e) - Loss(E, h, g, log2e) == Sum(DvRows(E, h, g, log2e, ChangeOfV(h, h')), 0, h.seqlenK)
  {
    hide Sum, DeltaAt, Answer, DvRows;
    var w := ChangeOfV(h, h');
    var f := Answer(E, h, g, log2e, w);
    RowRespondsToV(E, h, h', g, log2e, 0, w);
    var before, after, rows := DeltaFn(E, h, g, log2e), DeltaFn(E, h', g, log2e), SumCols(f, 0, h.seqlenK);
    forall m | 0 <= m < h.seqlenQ ensures after(m) == before(m) + rows(m) {
      RowRespondsToV(E, h, h', g, log2e, m, w);
    }
    SumAdd(before, rows, after, 0, h.seqlenQ);
    SumExchange(f, 0, h.seqlenQ, 0, h.seqlenK);
    forall n ensures SumRows(f, 0, h.seqlenQ)(n) == DvRows(E, h, g, log2e, w)(n) { AnswersToKey(E, h, g, log2e, n, w); }
    SumEqual(SumRows(f, 0, h.seqlenQ), DvRows(E, h, g, log2e, w), 0, h.seqlenK);
  }

  lemma AnswersToKey(E: real -> real, h: Head, g: Grad, log2e: real, n: int, w: Tensor)
    requires IsExp(E) && h.Valid()
    ensures SumRows(Answer(E, h, g, log2e, w), 0, h.seqlenQ)(n) == DvRows(E, h, g, log2e, w)(n)
  {
    hide Sum, TrueDropped;
    var c, y, f := TrueDvFn(E, h, log2e, n), RowOf(w, n), Answer(E, h, g, log2e, w);
    WeightedExchange(c, g.dO, y, h.seqlenQ, h.hdimVo);
    var dv := (d: int) => TrueDv(E, h, g, log2e, n, d) * w(n, d);
    forall d ensures dv(d) == Sum(ColTerm(c, g.dO, d), 0, h.seqlenQ) * y(d) {
      assert TrueDv(E, h, g, log2e, n, d) == Sum(ColTerm(c, g.dO, d), 0, h.seqlenQ) && y(d) == w(n, d);
    }
    SumEqual(dv, d => Sum(ColTerm(c, g.dO, d), 0, h.seqlenQ) * y(d), 0, h.hdimVo);
    SumEqual(dv, d => TrueDv(E, h, g, log2e, n, d) * w(n, d), 0, h.hdimVo);
    forall m ensures f(m, n) == c(m) * Sum(RowTerm(g.dO, y, m), 0, h.hdimVo) {
      SumEqual(RowTerm(w, RowOf(g.dO, m), n), RowTerm(g.dO, y, m), 0, h.hdimVo);
    }
    SumEqual(m => f(m, n), m => c(m) * Sum(RowTerm(g.dO, y, m), 0, h.hdimVo), 0, h.seqlenQ);
  }
}
