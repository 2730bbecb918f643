/** Finite sums and maxima over integer ranges, as the tensor reductions tl.sum, tl.dot and tl.max use them. */
module RealSums {

  function Sum(f: int -> real, lo: int, hi: int): real
    decreases hi - lo
  {
    if lo >= hi then 0.0 else Sum(f, lo, hi - 1) + f(hi - 1)
  }

  lemma SumEmpty(f: int -> real, x: int)
    ensures Sum(f, x, x) == 0.0
  {
  }

  lemma {:induction false} SumSplit(f: int -> real, a: int, b: int, c: int)
    requires a <= b <= c
    ensures Sum(f, a, c) == Sum(f, a, b) + Sum(f, b, c)
    decreases c - b
  {
    if b < c { SumSplit(f, a, b, c - 1); }
  }

  lemma {:induction false} SumEqual(f: int -> real, g: int -> real, lo: int, hi: int)
    requires forall x :: lo <= x < hi ==> f(x) == g(x)
    ensures Sum(f, lo, hi) == Sum(g, lo, hi)
    decreases hi - lo
  {
    if lo < hi { SumEqual(f, g, lo, hi - 1); }
  }

  lemma {:induction false} SumZero(f: int -> real, lo: int, hi: int)
    requires forall x :: lo <= x < hi ==> f(x) == 0.0
    ensures Sum(f, lo, hi) == 0.0
    decreases hi - lo
  {
    if lo < hi { SumZero(f, lo, hi - 1); }
  }

  lemma {:induction false} SumNonNegative(f: int -> real, lo: int, hi: int)
    requires forall x :: lo <= x < hi ==> f(x) >= 0.0
    ensures Sum(f, lo, hi) >= 0.0
    decreases hi - lo
  {
    if lo < hi { SumNonNegative(f, lo, hi - 1); }
  }

  /** h = c * f on the range. */
  lemma {:induction false} SumScale(c: real, f: int -> real, h: int -> real, lo: int, hi: int)
    requires forall x :: lo <= x < hi ==> h(x) == c * f(x)
    ensures Sum(h, lo, hi) == c * Sum(f, lo, hi)
    decreases hi - lo
  {
    if lo < hi { SumScale(c, f, h, lo, hi - 1); }
  }

  /** h = f + g on the range. */
  lemma {:induction false} SumAdd(f: int -> real, g: int -> real, h: int -> real, lo: int, hi: int)
    requires forall x :: lo <= x < hi ==> h(x) == f(x) + g(x)
    ensures Sum(h, lo, hi) == Sum(f, lo, hi) + Sum(g, lo, hi)
    decreases hi - lo
  {
    if lo < hi { SumAdd(f, g, h, lo, hi - 1); }
  }

  /** The inner sums of a two-dimensional array, along either axis. */
  function SumCols(f: (int, int) -> real, lo: int, hi: int): int -> real {
    x => Sum(y => f(x, y), lo, hi)
  }

  function SumRows(f: (int, int) -> real, lo: int, hi: int): int -> real {
    y => Sum(x => f(x, y), lo, hi)
  }

  lemma {:induction false} SumExchange(f: (int, int) -> real, a: int, b: int, c: int, d: int)
    ensures Sum(SumCols(f, c, d), a, b) == Sum(SumRows(f, a, b), c, d)
    decreases b - a
  {
    if a >= b {
      SumZero(SumRows(f, a, b), c, d);
    } else {
      SumExchange(f, a, b - 1, c, d);
      SumAdd(SumRows(f, a, b - 1), y => f(b - 1, y), SumRows(f, a, b), c, d);
    }
  }

  /** c(n) x(n, d) as a function of n, and x(n, d) y(d) as a function of d. */
  function ColTerm(c: int -> real, x: (int, int) -> real, d: int): int -> real { n => c(n) * x(n, d) }

  function RowTerm(x: (int, int) -> real, y: int -> real, n: int): int -> real { d => x(n, d) * y(d) }

  /** (c x) . y == c . (x y): a vector-matrix-vector product may be summed in either order. */
  lemma WeightedExchange(c: int -> real, x: (int, int) -> real, y: int -> real, N: int, D: int)
    ensures Sum(d => Sum(ColTerm(c, x, d), 0, N) * y(d), 0, D) == Sum(n => c(n) * Sum(RowTerm(x, y, n), 0, D), 0, N)
  {
    hide Sum;
    var f := (n: int, d: int) => c(n) * x(n, d) * y(d);
    SumExchange(f, 0, N, 0, D);
    forall d ensures SumRows(f, 0, N)(d) == Sum(ColTerm(c, x, d), 0, N) * y(d) {
      SumScale(y(d), ColTerm(c, x, d), n => f(n, d), 0, N);
    }
    SumEqual(d => Sum(ColTerm(c, x, d), 0, N) * y(d), SumRows(f, 0, N), 0, D);
    forall n ensures SumCols(f, 0, D)(n) == c(n) * Sum(RowTerm(x, y, n), 0, D) {
      forall d ensures f(n, d) == c(n) * RowTerm(x, y, n)(d) { }
      SumScale(c(n), RowTerm(x, y, n), d => f(n, d), 0, D);
    }
    SumEqual(n => c(n) * Sum(RowTerm(x, y, n), 0, D), SumCols(f, 0, D), 0, N);
  }

  /** The same with a common factor, for sums given under other names. */
  lemma ScaledExchange(scale: real, c: int -> real, x: (int, int) -> real, y: int -> real, N: int, D: int,
                       outer: int -> real, total: int -> real)
    requires forall d :: 0 <= d < D ==> outer(d) == Sum(ColTerm(c, x, d), 0, N) * scale * y(d)
    requires forall n :: 0 <= n < N ==> total(n) == scale * (c(n) * Sum(RowTerm(x, y, n), 0, D))
    ensures Sum(outer, 0, D) == Sum(total, 0, N)
  {
    hide Sum;
    WeightedExchange(c, x, y, N, D);
    var a := (d: int) => Sum(ColTerm(c, x, d), 0, N) * y(d);
    var b := (n: int) => c(n) * Sum(RowTerm(x, y, n), 0, D);
    forall d | 0 <= d < D ensures outer(d) == scale * a(d) {
      SwapFactors(Sum(ColTerm(c, x, d), 0, N), scale, y(d));
    }
    SumScale(scale, a, outer, 0, D);
    SumScale(scale, b, total, 0, N);
    SumEqual(a, d => Sum(ColTerm(c, x, d), 0, N) * y(d), 0, D);
    SumEqual(b, n => c(n) * Sum(RowTerm(x, y, n), 0, D), 0, N);
  }

  lemma SwapFactors(s: real, scale: real, y: real)
    ensures s * scale * y == scale * (s * y)
  {
  }

  // ---------------------------------------------------------------- three disjoint intervals

  /** f inside [lo, hi), zero outside. */
  function Restrict(f: int -> real, lo: int, hi: int): int -> real {
    x => if lo <= x < hi then f(x) else 0.0
  }

  lemma SumRestrict(f: int -> real, lo: int, hi: int, a: int, b: int)
    requires a <= lo <= hi <= b
    ensures Sum(Restrict(f, lo, hi), a, b) == Sum(f, lo, hi)
  {
    var g := Restrict(f, lo, hi);
    SumSplit(g, a, lo, b); SumSplit(g, lo, hi, b);
    SumZero(g, a, lo); SumEqual(g, f, lo, hi); SumZero(g, hi, b);
  }

  datatype Span = Span(lo: int, hi: int) {
    predicate Has(x: int) { lo <= x < hi }
  }

  ghost predicate DisjointSpans(p: Span, q: Span, r: Span) {
    forall x :: !(p.Has(x) && q.Has(x)) && !(p.Has(x) && r.Has(x)) && !(q.Has(x) && r.Has(x))
  }

  /** A function that vanishes on [a, b) outside three disjoint spans, and on the spans outside [a, b),
      has the same total over the spans as over [a, b). */
  lemma SumOverSpans(f: int -> real, p: Span, q: Span, r: Span, a: int, b: int)
    requires DisjointSpans(p, q, r)
    requires forall x :: a <= x < b && f(x) != 0.0 ==> p.Has(x) || q.Has(x) || r.Has(x)
    requires forall x :: !(a <= x < b) && (p.Has(x) || q.Has(x) || r.Has(x)) ==> f(x) == 0.0
    ensures Sum(f, p.lo, p.hi) + Sum(f, q.lo, q.hi) + Sum(f, r.lo, r.hi) == Sum(f, a, b)
  {
    SpanInside(f, p, a, b); SpanInside(f, q, a, b); SpanInside(f, r, a, b);
    var fp, fq, fr := Restrict(f, p.lo, p.hi), Restrict(f, q.lo, q.hi), Restrict(f, r.lo, r.hi);
    var fpq := (x: int) => fp(x) + fq(x);
    SumAdd(fp, fq, fpq, a, b);
    SumAdd(fpq, fr, f, a, b);
  }

  lemma SpanInside(f: int -> real, p: Span, a: int, b: int)
    requires forall x :: !(a <= x < b) && p.Has(x) ==> f(x) == 0.0
    ensures Sum(Restrict(f, p.lo, p.hi), a, b) == Sum(f, p.lo, p.hi)
  {
    if p.lo >= p.hi || a >= b {
      SumZero(Restrict(f, p.lo, p.hi), a, b);
      SumZero(f, p.lo, p.hi);
    } else {
      var lo, hi := if p.lo < a then p.lo else a, if p.hi > b then p.hi else b;
      var g := Restrict(f, p.lo, p.hi);
      SumRestrict(f, p.lo, p.hi, lo, hi);
      SumSplit(g, lo, a, hi); SumSplit(g, a, b, hi);
      SumZero(g, lo, a); SumZero(g, b, hi);
    }
  }

  // ---------------------------------------------------------------- running maximum of scores

  /** A score is minus infinity where it is masked out. */
  datatype Score = NegInf | Fin(value: real)

  function MaxReal(a: real, s: Score): real {
    if s.Fin? && a < s.value then s.value else a
  }

  /** max(init, f(lo), ..., f(hi - 1)) */
  function MaxOver(init: real, f: int -> Score, lo: int, hi: int): real
    decreases hi - lo
  {
    if lo >= hi then init else MaxReal(MaxOver(init, f, lo, hi - 1), f(hi - 1))
  }

  ghost predicate IsMaxOver(r: real, init: real, f: int -> Score, lo: int, hi: int) {
    && init <= r
    && (forall x :: lo <= x < hi && f(x).Fin? ==> f(x).value <= r)
    && (r == init || exists x :: lo <= x < hi && f(x) == Fin(r))
  }

  lemma {:induction false} MaxOverIsMax(init: real, f: int -> Score, lo: int, hi: int)
    ensures IsMaxOver(MaxOver(init, f, lo, hi), init, f, lo, hi)
    decreases hi - lo
  {
    if lo < hi {
      MaxOverIsMax(init, f, lo, hi - 1);
      assert f(hi - 1).Fin? ==> f(hi - 1) == Fin(f(hi - 1).value);
    }
  }

  lemma {:induction false} MaxOverEqual(init: real, f: int -> Score, g: int -> Score, lo: int, hi: int)
    requires forall x :: lo <= x < hi ==> f(x) == g(x)
    ensures MaxOver(init, f, lo, hi) == MaxOver(init, g, lo, hi)
    decreases hi - lo
  {
    if lo < hi { MaxOverEqual(init, f, g, lo, hi - 1); }
  }

  lemma {:induction false} MaxOverSplit(init: real, f: int -> Score, a: int, b: int, c: int)
    requires a <= b <= c
    ensures MaxOver(init, f, a, c) == MaxOver(MaxOver(init, f, a, b), f, b, c)
    decreases c - b
  {
    if b < c { MaxOverSplit(init, f, a, b, c - 1); }
  }

  /** The maximum, too, does not see in which order, or in how many spans, the scores are visited. */
  lemma MaxOverSpans(init: real, f: int -> Score, p: Span, q: Span, r: Span, a: int, b: int)
    requires forall x :: a <= x < b && f(x).Fin? ==> p.Has(x) || q.Has(x) || r.Has(x)
    requires forall x :: !(a <= x < b) && (p.Has(x) || q.Has(x) || r.Has(x)) ==> f(x).NegInf?
    ensures MaxOver(MaxOver(MaxOver(init, f, p.lo, p.hi), f, q.lo, q.hi), f, r.lo, r.hi) == MaxOver(init, f, a, b)
  {
    var mp := MaxOver(init, f, p.lo, p.hi);
    var mq := MaxOver(mp, f, q.lo, q.hi);
    var mr := MaxOver(mq, f, r.lo, r.hi);
    MaxOverIsMax(init, f, p.lo, p.hi);
    MaxOverIsMax(mp, f, q.lo, q.hi);
    MaxOverIsMax(mq, f, r.lo, r.hi);
    MaxOverIsMax(init, f, a, b);
    var m := MaxOver(init, f, a, b);
    assert mr <= m by {
      if mr != init {
        var x :| (p.Has(x) || q.Has(x) || r.Has(x)) && f(x) == Fin(mr);
        assert a <= x < b;
      }
    }
    assert m <= mr by {
      if m != init {
        var x :| a <= x < b && f(x) == Fin(m);
        assert p.Has(x) || q.Has(x) || r.Has(x);
      }
    }
  }
}
