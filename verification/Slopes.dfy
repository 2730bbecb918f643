/** Derivatives at zero of functions of one real variable: as much of the calculus as the gradients need. */
module Slopes {
  import opened RealSums

  function Abs(x: real): real { if x < 0.0 then -x else x }

  function Smaller(a: real, b: real): real { if a < b then a else b }

  /** x is base + slope t up to eps |t|. */
  predicate CloseAt(x: real, base: real, slope: real, eps: real, t: real) {
    Abs(Gap(x, base, slope, t)) <= eps * Abs(t)
  }

  function Gap(x: real, base: real, slope: real, t: real): real { x - base - slope * t }

  predicate Close(f: real -> real, base: real, slope: real, eps: real, t: real) { CloseAt(f(t), base, slope, eps, t) }

  ghost predicate Within(f: real -> real, base: real, slope: real, eps: real, radius: real) {
    radius > 0.0 && forall t :: Abs(t) < radius ==> Close(f, base, slope, eps, t)
  }

  ghost predicate HasRadius(f: real -> real, base: real, slope: real, eps: real) {
    exists radius :: Within(f, base, slope, eps, radius)
  }

  /** f(t) = base + slope t + o(t): f has the value base and the derivative slope at zero. */
  ghost predicate Expands(f: real -> real, base: real, slope: real) {
    forall eps :: eps > 0.0 ==> HasRadius(f, base, slope, eps)
  }

  lemma AbsTimes(x: real, y: real)
    ensures Abs(x * y) == Abs(x) * Abs(y)
  {
  }

  lemma AbsOfProduct(x: real, y: real, z: real)
    requires z == x * y
    ensures Abs(z) == Abs(x) * Abs(y)
  {
  }

  lemma AbsPositive(x: real)
    ensures Abs(x) >= 0.0
  {
  }

  lemma Triangle(x: real, y: real)
    ensures Abs(x + y) <= Abs(x) + Abs(y)
    ensures Abs(x - y) <= Abs(x) + Abs(y)
  {
  }

  lemma TimesMono(x: real, y: real, c: real)
    requires x <= y && c >= 0.0
    ensures x * c <= y * c && c * x <= c * y
  {
  }

  /** x / k */
  lemma Part(x: real, k: real) returns (part: real)
    requires x > 0.0 && k > 0.0
    ensures part > 0.0 && part * k == x
  {
    part := x / k;
  }

  lemma PartBound(part: real, y: real, x: real, t: real)
    requires part > 0.0 && part * (y + 1.0) == x && t >= 0.0
    ensures part * y * t <= x * t && part * y < x
  {
    assert part * y == x - part;
    TimesMono(part * y, x, t);
  }

  // ---------------------------------------------------------------- uniqueness

  /** The value and the derivative at zero are determined. */
  lemma ExpandsUniquely(f: real -> real, base: real, slope: real, slope': real)
    requires Expands(f, base, slope) && Expands(f, base, slope')
    ensures f(0.0) == base && slope == slope'
  {
    hide Within;
    assert HasRadius(f, base, slope, 1.0);
    var r :| Within(f, base, slope, 1.0, r);
    ValueAtZero(f, base, slope, r);
    if slope != slope' {
      var eps := Abs(slope - slope') / 4.0;
      assert HasRadius(f, base, slope, eps) && HasRadius(f, base, slope', eps);
      var a :| Within(f, base, slope, eps, a);
      var b :| Within(f, base, slope', eps, b);
      OneSlope(f, base, slope, slope', eps, a, b);
    }
  }

  lemma ValueAtZero(f: real -> real, base: real, slope: real, r: real)
    requires Within(f, base, slope, 1.0, r)
    ensures f(0.0) == base
  {
    assert Close(f, base, slope, 1.0, 0.0);
  }

  lemma OneSlope(f: real -> real, base: real, p: real, q: real, eps: real, a: real, b: real)
    requires Within(f, base, p, eps, a) && Within(f, base, q, eps, b) && eps == Abs(p - q) / 4.0
    ensures p == q
  {
    hide CloseAt;
    var t := Smaller(a, b) / 2.0;
    assert Close(f, base, p, eps, t) && Close(f, base, q, eps, t);
    SameMultiple(f(t), base, p, q, p - q, eps, t);
  }

  lemma SameMultiple(x: real, base: real, p: real, q: real, d: real, eps: real, t: real)
    requires t > 0.0 && d == p - q && eps == Abs(d) / 4.0
    requires CloseAt(x, base, p, eps, t) && CloseAt(x, base, q, eps, t)
    ensures p == q
  {
    assert p * t - q * t == d * t;
    assert eps * t == Abs(d) * t / 4.0;
    AbsTimes(d, t);
    assert Abs(d) * t <= 0.0;
    ZeroFactor(Abs(d), t);
  }

  lemma ZeroFactor(d: real, t: real)
    requires d >= 0.0 && t > 0.0 && d * t <= 0.0
    ensures d == 0.0
  {
  }

  // ---------------------------------------------------------------- sums and multiples

  lemma SlopeAdd(f: real -> real, g: real -> real, sum: real -> real, a: real, b: real, c: real, p: real, q: real, s: real)
    requires Expands(f, a, p) && Expands(g, b, q) && forall t :: sum(t) == f(t) + g(t)
    requires c == a + b && s == p + q
    ensures Expands(sum, c, s)
  {
    hide Within;
    forall eps | eps > 0.0 ensures HasRadius(sum, c, s, eps) {
      assert HasRadius(f, a, p, eps / 2.0) && HasRadius(g, b, q, eps / 2.0);
      var r1 :| Within(f, a, p, eps / 2.0, r1);
      var r2 :| Within(g, b, q, eps / 2.0, r2);
      WithinSum(f, g, sum, a, b, c, p, q, s, eps, r1, r2);
    }
  }

  lemma WithinSum(f: real -> real, g: real -> real, sum: real -> real, a: real, b: real, c: real, p: real, q: real, s: real,
                  eps: real, r1: real, r2: real)
    requires Within(f, a, p, eps / 2.0, r1) && Within(g, b, q, eps / 2.0, r2) && forall t :: sum(t) == f(t) + g(t)
    requires c == a + b && s == p + q
    ensures Within(sum, c, s, eps, Smaller(r1, r2))
  {
    hide CloseAt, Abs;
    forall t | Abs(t) < Smaller(r1, r2) ensures Close(sum, c, s, eps, t) {
      assert Close(f, a, p, eps / 2.0, t) && Close(g, b, q, eps / 2.0, t);
      SumError(f(t), g(t), a, b, c, p, q, s, eps, t);
    }
  }

  lemma SumError(x: real, y: real, a: real, b: real, c: real, p: real, q: real, s: real, eps: real, t: real)
    requires CloseAt(x, a, p, eps / 2.0, t) && CloseAt(y, b, q, eps / 2.0, t) && c == a + b && s == p + q
    ensures CloseAt(x + y, c, s, eps, t)
  {
    hide Abs;
    Triangle(Gap(x, a, p, t), Gap(y, b, q, t));
    assert Gap(x + y, c, s, t) == Gap(x, a, p, t) + Gap(y, b, q, t) by { assert s * t == p * t + q * t; }
    Halves(eps, Abs(t));
  }

  lemma Halves(eps: real, u: real)
    ensures eps / 2.0 * u + eps / 2.0 * u == eps * u
  {
  }

  lemma SlopeScale(c: real, f: real -> real, scaled: real -> real, a: real, p: real, a': real, p': real)
    requires Expands(f, a, p) && (forall t :: scaled(t) == c * f(t)) && a' == c * a && p' == c * p
    ensures Expands(scaled, a', p')
  {
    hide Within;
    forall eps | eps > 0.0 ensures HasRadius(scaled, a', p', eps) {
      var small := Part(eps, Abs(c) + 1.0);
      assert HasRadius(f, a, p, small);
      var r :| Within(f, a, p, small, r);
      WithinScaled(c, f, scaled, a, p, a', p', eps, small, r);
    }
  }

  lemma WithinScaled(c: real, f: real -> real, scaled: real -> real, a: real, p: real, a': real, p': real, eps: real, small: real, r: real)
    requires Within(f, a, p, small, r) && (forall t :: scaled(t) == c * f(t)) && a' == c * a && p' == c * p
    requires small > 0.0 && small * (Abs(c) + 1.0) == eps
    ensures Within(scaled, a', p', eps, r)
  {
    hide CloseAt, Abs;
    forall t | Abs(t) < r ensures Close(scaled, a', p', eps, t) {
      assert Close(f, a, p, small, t);
      ScaledError(c, f(t), scaled(t), a, p, a', p', t, eps, small);
    }
  }

  lemma ScaledError(c: real, x: real, x': real, a: real, p: real, a': real, p': real, t: real, eps: real, small: real)
    requires small > 0.0 && small * (Abs(c) + 1.0) == eps && CloseAt(x, a, p, small, t)
    requires x' == c * x && a' == c * a && p' == c * p
    ensures CloseAt(x', a', p', eps, t)
  {
    hide Abs;
    var e, e' := Gap(x, a, p, t), Gap(x', a', p', t);
    ScaledDifference(c, x, x', a, p, a', p', t, e, e');
    AbsOfProduct(c, e, e');
    AbsPositive(c);
    AbsPositive(t);
    ErrorWithin(Abs(c), Abs(e), small, Abs(t), eps);
  }

  lemma ScaledDifference(c: real, x: real, x': real, a: real, p: real, a': real, p': real, t: real, e: real, e': real)
    requires x' == c * x && a' == c * a && p' == c * p && e == x - a - p * t && e' == x' - a' - p' * t
    ensures e' == c * e
  {
    var pt := p * t;
    assert p' * t == c * pt;
    assert c * (x - a - pt) == c * x - c * a - c * pt;
  }

  lemma ErrorWithin(k: real, err: real, small: real, u: real, eps: real)
    requires k >= 0.0 && u >= 0.0 && small > 0.0 && small * (k + 1.0) == eps && err <= small * u
    ensures k * err <= eps * u
  {
    TimesMono(err, small * u, k);
    PartBound(small, k, eps, u);
  }

  /** A product under a name, where it stands as an argument. */
  function Mul(x: real, y: real): real { x * y }

  function Inner(f: real -> real, y: real): real -> real { t => f(Mul(t, y)) }

  /** The chain rule for t => f(t y). */
  lemma SlopeInner(f: real -> real, y: real, a: real, p: real, p': real)
    requires Expands(f, a, p) && p' == p * y
    ensures Expands(Inner(f, y), a, p')
  {
    hide Within;
    forall eps | eps > 0.0 ensures HasRadius(Inner(f, y), a, p', eps) {
      var small := Part(eps, Abs(y) + 1.0);
      assert HasRadius(f, a, p, small);
      var r :| Within(f, a, p, small, r);
      RadiusPositive(f, a, p, small, r);
      var r' := Part(r, Abs(y) + 1.0);
      WithinInner(f, y, a, p, p', eps, small, r, r');
    }
  }

  lemma RadiusPositive(f: real -> real, a: real, p: real, eps: real, r: real)
    requires Within(f, a, p, eps, r)
    ensures r > 0.0
  {
  }

  lemma WithinInner(f: real -> real, y: real, a: real, p: real, p': real, eps: real, small: real, r: real, r': real)
    requires Within(f, a, p, small, r) && p' == p * y
    requires small > 0.0 && small * (Abs(y) + 1.0) == eps && r' > 0.0 && r' * (Abs(y) + 1.0) == r
    ensures Within(Inner(f, y), a, p', eps, r')
  {
    hide CloseAt, Abs;
    forall t | Abs(t) < r' ensures Close(Inner(f, y), a, p', eps, t) {
      var ty := Mul(t, y);
      InnerRadius(t, y, ty, r, r');
      assert Close(f, a, p, small, ty);
      InnerError(f(ty), a, p, p', t, y, ty, eps, small);
    }
  }

  lemma InnerRadius(t: real, y: real, ty: real, r: real, r': real)
    requires r' > 0.0 && r' * (Abs(y) + 1.0) == r && Abs(t) < r' && ty == t * y
    ensures Abs(ty) < r
  {
    AbsTimes(t, y);
    TimesMono(Abs(t), r', Abs(y));
    PartBound(r', Abs(y), r, 0.0);
  }

  lemma InnerError(x: real, a: real, p: real, p': real, t: real, y: real, ty: real, eps: real, small: real)
    requires small > 0.0 && small * (Abs(y) + 1.0) == eps && ty == t * y && CloseAt(x, a, p, small, ty) && p' == p * y
    ensures CloseAt(x, a, p', eps, t)
  {
    SameGap(x, a, p, p', t, y, ty);
    AbsOfProduct(t, y, ty);
    AbsPositive(t);
    hide Abs, Gap;
    ThreeFactors(small, Abs(ty), Abs(t), Abs(y));
    PartBound(small, Abs(y), eps, Abs(t));
  }

  lemma SameGap(x: real, a: real, p: real, p': real, t: real, y: real, ty: real)
    requires ty == t * y && p' == p * y
    ensures Gap(x, a, p, ty) == Gap(x, a, p', t)
  {
    assert p * ty == p' * t;
  }

  lemma ThreeFactors(s: real, ty: real, t: real, y: real)
    requires ty == t * y
    ensures s * ty == s * y * t
  {
  }

  /** The members of a family, at one argument. */
  function AtArg(f: int -> (real -> real), t: real): int -> real { n => f(n)(t) }

  /** A finite sum is differentiated term by term. */
  lemma {:induction false} SlopeSum(f: int -> (real -> real), a: int -> real, p: int -> real, lo: int, hi: int, sum: real -> real)
    requires forall n :: lo <= n < hi ==> Expands(f(n), a(n), p(n))
    requires forall t :: sum(t) == Sum(AtArg(f, t), lo, hi)
    ensures Expands(sum, Sum(a, lo, hi), Sum(p, lo, hi))
    decreases hi - lo
  {
    hide Expands;
    if lo >= hi {
      SlopeConstant(sum, 0.0);
    } else {
      var front := t => Sum(AtArg(f, t), lo, hi - 1);
      SlopeSum(f, a, p, lo, hi - 1, front);
      SlopeAdd(front, f(hi - 1), sum, Sum(a, lo, hi - 1), a(hi - 1), Sum(a, lo, hi),
               Sum(p, lo, hi - 1), p(hi - 1), Sum(p, lo, hi));
    }
  }

  lemma SlopeConstant(f: real -> real, c: real)
    requires forall t :: f(t) == c
    ensures Expands(f, c, 0.0)
  {
    forall eps | eps > 0.0 ensures HasRadius(f, c, 0.0, eps) {
      forall t | Abs(t) < 1.0 ensures Close(f, c, 0.0, eps, t) { TimesMono(0.0, eps, Abs(t)); }
      assert Within(f, c, 0.0, eps, 1.0);
    }
  }

  // ---------------------------------------------------------------- quotients

  predicate IsOver(f: real -> real, base: real, num: real -> real, rest: real -> real, t: real) {
    1.0 + rest(t) > 0.0 && f(t) == base + num(t) / (1.0 + rest(t))
  }

  /** A numerator that vanishes at zero, over a denominator that is one there: the numerator's slope counts. */
  lemma SlopeOver(num: real -> real, rest: real -> real, f: real -> real, base: real, p: real, q: real)
    requires Expands(num, 0.0, p) && Expands(rest, 0.0, q) && forall t :: IsOver(f, base, num, rest, t)
    ensures Expands(f, base, p)
  {
    hide Within;
    var c, d := Abs(q) + 1.0, (Abs(q) + 1.0) * (Abs(p) + 1.0);
    assert d > 0.0 by { TimesMono(1.0, Abs(q) + 1.0, Abs(p) + 1.0); }
    forall eps | eps > 0.0 ensures HasRadius(f, base, p, eps) {
      assert HasRadius(num, 0.0, p, eps / 4.0) && HasRadius(rest, 0.0, q, 1.0);
      var r1 :| Within(num, 0.0, p, eps / 4.0, r1);
      var r2 :| Within(rest, 0.0, q, 1.0, r2);
      var r3 := Part(0.5, c);
      var r4 := Part(eps / 4.0, d);
      WithinOver(num, rest, f, base, p, q, c, d, eps, r1, r2, r3, r4);
    }
  }

  lemma WithinOver(num: real -> real, rest: real -> real, f: real -> real, base: real, p: real, q: real, c: real, d: real,
                   eps: real, r1: real, r2: real, r3: real, r4: real)
    requires Within(num, 0.0, p, eps / 4.0, r1) && Within(rest, 0.0, q, 1.0, r2) && forall t :: IsOver(f, base, num, rest, t)
    requires eps > 0.0 && c == Abs(q) + 1.0 && d == c * (Abs(p) + 1.0)
    requires r3 > 0.0 && r3 * c == 0.5 && r4 > 0.0 && r4 * d == eps / 4.0
    ensures Within(f, base, p, eps, Smaller(Smaller(r1, r2), Smaller(r3, r4)))
  {
    hide CloseAt, Abs;
    forall t | Abs(t) < Smaller(Smaller(r1, r2), Smaller(r3, r4)) ensures Close(f, base, p, eps, t) {
      assert Close(num, 0.0, p, eps / 4.0, t) && Close(rest, 0.0, q, 1.0, t) && IsOver(f, base, num, rest, t);
      RestSmall(rest(t), p, q, t, eps, c, d, r3, r4);
      OverError(num(t), rest(t), base, p, t, p * t, eps);
    }
  }

  lemma OverError(x: real, w: real, base: real, p: real, t: real, pt: real, eps: real)
    requires pt == p * t && CloseAt(x, 0.0, p, eps / 4.0, t) && Abs(w) < 0.5 && Abs(p) * Abs(w) <= eps / 4.0
    ensures CloseAt(base + x / (1.0 + w), base, p, eps, t)
  {
    TopSmall(x, w, pt, p, t, eps);
    Divided(x, w, pt, eps / 2.0 * Abs(t), 1.0 + w, x / (1.0 + w));
    assert 2.0 * (eps / 2.0 * Abs(t)) == eps * Abs(t);
  }

  lemma RestSmall(w: real, p: real, q: real, t: real, eps: real, c: real, d: real, r3: real, r4: real)
    requires c == Abs(q) + 1.0 && d == c * (Abs(p) + 1.0) && CloseAt(w, 0.0, q, 1.0, t)
    requires r3 * c == 0.5 && r4 * d == eps / 4.0 && Abs(t) < r3 && Abs(t) < r4
    ensures Abs(w) < 0.5 && Abs(p) * Abs(w) <= eps / 4.0
  {
    hide CloseAt, Abs;
    AbsPositive(q);
    AbsPositive(p);
    AbsPositive(t);
    RestBelow(w, q, t, c, Abs(t));
    RestBounds(Abs(w), c, Abs(t), Abs(p), d, r3, r4, eps / 4.0);
  }

  lemma RestBounds(w: real, c: real, u: real, s: real, d: real, r3: real, r4: real, e: real)
    requires w <= c * u && c >= 1.0 && u >= 0.0 && s >= 0.0 && d == c * (s + 1.0) && r3 * c == 0.5 && r4 * d == e && u < r3 && u < r4
    ensures w < 0.5 && s * w <= e
  {
    LessTimes(u, r3, c);
    TimesMono(w, c * u, s);
    TimesMono(1.0, c, s + 1.0);
    LessTimes(u, r4, d);
    ScaledRest(s, c, u, d);
  }

  lemma RestBelow(w: real, q: real, t: real, c: real, u: real)
    requires c == Abs(q) + 1.0 && CloseAt(w, 0.0, q, 1.0, t) && u == Abs(t)
    ensures Abs(w) <= c * u
  {
    hide Abs;
    AbsTimes(q, t);
    Triangle(w - 0.0 - q * t, q * t);
    assert c * u == Abs(q) * u + u;
  }

  lemma LessTimes(x: real, y: real, c: real)
    requires x < y && c > 0.0
    ensures x * c < y * c && c * x < c * y
  {
  }

  lemma ScaledRest(s: real, c: real, u: real, d: real)
    requires s >= 0.0 && c >= 0.0 && u >= 0.0 && d == c * (s + 1.0)
    ensures s * (c * u) <= u * d
  {
    assert u * d == u * (c * s) + u * c;
    assert s * (c * u) == u * (c * s);
    TimesMono(0.0, u, c);
  }

  lemma TopSmall(x: real, w: real, pt: real, p: real, t: real, eps: real)
    requires pt == p * t && CloseAt(x, 0.0, p, eps / 4.0, t) && Abs(p) * Abs(w) <= eps / 4.0
    ensures Abs(x - pt - pt * w) <= eps / 2.0 * Abs(t)
  {
    hide Abs;
    Triangle(x - pt, pt * w);
    AbsTimes(pt, w);
    AbsTimes(p, t);
    AbsPositive(t);
    TopBound(Abs(p), Abs(w), Abs(t), Abs(pt), eps);
  }

  lemma TopBound(p: real, w: real, t: real, pt: real, eps: real)
    requires pt == p * t && t >= 0.0 && p * w <= eps / 4.0
    ensures eps / 4.0 * t + pt * w <= eps / 2.0 * t
  {
    assert pt * w == p * w * t;
    TimesMono(p * w, eps / 4.0, t);
  }

  lemma Divided(x: real, w: real, pt: real, bound: real, z: real, y: real)
    requires Abs(w) < 0.5 && z == 1.0 + w && y == x / z && Abs(x - pt - pt * w) <= bound
    ensures Abs(y - pt) <= 2.0 * bound
  {
    TimesBack(x, z, y);
    assert z > 0.5;
    ErrorTimes(x, w, pt, z, y, y - pt);
    AbsTimes(y - pt, z);
    AbsPositive(y - pt);
    TimesMono(0.5, z, Abs(y - pt));
  }

  lemma TimesBack(x: real, z: real, y: real)
    requires z > 0.0 && y == x / z
    ensures y * z == x
  {
  }

  lemma ErrorTimes(x: real, w: real, pt: real, z: real, y: real, e: real)
    requires y * z == x && z == 1.0 + w && e == y - pt
    ensures e * z == x - pt - pt * w
  {
    assert pt * z == pt + pt * w;
    assert e * z == y * z - pt * z;
  }
}
