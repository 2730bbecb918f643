/** What follows for exp2 from adding exponents, E(1) = 2 and a derivative c at zero: it lies above its tangent,
    increases, and c is the natural logarithm of two, to eight digits. */
module Exp2 {
  import opened Attention
  import opened Slopes

  /** exp2, with c for ln(2) */
  ghost predicate IsExp2(E: real -> real, c: real) { IsExp(E) && E(1.0) == 2.0 && Expands(E, 1.0, c) }

  function Pow(x: real, n: nat): real { if n == 0 then 1.0 else Pow(x, n - 1) * x }

  lemma {:induction false} ExpOfMultiple(E: real -> real, x: real, n: nat, y: real)
    requires IsExp(E) && y == n as real * x
    ensures E(y) == Pow(E(x), n)
  {
    if n == 0 {
      assert y == 0.0;
      ExpOfZero(E);
    } else {
      ExpOfMultiple(E, x, n - 1, y - x);
      assert ExpAdds(E, y - x, x) && y - x + x == y;
    }
  }

  lemma ExpOfZero(E: real -> real)
    requires IsExp(E)
    ensures E(0.0) == 1.0
  {
    ExpOfNeutral(E, 0.0);
  }

  lemma ExpOfNeutral(E: real -> real, z: real)
    requires IsExp(E) && z + z == z
    ensures E(z) == 1.0
  {
    assert ExpAdds(E, z, z) && ExpPositive(E, z);
    var s := z + z;
    assert s == z && E(s) == E(z);
    assert E(z + z) == E(z) * E(z);
    SelfSquare(E(z), E(z) * E(z));
  }

  lemma SelfSquare(e: real, square: real)
    requires e > 0.0 && square == e * e && square == e
    ensures e == 1.0
  {
    if e < 1.0 { LessTimes(e, 1.0, e); }
    if e > 1.0 { LessTimes(1.0, e, e); }
  }

  lemma CancelLe(a: real, b: real, k: real)
    requires k > 0.0 && k * a <= k * b
    ensures a <= b
  {
    assert k * (b - a) >= 0.0;
  }

  lemma {:induction false} PowMono(a: real, b: real, n: nat)
    requires 0.0 <= a <= b
    ensures 0.0 <= Pow(a, n) <= Pow(b, n)
  {
    if n > 0 {
      PowMono(a, b, n - 1);
      TimesMono(Pow(a, n - 1), Pow(b, n - 1), a);
      TimesMono(a, b, Pow(b, n - 1));
      TimesMono(0.0, Pow(a, n - 1), a);
    }
  }

  lemma {:induction false} Bernoulli(z: real, n: nat)
    requires -1.0 <= z
    ensures Pow(1.0 + z, n) >= 1.0 + n as real * z
  {
    if n > 0 {
      Bernoulli(z, n - 1);
      var k := (n - 1) as real;
      TimesMono(1.0 + k * z, Pow(1.0 + z, n - 1), 1.0 + z);
      assert (1.0 + k * z) * (1.0 + z) == 1.0 + (k + 1.0) * z + k * (z * z);
      assert k * (z * z) >= 0.0;
    }
  }

  // ---------------------------------------------------------------- the tangent

  lemma Above(x: real) returns (n: nat)
    ensures n >= 1 && n as real > x
  {
    n := if x < 0.0 then 1 else x.Floor + 1;
  }

  lemma TangentAlmost(E: real -> real, c: real, x: real, eps: real)
    requires IsExp(E) && Expands(E, 1.0, c) && eps > 0.0
    ensures E(x) >= 1.0 + (c * x - eps * Abs(x))
  {
    assert HasRadius(E, 1.0, c, eps);
    var radius :| Within(E, 1.0, c, eps, radius);
    RadiusPositive(E, 1.0, c, eps, radius);
    var z := c * x - eps * Abs(x);
    var n1 := Above(Abs(x) / radius);
    var n2 := Above(Abs(z));
    TangentByParts(E, c, x, eps, radius, z, if n1 < n2 then n2 else n1);
  }

  /** x cut into n parts, each inside the radius. */
  lemma TangentByParts(E: real -> real, c: real, x: real, eps: real, radius: real, z: real, n: nat)
    requires IsExp(E) && Within(E, 1.0, c, eps, radius) && z == c * x - eps * Abs(x)
    requires radius > 0.0 && n >= 1 && n as real > Abs(x) / radius && n as real > Abs(z)
    ensures E(x) >= 1.0 + z
  {
    var k, t := n as real, x / n as real;
    PartInside(x, k, radius, t);
    assert Close(E, 1.0, c, eps, t);
    PartAbove(E(t), x, k, c, eps, t, z);
    hide Within, CloseAt, Abs;
    PowerAbove(E, x, n, t, z, z / k);
  }

  lemma PowerAbove(E: real -> real, x: real, n: nat, t: real, z: real, w: real)
    requires IsExp(E) && n >= 1 && t == x / n as real && w == z / n as real && w > -1.0 && E(t) >= 1.0 + w
    ensures E(x) >= 1.0 + z
  {
    TimesBack(x, n as real, t);
    TimesBack(z, n as real, w);
    ExpOfMultiple(E, t, n, x);
    Bernoulli(w, n);
    PowMono(1.0 + w, E(t), n);
  }

  lemma PartInside(x: real, n: real, radius: real, t: real)
    requires n >= 1.0 && radius > 0.0 && n > Abs(x) / radius && t == x / n
    ensures Abs(t) < radius && Abs(t) * n == Abs(x)
  {
    assert t * n == x;
    AbsOfProduct(t, n, x);
    var q := Abs(x) / radius;
    assert q * radius == Abs(x);
    LessTimes(q, n, radius);
    if Abs(t) >= radius { TimesMono(radius, Abs(t), n); }
  }

  lemma PartAbove(e: real, x: real, n: real, c: real, eps: real, t: real, z: real)
    requires n >= 1.0 && t == x / n && CloseAt(e, 1.0, c, eps, t) && z == c * x - eps * Abs(x) && n > Abs(z) && Abs(t) * n == Abs(x)
    ensures z / n > -1.0 && e >= 1.0 + z / n
  {
    var w := c * t - eps * Abs(t);
    assert w * n == z by {
      assert c * t * n == c * x by { assert t * n == x; }
      assert eps * Abs(t) * n == eps * Abs(x);
    }
    assert z / n == w;
    if w <= -1.0 { TimesMono(w, -1.0, n); }
  }

  /** E lies above its tangent at zero. */
  lemma TangentBelow(E: real -> real, c: real, x: real)
    requires IsExp(E) && Expands(E, 1.0, c)
    ensures E(x) >= 1.0 + c * x
  {
    if E(x) < 1.0 + c * x {
      var gap := 1.0 + c * x - E(x);
      var eps := Part(gap, Abs(x) + 1.0);
      assert eps * Abs(x) == gap - eps;
      TangentAlmost(E, c, x, eps);
    }
  }

  // ---------------------------------------------------------------- monotone, and bounded near zero

  lemma SlopeBounds(E: real -> real, c: real)
    requires IsExp2(E, c)
    ensures 0.5 <= c <= 1.0
  {
    TangentBelow(E, c, 1.0);
    TangentBelow(E, c, -1.0);
    assert ExpAdds(E, 1.0, -1.0) && 1.0 + -1.0 == 0.0;
    ExpOfZero(E);
    assert E(-1.0) == 0.5;
  }

  lemma Increases(E: real -> real, c: real, x: real, y: real)
    requires IsExp(E) && Expands(E, 1.0, c) && c >= 0.0 && x <= y
    ensures E(x) <= E(y)
  {
    TangentBelow(E, c, y - x);
    TimesMono(0.0, c, y - x);
    assert ExpAdds(E, x, y - x) && x + (y - x) == y && ExpPositive(E, x);
    TimesMono(1.0, E(y - x), E(x));
  }

  lemma Reflects(E: real -> real, c: real, x: real, y: real)
    requires IsExp(E) && Expands(E, 1.0, c) && c > 0.0 && E(x) <= E(y)
    ensures x <= y
  {
    if x > y {
      TangentBelow(E, c, x - y);
      LessTimes(0.0, x - y, c);
      assert ExpAdds(E, y, x - y) && y + (x - y) == x && ExpPositive(E, y);
      LessTimes(1.0, E(x - y), E(y));
    }
  }

  /** Within [-1/2, 1/2] E stays within twice the argument of one. */
  lemma NearOne(E: real -> real, c: real, x: real, eps: real)
    requires IsExp2(E, c) && Abs(x) <= eps <= 0.5
    ensures E(-eps) <= E(x) <= E(eps)
    ensures Abs(E(x) - 1.0) <= 2.0 * eps
  {
    SlopeBounds(E, c);
    Increases(E, c, -eps, x);
    Increases(E, c, x, eps);
    TangentBelow(E, c, -eps);
    TimesMono(c, 1.0, eps);
    assert ExpAdds(E, eps, -eps) && eps + -eps == 0.0 && ExpPositive(E, eps);
    ExpOfZero(E);
    Inverse(E(eps), E(-eps), eps);
  }

  lemma Inverse(a: real, b: real, eps: real)
    requires a > 0.0 && a * b == 1.0 && b >= 1.0 - eps && 0.0 <= eps <= 0.5
    ensures a <= 1.0 + 2.0 * eps
  {
    TimesMono(1.0 - eps, b, a);
    OverOne(eps);
    InverseChain(a, b, 1.0 - eps, 1.0 + 2.0 * eps);
    CancelLe(a, 1.0 + 2.0 * eps, 1.0 - eps);
  }

  lemma InverseChain(a: real, b: real, low: real, high: real)
    requires a * b == 1.0 && low * a <= b * a && low * high >= 1.0
    ensures low * a <= low * high
  {
  }

  lemma OverOne(eps: real)
    requires 0.0 <= eps <= 0.5
    ensures (1.0 - eps) * (1.0 + 2.0 * eps) >= 1.0
  {
    Expanded(eps, eps);
    MulMono(eps, 0.5, eps);
    Half(eps);
    hide Mul;
    assert Mul(eps, eps) <= 0.5 * eps;
  }

  lemma Expanded(x: real, y: real)
    ensures (1.0 - x) * (1.0 + 2.0 * y) == 1.0 + 2.0 * y - x - 2.0 * Mul(x, y)
  {
  }

  lemma Half(y: real)
    ensures Mul(0.5, y) == 0.5 * y
  {
  }

  lemma MulMono(x: real, y: real, c: real)
    requires x <= y && c >= 0.0
    ensures Mul(x, c) <= Mul(y, c) && Mul(c, x) <= Mul(c, y)
  {
  }

  lemma MulPositive(x: real, y: real)
    requires x > 0.0 && y > 0.0
    ensures Mul(x, y) > 0.0
  {
  }

  // ---------------------------------------------------------------- ln(2)

  lemma Doubled(E: real -> real, x: real, a: real, y: real, b: real)
    requires IsExp(E) && a > 0.0 && E(x) >= a && y == 2.0 * x && b == Mul(a, a)
    ensures E(y) >= b && b > 0.0
  {
    ExpSquares(E, x, x, y);
    MulMono(a, E(x), a);
    MulMono(a, E(x), E(x));
    MulPositive(a, a);
    hide Mul;
  }

  lemma ExpSquares(E: real -> real, x: real, x': real, y: real)
    requires IsExp(E) && y == x + x'
    ensures E(y) == Mul(E(x), E(x'))
  {
    assert ExpAdds(E, x, x');
  }

  function Eighth(a: real): real { Mul(Mul(Mul(a, a), Mul(a, a)), Mul(Mul(a, a), Mul(a, a))) }

  lemma TimesEight(E: real -> real, x: real, a: real, y: real, b: real)
    requires IsExp(E) && a > 0.0 && E(x) >= a && y == 8.0 * x && b <= Eighth(a)
    ensures E(y) >= b
  {
    hide Mul;
    var a2 := Mul(a, a);
    var a4 := Mul(a2, a2);
    Doubled(E, x, a, 2.0 * x, a2);
    Doubled(E, 2.0 * x, a2, 4.0 * x, a4);
    Doubled(E, 4.0 * x, a4, y, Mul(a4, a4));
  }

  /** Were c larger, E would exceed 2 at 1: its tangent at 2^-27, raised to the eighth power nine times. */
  lemma NotAbove(E: real -> real, c: real)
    requires IsExp(E) && Expands(E, 1.0, c) && c >= 0.69314718679777
    ensures E(1.0) > 2.0
  {
    hide IsExp, Expands;
    TangentBelow(E, c, 1.0 / 134217728.0);
    TimesEight(E, 1.0 / 134217728.0, 1.00000000516434898076780140, 1.0 / 16777216.0, 1.00000004131479259291642997);
    TimesEight(E, 1.0 / 16777216.0, 1.00000004131479259291642997, 1.0 / 2097152.0, 1.00000033051838853687382480);
    TimesEight(E, 1.0 / 2097152.0, 1.00000033051838853687382480, 1.0 / 262144.0, 1.00000264415016708435707849);
    TimesEight(E, 1.0 / 262144.0, 1.00000264415016708435707849, 1.0 / 32768.0, 1.00002115339710055308334006);
    TimesEight(E, 1.0 / 32768.0, 1.00002115339710055308334006, 1.0 / 4096.0, 1.00016923970638835180875604);
    TimesEight(E, 1.0 / 4096.0, 1.00016923970638835180875604, 1.0 / 512.0, 1.00135471990080747053566268);
    TimesEight(E, 1.0 / 512.0, 1.00135471990080747053566268, 1.0 / 64.0, 1.01088928612195722926806597);
    TimesEight(E, 1.0 / 64.0, 1.01088928612195722926806597, 1.0 / 8.0, 1.09050773327157964688601409);
    TimesEight(E, 1.0 / 8.0, 1.09050773327157964688601409, 1.0, 2.00000000889599544428022227);
  }

  /** Were c smaller, E would exceed 1/2 at -1. */
  lemma NotBelow(E: real -> real, c: real)
    requires IsExp(E) && Expands(E, 1.0, c) && c <= 0.69314717432113
    ensures E(-1.0) > 0.5
  {
    hide IsExp, Expands;
    TangentBelow(E, c, -1.0 / 134217728.0);
    TimesEight(E, -1.0 / 134217728.0, 0.99999999483565111219041049, -1.0 / 16777216.0, 0.99999995868520964429726038);
    TimesEight(E, -1.0 / 16777216.0, 0.99999995868520964429726038, -1.0 / 2097152.0, 0.99999966948172494790739367);
    TimesEight(E, -1.0 / 2097152.0, 0.99999966948172494790739367, -1.0 / 262144.0, 0.99999735585685836648119685);
    TimesEight(E, -1.0 / 262144.0, 0.99999735585685836648119685, -1.0 / 32768.0, 0.99997884705062769930507256);
    TimesEight(E, -1.0 / 32768.0, 0.99997884705062769930507256, -1.0 / 4096.0, 0.99983078893301505812846619);
    TimesEight(E, -1.0 / 4096.0, 0.99983078893301505812846619, -1.0 / 512.0, 0.99864711289964784820542128);
    TimesEight(E, -1.0 / 512.0, 0.99864711289964784820542128, -1.0 / 64.0, 0.98922801326274210817694278);
    TimesEight(E, -1.0 / 64.0, 0.98922801326274210817694278, -1.0 / 8.0, 0.91700404371463877381606430);
    TimesEight(E, -1.0 / 8.0, 0.91700404371463877381606430, -1.0, 0.50000000222449419648335212);
  }

  /** c is ln(2) to eight digits. */
  lemma SlopeIsLn2(E: real -> real, c: real)
    requires IsExp2(E, c)
    ensures 0.69314717432113 < c < 0.69314718679777
  {
    ExpOfZero(E);
    ExpSquares(E, 1.0, -1.0, 0.0);
    assert E(-1.0) == 0.5;
    if c >= 0.69314718679777 { NotAbove(E, c); }
    if c <= 0.69314717432113 { NotBelow(E, c); }
  }

  // ---------------------------------------------------------------- the kernels' decimals

  /** The constants of the kernels are log2(e) and ln(2): storing and reading a log-sum-exp cancel, forward and
      dq scale agree, and both are the inverse of the exponential's own slope. */
  lemma ConstantsAreRight(E: real -> real, c: real)
    requires IsExp2(E, c)
    ensures Abs(LN2 * RCP_LN2 - 1.0) < 0.00000001 && Abs(RCP_LN2 - LOG2E) < 0.00000000001
    ensures Abs(LOG2E * c - 1.0) < 0.00000001 && Abs(RCP_LN2 * c - 1.0) < 0.00000001 && Abs(LN2 - c) < 0.00000001
  {
    hide IsExp2;
    SlopeIsLn2(E, c);
    DecimalBounds(c);
  }

  lemma DecimalBounds(c: real)
    requires 0.69314717432113 < c < 0.69314718679777
    ensures Abs(LN2 * RCP_LN2 - 1.0) < 0.00000001 && Abs(RCP_LN2 - LOG2E) < 0.00000000001
    ensures Abs(LOG2E * c - 1.0) < 0.00000001 && Abs(RCP_LN2 * c - 1.0) < 0.00000001 && Abs(LN2 - c) < 0.00000001
  {
  }
}
