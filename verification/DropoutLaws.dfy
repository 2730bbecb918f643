/** What dropout is for: averaged over the keep masks it leaves attention as it is, and the threshold keeps a
    random word as often as it should. */
module DropoutLaws {
  import opened Arith
  import opened RealSums
  import opened Dropout
  import opened Attention

  // ---------------------------------------------------------------- averaging over masks

  /** The mean of a, with probability 1 - p, and b. */
  function Average(p: real, a: real, b: real): real { (1.0 - p) * a + p * b }

  /** The mean of f over all ways to extend a mask by n keys, each kept with probability 1 - p. */
  function MeanOver(f: seq<bool> -> real, p: real, mask: seq<bool>, n: nat): real
    decreases n
  {
    if n == 0 then f(mask)
    else Average(p, MeanOver(f, p, mask + [true], n - 1), MeanOver(f, p, mask + [false], n - 1))
  }

  /** The terms of the kept keys. */
  function Kept(g: int -> real, mask: seq<bool>): int -> real {
    n => if 0 <= n < |mask| && mask[n] then g(n) else 0.0
  }

  lemma KeptMore(g: int -> real, mask: seq<bool>, b: bool)
    ensures Sum(Kept(g, mask + [b]), 0, |mask| + 1) == Sum(Kept(g, mask), 0, |mask|) + if b then g(|mask|) else 0.0
  {
    SumEqual(Kept(g, mask + [b]), Kept(g, mask), 0, |mask|);
  }

  /** c times (what is kept for sure, plus 1 - p of the rest) */
  function Mixed(c: real, p: real, sure: real, rest: real): real { c * (sure + (1.0 - p) * rest) }

  /** A sum over the kept terms averages to the sum over all of them, times 1 - p. */
  lemma {:induction false} MeanOfKept(f: seq<bool> -> real, g: int -> real, c: real, p: real, mask: seq<bool>, n: nat)
    requires forall k: seq<bool> :: |k| == |mask| + n ==> f(k) == c * Sum(Kept(g, k), 0, |k|)
    ensures MeanOver(f, p, mask, n) == Mixed(c, p, Sum(Kept(g, mask), 0, |mask|), Sum(g, |mask|, |mask| + n))
    decreases n
  {
    hide Sum, Mixed, Average;
    if n == 0 {
      SumEmpty(g, |mask|);
      NothingMixed(c, p, Sum(Kept(g, mask), 0, |mask|));
    } else {
      MeanOfKept(f, g, c, p, mask + [true], n - 1);
      MeanOfKept(f, g, c, p, mask + [false], n - 1);
      KeptMore(g, mask, true);
      KeptMore(g, mask, false);
      FirstTerm(g, |mask|, |mask| + n);
      OneKeyMixed(c, p, Sum(Kept(g, mask), 0, |mask|), g(|mask|), Sum(g, |mask| + 1, |mask| + n));
    }
  }

  lemma NothingMixed(c: real, p: real, sure: real)
    ensures Mixed(c, p, sure, 0.0) == c * sure
  {
  }

  lemma FirstTerm(g: int -> real, lo: int, hi: int)
    requires lo < hi
    ensures Sum(g, lo, hi) == g(lo) + Sum(g, lo + 1, hi)
  {
    SumSplit(g, lo, lo + 1, hi);
  }

  lemma OneKeyMixed(c: real, p: real, sure: real, x: real, rest: real)
    ensures Average(p, Mixed(c, p, sure + x, rest), Mixed(c, p, sure + 0.0, rest)) == Mixed(c, p, sure, x + rest)
  {
    var q := (1.0 - p) * rest;
    assert (1.0 - p) * (c * (sure + x + q)) + p * (c * (sure + q)) == c * (sure + q) + (1.0 - p) * (c * x);
    assert (1.0 - p) * (x + rest) == (1.0 - p) * x + q;
  }

  // ---------------------------------------------------------------- the mean of attention

  function WithoutDropout(h: Head): Head { h.(dropout := NoDropout) }

  /** h' is h with other random numbers, which keep exactly the keys of the mask in row m. */
  ghost predicate Draws(h: Head, h': Head, m: int, mask: seq<bool>) {
    && h.dropout.DropoutSpec? && h'.dropout.DropoutSpec? && |mask| == h.seqlenK
    && h' == h.(dropout := h.dropout.(rng := h'.dropout.rng))
    && forall n :: 0 <= n < h.seqlenK ==> h'.Keeps(m, n) == mask[n]
  }

  ghost predicate DrawsAll(h: Head, heads: seq<bool> -> Head, m: int) {
    forall mask: seq<bool> :: |mask| == h.seqlenK ==> Draws(h, heads(mask), m, mask)
  }

  lemma DrawnAreValid(h: Head, heads: seq<bool> -> Head, m: int, mask: seq<bool>)
    requires h.Valid() && DrawsAll(h, heads, m) && |mask| == h.seqlenK
    ensures heads(mask).Valid()
  {
    assert Draws(h, heads(mask), m, mask);
  }

  /** Attention of the head drawn for a mask. */
  ghost function DrawnAttention(E: real -> real, h: Head, heads: seq<bool> -> Head, log2e: real, m: int, d: int): seq<bool> -> real
    requires IsExp(E) && h.Valid() && DrawsAll(h, heads, m)
  {
    mask => if |mask| == h.seqlenK then DrawnAreValid(h, heads, m, mask); AttentionAt(E, heads(mask), log2e, m, d) else 0.0
  }

  /** Dropout is unbiased: the mean of a row's output over all keep masks, each key kept with probability 1 - p,
      is the output without dropout. */
  lemma DropoutIsUnbiased(E: real -> real, h: Head, heads: seq<bool> -> Head, log2e: real, m: int, d: int)
    requires IsExp(E) && h.Valid() && h.dropout.DropoutSpec? && DrawsAll(h, heads, m)
    ensures MeanOver(DrawnAttention(E, h, heads, log2e, m, d), h.dropout.p, [], h.seqlenK)
         == AttentionAt(E, WithoutDropout(h), log2e, m, d)
  {
    hide Sum, Denominator, MeanOver, AttentionAt, Share, Mixed;
    var h0, p, f := WithoutDropout(h), h.dropout.p, DrawnAttention(E, h, heads, log2e, m, d);
    var g, z := ValueFn(E, h0, log2e, m, d), Denominator(E, h0, log2e, m);
    AttentionIsShare(E, h0, log2e, m, d);
    var c := ScaleOver(p, z);
    forall mask: seq<bool> | |mask| == h.seqlenK ensures f(mask) == c * Sum(Kept(g, mask), 0, |mask|) {
      DrawnRow(E, h, heads(mask), log2e, m, d, mask);
      ShareOfScale(p, z, Sum(Kept(g, mask), 0, |mask|));
    }
    MeanOfKept(f, g, c, p, [], h.seqlenK);
    SumEmpty(Kept(g, []), 0);
    ScaleCancels(p, z, Sum(g, 0, h.seqlenK));
  }

  /** scale * s / z, as the epilogue computes it */
  function Share(scale: real, s: real, z: real): real
    requires z != 0.0
  {
    scale * s / z
  }

  function ScaleOver(p: real, z: real): real
    requires p < 1.0 && z > 0.0
  {
    1.0 / (1.0 - p) / z
  }

  lemma ShareOfScale(p: real, z: real, s: real)
    requires p < 1.0 && z > 0.0
    ensures Share(1.0 / (1.0 - p), s, z) == ScaleOver(p, z) * s
  {
    Commuted(1.0 / (1.0 - p), s, z);
  }

  lemma Commuted(x: real, s: real, z: real)
    requires z > 0.0
    ensures x * s / z == x / z * s
  {
    var y := x / z;
    assert y * z == x;
    assert y * s * z == x * s;
  }

  lemma ScaleCancels(p: real, z: real, s: real)
    requires p < 1.0 && z > 0.0
    ensures Mixed(ScaleOver(p, z), p, 0.0, s) == Share(1.0, s, z)
  {
    var q, t := 1.0 - p, s / z;
    assert t * z == s;
    var x := 1.0 / q / z;
    assert x * z * q == 1.0;
    assert x * (q * (t * z)) == t * (x * z * q);
  }

  lemma AttentionIsShare(E: real -> real, h: Head, log2e: real, m: int, d: int)
    requires IsExp(E) && h.Valid()
    ensures Denominator(E, h, log2e, m) > 0.0
    ensures AttentionAt(E, h, log2e, m, d) == Share(h.DropoutScale(), Sum(ValueFn(E, h, log2e, m, d), 0, h.seqlenK), Denominator(E, h, log2e, m))
  {
    hide Sum, Denominator, ValueFn;
    DenominatorPositive(E, h, log2e, m);
  }

  lemma SameLogits(h: Head, h': Head, log2e: real, m: int)
    requires h' == h.(dropout := h'.dropout)
    ensures forall n :: h'.Logit(log2e, m, n) == h.Logit(log2e, m, n) && h'.Sees(m, n) == h.Sees(m, n)
  {
    hide Sum;
    forall n ensures h'.Logit(log2e, m, n) == h.Logit(log2e, m, n) { assert h'.Dot(m, n) == h.Dot(m, n); }
  }

  lemma SameDenominator(E: real -> real, h: Head, h': Head, log2e: real, m: int)
    requires h' == h.(dropout := h'.dropout)
    ensures Denominator(E, h', log2e, m) == Denominator(E, h, log2e, m)
  {
    SameLogits(h, h', log2e, m);
    hide Sum, Head.Logit, Head.Sees;
    SumEqual(WeightFn(E, h', log2e, m), WeightFn(E, h, log2e, m), 0, h.seqlenK);
  }

  lemma ValueIfKept(E: real -> real, h: Head, h0: Head, log2e: real, m: int, d: int, n: int)
    requires h0 == WithoutDropout(h) && n >= 0 && h0.Logit(log2e, m, n) == h.Logit(log2e, m, n) && h0.Sees(m, n) == h.Sees(m, n)
    ensures ValueFn(E, h, log2e, m, d)(n) == if h.Keeps(m, n) then ValueFn(E, h0, log2e, m, d)(n) else 0.0
    ensures !h.Sees(m, n) ==> ValueFn(E, h, log2e, m, d)(n) == ValueFn(E, h0, log2e, m, d)(n)
  {
    hide Head.Logit, Head.Sees, Keep;
    assert h0.Keeps(m, n) && h0.v == h.v && E(h0.Logit(log2e, m, n)) == E(h.Logit(log2e, m, n));
    var x := E(h.Logit(log2e, m, n)) * h.v(n, d);
    assert ValueFn(E, h0, log2e, m, d)(n) == if h.Sees(m, n) then x else 0.0;
    assert ValueFn(E, h, log2e, m, d)(n) == if h.Sees(m, n) && h.Keeps(m, n) then x else 0.0;
  }

  /** A drawn row in terms of the weights without dropout. */
  lemma DrawnRow(E: real -> real, h: Head, h': Head, log2e: real, m: int, d: int, mask: seq<bool>)
    requires IsExp(E) && h.Valid() && Draws(h, h', m, mask)
    ensures h'.Valid() && Denominator(E, WithoutDropout(h), log2e, m) > 0.0
    ensures AttentionAt(E, h', log2e, m, d)
         == Share(1.0 / (1.0 - h.dropout.p), Sum(Kept(ValueFn(E, WithoutDropout(h), log2e, m, d), mask), 0, |mask|),
                  Denominator(E, WithoutDropout(h), log2e, m))
  {
    SameDenominator(E, h, h', log2e, m);
    SameDenominator(E, h, WithoutDropout(h), log2e, m);
    DenominatorPositive(E, h', log2e, m);
    DrawnSum(E, h, h', log2e, m, d, mask);
    DrawnScale(h, h', m, mask);
    hide Sum, Denominator, Draws, ValueFn, AttentionAt, Head.DropoutScale, Share;
    AttentionIsShare(E, h', log2e, m, d);
  }

  lemma DrawnScale(h: Head, h': Head, m: int, mask: seq<bool>)
    requires h.Valid() && Draws(h, h', m, mask)
    ensures h'.Valid() && h'.DropoutScale() == 1.0 / (1.0 - h.dropout.p)
  {
  }

  lemma DrawnSum(E: real -> real, h: Head, h': Head, log2e: real, m: int, d: int, mask: seq<bool>)
    requires h.Valid() && Draws(h, h', m, mask)
    ensures Sum(ValueFn(E, h', log2e, m, d), 0, h.seqlenK) == Sum(Kept(ValueFn(E, WithoutDropout(h), log2e, m, d), mask), 0, |mask|)
  {
    var h0 := WithoutDropout(h);
    SameLogits(h', h0, log2e, m);
    hide Sum, Head.Logit, Head.Sees, Head.Keeps, ValueFn;
    forall n | 0 <= n < h.seqlenK ensures ValueFn(E, h', log2e, m, d)(n) == Kept(ValueFn(E, h0, log2e, m, d), mask)(n) {
      ValueIfKept(E, h', h0, log2e, m, d, n);
    }
    SumEqual(ValueFn(E, h', log2e, m, d), Kept(ValueFn(E, h0, log2e, m, d), mask), 0, h.seqlenK);
  }

  /** A row that loses no key is scaled up by 1 / (1 - p). */
  lemma KeptRowIsScaled(E: real -> real, h: Head, log2e: real, m: int, d: int)
    requires IsExp(E) && h.Valid() && h.dropout.DropoutSpec?
    requires forall n :: 0 <= n < h.seqlenK && h.Sees(m, n) ==> h.Keeps(m, n)
    ensures (1.0 - h.dropout.p) * AttentionAt(E, h, log2e, m, d) == AttentionAt(E, WithoutDropout(h), log2e, m, d)
  {
    var h0, p := WithoutDropout(h), h.dropout.p;
    SameDenominator(E, h, h0, log2e, m);
    KeptSum(E, h, log2e, m, d);
    hide Sum, Denominator, ValueFn, AttentionAt, Share, Head.Keeps;
    AttentionIsShare(E, h, log2e, m, d);
    AttentionIsShare(E, h0, log2e, m, d);
    ScaleBack(p, Denominator(E, h0, log2e, m), Sum(ValueFn(E, h0, log2e, m, d), 0, h.seqlenK));
  }

  lemma KeptSum(E: real -> real, h: Head, log2e: real, m: int, d: int)
    requires forall n :: 0 <= n < h.seqlenK && h.Sees(m, n) ==> h.Keeps(m, n)
    ensures Sum(ValueFn(E, h, log2e, m, d), 0, h.seqlenK) == Sum(ValueFn(E, WithoutDropout(h), log2e, m, d), 0, h.seqlenK)
  {
    var h0 := WithoutDropout(h);
    SameLogits(h, h0, log2e, m);
    hide Sum, Head.Logit, Head.Sees, Head.Keeps, ValueFn;
    forall n | 0 <= n < h.seqlenK ensures ValueFn(E, h, log2e, m, d)(n) == ValueFn(E, h0, log2e, m, d)(n) {
      ValueIfKept(E, h, h0, log2e, m, d, n);
    }
    SumEqual(ValueFn(E, h, log2e, m, d), ValueFn(E, h0, log2e, m, d), 0, h.seqlenK);
  }

  lemma ScaleBack(p: real, z: real, s: real)
    requires p < 1.0 && z > 0.0
    ensures (1.0 - p) * Share(1.0 / (1.0 - p), s, z) == Share(1.0, s, z)
  {
    var q, x := 1.0 - p, s / z;
    assert x * z == s;
    Commuted(1.0 / q, s, z);
    assert 1.0 / q / z * s == 1.0 / q * x by { assert 1.0 / q / z * (x * z) == 1.0 / q * x; }
    assert q * (1.0 / q) == 1.0;
    assert q * (1.0 / q * x) == x;
  }

  // ---------------------------------------------------------------- every mask can be drawn

  /** Random numbers for one row: just above the threshold where the mask keeps, at the threshold elsewhere. */
  function RngFor(mask: seq<bool>, threshold: int, base: int, m: int, stride: int): Rng {
    (offset: int, word: int) =>
      var n := (offset - base - m * stride) * PHILOX_RN_PER_OFFSET + (if word == 1 then 2 else if word == 2 then 1 else word);
      if 0 <= n < |mask| && mask[n] then threshold + 1 else threshold
  }

  function HeadDrawing(h: Head, m: int, mask: seq<bool>): Head
    requires h.dropout.DropoutSpec?
  {
    var spec := h.dropout;
    h.(dropout := spec.(rng := RngFor(mask, spec.IdropoutP(), spec.base, m, spec.stride)))
  }

  /** So the mean above really ranges over all masks: each of them is what some random numbers keep. */
  lemma EveryMaskIsDrawn(h: Head, m: int)
    requires h.dropout.DropoutSpec?
    ensures DrawsAll(h, mask => if h.dropout.DropoutSpec? then HeadDrawing(h, m, mask) else h, m)
  {
    hide Keep;
    forall mask: seq<bool> | |mask| == h.seqlenK ensures Draws(h, HeadDrawing(h, m, mask), m, mask) {
      forall n | 0 <= n < h.seqlenK ensures HeadDrawing(h, m, mask).Keeps(m, n) == mask[n] {
        MaskIsKept(mask, h.dropout.IdropoutP(), h.dropout.base, m, n, h.dropout.stride);
      }
    }
  }

  lemma MaskIsKept(mask: seq<bool>, threshold: int, base: int, m: int, n: nat, stride: int)
    requires n < |mask|
    ensures Keep(RngFor(mask, threshold, base, m, stride), threshold, base, m, n, stride) == mask[n]
  {
    DivModBack(n, 4);
  }

  // ---------------------------------------------------------------- the threshold

  /** The 32-bit words that keep a pair. */
  ghost function KeepingWords(threshold: int, base: int, m: int, n: nat, stride: int): set<int> {
    set w: int | -0x8000_0000 <= w < 0x8000_0000 && WordKeeps(w, threshold, base, m, n, stride)
  }

  predicate WordKeeps(w: int, threshold: int, base: int, m: int, n: nat, stride: int) {
    Keep((o, k) => w, threshold, base, m, n, stride)
  }

  predicate Between(w: int, lo: int, hi: int) { lo <= w < hi }

  ghost function Interval(lo: int, hi: int): set<int> { set w: int | lo <= w < hi && Between(w, lo, hi) }

  lemma {:induction false} IntervalSize(lo: int, hi: int)
    requires lo <= hi
    ensures |Interval(lo, hi)| == hi - lo
    decreases hi - lo
  {
    if lo < hi {
      IntervalSize(lo, hi - 1);
      assert forall w :: Between(w, lo, hi) <==> Between(w, lo, hi - 1) || w == hi - 1;
      assert Interval(lo, hi) == Interval(lo, hi - 1) + {hi - 1};
    }
  }

  /** A uniform random word keeps a pair with probability 1 - p: of the 2^32 words, (1 - p) 2^32 do, to within
      three words. */
  lemma WordsKeepOneMinusP(p: real, base: int, m: int, n: nat, stride: int)
    requires 0.0 <= p < 1.0
    ensures var kept := |KeepingWords(Threshold(p), base, m, n, stride)| as real;
      -3.0 <= kept - (1.0 - p) * 4294967296.0 <= 3.0
  {
    var t := Threshold(p);
    ThresholdInRange(p);
    assert KeepingWords(t, base, m, n, stride) == Interval(t + 1, 0x8000_0000);
    IntervalSize(t + 1, 0x8000_0000);
  }

  lemma ThresholdInRange(p: real)
    requires 0.0 <= p < 1.0
    ensures -0x8000_0000 < Threshold(p) < 0x8000_0000
    ensures -1.0 <= Threshold(p) as real - (p - 0.5) * 4294967295.0 <= 1.0
  {
  }
}
