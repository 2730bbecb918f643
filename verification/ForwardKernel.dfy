/** The forward kernel: one tile of query rows, key blocks absorbed one by one by an online softmax. */
module ForwardKernel {
  import opened Arith
  import opened RealSums
  import opened Intervals
  import opened Options
  import opened Dropout
  import opened Attention
  import opened Sweep
  import opened ComposedTensors

  /** m_i, l_i and one row of the accumulators. */
  datatype Row = Row(m: real, l: real, acc: int -> real)

  /** composed_load_with_offset: only a padded load is masked, so an unmasked one must stay inside. */
  function LoadTile(t: Tensor, rows: int, start: int, block: int, padded: bool): Tensor
    requires !padded ==> start + block <= rows
  {
    (r, c) => if padded && r >= rows then 0.0 else t(r, c)
  }

  /** The mask of a tile element; callers skip it when neither flag is set. */
  predicate TileMask(h: Head, m: int, n: int, startN: int, blockN: int, maskSteps: bool, isCausal: bool,
                     windowLeft: int, windowRight: int) {
    && (maskSteps ==> m < h.seqlenQ)
    && (startN + blockN > h.seqlenK ==> n < h.seqlenK)
    && (isCausal ==> m + windowRight >= n && m - windowLeft <= n)
  }

  /** Element (m, n) of qk after masking, the dot product and the bias. */
  function TileScore(h: Head, log2e: real, qt: Tensor, kt: Tensor, m: int, n: int, startN: int, blockN: int,
                     maskSteps: bool, isCausal: bool, windowLeft: int, windowRight: int): Score {
    if (maskSteps || isCausal) && !TileMask(h, m, n, startN, blockN, maskSteps, isCausal, windowLeft, windowRight) then
      NegInf
    else
      var bias := if maskSteps && !(m < h.seqlenQ && n < h.seqlenK) then 0.0 else h.BiasAt(m, n);
      Fin(h.QkScale(log2e) * Sum(d => qt(m, d) * kt(n, d), 0, h.hdimQk) + bias * log2e)
  }

  function TileKeep(h: Head, startM: int, startN: int, m: int): int -> bool {
    n => h.dropout.NoDropout? || (startN <= n &&
           FastDropoutMask(h.dropout.rng, h.dropout.IdropoutP(), h.dropout.base, startM, startN,
                           m - startM, n - startN, h.dropout.stride))
  }

  /** p, the block's exponentials. */
  function ProbFn(E: real -> real, qk: int -> Score, mIJ: real): int -> real {
    n => ExpScore(E, qk(n), mIJ)
  }

  /** p after dropout times column d of V. */
  function PvFn(E: real -> real, qk: int -> Score, mIJ: real, keep: int -> bool, vt: Tensor, d: int): int -> real {
    n => (if keep(n) then ProbFn(E, qk, mIJ)(n) else 0.0) * vt(n, d)
  }

  /** One block of the online softmax, on one row: columns lo .. hi of qk. */
  function RowStep(E: real -> real, row: Row, qk: int -> Score, keep: int -> bool, vt: Tensor, lo: int, hi: int): Row {
    var mIJ := MaxOver(row.m, qk, lo, hi);
    var lIJ := Sum(ProbFn(E, qk, mIJ), lo, hi);
    var alpha := E(row.m - mIJ);
    Row(mIJ, row.l * alpha + lIJ, d => row.acc(d) * alpha + Sum(PvFn(E, qk, mIJ, keep, vt, d), lo, hi))
  }

  // ---------------------------------------------------------------- what a row has absorbed

  /** r1 is r0 after absorbing the keys of spans p and q. Multiplied back by exp2(m), the denominator
      and the accumulators are plain sums, whatever the blocks were and whatever the maximum did. */
  ghost predicate Absorbed(E: real -> real, h: Head, log2e: real, m: int, r0: Row, r1: Row, p: Span, q: Span) {
    && r1.m == MaxOver(MaxOver(r0.m, ScoreFn(h, log2e, m), p.lo, p.hi), ScoreFn(h, log2e, m), q.lo, q.hi)
    && r1.l * E(r1.m) == r0.l * E(r0.m) + Sum(WeightFn(E, h, log2e, m), p.lo, p.hi) + Sum(WeightFn(E, h, log2e, m), q.lo, q.hi)
    && forall d :: AccAbsorbed(E, h, log2e, m, r0, r1, p, q, d)
  }

  ghost predicate AccAbsorbed(E: real -> real, h: Head, log2e: real, m: int, r0: Row, r1: Row, p: Span, q: Span, d: int) {
    r1.acc(d) * E(r1.m) == r0.acc(d) * E(r0.m)
      + Sum(ValueFn(E, h, log2e, m, d), p.lo, p.hi) + Sum(ValueFn(E, h, log2e, m, d), q.lo, q.hi)
  }

  /** The block's scores, mask bits and values are those of the reference. */
  ghost predicate BlockAgrees(h: Head, log2e: real, m: int, qk: int -> Score, keep: int -> bool, vt: Tensor, lo: int, hi: int) {
    && (forall n :: lo <= n < hi ==> qk(n) == h.ScoreAt(log2e, m, n))
    && (forall n :: lo <= n < hi && h.Sees(m, n) ==> keep(n) == h.Keeps(m, n))
    && (forall n, d :: lo <= n < hi && h.Sees(m, n) ==> vt(n, d) == h.v(n, d))
  }

  /** The online-softmax step is exact: rescaling by alpha and adding the block's terms absorbs the block. */
  lemma RowStepAbsorbs(E: real -> real, h: Head, log2e: real, m: int, row: Row,
                       qk: int -> Score, keep: int -> bool, vt: Tensor, lo: nat, hi: int)
    requires IsExp(E) && BlockAgrees(h, log2e, m, qk, keep, vt, lo, hi)
    ensures Absorbed(E, h, log2e, m, row, RowStep(E, row, qk, keep, vt, lo, hi), Span(lo, hi), Span(hi, hi))
  {
    hide Sum, MaxOver, WeightFn, ValueFn, ProbFn, PvFn, BlockAgrees;
    var next := RowStep(E, row, qk, keep, vt, lo, hi);
    ScoresOfBlock(h, log2e, m, row.m, qk, keep, vt, lo, hi);
    WeightsOfBlock(E, h, log2e, m, qk, keep, vt, next.m, lo, hi);
    SumEmpty(WeightFn(E, h, log2e, m), hi);
    Rescale(E, next.l, row.l, row.m, next.m, Sum(ProbFn(E, qk, next.m), lo, hi), Sum(WeightFn(E, h, log2e, m), lo, hi));
    forall d ensures AccAbsorbed(E, h, log2e, m, row, next, Span(lo, hi), Span(hi, hi), d) {
      ValuesOfBlock(E, h, log2e, m, qk, keep, vt, next.m, lo, hi, d);
      SumEmpty(ValueFn(E, h, log2e, m, d), hi);
      Rescale(E, next.acc(d), row.acc(d), row.m, next.m,
              Sum(PvFn(E, qk, next.m, keep, vt, d), lo, hi), Sum(ValueFn(E, h, log2e, m, d), lo, hi));
    }
  }

  lemma ScoresOfBlock(h: Head, log2e: real, m: int, init: real,
                      qk: int -> Score, keep: int -> bool, vt: Tensor, lo: nat, hi: int)
    requires BlockAgrees(h, log2e, m, qk, keep, vt, lo, hi)
    ensures var f := ScoreFn(h, log2e, m);
      MaxOver(MaxOver(init, f, lo, hi), f, hi, hi) == MaxOver(init, qk, lo, hi)
  {
    MaxOverEqual(init, qk, ScoreFn(h, log2e, m), lo, hi);
  }

  lemma WeightsOfBlock(E: real -> real, h: Head, log2e: real, m: int,
                       qk: int -> Score, keep: int -> bool, vt: Tensor, shift: real, lo: nat, hi: int)
    requires IsExp(E) && BlockAgrees(h, log2e, m, qk, keep, vt, lo, hi)
    ensures Sum(WeightFn(E, h, log2e, m), lo, hi) == E(shift) * Sum(ProbFn(E, qk, shift), lo, hi)
  {
    hide Sum;
    forall n | lo <= n < hi ensures WeightFn(E, h, log2e, m)(n) == E(shift) * ProbFn(E, qk, shift)(n) {
      if h.Sees(m, n) { ExpShift(E, h.Logit(log2e, m, n), shift); }
    }
    SumScale(E(shift), ProbFn(E, qk, shift), WeightFn(E, h, log2e, m), lo, hi);
  }

  lemma ValuesOfBlock(E: real -> real, h: Head, log2e: real, m: int,
                      qk: int -> Score, keep: int -> bool, vt: Tensor, shift: real, lo: nat, hi: int, d: int)
    requires IsExp(E) && BlockAgrees(h, log2e, m, qk, keep, vt, lo, hi)
    ensures Sum(ValueFn(E, h, log2e, m, d), lo, hi) == E(shift) * Sum(PvFn(E, qk, shift, keep, vt, d), lo, hi)
  {
    hide Sum, ValueFn, PvFn;
    forall n | lo <= n < hi
      ensures ValueFn(E, h, log2e, m, d)(n) == E(shift) * PvFn(E, qk, shift, keep, vt, d)(n)
    {
      ValueOfKey(E, h, log2e, m, qk, keep, vt, shift, lo, hi, d, n);
    }
    SumScale(E(shift), PvFn(E, qk, shift, keep, vt, d), ValueFn(E, h, log2e, m, d), lo, hi);
  }

  lemma ValueOfKey(E: real -> real, h: Head, log2e: real, m: int,
                   qk: int -> Score, keep: int -> bool, vt: Tensor, shift: real, lo: nat, hi: int, d: int, n: int)
    requires IsExp(E) && BlockAgrees(h, log2e, m, qk, keep, vt, lo, hi) && lo <= n < hi
    ensures ValueFn(E, h, log2e, m, d)(n) == E(shift) * PvFn(E, qk, shift, keep, vt, d)(n)
  {
    hide Sum;
    var p, g := ProbFn(E, qk, shift)(n), PvFn(E, qk, shift, keep, vt, d)(n);
    if h.Sees(m, n) && keep(n) {
      ExpShift(E, h.Logit(log2e, m, n), shift);
      ScaleTerm(E(h.Logit(log2e, m, n)), p, E(shift), h.v(n, d), g);
    } else {
      ScaleTerm(0.0, 0.0, E(shift), vt(n, d), g);
    }
  }

  /** y is x rescaled from shift m0 to shift m1, plus s: multiplied back, it is x's total plus w. */
  lemma Rescale(E: real -> real, y: real, x: real, m0: real, m1: real, s: real, w: real)
    requires IsExp(E) && y == x * E(m0 - m1) + s && w == E(m1) * s
    ensures y * E(m1) == x * E(m0) + w
  {
    ExpShift(E, m0, m1);
    RescaleProduct(y, x, E(m0 - m1), E(m1), E(m0), s, w);
  }

  lemma RescaleProduct(y: real, x: real, alpha: real, em: real, e0: real, s: real, w: real)
    requires y == x * alpha + s && alpha * em == e0 && w == em * s
    ensures y * em == x * e0 + w
  {
    assert x * alpha * em == x * (alpha * em);
    assert (x * alpha + s) * em == x * alpha * em + s * em;
  }

  lemma ScaleTerm(e: real, p: real, em: real, v: real, g: real)
    requires p * em == e && g == p * v
    ensures e * v == em * g
  {
    assert e * v == (p * em) * v;
  }

  // ---------------------------------------------------------------- the block loop

  /** What a call of the block loop relies on for one block: it is on the axis, and if the call carries
      no mask then the block is inside the tensors and visible to every row of the tile. */
  ghost predicate BlockReady(h: Head, startM: int, blockM: int, b: int, blockN: int, maskSteps: bool) {
    && 0 <= b
    && (!maskSteps ==> b * blockN + blockN <= h.seqlenK)
    && (!maskSteps ==> forall m, n :: startM <= m < startM + blockM && b * blockN <= n < b * blockN + blockN ==> h.Sees(m, n))
  }

  /** The mask arguments of the two calls the kernel makes. */
  ghost predicate MaskArgs(h: Head, maskSteps: bool, isCausal: bool, windowLeft: int, windowRight: int) {
    if maskSteps then isCausal == h.isCausal && windowLeft == h.windowLeft && windowRight == h.windowRight
    else !isCausal
  }

  predicate DropoutAligned(h: Head, blockN: int) {
    h.dropout.DropoutSpec? ==> blockN % PHILOX_RN_PER_OFFSET == 0
  }

  lemma AbsorbedNothing(E: real -> real, h: Head, log2e: real, m: int, r: Row, p: Span, q: Span)
    requires p.lo == p.hi && q.lo == q.hi
    ensures Absorbed(E, h, log2e, m, r, r, p, q)
  {
  }

  /** Absorbing one more block. */
  lemma AbsorbedMore(E: real -> real, h: Head, log2e: real, m: int, r0: Row, r1: Row, r2: Row,
                     p: Span, q: Span, p': Span, q': Span, lo: int, hi: int)
    requires Absorbed(E, h, log2e, m, r0, r1, p, q) && Appended(p, q, p', q', lo, hi)
    requires Absorbed(E, h, log2e, m, r1, r2, Span(lo, hi), Span(hi, hi))
    ensures Absorbed(E, h, log2e, m, r0, r2, p', q')
  {
    hide Sum, MaxOver, ScoreFn, WeightFn, ValueFn;
    var f := ScoreFn(h, log2e, m);
    MaxOverAppended(r0.m, f, p, q, p', q', lo, hi);
    MaxOverEmpty(MaxOver(r1.m, f, lo, hi), f, hi);
    SumAppended(WeightFn(E, h, log2e, m), p, q, p', q', lo, hi);
    SumEmpty(WeightFn(E, h, log2e, m), hi);
    forall d ensures AccAbsorbed(E, h, log2e, m, r0, r2, p', q', d) {
      assert AccAbsorbed(E, h, log2e, m, r0, r1, p, q, d) && AccAbsorbed(E, h, log2e, m, r1, r2, Span(lo, hi), Span(hi, hi), d);
      SumAppended(ValueFn(E, h, log2e, m, d), p, q, p', q', lo, hi);
      SumEmpty(ValueFn(E, h, log2e, m, d), hi);
    }
  }

  lemma MaxOverEmpty(init: real, f: int -> Score, x: int)
    ensures MaxOver(init, f, x, x) == init
  {
  }

  /** Every row of the tile, starting from rows0, has absorbed the keys of p and q. */
  ghost predicate TileAbsorbed(E: real -> real, h: Head, log2e: real, startM: int, rows0: seq<Row>, rows: seq<Row>, p: Span, q: Span) {
    && |rows| == |rows0|
    && forall i :: 0 <= i < |rows| ==> Absorbed(E, h, log2e, startM + i, rows0[i], rows[i], p, q)
  }

  lemma AllAbsorbNothing(E: real -> real, h: Head, log2e: real, startM: int, rows: seq<Row>, p: Span, q: Span)
    requires p.lo == p.hi && q.lo == q.hi
    ensures TileAbsorbed(E, h, log2e, startM, rows, rows, p, q)
  {
    hide Absorbed;
    forall i | 0 <= i < |rows| ensures Absorbed(E, h, log2e, startM + i, rows[i], rows[i], p, q) {
      AbsorbedNothing(E, h, log2e, startM + i, rows[i], p, q);
    }
  }

  /** What one call of the block loop is given: scale, loaded queries and mask arguments. */
  datatype Call = Call(log2e: real, qt: Tensor, startM: int, maskSteps: bool, isCausal: bool,
                       windowLeft: int, windowRight: int, blockN: int)

  function QkFn(h: Head, c: Call, kt: Tensor, m: int, startN: int): int -> Score {
    n => TileScore(h, c.log2e, c.qt, kt, m, n, startN, c.blockN, c.maskSteps, c.isCausal, c.windowLeft, c.windowRight)
  }

  /** One key block absorbed by every row of the tile. */
  function StepRows(E: real -> real, h: Head, c: Call, rows: seq<Row>, kt: Tensor, vt: Tensor, startN: int): (next: seq<Row>)
    ensures |next| == |rows|
  {
    seq(|rows|, i requires 0 <= i < |rows| =>
      RowStep(E, rows[i], QkFn(h, c, kt, c.startM + i, startN), TileKeep(h, c.startM, startN, c.startM + i),
              vt, startN, startN + c.blockN))
  }

  ghost predicate CallReady(h: Head, c: Call) {
    && 0 <= c.startM && c.blockN >= 1 && DropoutAligned(h, c.blockN)
    && MaskArgs(h, c.maskSteps, c.isCausal, c.windowLeft, c.windowRight)
    && forall r, k :: 0 <= r < h.seqlenQ ==> c.qt(r, k) == h.q(r, k)
  }

  /** Masked or not, a ready block's tile elements are the reference scores, mask bits and values. */
  lemma TileAgrees(h: Head, c: Call, kt: Tensor, vt: Tensor, blockM: int, m: int, b: int)
    requires CallReady(h, c) && BlockReady(h, c.startM, blockM, b, c.blockN, c.maskSteps)
    requires c.startM <= m < c.startM + blockM
    requires forall r, k :: 0 <= r < h.seqlenK ==> kt(r, k) == h.k(r, k)
    requires forall r, k :: 0 <= r < h.seqlenK ==> vt(r, k) == h.v(r, k)
    ensures 0 <= b * c.blockN
    ensures BlockAgrees(h, c.log2e, m, QkFn(h, c, kt, m, b * c.blockN), TileKeep(h, c.startM, b * c.blockN, m),
                        vt, b * c.blockN, b * c.blockN + c.blockN)
  {
    hide Sum, FastDropoutMask, Keep;
    MulMono(0, b, c.blockN);
    var lo := b * c.blockN;
    forall n | lo <= n < lo + c.blockN ensures QkFn(h, c, kt, m, lo)(n) == h.ScoreAt(c.log2e, m, n) {
      if h.Sees(m, n) {
        SumEqual(d => c.qt(m, d) * kt(n, d), d => h.q(m, d) * h.k(n, d), 0, h.hdimQk);
      }
    }
    forall n | lo <= n < lo + c.blockN && h.Sees(m, n)
      ensures TileKeep(h, c.startM, lo, m)(n) == h.Keeps(m, n)
    {
      if h.dropout.DropoutSpec? {
        MaskIsBlockIndependent(h.dropout.rng, h.dropout.IdropoutP(), h.dropout.base, c.startM, b, c.blockN,
                               m - c.startM, n - lo, h.dropout.stride);
      }
    }
  }

  lemma StepRowsAbsorbs(E: real -> real, h: Head, c: Call, rows0: seq<Row>, rows: seq<Row>, kt: Tensor, vt: Tensor, b: int,
                        p: Span, q: Span, p': Span, q': Span)
    requires IsExp(E) && CallReady(h, c) && BlockReady(h, c.startM, |rows0|, b, c.blockN, c.maskSteps)
    requires forall r, k :: 0 <= r < h.seqlenK ==> kt(r, k) == h.k(r, k)
    requires forall r, k :: 0 <= r < h.seqlenK ==> vt(r, k) == h.v(r, k)
    requires TileAbsorbed(E, h, c.log2e, c.startM, rows0, rows, p, q)
    requires Appended(p, q, p', q', b * c.blockN, b * c.blockN + c.blockN)
    ensures TileAbsorbed(E, h, c.log2e, c.startM, rows0, StepRows(E, h, c, rows, kt, vt, b * c.blockN), p', q')
  {
    hide Absorbed, RowStep, TileKeep, BlockAgrees, BlockReady;
    var startN := b * c.blockN;
    var next := StepRows(E, h, c, rows, kt, vt, startN);
    forall i | 0 <= i < |rows| ensures Absorbed(E, h, c.log2e, c.startM + i, rows0[i], next[i], p', q') {
      TileAgrees(h, c, kt, vt, |rows|, c.startM + i, b);
      RowStepAbsorbs(E, h, c.log2e, c.startM + i, rows[i], QkFn(h, c, kt, c.startM + i, startN),
        TileKeep(h, c.startM, startN, c.startM + i), vt, startN, startN + c.blockN);
      AbsorbedMore(E, h, c.log2e, c.startM + i, rows0[i], rows[i], next[i], p, q, p', q', startN, startN + c.blockN);
    }
  }

  /** The block loop over one range, or over two ranges fused into one. */
  method AttnFwdInner(E: real -> real, h: Head, c: Call, rows0: seq<Row>,
                      nblocks1: nat, nblocks2: nat, blockRange1: int, blockRange2: Option<int>)
      returns (rows: seq<Row>)
    requires IsExp(E) && CallReady(h, c)
    requires blockRange2.None? ==> nblocks2 == 0
    requires forall b :: blockRange1 <= b < blockRange1 + nblocks1 ==> BlockReady(h, c.startM, |rows0|, b, c.blockN, c.maskSteps)
    requires blockRange2.Some? ==>
      forall b :: blockRange2.value <= b < blockRange2.value + nblocks2 ==> BlockReady(h, c.startM, |rows0|, b, c.blockN, c.maskSteps)
    ensures |rows| == |rows0|
    ensures TileAbsorbed(E, h, c.log2e, c.startM, rows0, rows,
              FirstSpan(nblocks1 + nblocks2, nblocks1, blockRange1, c.blockN),
              SecondSpan(nblocks1 + nblocks2, nblocks1, blockRange2, c.blockN))
  {
    hide TileAbsorbed, StepRows, FirstSpan, SecondSpan, FusedBlock, Head.Sees;
    rows := rows0;
    var blockIndex := 0;
    InitialSpans(nblocks1, blockRange1, blockRange2, c.blockN);
    AllAbsorbNothing(E, h, c.log2e, c.startM, rows0,
      FirstSpan(0, nblocks1, blockRange1, c.blockN), SecondSpan(0, nblocks1, blockRange2, c.blockN));
    while blockIndex < nblocks1 + nblocks2
      invariant 0 <= blockIndex <= nblocks1 + nblocks2 && |rows| == |rows0|
      invariant TileAbsorbed(E, h, c.log2e, c.startM, rows0, rows,
                  FirstSpan(blockIndex, nblocks1, blockRange1, c.blockN),
                  SecondSpan(blockIndex, nblocks1, blockRange2, c.blockN))
    {
      var startBlock := FusedBlock(blockIndex, nblocks1, blockRange1, blockRange2);
      FusedStep(blockIndex, nblocks1, nblocks2, blockRange1, blockRange2, c.blockN);
      assert BlockReady(h, c.startM, |rows0|, startBlock, c.blockN, c.maskSteps);
      var startN := startBlock * c.blockN;
      var kt := LoadTile(h.k, h.seqlenK, startN, c.blockN, c.maskSteps);
      var vt := LoadTile(h.v, h.seqlenK, startN, c.blockN, c.maskSteps);
      StepRowsAbsorbs(E, h, c, rows0, rows, kt, vt, startBlock,
        FirstSpan(blockIndex, nblocks1, blockRange1, c.blockN), SecondSpan(blockIndex, nblocks1, blockRange2, c.blockN),
        FirstSpan(blockIndex + 1, nblocks1, blockRange1, c.blockN), SecondSpan(blockIndex + 1, nblocks1, blockRange2, c.blockN));
      rows := StepRows(E, h, c, rows, kt, vt, startN);
      blockIndex := blockIndex + 1;
    }
  }

  // ---------------------------------------------------------------- one tile

  function SeedRow(): Row { Row(SINK, 1.0, d => 0.0) }

  function PlanOf(h: Head, startM: int, blockM: int, blockN: int): Plan
    requires blockN >= 1
  {
    CalculateIntervals(h.isCausal, h.windowLeft, h.windowRight, startM, h.seqlenQ, h.seqlenK,
                       startM + blockM > h.seqlenQ, blockM, blockN)
  }

  predicate ExitsEarly(h: Head, startM: int, blockM: int, blockN: int)
    requires blockN >= 1
  {
    h.isCausal && PlanOf(h, startM, blockM, blockN).AllEmpty()
  }

  /** A finished row: all of the row's keys, each exactly once, and nothing else. */
  ghost predicate RowDone(E: real -> real, h: Head, log2e: real, m: int, r: Row) {
    && r.m == RowMax(h, log2e, m)
    && r.l * E(r.m) == Denominator(E, h, log2e, m)
    && forall d :: AccDone(E, h, log2e, m, r, d)
  }

  ghost predicate AccDone(E: real -> real, h: Head, log2e: real, m: int, r: Row, d: int) {
    r.acc(d) * E(r.m) == Sum(ValueFn(E, h, log2e, m, d), 0, h.seqlenK)
  }

  lemma VisibleIsPlanned(h: Head, plan: Plan, startM: int, m: int, blockM: int, blockN: int)
    requires blockN >= 1 && startM <= m < startM + blockM
    requires PlanCorrect(plan, h.isCausal, h.windowLeft, h.windowRight, startM, h.seqlenQ, h.seqlenK, blockM, blockN)
    ensures plan.Disjoint()
    ensures forall n :: h.Sees(m, n) ==> 0 <= n < h.seqlenK && plan.Has(n / blockN)
  {
  }

  /** The unmasked call over fb and the masked call over lb and rb together absorb the whole key axis. */
  lemma BothCallsFinishRow(E: real -> real, h: Head, log2e: real, m: int, plan: Plan, startM: int, blockM: int, blockN: int,
                           r1: Row, r2: Row)
    requires blockN >= 1 && startM <= m < startM + blockM && m < h.seqlenQ
    requires PlanCorrect(plan, h.isCausal, h.windowLeft, h.windowRight, startM, h.seqlenQ, h.seqlenK, blockM, blockN)
    requires Absorbed(E, h, log2e, m, SeedRow(), r1, RangeSpan(plan.fb, blockN), Span(0, 0))
    requires Absorbed(E, h, log2e, m, r1, r2, RangeSpan(plan.lb, blockN), RangeSpan(plan.rb, blockN))
    ensures RowDone(E, h, log2e, m, r2)
  {
    hide Sum, MaxOver, RangeSpan, PlanCorrect, Plan.Has, Visible;
    VisibleIsPlanned(h, plan, startM, m, blockM, blockN);
    var f := ScoreFn(h, log2e, m);
    MaxOverPlan(SINK, f, plan, blockN, h.seqlenK);
    MaxOverEmpty(MaxOver(SINK, f, RangeSpan(plan.fb, blockN).lo, RangeSpan(plan.fb, blockN).hi), f, 0);
    SumOverPlan(WeightFn(E, h, log2e, m), plan, blockN, h.seqlenK);
    SumEmpty(WeightFn(E, h, log2e, m), 0);
    forall d ensures AccDone(E, h, log2e, m, r2, d) {
      assert AccAbsorbed(E, h, log2e, m, SeedRow(), r1, RangeSpan(plan.fb, blockN), Span(0, 0), d);
      assert AccAbsorbed(E, h, log2e, m, r1, r2, RangeSpan(plan.lb, blockN), RangeSpan(plan.rb, blockN), d);
      SumOverPlan(ValueFn(E, h, log2e, m, d), plan, blockN, h.seqlenK);
      SumEmpty(ValueFn(E, h, log2e, m, d), 0);
    }
  }

  /** l_recip, then one multiplication per accumulator. */
  function Epilogue(h: Head, r: Row, d: int): real
    requires h.Valid() && r.l != 0.0
  {
    var lRecip := if h.dropout.DropoutSpec? then 1.0 / r.l * (1.0 / (1.0 - h.dropout.p)) else 1.0 / r.l;
    r.acc(d) * lRecip
  }

  lemma DoneRowPositive(E: real -> real, h: Head, log2e: real, m: int, r: Row)
    requires IsExp(E) && RowDone(E, h, log2e, m, r)
    ensures r.l > 0.0
    ensures E(r.m) > 0.0 && r.l == Denominator(E, h, log2e, m) / E(r.m)
  {
    hide Denominator;
    DenominatorPositive(E, h, log2e, m);
    assert ExpPositive(E, r.m);
    FactorPositive(r.l, E(r.m), Denominator(E, h, log2e, m));
  }

  lemma FactorPositive(l: real, em: real, z: real)
    requires em > 0.0 && z > 0.0 && l * em == z
    ensures l > 0.0 && l == z / em
  {
  }

  lemma EpilogueIsAttention(E: real -> real, h: Head, log2e: real, m: int, r: Row, d: int)
    requires IsExp(E) && h.Valid() && RowDone(E, h, log2e, m, r) && r.l != 0.0
    ensures Epilogue(h, r, d) == AttentionAt(E, h, log2e, m, d)
  {
    hide Denominator, Sum;
    DenominatorPositive(E, h, log2e, m);
    assert ExpPositive(E, r.m);
    assert AccDone(E, h, log2e, m, r, d);
    ScaledQuotient(r.acc(d), r.l, E(r.m), h.DropoutScale(),
      Sum(ValueFn(E, h, log2e, m, d), 0, h.seqlenK), Denominator(E, h, log2e, m));
  }

  lemma ScaledQuotient(acc: real, l: real, em: real, s: real, a: real, z: real)
    requires em > 0.0 && z > 0.0 && l != 0.0 && acc * em == a && l * em == z
    ensures acc * (1.0 / l * s) == s * a / z
  {
    calc {
      s * a / z;
      s * (acc * em) / (l * em);
      (s * acc) * em / (l * em);
      { CancelFactor(s * acc, l, em); }
      s * acc / l;
      acc * (1.0 / l * s);
    }
  }

  lemma CancelFactor(x: real, l: real, em: real)
    requires em != 0.0 && l != 0.0
    ensures l * em != 0.0 && x * em / (l * em) == x / l
  {
    var q := x / l;
    assert q * l == x;
    assert q * (l * em) == x * em;
  }

  /** A tile that exits early sees no key, so the zeros it stores are its attention. */
  lemma ExitedRowIsZero(E: real -> real, h: Head, log2e: real, m: int, d: int, startM: int, blockM: int, blockN: int)
    requires IsExp(E) && h.Valid() && blockM >= 1 && blockN >= 1 && 0 <= startM <= m < startM + blockM && m < h.seqlenQ
    requires ExitsEarly(h, startM, blockM, blockN)
    ensures AttentionAt(E, h, log2e, m, d) == 0.0
  {
    hide Sum, CalculateIntervals, Denominator, PlanCorrect, Visible;
    PlanIsCorrect(h.isCausal, h.windowLeft, h.windowRight, startM, h.seqlenQ, h.seqlenK, startM + blockM > h.seqlenQ, blockM, blockN);
    VisibleIsPlanned(h, PlanOf(h, startM, blockM, blockN), startM, m, blockM, blockN);
    SumZero(ValueFn(E, h, log2e, m, d), 0, h.seqlenK);
    DenominatorPositive(E, h, log2e, m);
    ZeroQuotient(h.DropoutScale(), Denominator(E, h, log2e, m));
  }

  lemma ZeroQuotient(s: real, z: real)
    requires z > 0.0
    ensures s * 0.0 / z == 0.0
  {
  }

  /** Where a head's output lies: rows of strideRow cells from base on, stored in three pieces of columns. */
  datatype OutSlice = OutSlice(base: int, strideRow: int, d0: nat, d1: nat, d2: nat) {
    function BlockDmodel(): nat { d0 + d1 + d2 }
    function At(m: int, d: int): int { Addr(base, strideRow, m, d) }
  }

  /** The memory holds the head's output, and the tile's early exit, if it takes it, stays inside the memory. */
  ghost predicate OutFits(h: Head, mem: array<real>, o: OutSlice, startM: int, blockM: int, blockN: int)
    requires blockN >= 1
  {
    && Fits(mem, o.base, o.strideRow, h.seqlenQ, h.hdimVo) && h.hdimVo <= o.BlockDmodel()
    && (ExitsEarly(h, startM, blockM, blockN) ==> o.At(Min(startM + blockM, h.seqlenQ) - 1, o.BlockDmodel()) <= mem.Length)
  }

  /** The cells a tile writes: its output, or BLOCK_DMODEL columns of zeros when it exits early. */
  predicate TileWrites(h: Head, o: OutSlice, startM: int, blockM: int, blockN: int, a: int)
    requires blockN >= 1 && o.strideRow >= 1
  {
    if ExitsEarly(h, startM, blockM, blockN) then
      Covered(a, o.base, o.strideRow, startM, Min(startM + blockM, h.seqlenQ), 0, o.BlockDmodel())
    else
      InTile(a, o.base, o.strideRow, startM, 0, blockM, o.BlockDmodel(), h.seqlenQ, h.hdimVo)
  }

  /** One tile: plan, early exit, unmasked call, masked call, epilogue and the two stores. The result is
      the reference attention of the tile's rows for every choice of block sizes. The early exit masks its
      log-sum-exp by the maximum length, and its zeros not by the head dimension but by BLOCK_DMODEL. */
  method AttnFwdTile(E: real -> real, Lg: real -> real, h: Head, startM: nat, blockM: nat, blockN: nat,
                     mem: array<real>, o: OutSlice, maxSeqlenQ: int, lse: array<Lse>)
    requires IsExp(E) && h.Valid() && startM < h.seqlenQ && blockM >= 1 && blockN >= 1 && DropoutAligned(h, blockN)
    requires OutFits(h, mem, o, startM, blockM, blockN) && h.seqlenQ <= maxSeqlenQ <= lse.Length
    modifies mem, lse
    ensures forall m, d :: startM <= m < startM + blockM && m < h.seqlenQ && 0 <= d < h.hdimVo
              ==> 0 <= o.At(m, d) < mem.Length && mem[o.At(m, d)] == AttentionAt(E, h, LOG2E, m, d)
    ensures forall m :: startM <= m < startM + blockM && m < h.seqlenQ
              ==> lse[m] == if ExitsEarly(h, startM, blockM, blockN) then PosInf else Lse.Lse(LseAt(E, Lg, h, LOG2E, LN2, m))
    ensures forall a :: 0 <= a < mem.Length && !TileWrites(h, o, startM, blockM, blockN, a) ==> mem[a] == old(mem[a])
    ensures forall m :: 0 <= m < lse.Length && !(startM <= m < startM + blockM && m < h.seqlenQ)
              ==> lse[m] == if ExitsEarly(h, startM, blockM, blockN) && startM <= m < startM + blockM && m < maxSeqlenQ
                            then PosInf else old(lse[m])
  {
    hide Sum, MaxOver, Absorbed, RowDone, CalculateIntervals, Denominator, RowMax, AttentionAt, LseAt, Covered, InTile, Addr;
    var maskOnSeqQ := startM + blockM > h.seqlenQ;
    var plan := CalculateIntervals(h.isCausal, h.windowLeft, h.windowRight, startM, h.seqlenQ, h.seqlenK, maskOnSeqQ, blockM, blockN);
    if h.isCausal && plan.AllEmpty() {
      ExitTile(E, h, startM, blockM, blockN, mem, o);
      forall m | startM <= m < startM + blockM && m < maxSeqlenQ { lse[m] := PosInf; }
      return;
    }
    var rows := ComputeTile(E, h, startM, blockM, blockN, plan);
    var count := Min(startM + blockM, h.seqlenQ) - startM;
    forall i | 0 <= i < count ensures rows[i].l > 0.0 {
      DoneRowPositive(E, h, LOG2E, startM + i, rows[i]);
    }
    forall i | 0 <= i < count { lse[startM + i] := Lse.Lse((rows[i].m + Lg(rows[i].l)) * LN2); }
    forall m | startM <= m < startM + blockM && m < h.seqlenQ
      ensures lse[m] == Lse.Lse(LseAt(E, Lg, h, LOG2E, LN2, m))
    {
      assert lse[startM + (m - startM)] == Lse.Lse((rows[m - startM].m + Lg(rows[m - startM].l)) * LN2);
      LseOfDoneRow(E, Lg, h, LOG2E, LN2, m, rows[m - startM]);
    }
    StoreTile(E, h, startM, blockM, mem, o, rows);
  }

  method ExitTile(E: real -> real, h: Head, startM: nat, blockM: nat, blockN: nat, mem: array<real>, o: OutSlice)
    requires IsExp(E) && h.Valid() && startM < h.seqlenQ && blockM >= 1 && blockN >= 1
    requires OutFits(h, mem, o, startM, blockM, blockN) && ExitsEarly(h, startM, blockM, blockN)
    modifies mem
    ensures forall m, d :: startM <= m < startM + blockM && m < h.seqlenQ && 0 <= d < h.hdimVo
              ==> 0 <= o.At(m, d) < mem.Length && mem[o.At(m, d)] == AttentionAt(E, h, LOG2E, m, d)
    ensures forall a :: 0 <= a < mem.Length && !TileWrites(h, o, startM, blockM, blockN, a) ==> mem[a] == old(mem[a])
  {
    hide AttentionAt, CalculateIntervals, ExitsEarly;
    ghost var was := mem[..];
    ExitStore(mem, blockM, o.d0, o.d1, o.d2, o.base, startM, h.seqlenQ, o.strideRow);
    forall m, d | startM <= m < startM + blockM && m < h.seqlenQ && 0 <= d < h.hdimVo
      ensures 0 <= o.At(m, d) < mem.Length && mem[o.At(m, d)] == AttentionAt(E, h, LOG2E, m, d)
    {
      CellOf(mem.Length, o.base, o.strideRow, m, d, h.seqlenQ, h.hdimVo);
      assert Covered(o.At(m, d), o.base, o.strideRow, startM, Min(startM + blockM, h.seqlenQ), 0, o.BlockDmodel()) by {
        assert 0 <= o.At(m, d) - Addr(o.base, o.strideRow, m, 0) < o.BlockDmodel();
      }
      assert mem[..][o.At(m, d)] == 0.0;
      ExitedRowIsZero(E, h, LOG2E, m, d, startM, blockM, blockN);
    }
    forall a | 0 <= a < mem.Length && !TileWrites(h, o, startM, blockM, blockN, a) ensures mem[a] == old(mem[a]) {
      assert mem[..][a] == was[a];
    }
  }

  /** The epilogue and the three-piece store of a computed tile; rows past the end hold arbitrary values. */
  method StoreTile(E: real -> real, h: Head, startM: nat, blockM: nat, mem: array<real>, o: OutSlice, rows: seq<Row>)
    requires IsExp(E) && h.Valid() && startM < h.seqlenQ && blockM >= 1 && |rows| == blockM
    requires Fits(mem, o.base, o.strideRow, h.seqlenQ, h.hdimVo) && h.hdimVo <= o.BlockDmodel()
    requires forall i :: 0 <= i < blockM && startM + i < h.seqlenQ ==> RowDone(E, h, LOG2E, startM + i, rows[i]) && rows[i].l != 0.0
    modifies mem
    ensures forall m, d :: startM <= m < startM + blockM && m < h.seqlenQ && 0 <= d < h.hdimVo
              ==> 0 <= o.At(m, d) < mem.Length && mem[o.At(m, d)] == AttentionAt(E, h, LOG2E, m, d)
    ensures forall a :: 0 <= a < mem.Length && !InTile(a, o.base, o.strideRow, startM, 0, blockM, o.BlockDmodel(), h.seqlenQ, h.hdimVo)
              ==> mem[a] == old(mem[a])
  {
    hide AttentionAt, RowDone, InTile, Addr;
    var acc: Grid := (r, c) => if startM <= r < startM + blockM && r < h.seqlenQ then Epilogue(h, rows[r - startM], c) else 0.0;
    ComposedStore(mem, acc, acc, acc, blockM, o.d0, o.d1, o.d2, o.base, startM, h.seqlenQ, h.hdimVo, o.strideRow);
    forall m, d | startM <= m < startM + blockM && m < h.seqlenQ && 0 <= d < h.hdimVo
      ensures 0 <= o.At(m, d) < mem.Length && mem[o.At(m, d)] == AttentionAt(E, h, LOG2E, m, d)
    {
      assert mem[Addr(o.base, o.strideRow, m, d)] == Assembled(acc, acc, acc, o.d0, o.d1)(m, d) == acc(m, d);
      EpilogueIsAttention(E, h, LOG2E, m, rows[m - startM], d);
    }
  }

  lemma LseOfDoneRow(E: real -> real, Lg: real -> real, h: Head, log2e: real, ln2: real, m: int, r: Row)
    requires IsExp(E) && RowDone(E, h, log2e, m, r)
    ensures (r.m + Lg(r.l)) * ln2 == LseAt(E, Lg, h, log2e, ln2, m)
  {
    hide Denominator, RowMax;
    DoneRowPositive(E, h, log2e, m, r);
  }

  /** The two calls of the block loop; an empty range is skipped. */
  method ComputeTile(E: real -> real, h: Head, startM: nat, blockM: nat, blockN: nat, plan: Plan) returns (rows: seq<Row>)
    requires IsExp(E) && h.Valid() && startM < h.seqlenQ && blockM >= 1 && blockN >= 1 && DropoutAligned(h, blockN)
    requires plan == PlanOf(h, startM, blockM, blockN)
    ensures |rows| == blockM
    ensures forall i :: 0 <= i < blockM && startM + i < h.seqlenQ ==> RowDone(E, h, LOG2E, startM + i, rows[i])
  {
    hide TileAbsorbed, RowDone, CalculateIntervals, PlanCorrect, BlockReady, RangeSpan, FirstSpan, SecondSpan, Head.Sees;
    assert PlanCorrect(plan, h.isCausal, h.windowLeft, h.windowRight, startM, h.seqlenQ, h.seqlenK, blockM, blockN) by {
      PlanIsCorrect(h.isCausal, h.windowLeft, h.windowRight, startM, h.seqlenQ, h.seqlenK, startM + blockM > h.seqlenQ, blockM, blockN);
    }
    PlannedBlocksReady(h, plan, startM, blockM, blockN);
    var qt := LoadTile(h.q, h.seqlenQ, startM, blockM, startM + blockM > h.seqlenQ);
    var rows0 := seq(blockM, _ => SeedRow());
    var rows1 := rows0;
    LoopSpans(plan.fb, plan.rb, blockN);
    LoopSpans(plan.lb, plan.rb, blockN);
    if !plan.fb.Empty() {
      rows1 := AttnFwdInner(E, h, Call(LOG2E, qt, startM, false, false, 0, 0, blockN), rows0, plan.fb.Size(), 0, plan.fb.lo, None);
    } else {
      EmptyRangeSpan(plan.fb, blockN);
      AllAbsorbNothing(E, h, LOG2E, startM, rows0, RangeSpan(plan.fb, blockN), Span(0, 0));
    }
    rows := rows1;
    if !(plan.lb.Empty() && plan.rb.Empty()) {
      rows := AttnFwdInner(E, h, Call(LOG2E, qt, startM, true, h.isCausal, h.windowLeft, h.windowRight, blockN), rows1,
                           plan.lb.Size(), plan.rb.Size(), plan.lb.lo, Some(plan.rb.lo));
    } else {
      EmptyRangeSpan(plan.lb, blockN);
      EmptyRangeSpan(plan.rb, blockN);
      AllAbsorbNothing(E, h, LOG2E, startM, rows1, RangeSpan(plan.lb, blockN), RangeSpan(plan.rb, blockN));
    }
    BothCallsFinishTile(E, h, LOG2E, plan, startM, blockM, blockN, rows0, rows1, rows);
  }

  lemma BothCallsFinishTile(E: real -> real, h: Head, log2e: real, plan: Plan, startM: int, blockM: int, blockN: int,
                            rows0: seq<Row>, rows1: seq<Row>, rows: seq<Row>)
    requires blockN >= 1 && |rows0| == blockM && forall i :: 0 <= i < blockM ==> rows0[i] == SeedRow()
    requires PlanCorrect(plan, h.isCausal, h.windowLeft, h.windowRight, startM, h.seqlenQ, h.seqlenK, blockM, blockN)
    requires TileAbsorbed(E, h, log2e, startM, rows0, rows1, RangeSpan(plan.fb, blockN), Span(0, 0))
    requires TileAbsorbed(E, h, log2e, startM, rows1, rows, RangeSpan(plan.lb, blockN), RangeSpan(plan.rb, blockN))
    ensures |rows| == blockM
    ensures forall i :: 0 <= i < blockM && startM + i < h.seqlenQ ==> RowDone(E, h, log2e, startM + i, rows[i])
  {
    hide Absorbed, RowDone, PlanCorrect, RangeSpan;
    forall i | 0 <= i < blockM && startM + i < h.seqlenQ ensures RowDone(E, h, log2e, startM + i, rows[i]) {
      BothCallsFinishRow(E, h, log2e, startM + i, plan, startM, blockM, blockN, rows1[i], rows[i]);
    }
  }

  lemma PlannedBlocksReady(h: Head, plan: Plan, startM: int, blockM: int, blockN: int)
    requires blockN >= 1
    requires PlanCorrect(plan, h.isCausal, h.windowLeft, h.windowRight, startM, h.seqlenQ, h.seqlenK, blockM, blockN)
    ensures forall b :: plan.fb.Has(b) ==> BlockReady(h, startM, blockM, b, blockN, false)
    ensures forall b :: plan.lb.Has(b) || plan.rb.Has(b) ==> BlockReady(h, startM, blockM, b, blockN, true)
  {
    hide Visible;
    forall b | plan.fb.Has(b) ensures BlockReady(h, startM, blockM, b, blockN, false) {
      assert plan.Has(b);
      forall m, n | startM <= m < startM + blockM && b * blockN <= n < b * blockN + blockN ensures h.Sees(m, n) {
        DivUnique(n, blockN, b);
        assert plan.fb.Has(n / blockN);
      }
    }
    forall b | plan.lb.Has(b) || plan.rb.Has(b) ensures BlockReady(h, startM, blockM, b, blockN, true) {
      assert plan.Has(b);
    }
  }
}
