/** The dq kernel, which sweeps key blocks per query tile, and the dk/dv kernel, which sweeps query blocks
    per key tile and loops over the query heads of a group. Both are proved to compute the unblocked sums. */
module BackwardKernels {
  import opened Arith
  import opened RealSums
  import opened Intervals
  import opened Options
  import opened Dropout
  import opened Attention
  import opened Sweep
  import opened Gradients
  import opened ForwardKernel

  /** One row of an accumulator, column by column. */
  type Acc = int -> real

  // ---------------------------------------------------------------- one tile element

  predicate BwdMasked(h: Head, m: int, n: int, startN: int, blockN: int, fullBlocks: bool, isCausal: bool) {
    (!fullBlocks || isCausal) && !TileMask(h, m, n, startN, blockN, !fullBlocks, isCausal, h.windowLeft, h.windowRight)
  }

  /** Element (m, n) of qk after masking, the dot product and the bias, before scaling. */
  function BwdScore(h: Head, qt: Tensor, kt: Tensor, m: int, n: int, startN: int, blockN: int,
                    fullBlocks: bool, isCausal: bool): Score
    requires h.smScale != 0.0
  {
    if BwdMasked(h, m, n, startN, blockN, fullBlocks, isCausal) then NegInf
    else
      var bias := if !fullBlocks && !(m < h.seqlenQ && n < h.seqlenK) then 0.0 else h.BiasAt(m, n);
      var biasScale := 1.0 / h.smScale;
      Fin(Sum(d => qt(m, d) * kt(n, d), 0, h.hdimQk) + bias * biasScale)
  }

  function BwdProb(E: real -> real, h: Head, log2e: real, li: Lse, qk: Score): real {
    Rebuild(E, h.QkScale(log2e), qk, Base2(li))
  }

  function BwdDp(h: Head, dOt: Tensor, vt: Tensor, m: int, n: int, keep: bool): real
    requires h.Valid()
  {
    var dp := Sum(d => dOt(m, d) * vt(n, d), 0, h.hdimVo);
    if h.dropout.DropoutSpec? then (if keep then dp * h.DropoutScale() else 0.0) else dp
  }

  /** What the two inner loops load for one tile: the row vectors read as zero past the end under a mask. */
  datatype Tiles = Tiles(q: Tensor, k: Tensor, v: Tensor, dO: Tensor, lse: int -> Lse, delta: int -> real)

  ghost predicate TilesMatch(h: Head, g: Grad, t: Tiles) {
    && (forall r, c :: 0 <= r < h.seqlenQ ==> t.q(r, c) == h.q(r, c) && t.dO(r, c) == g.dO(r, c))
    && (forall r, c :: 0 <= r < h.seqlenK ==> t.k(r, c) == h.k(r, c) && t.v(r, c) == h.v(r, c))
    && (forall r :: 0 <= r < h.seqlenQ ==> t.lse(r) == g.lse(r) && t.delta(r) == g.delta(r))
  }

  function LoadLse(x: int -> Lse, rows: int, start: int, block: int, padded: bool): int -> Lse
    requires !padded ==> start + block <= rows
  {
    r => if padded && r >= rows then Lse.Lse(0.0) else x(r)
  }

  function LoadVec(x: int -> real, rows: int, start: int, block: int, padded: bool): int -> real
    requires !padded ==> start + block <= rows
  {
    r => if padded && r >= rows then 0.0 else x(r)
  }

  /** p and ds of one element of the tile at (startM, startN). */
  function BwdP(E: real -> real, h: Head, log2e: real, t: Tiles, m: int, n: int, startN: int, blockN: int,
                fullBlocks: bool, isCausal: bool): real
    requires h.smScale != 0.0
  {
    BwdProb(E, h, log2e, t.lse(m), BwdScore(h, t.q, t.k, m, n, startN, blockN, fullBlocks, isCausal))
  }

  function BwdDs(E: real -> real, h: Head, log2e: real, t: Tiles, m: int, n: int, startM: int, startN: int, blockN: int,
                 fullBlocks: bool, isCausal: bool): real
    requires h.Valid() && h.smScale != 0.0
  {
    BwdP(E, h, log2e, t, m, n, startN, blockN, fullBlocks, isCausal)
      * (BwdDp(h, t.dO, t.v, m, n, TileKeep(h, startM, startN, m)(n)) - t.delta(m))
  }

  function BwdDroppedP(E: real -> real, h: Head, log2e: real, t: Tiles, m: int, n: int, startM: int, startN: int, blockN: int,
                       fullBlocks: bool, isCausal: bool): real
    requires h.Valid() && h.smScale != 0.0
  {
    var p := BwdP(E, h, log2e, t, m, n, startN, blockN, fullBlocks, isCausal);
    if h.dropout.DropoutSpec? then (if TileKeep(h, startM, startN, m)(n) then p * h.DropoutScale() else 0.0) else p
  }

  /** The pair (m, n) of the tile at (startM, startN): masked correctly, or visible when there is no mask. */
  ghost predicate PairReady(h: Head, m: int, n: int, startM: int, startN: int, blockN: int, fullBlocks: bool, isCausal: bool) {
    && 0 <= startM <= m && 0 <= startN <= n < startN + blockN
    && (h.dropout.DropoutSpec? ==> startN % PHILOX_RN_PER_OFFSET == 0)
    && (if fullBlocks then !isCausal && h.Sees(m, n) else isCausal == h.isCausal)
  }

  lemma ElementAgrees(E: real -> real, h: Head, g: Grad, log2e: real, t: Tiles, m: int, n: int,
                      startM: int, startN: int, blockN: int, fullBlocks: bool, isCausal: bool)
    requires h.Valid() && h.smScale > 0.0 && TilesMatch(h, g, t)
    requires PairReady(h, m, n, startM, startN, blockN, fullBlocks, isCausal)
    ensures BwdDs(E, h, log2e, t, m, n, startM, startN, blockN, fullBlocks, isCausal) == DsAt(E, h, g, log2e, m, n)
    ensures BwdDroppedP(E, h, log2e, t, m, n, startM, startN, blockN, fullBlocks, isCausal) == DroppedProbAt(E, h, g, log2e, m, n)
  {
    hide Sum, FastDropoutMask, Keep, TileSlot, PairSlot, Rebuild, BwdP, BwdDp, ProbAt, DpAt, TilesMatch;
    ProbAgrees(E, h, g, log2e, t, m, n, startM, startN, blockN, fullBlocks, isCausal);
    var p := BwdP(E, h, log2e, t, m, n, startN, blockN, fullBlocks, isCausal);
    if h.Sees(m, n) {
      DpAgrees(h, g, t, m, n, startM, startN);
    } else {
      HiddenProb(E, h, g, log2e, m, n);
      ZeroTimes(p, BwdDp(h, t.dO, t.v, m, n, TileKeep(h, startM, startN, m)(n)) - t.delta(m));
      ZeroTimes(p, h.DropoutScale());
    }
  }

  lemma HiddenProb(E: real -> real, h: Head, g: Grad, log2e: real, m: int, n: int)
    requires h.smScale != 0.0 && !h.Sees(m, n)
    ensures ProbAt(E, h, g, log2e, m, n) == 0.0
  {
  }

  /** A visible pair's dp, mask bit and delta are those of the reference. */
  lemma DpAgrees(h: Head, g: Grad, t: Tiles, m: int, n: int, startM: int, startN: int)
    requires h.Valid() && TilesMatch(h, g, t) && h.Sees(m, n) && 0 <= startM <= m && 0 <= startN <= n
    requires h.dropout.DropoutSpec? ==> startN % PHILOX_RN_PER_OFFSET == 0
    ensures TileKeep(h, startM, startN, m)(n) == h.Keeps(m, n) && t.delta(m) == g.delta(m)
    ensures BwdDp(h, t.dO, t.v, m, n, TileKeep(h, startM, startN, m)(n)) == DpAt(h, g, m, n)
  {
    hide Sum, FastDropoutMask, Keep, TileSlot, PairSlot;
    SumEqual(d => t.dO(m, d) * t.v(n, d), d => g.dO(m, d) * h.v(n, d), 0, h.hdimVo);
    KeepAgrees(h, m, n, startM, startN);
  }

  lemma ZeroTimes(p: real, x: real)
    requires p == 0.0
    ensures p * x == 0.0
  {
  }

  lemma MaskIsKeep(rng: Rng, threshold: int, base: int, startM: int, startN: nat, m: int, n: nat, stride: int)
    requires startN <= n && startN % PHILOX_RN_PER_OFFSET == 0
    ensures FastDropoutMask(rng, threshold, base, startM, startN, m - startM, n - startN, stride) == Keep(rng, threshold, base, m, n, stride)
  {
    hide TileSlot, PairSlot;
    TileSlotIsPairSlot(base, startM, startN, m - startM, n - startN, stride);
    assert startM + (m - startM) == m && startN + (n - startN) == n;
  }

  lemma KeepAgrees(h: Head, m: int, n: int, startM: int, startN: int)
    requires 0 <= startM <= m && 0 <= startN <= n
    requires h.dropout.DropoutSpec? ==> startN % PHILOX_RN_PER_OFFSET == 0
    ensures TileKeep(h, startM, startN, m)(n) == h.Keeps(m, n)
  {
    if h.dropout.DropoutSpec? {
      MaskIsKeep(h.dropout.rng, h.dropout.IdropoutP(), h.dropout.base, startM, startN, m, n, h.dropout.stride);
      hide FastDropoutMask, Keep, DropoutSpec.IdropoutP;
    }
  }

  lemma ProbAgrees(E: real -> real, h: Head, g: Grad, log2e: real, t: Tiles, m: int, n: int,
                   startM: int, startN: int, blockN: int, fullBlocks: bool, isCausal: bool)
    requires h.smScale > 0.0 && TilesMatch(h, g, t)
    requires PairReady(h, m, n, startM, startN, blockN, fullBlocks, isCausal)
    ensures BwdP(E, h, log2e, t, m, n, startN, blockN, fullBlocks, isCausal) == ProbAt(E, h, g, log2e, m, n)
  {
    hide Sum, BwdMasked, TilesMatch, Base2, Head.QkScale, Exponent;
    MaskExact(h, m, n, startM, startN, blockN, fullBlocks, isCausal);
    if h.Sees(m, n) {
      RawScoreAgrees(h, g, t, m, n, startN, blockN, fullBlocks, isCausal);
    }
  }

  /** The mask hides exactly the invisible pairs. */
  lemma MaskExact(h: Head, m: int, n: int, startM: int, startN: int, blockN: int, fullBlocks: bool, isCausal: bool)
    requires PairReady(h, m, n, startM, startN, blockN, fullBlocks, isCausal)
    ensures BwdMasked(h, m, n, startN, blockN, fullBlocks, isCausal) <==> !h.Sees(m, n)
  {
  }

  lemma RawScoreAgrees(h: Head, g: Grad, t: Tiles, m: int, n: int, startN: int, blockN: int, fullBlocks: bool, isCausal: bool)
    requires h.smScale > 0.0 && TilesMatch(h, g, t) && h.Sees(m, n)
    requires !BwdMasked(h, m, n, startN, blockN, fullBlocks, isCausal)
    ensures t.lse(m) == g.lse(m)
    ensures BwdScore(h, t.q, t.k, m, n, startN, blockN, fullBlocks, isCausal) == Fin(RawScore(h, m, n))
  {
    hide Sum, BwdMasked;
    SumEqual(d => t.q(m, d) * t.k(n, d), d => h.q(m, d) * h.k(n, d), 0, h.hdimQk);
  }

  // ---------------------------------------------------------------- accumulators

  /** acc + the sums of one block's terms */
  function AddBlock(a: Acc, f: Terms, lo: int, hi: int): Acc {
    d => a(d) + Sum(f(d), lo, hi)
  }

  ghost predicate GrewAt(f: Terms, a0: Acc, a1: Acc, p: Span, q: Span, d: int) {
    a1(d) == a0(d) + Sum(f(d), p.lo, p.hi) + Sum(f(d), q.lo, q.hi)
  }

  /** a1 is a0 plus the terms f of spans p and q, in every column. */
  ghost predicate Grew(f: Terms, a0: Acc, a1: Acc, p: Span, q: Span) {
    forall d :: GrewAt(f, a0, a1, p, q, d)
  }

  lemma GrewNothing(f: Terms, a: Acc, p: Span, q: Span)
    requires p.lo == p.hi && q.lo == q.hi
    ensures Grew(f, a, a, p, q)
  {
  }

  /** Adding a block whose terms are f. */
  lemma GrewMore(f: Terms, a0: Acc, a1: Acc, block: Terms, p: Span, q: Span, p': Span, q': Span, lo: int, hi: int)
    requires Grew(f, a0, a1, p, q) && Appended(p, q, p', q', lo, hi)
    requires forall d, x :: lo <= x < hi ==> block(d)(x) == f(d)(x)
    ensures Grew(f, a0, AddBlock(a1, block, lo, hi), p', q')
  {
    hide Sum;
    forall d ensures GrewAt(f, a0, AddBlock(a1, block, lo, hi), p', q', d) {
      assert GrewAt(f, a0, a1, p, q, d);
      SumEqual(block(d), f(d), lo, hi);
      SumAppended(f(d), p, q, p', q', lo, hi);
    }
  }

  /** A plan whose blocks hold every nonzero term: both calls together add the whole axis. */
  lemma GrewOverPlan(f: Terms, a0: Acc, a1: Acc, a2: Acc, plan: Plan, block: int, len: int, d: int)
    requires block >= 1 && plan.Disjoint()
    requires Grew(f, a0, a1, RangeSpan(plan.fb, block), Span(0, 0))
    requires Grew(f, a1, a2, RangeSpan(plan.lb, block), RangeSpan(plan.rb, block))
    requires forall x :: f(d)(x) != 0.0 ==> 0 <= x < len && plan.Has(x / block)
    ensures a2(d) == a0(d) + Sum(f(d), 0, len)
  {
    hide Sum, RangeSpan;
    assert GrewAt(f, a0, a1, RangeSpan(plan.fb, block), Span(0, 0), d);
    assert GrewAt(f, a1, a2, RangeSpan(plan.lb, block), RangeSpan(plan.rb, block), d);
    SumEmpty(f(d), 0);
    SumOverPlan(f(d), plan, block, len);
  }

  // ---------------------------------------------------------------- dq

  /** The block's contributions to row m of dq. */
  function BlockDqTerms(E: real -> real, h: Head, log2e: real, t: Tiles, m: int, startM: int, startN: int, blockN: int,
                        fullBlocks: bool, isCausal: bool): Terms
    requires h.Valid() && h.smScale != 0.0
  {
    d => n => BwdDs(E, h, log2e, t, m, n, startM, startN, blockN, fullBlocks, isCausal) * t.k(n, d)
  }

  /** A key block the loop may visit: see the forward kernel. */
  ghost predicate UnitReady(h: Head, startQ: int, blockM: int, b: int, blockN: int, fullBlocks: bool) {
    BlockReady(h, startQ, blockM, b, blockN, !fullBlocks)
  }

  lemma DqBlockAgrees(E: real -> real, h: Head, g: Grad, log2e: real, t: Tiles, m: int, startM: int, startN: int, blockN: int,
                      fullBlocks: bool, isCausal: bool)
    requires h.Valid() && h.smScale > 0.0 && TilesMatch(h, g, t)
    requires forall n :: startN <= n < startN + blockN ==> PairReady(h, m, n, startM, startN, blockN, fullBlocks, isCausal)
    ensures forall d, n :: startN <= n < startN + blockN ==>
      BlockDqTerms(E, h, log2e, t, m, startM, startN, blockN, fullBlocks, isCausal)(d)(n) == DqTerms(E, h, g, log2e, m)(d)(n)
  {
    hide BwdDs, DsAt, Head.Valid;
    forall d, n | startN <= n < startN + blockN
      ensures BlockDqTerms(E, h, log2e, t, m, startM, startN, blockN, fullBlocks, isCausal)(d)(n) == DqTerms(E, h, g, log2e, m)(d)(n)
    {
      ElementAgrees(E, h, g, log2e, t, m, n, startM, startN, blockN, fullBlocks, isCausal);
      if h.Sees(m, n) {
        assert t.k(n, d) == h.k(n, d);
      } else {
        InvisibleDs(E, h, g, log2e, m, n);
        ZeroTimes(DsAt(E, h, g, log2e, m, n), t.k(n, d));
        ZeroTimes(DsAt(E, h, g, log2e, m, n), h.k(n, d));
      }
    }
  }

  lemma InvisibleDs(E: real -> real, h: Head, g: Grad, log2e: real, m: int, n: int)
    requires h.Valid() && h.smScale != 0.0 && !h.Sees(m, n)
    ensures DsAt(E, h, g, log2e, m, n) == 0.0
    ensures DroppedProbAt(E, h, g, log2e, m, n) == 0.0
  {
  }

  ghost predicate TileGrew(E: real -> real, h: Head, g: Grad, log2e: real, startQ: int, dq0: seq<Acc>, dq: seq<Acc>, p: Span, q: Span)
    requires h.Valid() && h.smScale != 0.0
  {
    && |dq| == |dq0|
    && forall i :: 0 <= i < |dq| ==> Grew(DqTerms(E, h, g, log2e, startQ + i), dq0[i], dq[i], p, q)
  }

  lemma AllGrewNothing(E: real -> real, h: Head, g: Grad, log2e: real, startQ: int, dq: seq<Acc>, p: Span, q: Span)
    requires h.Valid() && h.smScale != 0.0 && p.lo == p.hi && q.lo == q.hi
    ensures TileGrew(E, h, g, log2e, startQ, dq, dq, p, q)
  {
    forall i | 0 <= i < |dq| ensures Grew(DqTerms(E, h, g, log2e, startQ + i), dq[i], dq[i], p, q) {
      GrewNothing(DqTerms(E, h, g, log2e, startQ + i), dq[i], p, q);
    }
  }

  /** One key block added to every row of the query tile. */
  function StepDq(E: real -> real, h: Head, log2e: real, t: Tiles, dq: seq<Acc>, startQ: int, startK: int, blockN: int,
                  fullBlocks: bool, isCausal: bool): (next: seq<Acc>)
    requires h.Valid() && h.smScale != 0.0
    ensures |next| == |dq|
  {
    seq(|dq|, i requires 0 <= i < |dq| =>
      AddBlock(dq[i], BlockDqTerms(E, h, log2e, t, startQ + i, startQ, startK, blockN, fullBlocks, isCausal), startK, startK + blockN))
  }

  lemma DqStep(E: real -> real, log2e: real, h: Head, g: Grad, t: Tiles, dq0: seq<Acc>, dq: seq<Acc>,
               startQ: nat, b: int, blockN: nat, fullBlocks: bool, isCausal: bool, p: Span, q: Span, p': Span, q': Span)
    requires h.Valid() && h.smScale > 0.0 && blockN >= 1 && TilesMatch(h, g, t) && DropoutAligned(h, blockN)
    requires if fullBlocks then !isCausal else isCausal == h.isCausal
    requires UnitReady(h, startQ, |dq0|, b, blockN, fullBlocks)
    requires TileGrew(E, h, g, log2e, startQ, dq0, dq, p, q)
    requires Appended(p, q, p', q', b * blockN, b * blockN + blockN)
    ensures TileGrew(E, h, g, log2e, startQ, dq0, StepDq(E, h, log2e, t, dq, startQ, b * blockN, blockN, fullBlocks, isCausal), p', q')
  {
    hide Grew, DqTerms, BlockDqTerms, AddBlock, TilesMatch, Head.Valid, PairReady;
    var startK := b * blockN;
    forall i | 0 <= i < |dq|
      ensures Grew(DqTerms(E, h, g, log2e, startQ + i), dq0[i],
                   StepDq(E, h, log2e, t, dq, startQ, startK, blockN, fullBlocks, isCausal)[i], p', q')
    {
      DqPairsReady(h, startQ, |dq|, startQ + i, b, blockN, fullBlocks, isCausal);
      DqBlockAgrees(E, h, g, log2e, t, startQ + i, startQ, startK, blockN, fullBlocks, isCausal);
      GrewMore(DqTerms(E, h, g, log2e, startQ + i), dq0[i], dq[i],
        BlockDqTerms(E, h, log2e, t, startQ + i, startQ, startK, blockN, fullBlocks, isCausal), p, q, p', q', startK, startK + blockN);
    }
  }

  /** The key-block loop of the dq kernel. */
  method BwdInnerDq(E: real -> real, log2e: real, h: Head, g: Grad, dq0: seq<Acc>,
                    qt: Tensor, dOt: Tensor, li: int -> Lse, di: int -> real,
                    startQ: nat, nblocks1: nat, nblocks2: nat, blockRange1: int, blockRange2: Option<int>,
                    fullBlocks: bool, isCausal: bool, blockN: nat)
      returns (dq: seq<Acc>)
    requires h.Valid() && h.smScale > 0.0 && blockN >= 1 && DropoutAligned(h, blockN)
    requires blockRange2.None? ==> nblocks2 == 0
    requires if fullBlocks then !isCausal else isCausal == h.isCausal
    requires TilesMatch(h, g, Tiles(qt, h.k, h.v, dOt, li, di))
    requires forall b :: blockRange1 <= b < blockRange1 + nblocks1 ==> UnitReady(h, startQ, |dq0|, b, blockN, fullBlocks)
    requires blockRange2.Some? ==>
      forall b :: blockRange2.value <= b < blockRange2.value + nblocks2 ==> UnitReady(h, startQ, |dq0|, b, blockN, fullBlocks)
    ensures |dq| == |dq0|
    ensures TileGrew(E, h, g, log2e, startQ, dq0, dq,
              FirstSpan(nblocks1 + nblocks2, nblocks1, blockRange1, blockN),
              SecondSpan(nblocks1 + nblocks2, nblocks1, blockRange2, blockN))
  {
    hide TileGrew, BlockSpan, Head.Sees, TilesMatch, Head.Valid, StepDq, FirstSpan, SecondSpan, FusedBlock;
    dq := dq0;
    var blockIndex := 0;
    InitialSpans(nblocks1, blockRange1, blockRange2, blockN);
    AllGrewNothing(E, h, g, log2e, startQ, dq0,
      FirstSpan(0, nblocks1, blockRange1, blockN), SecondSpan(0, nblocks1, blockRange2, blockN));
    while blockIndex < nblocks1 + nblocks2
      invariant 0 <= blockIndex <= nblocks1 + nblocks2
      invariant |dq| == |dq0|
      invariant TileGrew(E, h, g, log2e, startQ, dq0, dq,
                  FirstSpan(blockIndex, nblocks1, blockRange1, blockN),
                  SecondSpan(blockIndex, nblocks1, blockRange2, blockN))
    {
      var startBlock := FusedBlock(blockIndex, nblocks1, blockRange1, blockRange2);
      FusedStep(blockIndex, nblocks1, nblocks2, blockRange1, blockRange2, blockN);
      var startK := startBlock * blockN;
      assert UnitReady(h, startQ, |dq0|, startBlock, blockN, fullBlocks);
      var kt := LoadTile(h.k, h.seqlenK, startK, blockN, !fullBlocks);
      var vt := LoadTile(h.v, h.seqlenK, startK, blockN, !fullBlocks);
      var t := Tiles(qt, kt, vt, dOt, li, di);
      assert TilesMatch(h, g, t) by { LoadedTilesMatch(h, g, qt, dOt, li, di, kt, vt); }
      var next := StepDq(E, h, log2e, t, dq, startQ, startK, blockN, fullBlocks, isCausal);
      DqStep(E, log2e, h, g, t, dq0, dq, startQ, startBlock, blockN, fullBlocks, isCausal,
        FirstSpan(blockIndex, nblocks1, blockRange1, blockN), SecondSpan(blockIndex, nblocks1, blockRange2, blockN),
        FirstSpan(blockIndex + 1, nblocks1, blockRange1, blockN), SecondSpan(blockIndex + 1, nblocks1, blockRange2, blockN));
      dq := next;
      blockIndex := blockIndex + 1;
    }
  }

  lemma LoadedTilesMatch(h: Head, g: Grad, qt: Tensor, dOt: Tensor, li: int -> Lse, di: int -> real, kt: Tensor, vt: Tensor)
    requires TilesMatch(h, g, Tiles(qt, h.k, h.v, dOt, li, di))
    requires forall r, c :: r < h.seqlenK ==> kt(r, c) == h.k(r, c)
    requires forall r, c :: r < h.seqlenK ==> vt(r, c) == h.v(r, c)
    ensures TilesMatch(h, g, Tiles(qt, kt, vt, dOt, li, di))
  {
  }

  lemma DqPairsReady(h: Head, startQ: nat, blockM: int, m: int, b: int, blockN: nat, fullBlocks: bool, isCausal: bool)
    requires blockN >= 1 && DropoutAligned(h, blockN) && startQ <= m < startQ + blockM
    requires if fullBlocks then !isCausal else isCausal == h.isCausal
    requires UnitReady(h, startQ, blockM, b, blockN, fullBlocks)
    ensures forall n :: b * blockN <= n < b * blockN + blockN ==>
              PairReady(h, m, n, startQ, b * blockN, blockN, fullBlocks, isCausal)
  {
    MulMono(0, b, blockN);
    if h.dropout.DropoutSpec? { MultipleOfFour(b, blockN); }
  }

  lemma MultipleOfFour(b: int, block: int)
    requires block % 4 == 0
    ensures (b * block) % 4 == 0
  {
    assert block == block / 4 * 4;
    assert b * block == b * (block / 4) * 4;
    DivMod(b * (block / 4), 0, 4);
  }

  /** One tile of dQ: the result is the unblocked sum for every choice of block sizes. */
  method BwdDqTile(E: real -> real, h: Head, g: Grad, startQ: nat, blockM: nat, blockN: nat, dqOut: array2<real>)
    requires h.Valid() && h.smScale > 0.0 && startQ < h.seqlenQ && blockM >= 1 && blockN >= 1 && DropoutAligned(h, blockN)
    requires dqOut.Length0 == h.seqlenQ && dqOut.Length1 == h.hdimQk
    modifies dqOut
    ensures forall m, d :: startQ <= m < startQ + blockM && m < h.seqlenQ && 0 <= d < h.hdimQk
              ==> dqOut[m, d] == DqAt(E, h, g, RCP_LN2, m, d)
    ensures forall m, d :: 0 <= m < h.seqlenQ && 0 <= d < h.hdimQk && !(startQ <= m < startQ + blockM)
              ==> dqOut[m, d] == old(dqOut[m, d])
  {
    hide DqAt, CalculateIntervals;
    var dq := ComputeDqTile(E, h, g, startQ, blockM, blockN);
    var count := Min(startQ + blockM, h.seqlenQ) - startQ;
    forall i, d | 0 <= i < count && 0 <= d < h.hdimQk { dqOut[startQ + i, d] := dq[i](d) * h.smScale; }
    forall m, d | startQ <= m < startQ + blockM && m < h.seqlenQ && 0 <= d < h.hdimQk
      ensures dqOut[m, d] == DqAt(E, h, g, RCP_LN2, m, d)
    {
      assert dqOut[startQ + (m - startQ), d] == dq[m - startQ](d) * h.smScale;
    }
  }

  /** Both calls of the block loop; an empty range is skipped. */
  method ComputeDqTile(E: real -> real, h: Head, g: Grad, startQ: nat, blockM: nat, blockN: nat) returns (dq: seq<Acc>)
    requires h.Valid() && h.smScale > 0.0 && startQ < h.seqlenQ && blockM >= 1 && blockN >= 1 && DropoutAligned(h, blockN)
    ensures |dq| == blockM
    ensures forall i, d :: 0 <= i < blockM && startQ + i < h.seqlenQ
              ==> dq[i](d) * h.smScale == DqAt(E, h, g, RCP_LN2, startQ + i, d)
  {
    hide TileGrew, DqAt, CalculateIntervals, PlanCorrect, BlockReady, Head.Valid, Head.Sees, RangeSpan, FirstSpan, SecondSpan, TilesMatch;
    var maskOnSeqQ := startQ + blockM > h.seqlenQ;
    var plan := PlanOf(h, startQ, blockM, blockN);
    assert PlanCorrect(plan, h.isCausal, h.windowLeft, h.windowRight, startQ, h.seqlenQ, h.seqlenK, blockM, blockN) by {
      PlanOfIsCorrect(h, startQ, blockM, blockN);
    }
    PlannedBlocksReady(h, plan, startQ, blockM, blockN);
    var qt := LoadTile(h.q, h.seqlenQ, startQ, blockM, maskOnSeqQ);
    var dOt := LoadTile(g.dO, h.seqlenQ, startQ, blockM, maskOnSeqQ);
    var di := LoadVec(g.delta, h.seqlenQ, startQ, blockM, true);
    var li := LoadLse(g.lse, h.seqlenQ, startQ, blockM, true);
    assert TilesMatch(h, g, Tiles(qt, h.k, h.v, dOt, li, di)) by { LoadedRowsMatch(h, g, qt, dOt, li, di); }
    LoopSpans(plan.fb, plan.rb, blockN);
    LoopSpans(plan.lb, plan.rb, blockN);
    var dq0: seq<Acc> := seq(blockM, _ => (d: int) => 0.0);
    var dq1 := dq0;
    if !plan.fb.Empty() {
      dq1 := BwdInnerDq(E, RCP_LN2, h, g, dq0, qt, dOt, li, di, startQ, plan.fb.Size(), 0, plan.fb.lo, None, true, false, blockN);
    } else {
      EmptyRangeSpan(plan.fb, blockN);
      AllGrewNothing(E, h, g, RCP_LN2, startQ, dq0, RangeSpan(plan.fb, blockN), Span(0, 0));
    }
    dq := dq1;
    if !(plan.lb.Empty() && plan.rb.Empty()) {
      dq := BwdInnerDq(E, RCP_LN2, h, g, dq1, qt, dOt, li, di, startQ,
                       plan.lb.Size(), plan.rb.Size(), plan.lb.lo, Some(plan.rb.lo), false, h.isCausal, blockN);
    } else {
      EmptyRangeSpan(plan.lb, blockN);
      EmptyRangeSpan(plan.rb, blockN);
      AllGrewNothing(E, h, g, RCP_LN2, startQ, dq1, RangeSpan(plan.lb, blockN), RangeSpan(plan.rb, blockN));
    }
    DqTileDone(E, h, g, RCP_LN2, plan, startQ, blockM, blockN, dq0, dq1, dq);
  }

  lemma DqTileDone(E: real -> real, h: Head, g: Grad, log2e: real, plan: Plan, startQ: int, blockM: int, blockN: int,
                   dq0: seq<Acc>, dq1: seq<Acc>, dq: seq<Acc>)
    requires h.Valid() && h.smScale != 0.0 && blockN >= 1 && |dq0| == blockM
    requires PlanCorrect(plan, h.isCausal, h.windowLeft, h.windowRight, startQ, h.seqlenQ, h.seqlenK, blockM, blockN)
    requires TileGrew(E, h, g, log2e, startQ, dq0, dq1, RangeSpan(plan.fb, blockN), Span(0, 0))
    requires TileGrew(E, h, g, log2e, startQ, dq1, dq, RangeSpan(plan.lb, blockN), RangeSpan(plan.rb, blockN))
    requires forall i, d :: 0 <= i < blockM ==> dq0[i](d) == 0.0
    ensures |dq| == blockM
    ensures forall i, d :: 0 <= i < blockM && startQ + i < h.seqlenQ
              ==> dq[i](d) * h.smScale == DqAt(E, h, g, log2e, startQ + i, d)
  {
    hide Grew, DqTerms, DqAt, PlanCorrect, RangeSpan, Head.Valid;
    forall i, d | 0 <= i < blockM && startQ + i < h.seqlenQ
      ensures dq[i](d) * h.smScale == DqAt(E, h, g, log2e, startQ + i, d)
    {
      DqRowDone(E, h, g, log2e, startQ + i, plan, startQ, blockM, blockN, dq0[i], dq1[i], dq[i], d);
    }
  }

  lemma LoadedRowsMatch(h: Head, g: Grad, qt: Tensor, dOt: Tensor, li: int -> Lse, di: int -> real)
    requires forall r, c :: r < h.seqlenQ ==> qt(r, c) == h.q(r, c)
    requires forall r, c :: r < h.seqlenQ ==> dOt(r, c) == g.dO(r, c)
    requires forall r :: r < h.seqlenQ ==> li(r) == g.lse(r)
    requires forall r :: r < h.seqlenQ ==> di(r) == g.delta(r)
    ensures TilesMatch(h, g, Tiles(qt, h.k, h.v, dOt, li, di))
  {
  }

  lemma PlanOfIsCorrect(h: Head, startM: int, blockM: int, blockN: int)
    requires h.Valid() && 0 <= startM < h.seqlenQ && blockM >= 1 && blockN >= 1
    ensures PlanCorrect(PlanOf(h, startM, blockM, blockN), h.isCausal, h.windowLeft, h.windowRight,
                        startM, h.seqlenQ, h.seqlenK, blockM, blockN)
  {
    hide CalculateIntervals, PlanCorrect;
    PlanIsCorrect(h.isCausal, h.windowLeft, h.windowRight, startM, h.seqlenQ, h.seqlenK, startM + blockM > h.seqlenQ, blockM, blockN);
  }

  lemma DqRowDone(E: real -> real, h: Head, g: Grad, log2e: real, m: int, plan: Plan, startQ: int, blockM: int, blockN: int,
                  a0: Acc, a1: Acc, a2: Acc, d: int)
    requires h.Valid() && h.smScale != 0.0 && blockN >= 1 && startQ <= m < startQ + blockM
    requires PlanCorrect(plan, h.isCausal, h.windowLeft, h.windowRight, startQ, h.seqlenQ, h.seqlenK, blockM, blockN)
    requires Grew(DqTerms(E, h, g, log2e, m), a0, a1, RangeSpan(plan.fb, blockN), Span(0, 0))
    requires Grew(DqTerms(E, h, g, log2e, m), a1, a2, RangeSpan(plan.lb, blockN), RangeSpan(plan.rb, blockN))
    requires a0(d) == 0.0
    ensures a2(d) * h.smScale == DqAt(E, h, g, log2e, m, d)
  {
    hide Sum, Grew, RangeSpan, PlanCorrect, DsAt, Head.Sees;
    VisibleIsPlanned(h, plan, startQ, m, blockM, blockN);
    forall n | DqTerms(E, h, g, log2e, m)(d)(n) != 0.0 ensures 0 <= n < h.seqlenK && plan.Has(n / blockN) {
      TermsVanish(E, h, g, log2e, m, n, d);
    }
    GrewOverPlan(DqTerms(E, h, g, log2e, m), a0, a1, a2, plan, blockN, h.seqlenK, d);
  }

  /** Invisible pairs contribute nothing to any of the three gradients. */
  lemma TermsVanish(E: real -> real, h: Head, g: Grad, log2e: real, m: int, n: int, d: int)
    requires h.Valid() && h.smScale != 0.0
    ensures !h.Sees(m, n) ==> DqTerms(E, h, g, log2e, m)(d)(n) == 0.0
                              && DkTerms(E, h, g, log2e, n)(d)(m) == 0.0 && DvTerms(E, h, g, log2e, n)(d)(m) == 0.0
  {
    hide DsAt, DroppedProbAt;
    if !h.Sees(m, n) {
      InvisibleDs(E, h, g, log2e, m, n);
      ZeroTimes(DsAt(E, h, g, log2e, m, n), h.k(n, d));
      ZeroTimes(DsAt(E, h, g, log2e, m, n), h.q(m, d));
      ZeroTimes(DroppedProbAt(E, h, g, log2e, m, n), g.dO(m, d));
    }
  }

  // ---------------------------------------------------------------- dk and dv

  /** A query head of a GQA group: what differs from head to head. K, V and the geometry are shared. */
  datatype QueryHead = QueryHead(q: Tensor, bias: Bias, dropout: DropoutSpec, grad: Grad)

  function HeadOf(shared: Head, x: QueryHead): (h: Head)
    ensures h.q == x.q && h.bias == x.bias && h.dropout == x.dropout && h.k == shared.k && h.v == shared.v && h.smScale == shared.smScale
    ensures h.seqlenQ == shared.seqlenQ && h.seqlenK == shared.seqlenK && h.hdimQk == shared.hdimQk && h.hdimVo == shared.hdimVo
    ensures h.isCausal == shared.isCausal && h.windowLeft == shared.windowLeft && h.windowRight == shared.windowRight
  {
    shared.(q := x.q, bias := x.bias, dropout := x.dropout)
  }

  /** The block's contributions to row n of dk and dv. */
  function BlockDkTerms(E: real -> real, h: Head, log2e: real, t: Tiles, n: int, startM: int, startN: int, blockN: int,
                        fullBlocks: bool, isCausal: bool): Terms
    requires h.Valid() && h.smScale != 0.0
  {
    d => m => BwdDs(E, h, log2e, t, m, n, startM, startN, blockN, fullBlocks, isCausal) * t.q(m, d)
  }

  function BlockDvTerms(E: real -> real, h: Head, log2e: real, t: Tiles, n: int, startM: int, startN: int, blockN: int,
                        fullBlocks: bool, isCausal: bool): Terms
    requires h.Valid() && h.smScale != 0.0
  {
    d => m => BwdDroppedP(E, h, log2e, t, m, n, startM, startN, blockN, fullBlocks, isCausal) * t.dO(m, d)
  }

  lemma DkDvBlockAgrees(E: real -> real, h: Head, g: Grad, log2e: real, t: Tiles, n: int, startM: int, blockM: int, startN: int,
                        blockN: int, fullBlocks: bool, isCausal: bool)
    requires h.Valid() && h.smScale > 0.0 && TilesMatch(h, g, t)
    requires forall m :: startM <= m < startM + blockM ==> PairReady(h, m, n, startM, startN, blockN, fullBlocks, isCausal)
    ensures forall d, m :: startM <= m < startM + blockM ==>
      BlockDkTerms(E, h, log2e, t, n, startM, startN, blockN, fullBlocks, isCausal)(d)(m) == DkTerms(E, h, g, log2e, n)(d)(m)
    ensures forall d, m :: startM <= m < startM + blockM ==>
      BlockDvTerms(E, h, log2e, t, n, startM, startN, blockN, fullBlocks, isCausal)(d)(m) == DvTerms(E, h, g, log2e, n)(d)(m)
  {
    hide BwdDs, BwdDroppedP, DsAt, DroppedProbAt, Head.Valid;
    forall d, m | startM <= m < startM + blockM
      ensures BlockDkTerms(E, h, log2e, t, n, startM, startN, blockN, fullBlocks, isCausal)(d)(m) == DkTerms(E, h, g, log2e, n)(d)(m)
      ensures BlockDvTerms(E, h, log2e, t, n, startM, startN, blockN, fullBlocks, isCausal)(d)(m) == DvTerms(E, h, g, log2e, n)(d)(m)
    {
      ElementAgrees(E, h, g, log2e, t, m, n, startM, startN, blockN, fullBlocks, isCausal);
      if h.Sees(m, n) {
        assert t.q(m, d) == h.q(m, d) && t.dO(m, d) == g.dO(m, d);
      } else {
        InvisibleDs(E, h, g, log2e, m, n);
        ZeroTimes(DsAt(E, h, g, log2e, m, n), t.q(m, d));
        ZeroTimes(DsAt(E, h, g, log2e, m, n), h.q(m, d));
        ZeroTimes(DroppedProbAt(E, h, g, log2e, m, n), t.dO(m, d));
        ZeroTimes(DroppedProbAt(E, h, g, log2e, m, n), g.dO(m, d));
      }
    }
  }

  /** A query block the loop may visit, for the key tile at startK. */
  ghost predicate QueryBlockReady(h: Head, startK: int, blockN: int, b: int, blockM: int, fullBlocks: bool) {
    && 0 <= b
    && (fullBlocks ==> b * blockM + blockM <= h.seqlenQ)
    && (fullBlocks ==> forall m, n :: startK <= n < startK + blockN && b * blockM <= m < b * blockM + blockM ==> h.Sees(m, n))
  }

  ghost predicate KeyTileGrew(E: real -> real, h: Head, g: Grad, log2e: real, startK: int,
                              dk0: seq<Acc>, dk: seq<Acc>, dv0: seq<Acc>, dv: seq<Acc>, p: Span, q: Span)
    requires h.Valid() && h.smScale != 0.0
  {
    && |dk| == |dk0| == |dv| == |dv0|
    && (forall i :: 0 <= i < |dk| ==> Grew(DkTerms(E, h, g, log2e, startK + i), dk0[i], dk[i], p, q))
    && (forall i :: 0 <= i < |dv| ==> Grew(DvTerms(E, h, g, log2e, startK + i), dv0[i], dv[i], p, q))
  }

  lemma KeyTileGrewNothing(E: real -> real, h: Head, g: Grad, log2e: real, startK: int, dk: seq<Acc>, dv: seq<Acc>, p: Span, q: Span)
    requires h.Valid() && h.smScale != 0.0 && |dk| == |dv| && p.lo == p.hi && q.lo == q.hi
    ensures KeyTileGrew(E, h, g, log2e, startK, dk, dk, dv, dv, p, q)
  {
    hide Grew;
    forall i | 0 <= i < |dk|
      ensures Grew(DkTerms(E, h, g, log2e, startK + i), dk[i], dk[i], p, q)
      ensures Grew(DvTerms(E, h, g, log2e, startK + i), dv[i], dv[i], p, q)
    {
      GrewNothing(DkTerms(E, h, g, log2e, startK + i), dk[i], p, q);
      GrewNothing(DvTerms(E, h, g, log2e, startK + i), dv[i], p, q);
    }
  }

  /** One query block added to every row of the key tile. */
  function StepDk(E: real -> real, h: Head, log2e: real, t: Tiles, dk: seq<Acc>, startK: int, startQ: int, blockM: int,
                  fullBlocks: bool, isCausal: bool): (next: seq<Acc>)
    requires h.Valid() && h.smScale != 0.0
    ensures |next| == |dk|
  {
    seq(|dk|, i requires 0 <= i < |dk| =>
      AddBlock(dk[i], BlockDkTerms(E, h, log2e, t, startK + i, startQ, startK, |dk|, fullBlocks, isCausal), startQ, startQ + blockM))
  }

  function StepDv(E: real -> real, h: Head, log2e: real, t: Tiles, dv: seq<Acc>, startK: int, startQ: int, blockM: int,
                  fullBlocks: bool, isCausal: bool): (next: seq<Acc>)
    requires h.Valid() && h.smScale != 0.0
    ensures |next| == |dv|
  {
    seq(|dv|, i requires 0 <= i < |dv| =>
      AddBlock(dv[i], BlockDvTerms(E, h, log2e, t, startK + i, startQ, startK, |dv|, fullBlocks, isCausal), startQ, startQ + blockM))
  }

  lemma DkDvStep(E: real -> real, log2e: real, h: Head, g: Grad, t: Tiles, dk0: seq<Acc>, dk: seq<Acc>, dv0: seq<Acc>, dv: seq<Acc>,
                 startK: nat, b: int, blockM: nat, fullBlocks: bool, isCausal: bool, p: Span, q: Span, p': Span, q': Span)
    requires h.Valid() && h.smScale > 0.0 && blockM >= 1 && TilesMatch(h, g, t)
    requires h.dropout.DropoutSpec? ==> startK % PHILOX_RN_PER_OFFSET == 0
    requires if fullBlocks then !isCausal else isCausal == h.isCausal
    requires QueryBlockReady(h, startK, |dk0|, b, blockM, fullBlocks)
    requires KeyTileGrew(E, h, g, log2e, startK, dk0, dk, dv0, dv, p, q)
    requires Appended(p, q, p', q', b * blockM, b * blockM + blockM)
    ensures KeyTileGrew(E, h, g, log2e, startK, dk0, StepDk(E, h, log2e, t, dk, startK, b * blockM, blockM, fullBlocks, isCausal),
              dv0, StepDv(E, h, log2e, t, dv, startK, b * blockM, blockM, fullBlocks, isCausal), p', q')
  {
    hide Grew, DkTerms, DvTerms, BlockDkTerms, BlockDvTerms, AddBlock, TilesMatch, Head.Valid, PairReady;
    var startQ := b * blockM;
    forall i | 0 <= i < |dk|
      ensures Grew(DkTerms(E, h, g, log2e, startK + i), dk0[i],
                   StepDk(E, h, log2e, t, dk, startK, startQ, blockM, fullBlocks, isCausal)[i], p', q')
      ensures Grew(DvTerms(E, h, g, log2e, startK + i), dv0[i],
                   StepDv(E, h, log2e, t, dv, startK, startQ, blockM, fullBlocks, isCausal)[i], p', q')
    {
      DkDvPairsReady(h, startK, |dk|, startK + i, b, blockM, fullBlocks, isCausal);
      DkDvBlockAgrees(E, h, g, log2e, t, startK + i, startQ, blockM, startK, |dk|, fullBlocks, isCausal);
      GrewMore(DkTerms(E, h, g, log2e, startK + i), dk0[i], dk[i],
        BlockDkTerms(E, h, log2e, t, startK + i, startQ, startK, |dk|, fullBlocks, isCausal), p, q, p', q', startQ, startQ + blockM);
      GrewMore(DvTerms(E, h, g, log2e, startK + i), dv0[i], dv[i],
        BlockDvTerms(E, h, log2e, t, startK + i, startQ, startK, |dk|, fullBlocks, isCausal), p, q, p', q', startQ, startQ + blockM);
    }
  }

  /** The query-block loop of the dk/dv kernel. */
  method BwdInnerDkDv(E: real -> real, log2e: real, h: Head, g: Grad, dk0: seq<Acc>, dv0: seq<Acc>,
                      kt: Tensor, vt: Tensor, startK: nat,
                      nblocks1: nat, nblocks2: nat, blockRange1: int, blockRange2: Option<int>,
                      fullBlocks: bool, isCausal: bool, blockM: nat)
      returns (dk: seq<Acc>, dv: seq<Acc>)
    requires h.Valid() && h.smScale > 0.0 && blockM >= 1 && |dk0| == |dv0|
    requires h.dropout.DropoutSpec? ==> startK % PHILOX_RN_PER_OFFSET == 0
    requires blockRange2.None? ==> nblocks2 == 0
    requires if fullBlocks then !isCausal else isCausal == h.isCausal
    requires TilesMatch(h, g, Tiles(h.q, kt, vt, g.dO, g.lse, g.delta))
    requires forall b :: blockRange1 <= b < blockRange1 + nblocks1 ==> QueryBlockReady(h, startK, |dk0|, b, blockM, fullBlocks)
    requires blockRange2.Some? ==>
      forall b :: blockRange2.value <= b < blockRange2.value + nblocks2 ==> QueryBlockReady(h, startK, |dk0|, b, blockM, fullBlocks)
    ensures |dk| == |dv| == |dk0|
    ensures KeyTileGrew(E, h, g, log2e, startK, dk0, dk, dv0, dv,
              FirstSpan(nblocks1 + nblocks2, nblocks1, blockRange1, blockM),
              SecondSpan(nblocks1 + nblocks2, nblocks1, blockRange2, blockM))
  {
    hide KeyTileGrew, BlockSpan, Head.Sees, TilesMatch, Head.Valid, StepDk, StepDv, FirstSpan, SecondSpan, FusedBlock;
    dk, dv := dk0, dv0;
    var blockIndex := 0;
    InitialSpans(nblocks1, blockRange1, blockRange2, blockM);
    KeyTileGrewNothing(E, h, g, log2e, startK, dk0, dv0,
      FirstSpan(0, nblocks1, blockRange1, blockM), SecondSpan(0, nblocks1, blockRange2, blockM));
    while blockIndex < nblocks1 + nblocks2
      invariant 0 <= blockIndex <= nblocks1 + nblocks2
      invariant |dk| == |dv| == |dk0|
      invariant KeyTileGrew(E, h, g, log2e, startK, dk0, dk, dv0, dv,
                  FirstSpan(blockIndex, nblocks1, blockRange1, blockM),
                  SecondSpan(blockIndex, nblocks1, blockRange2, blockM))
    {
      var startBlock := FusedBlock(blockIndex, nblocks1, blockRange1, blockRange2);
      FusedStep(blockIndex, nblocks1, nblocks2, blockRange1, blockRange2, blockM);
      var startQ := startBlock * blockM;
      assert QueryBlockReady(h, startK, |dk0|, startBlock, blockM, fullBlocks);
      var qt := LoadTile(h.q, h.seqlenQ, startQ, blockM, !fullBlocks);
      var dOt := LoadTile(g.dO, h.seqlenQ, startQ, blockM, !fullBlocks);
      var di := LoadVec(g.delta, h.seqlenQ, startQ, blockM, !fullBlocks);
      var li := LoadLse(g.lse, h.seqlenQ, startQ, blockM, !fullBlocks);
      var t := Tiles(qt, kt, vt, dOt, li, di);
      assert TilesMatch(h, g, t) by { LoadedQueryTilesMatch(h, g, kt, vt, t); }
      var nextDk := StepDk(E, h, log2e, t, dk, startK, startQ, blockM, fullBlocks, isCausal);
      var nextDv := StepDv(E, h, log2e, t, dv, startK, startQ, blockM, fullBlocks, isCausal);
      DkDvStep(E, log2e, h, g, t, dk0, dk, dv0, dv, startK, startBlock, blockM, fullBlocks, isCausal,
        FirstSpan(blockIndex, nblocks1, blockRange1, blockM), SecondSpan(blockIndex, nblocks1, blockRange2, blockM),
        FirstSpan(blockIndex + 1, nblocks1, blockRange1, blockM), SecondSpan(blockIndex + 1, nblocks1, blockRange2, blockM));
      dk, dv := nextDk, nextDv;
      blockIndex := blockIndex + 1;
    }
  }

  lemma LoadedQueryTilesMatch(h: Head, g: Grad, kt: Tensor, vt: Tensor, t: Tiles)
    requires TilesMatch(h, g, Tiles(h.q, kt, vt, g.dO, g.lse, g.delta))
    requires t.k == kt && t.v == vt
    requires forall r, c :: r < h.seqlenQ ==> t.q(r, c) == h.q(r, c)
    requires forall r, c :: r < h.seqlenQ ==> t.dO(r, c) == g.dO(r, c)
    requires forall r :: r < h.seqlenQ ==> t.lse(r) == g.lse(r)
    requires forall r :: r < h.seqlenQ ==> t.delta(r) == g.delta(r)
    ensures TilesMatch(h, g, t)
  {
  }

  lemma DkDvPairsReady(h: Head, startK: nat, blockN: int, n: int, b: int, blockM: nat, fullBlocks: bool, isCausal: bool)
    requires blockM >= 1 && startK <= n < startK + blockN
    requires h.dropout.DropoutSpec? ==> startK % PHILOX_RN_PER_OFFSET == 0
    requires if fullBlocks then !isCausal else isCausal == h.isCausal
    requires QueryBlockReady(h, startK, blockN, b, blockM, fullBlocks)
    ensures forall m :: b * blockM <= m < b * blockM + blockM ==>
              PairReady(h, m, n, b * blockM, startK, blockN, fullBlocks, isCausal)
  {
    MulMono(0, b, blockM);
  }

  // ---------------------------------------------------------------- one key tile, all heads of the group

  /** The query heads off_h_k * group_size .. of one kv head, as offsets into the group. */
  ghost predicate GroupValid(shared: Head, xs: int -> QueryHead) {
    forall j :: HeadOf(shared, xs(j)).Valid()
  }

  ghost function DkGroupFn(E: real -> real, shared: Head, xs: int -> QueryHead, log2e: real, n: int, d: int): int -> real
    requires GroupValid(shared, xs) && shared.smScale != 0.0
  {
    j => DkSum(E, HeadOf(shared, xs(j)), xs(j).grad, log2e, n, d)
  }

  ghost function DvGroupFn(E: real -> real, shared: Head, xs: int -> QueryHead, log2e: real, n: int, d: int): int -> real
    requires GroupValid(shared, xs) && shared.smScale != 0.0
  {
    j => DvSum(E, HeadOf(shared, xs(j)), xs(j).grad, log2e, n, d)
  }

  /** dK and dV of the kv head: the sum over the group, dK scaled at the end. */
  ghost function DkAt(E: real -> real, shared: Head, xs: int -> QueryHead, groupSize: nat, log2e: real, n: int, d: int): real
    requires GroupValid(shared, xs) && shared.smScale != 0.0
  {
    Sum(DkGroupFn(E, shared, xs, log2e, n, d), 0, groupSize) * shared.smScale
  }

  ghost function DvAt(E: real -> real, shared: Head, xs: int -> QueryHead, groupSize: nat, log2e: real, n: int, d: int): real
    requires GroupValid(shared, xs) && shared.smScale != 0.0
  {
    Sum(DvGroupFn(E, shared, xs, log2e, n, d), 0, groupSize)
  }

  /** The planner called with the axes and the windows exchanged. */
  function KeyPlanOf(h: Head, startK: int, blockM: int, blockN: int): Plan
    requires blockM >= 1
  {
    CalculateIntervals(h.isCausal, h.windowRight, h.windowLeft, startK, h.seqlenK, h.seqlenQ,
                       startK + blockN > h.seqlenK, blockN, blockM)
  }

  lemma KeyPlanReady(h: Head, startK: int, blockM: int, blockN: int)
    requires h.Valid() && 0 <= startK < h.seqlenK && blockM >= 1 && blockN >= 1
    ensures var plan := KeyPlanOf(h, startK, blockM, blockN);
      && plan.Disjoint()
      && (forall m, n :: startK <= n < startK + blockN && h.Sees(m, n) ==> plan.Has(m / blockM))
      && (forall b :: plan.fb.Has(b) ==> QueryBlockReady(h, startK, blockN, b, blockM, true))
      && (forall b :: plan.lb.Has(b) || plan.rb.Has(b) ==> QueryBlockReady(h, startK, blockN, b, blockM, false))
  {
    hide CalculateIntervals;
    var plan := KeyPlanOf(h, startK, blockM, blockN);
    PlanIsCorrect(h.isCausal, h.windowRight, h.windowLeft, startK, h.seqlenK, h.seqlenQ, startK + blockN > h.seqlenK, blockN, blockM);
    forall m, n | startK <= n < startK + blockN && h.Sees(m, n) ensures plan.Has(m / blockM) {
      Transposed(h.isCausal, h.windowLeft, h.windowRight, h.seqlenQ, h.seqlenK, m, n);
      assert Visible(h.isCausal, h.windowRight, h.windowLeft, h.seqlenK, h.seqlenQ, n, m);
    }
    forall b | plan.fb.Has(b) ensures QueryBlockReady(h, startK, blockN, b, blockM, true) {
      assert plan.Has(b);
      forall m, n | startK <= n < startK + blockN && b * blockM <= m < b * blockM + blockM ensures h.Sees(m, n) {
        DivUnique(m, blockM, b);
        assert plan.fb.Has(m / blockM);
        assert Visible(h.isCausal, h.windowRight, h.windowLeft, h.seqlenK, h.seqlenQ, n, m);
        Transposed(h.isCausal, h.windowLeft, h.windowRight, h.seqlenQ, h.seqlenK, m, n);
      }
    }
    forall b | plan.lb.Has(b) || plan.rb.Has(b) ensures QueryBlockReady(h, startK, blockN, b, blockM, false) {
      assert plan.Has(b);
    }
  }

  /** One head's contribution to a key tile is complete. */
  ghost predicate HeadAdded(E: real -> real, h: Head, g: Grad, log2e: real, startK: int,
                            dk0: seq<Acc>, dk: seq<Acc>, dv0: seq<Acc>, dv: seq<Acc>)
    requires h.Valid() && h.smScale != 0.0
  {
    && |dk| == |dk0| == |dv| == |dv0|
    && (forall i, d :: 0 <= i < |dk| ==> dk[i](d) == dk0[i](d) + DkSum(E, h, g, log2e, startK + i, d))
    && (forall i, d :: 0 <= i < |dv| ==> dv[i](d) == dv0[i](d) + DvSum(E, h, g, log2e, startK + i, d))
  }

  /** The two calls of the query-block loop for one head; an empty range is skipped. */
  method AddHead(E: real -> real, h: Head, g: Grad, dk0: seq<Acc>, dv0: seq<Acc>, kt: Tensor, vt: Tensor,
                 startK: nat, blockM: nat, plan: Plan)
      returns (dk: seq<Acc>, dv: seq<Acc>)
    requires h.Valid() && h.smScale > 0.0 && startK < h.seqlenK && blockM >= 1 && |dk0| == |dv0| >= 1
    requires h.dropout.DropoutSpec? ==> startK % PHILOX_RN_PER_OFFSET == 0
    requires plan == KeyPlanOf(h, startK, blockM, |dk0|)
    requires TilesMatch(h, g, Tiles(h.q, kt, vt, g.dO, g.lse, g.delta))
    ensures HeadAdded(E, h, g, LOG2E, startK, dk0, dk, dv0, dv)
  {
    hide KeyTileGrew, CalculateIntervals, QueryBlockReady, Head.Valid, Head.Sees, RangeSpan, FirstSpan, SecondSpan, TilesMatch, HeadAdded;
    KeyPlanReady(h, startK, blockM, |dk0|);
    LoopSpans(plan.fb, plan.rb, blockM);
    LoopSpans(plan.lb, plan.rb, blockM);
    var dk1, dv1 := dk0, dv0;
    if !plan.fb.Empty() {
      dk1, dv1 := BwdInnerDkDv(E, LOG2E, h, g, dk0, dv0, kt, vt, startK, plan.fb.Size(), 0, plan.fb.lo, None, true, false, blockM);
    } else {
      EmptyRangeSpan(plan.fb, blockM);
      KeyTileGrewNothing(E, h, g, LOG2E, startK, dk0, dv0, RangeSpan(plan.fb, blockM), Span(0, 0));
    }
    dk, dv := dk1, dv1;
    if !(plan.lb.Empty() && plan.rb.Empty()) {
      dk, dv := BwdInnerDkDv(E, LOG2E, h, g, dk1, dv1, kt, vt, startK,
                             plan.lb.Size(), plan.rb.Size(), plan.lb.lo, Some(plan.rb.lo), false, h.isCausal, blockM);
    } else {
      EmptyRangeSpan(plan.lb, blockM);
      EmptyRangeSpan(plan.rb, blockM);
      KeyTileGrewNothing(E, h, g, LOG2E, startK, dk1, dv1, RangeSpan(plan.lb, blockM), RangeSpan(plan.rb, blockM));
    }
    KeyTileDone(E, h, g, LOG2E, plan, startK, blockM, dk0, dk1, dk, dv0, dv1, dv);
  }

  lemma KeyTileDone(E: real -> real, h: Head, g: Grad, log2e: real, plan: Plan, startK: int, blockM: int,
                    dk0: seq<Acc>, dk1: seq<Acc>, dk: seq<Acc>, dv0: seq<Acc>, dv1: seq<Acc>, dv: seq<Acc>)
    requires h.Valid() && h.smScale != 0.0 && blockM >= 1 && plan.Disjoint()
    requires forall m, n :: startK <= n < startK + |dk0| && h.Sees(m, n) ==> plan.Has(m / blockM)
    requires KeyTileGrew(E, h, g, log2e, startK, dk0, dk1, dv0, dv1, RangeSpan(plan.fb, blockM), Span(0, 0))
    requires KeyTileGrew(E, h, g, log2e, startK, dk1, dk, dv1, dv, RangeSpan(plan.lb, blockM), RangeSpan(plan.rb, blockM))
    ensures HeadAdded(E, h, g, log2e, startK, dk0, dk, dv0, dv)
  {
    hide Grew, DkTerms, DvTerms, RangeSpan, Head.Valid, Plan.Disjoint, Plan.Has, Head.Sees, DkSum, DvSum;
    forall i, d | 0 <= i < |dk0|
      ensures dk[i](d) == dk0[i](d) + DkSum(E, h, g, log2e, startK + i, d)
      ensures dv[i](d) == dv0[i](d) + DvSum(E, h, g, log2e, startK + i, d)
    {
      KeyRowDone(E, h, g, log2e, plan, blockM, startK + i, dk0[i], dk1[i], dk[i], dv0[i], dv1[i], dv[i], d);
    }
  }

  lemma KeyRowDone(E: real -> real, h: Head, g: Grad, log2e: real, plan: Plan, blockM: int, n: int,
                   dk0: Acc, dk1: Acc, dk: Acc, dv0: Acc, dv1: Acc, dv: Acc, d: int)
    requires h.Valid() && h.smScale != 0.0 && blockM >= 1 && plan.Disjoint()
    requires forall m :: h.Sees(m, n) ==> plan.Has(m / blockM)
    requires Grew(DkTerms(E, h, g, log2e, n), dk0, dk1, RangeSpan(plan.fb, blockM), Span(0, 0))
    requires Grew(DkTerms(E, h, g, log2e, n), dk1, dk, RangeSpan(plan.lb, blockM), RangeSpan(plan.rb, blockM))
    requires Grew(DvTerms(E, h, g, log2e, n), dv0, dv1, RangeSpan(plan.fb, blockM), Span(0, 0))
    requires Grew(DvTerms(E, h, g, log2e, n), dv1, dv, RangeSpan(plan.lb, blockM), RangeSpan(plan.rb, blockM))
    ensures dk(d) == dk0(d) + DkSum(E, h, g, log2e, n, d)
    ensures dv(d) == dv0(d) + DvSum(E, h, g, log2e, n, d)
  {
    hide Grew, RangeSpan, Head.Valid, Sum, Plan.Disjoint, Plan.Has, Head.Sees, DsAt, DroppedProbAt;
    forall m ensures !h.Sees(m, n) ==> DkTerms(E, h, g, log2e, n)(d)(m) == 0.0 && DvTerms(E, h, g, log2e, n)(d)(m) == 0.0 {
      TermsVanish(E, h, g, log2e, m, n, d);
    }
    forall m ensures h.Sees(m, n) ==> 0 <= m < h.seqlenQ { SeesInside(h, m, n); }
    GrewOverPlan(DkTerms(E, h, g, log2e, n), dk0, dk1, dk, plan, blockM, h.seqlenQ, d);
    GrewOverPlan(DvTerms(E, h, g, log2e, n), dv0, dv1, dv, plan, blockM, h.seqlenQ, d);
  }

  lemma SeesInside(h: Head, m: int, n: int)
    ensures h.Sees(m, n) ==> 0 <= m < h.seqlenQ && 0 <= n < h.seqlenK
  {
  }

  /** The head loop of the dk/dv kernel. */
  method ComputeDkDvTile(E: real -> real, shared: Head, xs: int -> QueryHead, groupSize: nat, startK: nat, blockM: nat, blockN: nat)
      returns (dk: seq<Acc>, dv: seq<Acc>)
    requires GroupValid(shared, xs) && shared.smScale > 0.0 && startK < shared.seqlenK && blockM >= 1 && blockN >= 1
    requires startK % PHILOX_RN_PER_OFFSET == 0 || forall j :: xs(j).dropout.NoDropout?
    ensures |dk| == |dv| == blockN
    ensures forall i, d :: 0 <= i < blockN ==> dk[i](d) == Sum(DkGroupFn(E, shared, xs, LOG2E, startK + i, d), 0, groupSize)
    ensures forall i, d :: 0 <= i < blockN ==> dv[i](d) == Sum(DvGroupFn(E, shared, xs, LOG2E, startK + i, d), 0, groupSize)
  {
    hide DkSum, DvSum, CalculateIntervals, TilesMatch;
    var padded := startK + blockN > shared.seqlenK;
    var kt := LoadTile(shared.k, shared.seqlenK, startK, blockN, padded);
    var vt := LoadTile(shared.v, shared.seqlenK, startK, blockN, padded);
    dk := seq(blockN, _ => (d: int) => 0.0);
    dv := seq(blockN, _ => (d: int) => 0.0);
    var plan := KeyPlanOf(shared, startK, blockM, blockN);
    for j := 0 to groupSize
      invariant |dk| == |dv| == blockN
      invariant forall i, d :: 0 <= i < blockN ==> dk[i](d) == Sum(DkGroupFn(E, shared, xs, LOG2E, startK + i, d), 0, j)
      invariant forall i, d :: 0 <= i < blockN ==> dv[i](d) == Sum(DvGroupFn(E, shared, xs, LOG2E, startK + i, d), 0, j)
    {
      var h := HeadOf(shared, xs(j));
      assert plan == KeyPlanOf(h, startK, blockM, blockN);
      assert TilesMatch(h, xs(j).grad, Tiles(h.q, kt, vt, xs(j).grad.dO, xs(j).grad.lse, xs(j).grad.delta)) by {
        LoadedKeyTilesMatch(h, xs(j).grad, kt, vt);
      }
      dk, dv := AddHead(E, h, xs(j).grad, dk, dv, kt, vt, startK, blockM, plan);
    }
  }

  lemma LoadedKeyTilesMatch(h: Head, g: Grad, kt: Tensor, vt: Tensor)
    requires forall r, c :: r < h.seqlenK ==> kt(r, c) == h.k(r, c)
    requires forall r, c :: r < h.seqlenK ==> vt(r, c) == h.v(r, c)
    ensures TilesMatch(h, g, Tiles(h.q, kt, vt, g.dO, g.lse, g.delta))
  {
  }

  /** One tile of dK and dV: the unblocked sums over all heads of the group, for every choice of block
      sizes. kBlock is the program id; with dropout the key tile must start at a multiple of four. */
  method BwdDkDvTile(E: real -> real, shared: Head, xs: int -> QueryHead, groupSize: nat, kBlock: nat, blockM: nat, blockN: nat,
                     dkOut: array2<real>, dvOut: array2<real>)
    requires GroupValid(shared, xs) && shared.smScale > 0.0 && kBlock * blockN < shared.seqlenK && blockM >= 1 && blockN >= 1
    requires blockN % PHILOX_RN_PER_OFFSET == 0 || forall j :: xs(j).dropout.NoDropout?
    requires dkOut.Length0 == shared.seqlenK && dkOut.Length1 == shared.hdimQk
    requires dvOut.Length0 == shared.seqlenK && dvOut.Length1 == shared.hdimVo && dkOut != dvOut
    modifies dkOut, dvOut
    ensures forall n, d :: kBlock * blockN <= n < kBlock * blockN + blockN && n < shared.seqlenK && 0 <= d < shared.hdimQk
              ==> dkOut[n, d] == DkAt(E, shared, xs, groupSize, LOG2E, n, d)
    ensures forall n, d :: kBlock * blockN <= n < kBlock * blockN + blockN && n < shared.seqlenK && 0 <= d < shared.hdimVo
              ==> dvOut[n, d] == DvAt(E, shared, xs, groupSize, LOG2E, n, d)
    ensures forall n, d ::
              0 <= n < shared.seqlenK && 0 <= d < shared.hdimQk && !(kBlock * blockN <= n < kBlock * blockN + blockN) ==>
              dkOut[n, d] == old(dkOut[n, d])
    ensures forall n, d ::
              0 <= n < shared.seqlenK && 0 <= d < shared.hdimVo && !(kBlock * blockN <= n < kBlock * blockN + blockN) ==>
              dvOut[n, d] == old(dvOut[n, d])
  {
    hide DkGroupFn, DvGroupFn, GroupValid, Sum, DkAt, DvAt;
    var startK := kBlock * blockN;
    if blockN % PHILOX_RN_PER_OFFSET == 0 { MultipleOfFour(kBlock, blockN); }
    var dk, dv := ComputeDkDvTile(E, shared, xs, groupSize, startK, blockM, blockN);
    StoreRows(dkOut, dk, startK, shared.smScale);
    StoreRows(dvOut, dv, startK, 1.0);
    forall n, d | startK <= n < startK + blockN && n < shared.seqlenK && 0 <= d < shared.hdimQk
      ensures dkOut[n, d] == DkAt(E, shared, xs, groupSize, LOG2E, n, d)
    {
      assert dk[n - startK](d) == Sum(DkGroupFn(E, shared, xs, LOG2E, startK + (n - startK), d), 0, groupSize);
      StoredDk(E, shared, xs, groupSize, n, d, dk[n - startK](d), dkOut[n, d]);
    }
    forall n, d | startK <= n < startK + blockN && n < shared.seqlenK && 0 <= d < shared.hdimVo
      ensures dvOut[n, d] == DvAt(E, shared, xs, groupSize, LOG2E, n, d)
    {
      assert dv[n - startK](d) == Sum(DvGroupFn(E, shared, xs, LOG2E, startK + (n - startK), d), 0, groupSize);
      StoredDv(E, shared, xs, groupSize, n, d, dv[n - startK](d), dvOut[n, d]);
    }
  }

  lemma StoredDk(E: real -> real, shared: Head, xs: int -> QueryHead, groupSize: nat, n: int, d: int, sum: real, stored: real)
    requires GroupValid(shared, xs) && shared.smScale != 0.0 && stored == sum * shared.smScale
    requires sum == Sum(DkGroupFn(E, shared, xs, LOG2E, n, d), 0, groupSize)
    ensures stored == DkAt(E, shared, xs, groupSize, LOG2E, n, d)
  {
    hide Sum, DkGroupFn, GroupValid;
  }

  lemma StoredDv(E: real -> real, shared: Head, xs: int -> QueryHead, groupSize: nat, n: int, d: int, sum: real, stored: real)
    requires GroupValid(shared, xs) && shared.smScale != 0.0 && stored == sum * 1.0
    requires sum == Sum(DvGroupFn(E, shared, xs, LOG2E, n, d), 0, groupSize)
    ensures stored == DvAt(E, shared, xs, groupSize, LOG2E, n, d)
  {
    hide Sum, DvGroupFn, GroupValid;
  }

  /** composed_store of an accumulator times a factor: the rows of the tile that exist. */
  method StoreRows(out: array2<real>, acc: seq<Acc>, start: nat, factor: real)
    modifies out
    ensures forall n, d :: start <= n < start + |acc| && n < out.Length0 && 0 <= d < out.Length1
              ==> out[n, d] == acc[n - start](d) * factor
    ensures forall n, d :: 0 <= n < out.Length0 && 0 <= d < out.Length1 && !(start <= n < start + |acc|)
              ==> out[n, d] == old(out[n, d])
  {
    forall n, d | start <= n < Min(start + |acc|, out.Length0) && 0 <= d < out.Length1 {
      out[n, d] := acc[n - start](d) * factor;
    }
  }
}
