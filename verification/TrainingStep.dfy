/** One training step of a kv head and its query heads: forward launch, preprocess launch, dq launch and dk/dv
    launch, each reading what the earlier ones left in memory. */
module TrainingStep {
  import opened RealSums
  import opened Intervals
  import opened Dropout
  import opened Attention
  import opened Gradients
  import opened ComposedTensors
  import opened ForwardKernel
  import opened Preprocess
  import opened BackwardKernels
  import opened Launches
  import opened KernelGradients
  import opened SoftmaxGradient
  import opened Derivatives
  import opened Slopes
  import opened Accuracy

  /** A launch: block sizes, and the tiles in the order in which their workgroups happen to run. */
  datatype Tiling = Tiling(blocks: seq<nat>, blockM: nat, blockN: nat)

  datatype Step = Step(forward: Tiling, prep: Tiling, dq: Tiling, dkdv: Tiling)

  ghost predicate TilingFits(h: Head, t: Tiling) {
    t.blockM >= 1 && t.blockN >= 1 && DropoutAligned(h, t.blockN)
  }

  /** What the launches of one query head need: block sizes that suit dropout, and an output slice whose early
      exits stay inside their rows. */
  ghost predicate StepFits(h: Head, s: Step, o: OutSlice, size: nat) {
    && h.smScale > 0.0 && TilingFits(h, s.forward) && TilingFits(h, s.dq) && TilingFits(h, s.dkdv) && s.prep.blockM >= 1
    && AllBlocks(s.forward.blocks, h.seqlenQ, s.forward.blockM) && AllBlocks(s.prep.blocks, h.seqlenQ, s.prep.blockM)
    && AllBlocks(s.dq.blocks, h.seqlenQ, s.dq.blockM)
    && 0 <= o.base && h.hdimVo <= o.strideRow && 1 <= o.strideRow && o.base + h.seqlenQ * o.strideRow <= size
    && h.hdimVo <= o.BlockDmodel() && NoSpill(h, o, s.forward.blockM, s.forward.blockN)
  }

  /** A head's output, read back. */
  function OutOf(mem: seq<real>, o: OutSlice): Grid {
    (m, d) => if 0 <= o.At(m, d) < |mem| then mem[o.At(m, d)] else 0.0
  }

  function GradOf(dO: Tensor, lse: seq<Lse>, delta: seq<real>): Grad {
    Grad(dO, m => if 0 <= m < |lse| then lse[m] else PosInf, m => if 0 <= m < |delta| then delta[m] else 0.0)
  }

  lemma ExitedRowSeesNothing(h: Head, blockM: nat, blockN: nat, m: int)
    requires h.Valid() && blockM >= 1 && blockN >= 1 && 0 <= m < h.seqlenQ && ExitsEarly(h, m / blockM * blockM, blockM, blockN)
    ensures forall n :: !h.Sees(m, n)
  {
    hide CalculateIntervals, PlanCorrect, Visible;
    var startM := m / blockM * blockM;
    TileOf(h.seqlenQ, blockM, m);
    PlanIsCorrect(h.isCausal, h.windowLeft, h.windowRight, startM, h.seqlenQ, h.seqlenK, startM + blockM > h.seqlenQ, blockM, blockN);
    VisibleIsPlanned(h, PlanOf(h, startM, blockM, blockN), startM, m, blockM, blockN);
  }

  /** What the forward and the preprocess launch leave for a row is what the backward formulas ask for. */
  lemma LaunchesStoreRow(E: real -> real, Lg: real -> real, h: Head, o: OutSlice, t: Tiling, dO: Tensor,
                         mem: seq<real>, lse: seq<Lse>, delta: seq<real>, m: int)
    requires IsExp(E) && IsLog(E, Lg) && h.Valid() && h.smScale > 0.0 && t.blockM >= 1 && t.blockN >= 1 && 0 <= m < h.seqlenQ
    requires RowStored(E, Lg, h, o, t.blockM, t.blockN, mem, lse, m) && DeltaStored(OutOf(mem, o), dO, h.hdimVo, delta, 0, m)
    ensures StoredRow(E, Lg, h, GradOf(dO, lse, delta), LOG2E, LN2, m)
  {
    hide Sum, AttentionAt, LseAt, Addr, ExitsEarly;
    StoredDeltaIsDelta(E, h, GradOf(dO, lse, delta), LOG2E, m, OutOf(mem, o));
    if ExitsEarly(h, m / t.blockM * t.blockM, t.blockM, t.blockN) { ExitedRowSeesNothing(h, t.blockM, t.blockN, m); }
  }

  /** The forward and the preprocess launch of one query head, on fresh memory with arbitrary contents. */
  method HeadForward(E: real -> real, Lg: real -> real, h: Head, dO: Tensor, s: Step, o: OutSlice, size: nat)
      returns (out: array<real>, g: Grad)
    requires IsExp(E) && IsLog(E, Lg) && h.Valid() && StepFits(h, s, o, size)
    ensures fresh(out) && g.dO == dO && AllRowsStored(E, Lg, h, g, LOG2E, LN2) && OutDone(E, h, o, out)
  {
    hide AttentionAt, StoredRow, StoredLse, NoSpill, AllBlocks, DeltaStored, Addr;
    out := new real[size];
    var lse := new Lse[h.seqlenQ](_ => PosInf);
    var delta := new real[h.seqlenQ];
    ForwardLaunch(E, Lg, h, o, s.forward.blocks, s.forward.blockM, s.forward.blockN, out, lse);
    PreprocessLaunch(OutOf(out[..], o), dO, h.seqlenQ, h.hdimVo, o.d0, o.d1, o.d2, 0, s.prep.blocks, s.prep.blockM, delta);
    g := GradOf(dO, lse[..], delta[..]);
    forall m | 0 <= m < h.seqlenQ
      ensures StoredRow(E, Lg, h, g, LOG2E, LN2, m)
      ensures RowStored(E, Lg, h, o, s.forward.blockM, s.forward.blockN, out[..], lse[..], m)
    {
      LaunchesStoreRow(E, Lg, h, o, s.forward, dO, out[..], lse[..], delta[..], m);
    }
    forall m, d | 0 <= m < h.seqlenQ && 0 <= d < h.hdimVo
      ensures 0 <= o.At(m, d) < out.Length && out[o.At(m, d)] == AttentionAt(E, h, LOG2E, m, d)
    {
      assert RowStored(E, Lg, h, o, s.forward.blockM, s.forward.blockN, out[..], lse[..], m);
      assert out[..][o.At(m, d)] == AttentionAt(E, h, LOG2E, m, d);
    }
  }

  /** The query heads of the group with what the forward half left for them. */
  function WithGrads(inputs: int -> QueryHead, grads: seq<Grad>): int -> QueryHead {
    j => if 0 <= j < |grads| then inputs(j).(grad := grads[j]) else inputs(j)
  }

  ghost predicate GroupFits(shared: Head, inputs: int -> QueryHead, groupSize: nat, s: Step, o: OutSlice, size: nat) {
    && GroupValid(shared, inputs) && s.dkdv.blockM >= 1 && s.dkdv.blockN >= 1
    && (forall j :: 0 <= j < groupSize ==> StepFits(HeadOf(shared, inputs(j)), s, o, size))
    && (s.dkdv.blockN % PHILOX_RN_PER_OFFSET == 0 || forall j :: inputs(j).dropout.NoDropout?)
    && AllBlocks(s.dkdv.blocks, shared.seqlenK, s.dkdv.blockN)
  }

  /** Rows of DQ, DK and DV: what the exact gradient has there, term by term times its factor. */
  ghost function DqStored(E: real -> real, Lg: real -> real, h: Head, g: Grad, m: int, d: int): real
    requires IsExp(E) && h.Valid() && h.smScale != 0.0
  {
    Sum(DqFactored(E, Lg, h, g, LOG2E, RCP_LN2, LN2, m, d), 0, h.seqlenK) * h.smScale
  }

  ghost function DkOfHeads(E: real -> real, Lg: real -> real, shared: Head, xs: int -> QueryHead, n: int, d: int): int -> real
    requires IsExp(E) && GroupValid(shared, xs) && shared.smScale != 0.0
  {
    j => Sum(DkFactored(E, Lg, HeadOf(shared, xs(j)), xs(j).grad, LOG2E, LOG2E, LN2, n, d), 0, shared.seqlenQ)
  }

  ghost function DvOfHeads(E: real -> real, Lg: real -> real, shared: Head, xs: int -> QueryHead, n: int, d: int): int -> real
    requires IsExp(E) && GroupValid(shared, xs) && shared.smScale != 0.0
  {
    j => Sum(DvFactored(E, Lg, HeadOf(shared, xs(j)), xs(j).grad, LOG2E, LOG2E, LN2, n, d), 0, shared.seqlenQ)
  }

  lemma GroupSumsAreFactored(E: real -> real, Lg: real -> real, shared: Head, xs: int -> QueryHead, groupSize: nat, n: int, d: int)
    requires IsExp(E) && GroupValid(shared, xs) && shared.smScale != 0.0
    requires forall j :: 0 <= j < groupSize ==> AllRowsStored(E, Lg, HeadOf(shared, xs(j)), xs(j).grad, LOG2E, LN2)
    ensures DkAt(E, shared, xs, groupSize, LOG2E, n, d) == Sum(DkOfHeads(E, Lg, shared, xs, n, d), 0, groupSize) * shared.smScale
    ensures DvAt(E, shared, xs, groupSize, LOG2E, n, d) == Sum(DvOfHeads(E, Lg, shared, xs, n, d), 0, groupSize)
  {
    hide Sum, AllRowsStored, DkSum, DvSum, DkFactored, DvFactored;
    forall j | 0 <= j < groupSize
      ensures DkGroupFn(E, shared, xs, LOG2E, n, d)(j) == DkOfHeads(E, Lg, shared, xs, n, d)(j)
      ensures DvGroupFn(E, shared, xs, LOG2E, n, d)(j) == DvOfHeads(E, Lg, shared, xs, n, d)(j)
    {
      assert HeadOf(shared, xs(j)).Valid();
      DkDvAreFactored(E, Lg, HeadOf(shared, xs(j)), xs(j).grad, LOG2E, LOG2E, LN2, n, d);
    }
    SumEqual(DkGroupFn(E, shared, xs, LOG2E, n, d), DkOfHeads(E, Lg, shared, xs, n, d), 0, groupSize);
    SumEqual(DvGroupFn(E, shared, xs, LOG2E, n, d), DvOfHeads(E, Lg, shared, xs, n, d), 0, groupSize);
  }

  /** The dq launch of one head on what its forward half stored. */
  method HeadDq(E: real -> real, Lg: real -> real, h: Head, g: Grad, s: Step, o: OutSlice, size: nat) returns (dq: array2<real>)
    requires IsExp(E) && IsLog(E, Lg) && h.Valid() && StepFits(h, s, o, size) && AllRowsStored(E, Lg, h, g, LOG2E, LN2)
    ensures fresh(dq) && DqDone(E, Lg, h, g, dq)
  {
    hide DqAt, DqFactored, StoredRow, AllBlocks, NoSpill;
    dq := DqLaunch(E, h, g, s.dq.blocks, s.dq.blockM, s.dq.blockN);
    forall m, d | 0 <= m < h.seqlenQ && 0 <= d < h.hdimQk ensures dq[m, d] == DqStored(E, Lg, h, g, m, d) {
      DqIsFactored(E, Lg, h, g, LOG2E, RCP_LN2, LN2, m, d);
    }
  }

  /** Out holds the attention of every row, and DQ the sums of the dq kernel. */
  ghost predicate OutDone(E: real -> real, h: Head, o: OutSlice, out: array<real>)
    requires IsExp(E) && h.Valid()
    reads out
  {
    forall m, d :: 0 <= m < h.seqlenQ && 0 <= d < h.hdimVo ==>
      0 <= o.At(m, d) < out.Length && out[o.At(m, d)] == AttentionAt(E, h, LOG2E, m, d)
  }

  ghost predicate DqDone(E: real -> real, Lg: real -> real, h: Head, g: Grad, dq: array2<real>)
    requires IsExp(E) && h.Valid() && h.smScale != 0.0
    reads dq
  {
    && dq.Length0 == h.seqlenQ && dq.Length1 == h.hdimQk
    && forall m, d :: 0 <= m < h.seqlenQ && 0 <= d < h.hdimQk ==> dq[m, d] == DqStored(E, Lg, h, g, m, d)
  }

  /** One query head of the step is through: its output, what its backward half reads, and its DQ. */
  ghost predicate HeadDone(E: real -> real, Lg: real -> real, shared: Head, x: QueryHead, g: Grad, o: OutSlice,
                           out: array<real>, dq: array2<real>)
    reads out, dq
  {
    var h := HeadOf(shared, x);
    && IsExp(E) && h.Valid() && h.smScale != 0.0 && g.dO == x.grad.dO && AllRowsStored(E, Lg, h, g, LOG2E, LN2)
    && OutDone(E, h, o, out) && DqDone(E, Lg, h, g, dq)
  }

  /** The whole step: Out is the attention of every query head, and DQ, DK and DV hold the exact gradients of that
      attention with every term times the factor of its pair, for all block sizes, windows and orders. */
  method TrainStep(E: real -> real, Lg: real -> real, shared: Head, inputs: int -> QueryHead, groupSize: nat,
                   s: Step, o: OutSlice, size: nat)
      returns (outs: seq<array<real>>, xs: int -> QueryHead, dqs: seq<array2<real>>, dk: array2<real>, dv: array2<real>)
    requires IsExp(E) && IsLog(E, Lg) && shared.smScale > 0.0 && 1 <= shared.seqlenK && 0 <= shared.hdimQk && 0 <= shared.hdimVo
    requires GroupFits(shared, inputs, groupSize, s, o, size)
    ensures |outs| == |dqs| == groupSize && GroupValid(shared, xs)
    ensures forall j :: 0 <= j < groupSize ==> xs(j) == inputs(j).(grad := xs(j).grad) && xs(j).grad.dO == inputs(j).grad.dO
    ensures forall j :: 0 <= j < groupSize ==> OutDone(E, HeadOf(shared, xs(j)), o, outs[j])
    ensures forall j :: 0 <= j < groupSize ==> DqDone(E, Lg, HeadOf(shared, xs(j)), xs(j).grad, dqs[j])
    ensures dk.Length0 == dv.Length0 == shared.seqlenK && dk.Length1 == shared.hdimQk && dv.Length1 == shared.hdimVo
    ensures forall n, d :: 0 <= n < shared.seqlenK && 0 <= d < shared.hdimQk ==>
              dk[n, d] == Sum(DkOfHeads(E, Lg, shared, xs, n, d), 0, groupSize) * shared.smScale
    ensures forall n, d :: 0 <= n < shared.seqlenK && 0 <= d < shared.hdimVo ==>
              dv[n, d] == Sum(DvOfHeads(E, Lg, shared, xs, n, d), 0, groupSize)
    ensures forall c, top :: GroupUsual(E, Lg, c, shared, xs, groupSize, top) ==>
              GradientsNear(E, shared, xs, groupSize, dqs, dk, dv, TwiceTolerance(Lg, shared, top))
  {
    hide Sum, AttentionAt, DqStored, AllRowsStored, AllBlocks, StepFits, DkAt, DvAt, DkOfHeads, DvOfHeads, HeadDone, GroupValid, OutDone, DqDone, GroupUsual, GradientsNear, TwiceTolerance;
    var grads: seq<Grad>;
    outs, grads, dqs := AllHeads(E, Lg, shared, inputs, groupSize, s, o, size);
    xs := WithGrads(inputs, grads);
    WithGradsValid(shared, inputs, grads);
    forall j | 0 <= j < groupSize
      ensures HeadDone(E, Lg, shared, xs(j), xs(j).grad, o, outs[j], dqs[j])
      ensures xs(j) == inputs(j).(grad := xs(j).grad) && xs(j).grad.dO == inputs(j).grad.dO
    {
      HeadDoneWithGrad(E, Lg, shared, inputs(j), grads[j], o, outs[j], dqs[j]);
    }
    dk, dv := DkDvLaunch(E, shared, xs, groupSize, s.dkdv.blocks, s.dkdv.blockM, s.dkdv.blockN);
    HeadsDone(E, Lg, shared, xs, groupSize, o, outs, dqs);
    forall n, d
      ensures DkAt(E, shared, xs, groupSize, LOG2E, n, d) == Sum(DkOfHeads(E, Lg, shared, xs, n, d), 0, groupSize) * shared.smScale
    {
      GroupSumsAreFactored(E, Lg, shared, xs, groupSize, n, d);
    }
    forall n, d ensures DvAt(E, shared, xs, groupSize, LOG2E, n, d) == Sum(DvOfHeads(E, Lg, shared, xs, n, d), 0, groupSize) {
      GroupSumsAreFactored(E, Lg, shared, xs, groupSize, n, d);
    }
    forall c, top | GroupUsual(E, Lg, c, shared, xs, groupSize, top)
      ensures GradientsNear(E, shared, xs, groupSize, dqs, dk, dv, TwiceTolerance(Lg, shared, top))
    {
      StepIsNear(E, Lg, c, shared, xs, groupSize, dqs, dk, dv, top);
    }
  }

  // ---------------------------------------------------------------- how near the gradients are

  /** exp2 is exp2, and all scores of all heads stay within [-top, top]. */
  ghost predicate GroupUsual(E: real -> real, Lg: real -> real, c: real, shared: Head, xs: int -> QueryHead, groupSize: nat, top: real) {
    forall j :: 0 <= j < groupSize ==> Usual(E, Lg, c, HeadOf(shared, xs(j)), top)
  }

  ghost function ExactDk(E: real -> real, shared: Head, xs: int -> QueryHead, n: int, d: int): int -> real
    requires IsExp(E) && GroupValid(shared, xs)
  {
    j => TrueDk(E, HeadOf(shared, xs(j)), xs(j).grad, LOG2E, n, d)
  }

  ghost function ExactDv(E: real -> real, shared: Head, xs: int -> QueryHead, n: int, d: int): int -> real
    requires IsExp(E) && GroupValid(shared, xs)
  {
    j => TrueDv(E, HeadOf(shared, xs(j)), xs(j).grad, LOG2E, n, d)
  }

  ghost function DkSizes(E: real -> real, shared: Head, xs: int -> QueryHead, n: int, d: int): int -> real
    requires IsExp(E) && GroupValid(shared, xs)
  {
    j => DkSize(E, HeadOf(shared, xs(j)), xs(j).grad, n, d)
  }

  ghost function DvSizes(E: real -> real, shared: Head, xs: int -> QueryHead, n: int, d: int): int -> real
    requires IsExp(E) && GroupValid(shared, xs)
  {
    j => DvSize(E, HeadOf(shared, xs(j)), xs(j).grad, n, d)
  }

  /** Every entry of DQ, DK and DV is the exact gradient up to t times the sizes of its terms. */
  ghost predicate GradientsNear(E: real -> real, shared: Head, xs: int -> QueryHead, groupSize: nat,
                                dqs: seq<array2<real>>, dk: array2<real>, dv: array2<real>, t: real)
    requires IsExp(E) && GroupValid(shared, xs) && |dqs| == groupSize
    requires dk.Length0 == dv.Length0 == shared.seqlenK && dk.Length1 == shared.hdimQk && dv.Length1 == shared.hdimVo
    reads dqs, dk, dv
  {
    && (forall j :: 0 <= j < groupSize ==> dqs[j].Length0 == shared.seqlenQ && dqs[j].Length1 == shared.hdimQk)
    && (forall j, m, d :: 0 <= j < groupSize && 0 <= m < shared.seqlenQ && 0 <= d < shared.hdimQk ==>
          NearTo(dqs[j][m, d], TrueDq(E, HeadOf(shared, xs(j)), xs(j).grad, LOG2E, m, d), t, DqSize(E, HeadOf(shared, xs(j)), xs(j).grad, m, d)))
    && (forall n, d :: 0 <= n < shared.seqlenK && 0 <= d < shared.hdimQk ==>
          NearTo(dk[n, d], Sum(ExactDk(E, shared, xs, n, d), 0, groupSize), t, Sum(DkSizes(E, shared, xs, n, d), 0, groupSize)))
    && (forall n, d :: 0 <= n < shared.seqlenK && 0 <= d < shared.hdimVo ==>
          NearTo(dv[n, d], Sum(ExactDv(E, shared, xs, n, d), 0, groupSize), t, Sum(DvSizes(E, shared, xs, n, d), 0, groupSize)))
  }

  lemma SharedTolerance(Lg: real -> real, shared: Head, x: QueryHead, top: real)
    ensures TwiceTolerance(Lg, HeadOf(shared, x), top) == TwiceTolerance(Lg, shared, top)
  {
  }

  lemma HeadUsual(E: real -> real, Lg: real -> real, c: real, shared: Head, xs: int -> QueryHead, groupSize: nat, top: real, j: int)
    requires GroupUsual(E, Lg, c, shared, xs, groupSize, top) && 0 <= j < groupSize
    ensures Usual(E, Lg, c, HeadOf(shared, xs(j)), top)
  {
  }

  lemma HeadValid(shared: Head, xs: int -> QueryHead, j: int)
    requires GroupValid(shared, xs)
    ensures HeadOf(shared, xs(j)).Valid() && HeadOf(shared, xs(j)).smScale == shared.smScale
    ensures HeadOf(shared, xs(j)).seqlenQ == shared.seqlenQ && HeadOf(shared, xs(j)).seqlenK == shared.seqlenK
  {
    assert HeadOf(shared, xs(j)).Valid();
  }

  lemma DqEntryNear(E: real -> real, Lg: real -> real, c: real, shared: Head, xs: int -> QueryHead, groupSize: nat, top: real, j: int, m: int, d: int)
    requires GroupUsual(E, Lg, c, shared, xs, groupSize, top) && 0 <= j < groupSize && IsExp(E) && GroupValid(shared, xs) && shared.smScale != 0.0
    ensures HeadOf(shared, xs(j)).Valid()
    ensures NearTo(DqStored(E, Lg, HeadOf(shared, xs(j)), xs(j).grad, m, d), TrueDq(E, HeadOf(shared, xs(j)), xs(j).grad, LOG2E, m, d),
                   TwiceTolerance(Lg, shared, top), DqSize(E, HeadOf(shared, xs(j)), xs(j).grad, m, d))
  {
    hide *;
    var h, g := HeadOf(shared, xs(j)), xs(j).grad;
    HeadUsual(E, Lg, c, shared, xs, groupSize, top, j);
    HeadValid(shared, xs, j);
    SharedTolerance(Lg, shared, xs(j), top);
    ReadScale();
    DqStoredIs(E, Lg, h, g, m, d);
    DqNear(E, Lg, c, h, g, RCP_LN2, m, d, top, DqStored(E, Lg, h, g, m, d));
  }

  lemma ReadScale()
    ensures BackwardScale(RCP_LN2) && BackwardScale(LOG2E)
  {
  }

  lemma DqStoredIs(E: real -> real, Lg: real -> real, h: Head, g: Grad, m: int, d: int)
    requires IsExp(E) && h.Valid() && h.smScale != 0.0
    ensures DqStored(E, Lg, h, g, m, d) == Sum(DqFactored(E, Lg, h, g, LOG2E, RCP_LN2, LN2, m, d), 0, h.seqlenK) * h.smScale
  {
    hide Sum, DqFactored;
  }

  /** Head j's part of a row of DK, scaled. */
  ghost function ScaledDk(E: real -> real, Lg: real -> real, shared: Head, xs: int -> QueryHead, n: int, d: int): int -> real
    requires IsExp(E) && GroupValid(shared, xs) && shared.smScale != 0.0
  {
    j => DkOfHeads(E, Lg, shared, xs, n, d)(j) * shared.smScale
  }

  lemma DkEntryNear(E: real -> real, Lg: real -> real, c: real, shared: Head, xs: int -> QueryHead, groupSize: nat, top: real, n: int, d: int, entry: real)
    requires GroupUsual(E, Lg, c, shared, xs, groupSize, top) && IsExp(E) && GroupValid(shared, xs) && shared.smScale != 0.0
    requires entry == Sum(DkOfHeads(E, Lg, shared, xs, n, d), 0, groupSize) * shared.smScale
    ensures NearTo(entry, Sum(ExactDk(E, shared, xs, n, d), 0, groupSize), TwiceTolerance(Lg, shared, top),
                   Sum(DkSizes(E, shared, xs, n, d), 0, groupSize))
  {
    var f := ScaledDk(E, Lg, shared, xs, n, d);
    ScaledDkSum(E, Lg, shared, xs, groupSize, n, d, entry);
    forall j | 0 <= j < groupSize ensures NearTo(f(j), ExactDk(E, shared, xs, n, d)(j), TwiceTolerance(Lg, shared, top), DkSizes(E, shared, xs, n, d)(j)) {
      DkHeadNear(E, Lg, c, shared, xs, groupSize, top, j, n, d);
    }
    hide *;
    GroupNear(f, ExactDk(E, shared, xs, n, d), DkSizes(E, shared, xs, n, d), TwiceTolerance(Lg, shared, top), groupSize);
  }

  lemma ScaledDkSum(E: real -> real, Lg: real -> real, shared: Head, xs: int -> QueryHead, groupSize: nat, n: int, d: int, entry: real)
    requires IsExp(E) && GroupValid(shared, xs) && shared.smScale != 0.0
    requires entry == Sum(DkOfHeads(E, Lg, shared, xs, n, d), 0, groupSize) * shared.smScale
    ensures entry == Sum(ScaledDk(E, Lg, shared, xs, n, d), 0, groupSize)
  {
    hide Sum, DkOfHeads;
    SumScale(shared.smScale, DkOfHeads(E, Lg, shared, xs, n, d), ScaledDk(E, Lg, shared, xs, n, d), 0, groupSize);
  }

  lemma DkHeadNear(E: real -> real, Lg: real -> real, c: real, shared: Head, xs: int -> QueryHead, groupSize: nat, top: real, j: int, n: int, d: int)
    requires GroupUsual(E, Lg, c, shared, xs, groupSize, top) && 0 <= j < groupSize && IsExp(E) && GroupValid(shared, xs) && shared.smScale != 0.0
    ensures NearTo(ScaledDk(E, Lg, shared, xs, n, d)(j), ExactDk(E, shared, xs, n, d)(j), TwiceTolerance(Lg, shared, top), DkSizes(E, shared, xs, n, d)(j))
  {
    assert BackwardScale(LOG2E);
    hide *;
    HeadUsual(E, Lg, c, shared, xs, groupSize, top, j);
    HeadValid(shared, xs, j);
    SharedTolerance(Lg, shared, xs(j), top);
    ScaledDkAt(E, Lg, shared, xs, j, n, d);
    DkOfHead(E, shared, xs, j, n, d);
    DkNear(E, Lg, c, HeadOf(shared, xs(j)), xs(j).grad, LOG2E, n, d, top, ScaledDk(E, Lg, shared, xs, n, d)(j));
  }

  lemma DkOfHead(E: real -> real, shared: Head, xs: int -> QueryHead, j: int, n: int, d: int)
    requires IsExp(E) && GroupValid(shared, xs) && shared.smScale != 0.0 && HeadOf(shared, xs(j)).Valid() && HeadOf(shared, xs(j)).smScale != 0.0
    ensures ExactDk(E, shared, xs, n, d)(j) == TrueDk(E, HeadOf(shared, xs(j)), xs(j).grad, LOG2E, n, d)
    ensures DkSizes(E, shared, xs, n, d)(j) == DkSize(E, HeadOf(shared, xs(j)), xs(j).grad, n, d)
  {
    hide TrueDk, DkSize, IsExp;
  }

  lemma ScaledDkAt(E: real -> real, Lg: real -> real, shared: Head, xs: int -> QueryHead, j: int, n: int, d: int)
    requires IsExp(E) && GroupValid(shared, xs) && shared.smScale != 0.0 && HeadOf(shared, xs(j)).Valid()
    ensures ScaledDk(E, Lg, shared, xs, n, d)(j)
         == Mul(Sum(DkFactored(E, Lg, HeadOf(shared, xs(j)), xs(j).grad, LOG2E, LOG2E, LN2, n, d), 0, HeadOf(shared, xs(j)).seqlenQ),
                HeadOf(shared, xs(j)).smScale)
  {
    hide Sum, DkFactored, IsExp;
    var h := HeadOf(shared, xs(j));
    SameProduct(ScaledDk(E, Lg, shared, xs, n, d)(j), DkOfHeads(E, Lg, shared, xs, n, d)(j), shared.smScale,
                Sum(DkFactored(E, Lg, h, xs(j).grad, LOG2E, LOG2E, LN2, n, d), 0, h.seqlenQ), h.smScale);
  }

  lemma SameProduct(product: real, x: real, k: real, x': real, k': real)
    requires product == x * k && x == x' && k == k'
    ensures product == x' * k'
  {
  }

  lemma DvEntryNear(E: real -> real, Lg: real -> real, c: real, shared: Head, xs: int -> QueryHead, groupSize: nat, top: real, n: int, d: int)
    requires GroupUsual(E, Lg, c, shared, xs, groupSize, top) && IsExp(E) && GroupValid(shared, xs) && shared.smScale != 0.0
    ensures NearTo(Sum(DvOfHeads(E, Lg, shared, xs, n, d), 0, groupSize), Sum(ExactDv(E, shared, xs, n, d), 0, groupSize),
                   TwiceTolerance(Lg, shared, top), Sum(DvSizes(E, shared, xs, n, d), 0, groupSize))
  {
    var f := DvOfHeads(E, Lg, shared, xs, n, d);
    forall j | 0 <= j < groupSize ensures NearTo(f(j), ExactDv(E, shared, xs, n, d)(j), TwiceTolerance(Lg, shared, top), DvSizes(E, shared, xs, n, d)(j)) {
      DvHeadNear(E, Lg, c, shared, xs, groupSize, top, j, n, d);
    }
    hide *;
    GroupNear(f, ExactDv(E, shared, xs, n, d), DvSizes(E, shared, xs, n, d), TwiceTolerance(Lg, shared, top), groupSize);
  }

  lemma DvHeadNear(E: real -> real, Lg: real -> real, c: real, shared: Head, xs: int -> QueryHead, groupSize: nat, top: real, j: int, n: int, d: int)
    requires GroupUsual(E, Lg, c, shared, xs, groupSize, top) && 0 <= j < groupSize && IsExp(E) && GroupValid(shared, xs) && shared.smScale != 0.0
    ensures NearTo(DvOfHeads(E, Lg, shared, xs, n, d)(j), ExactDv(E, shared, xs, n, d)(j), TwiceTolerance(Lg, shared, top), DvSizes(E, shared, xs, n, d)(j))
  {
    HeadUsual(E, Lg, c, shared, xs, groupSize, top, j);
    HeadValid(shared, xs, j);
    SharedTolerance(Lg, shared, xs(j), top);
    hide Sum, NearTo, GroupUsual, GroupValid, TwiceTolerance, TrueDv, DvSize, DvFactored, Usual, IsExp;
    DvNear(E, Lg, c, HeadOf(shared, xs(j)), xs(j).grad, LOG2E, n, d, top);
  }

  lemma StepIsNear(E: real -> real, Lg: real -> real, c: real, shared: Head, xs: int -> QueryHead, groupSize: nat,
                   dqs: seq<array2<real>>, dk: array2<real>, dv: array2<real>, top: real)
    requires IsExp(E) && GroupValid(shared, xs) && shared.smScale != 0.0 && |dqs| == groupSize
    requires dk.Length0 == dv.Length0 == shared.seqlenK && dk.Length1 == shared.hdimQk && dv.Length1 == shared.hdimVo
    requires forall j :: 0 <= j < groupSize ==> DqDone(E, Lg, HeadOf(shared, xs(j)), xs(j).grad, dqs[j])
    requires forall n, d :: 0 <= n < shared.seqlenK && 0 <= d < shared.hdimQk ==>
               dk[n, d] == Sum(DkOfHeads(E, Lg, shared, xs, n, d), 0, groupSize) * shared.smScale
    requires forall n, d :: 0 <= n < shared.seqlenK && 0 <= d < shared.hdimVo ==>
               dv[n, d] == Sum(DvOfHeads(E, Lg, shared, xs, n, d), 0, groupSize)
    requires GroupUsual(E, Lg, c, shared, xs, groupSize, top)
    ensures forall j :: 0 <= j < groupSize ==> dqs[j].Length0 == shared.seqlenQ && dqs[j].Length1 == shared.hdimQk
    ensures GradientsNear(E, shared, xs, groupSize, dqs, dk, dv, TwiceTolerance(Lg, shared, top))
  {
    hide Sum, NearTo, GroupUsual, TwiceTolerance, TrueDq, DqSize, ExactDk, ExactDv, DkSizes, DvSizes, DkOfHeads, DvOfHeads, DqStored, IsExp;
    forall j, m, d | 0 <= j < groupSize && 0 <= m < shared.seqlenQ && 0 <= d < shared.hdimQk
      ensures NearTo(dqs[j][m, d], TrueDq(E, HeadOf(shared, xs(j)), xs(j).grad, LOG2E, m, d), TwiceTolerance(Lg, shared, top),
                     DqSize(E, HeadOf(shared, xs(j)), xs(j).grad, m, d))
    {
      DqEntryNear(E, Lg, c, shared, xs, groupSize, top, j, m, d);
    }
    forall n, d | 0 <= n < shared.seqlenK && 0 <= d < shared.hdimQk
      ensures NearTo(dk[n, d], Sum(ExactDk(E, shared, xs, n, d), 0, groupSize), TwiceTolerance(Lg, shared, top),
                     Sum(DkSizes(E, shared, xs, n, d), 0, groupSize))
    {
      DkEntryNear(E, Lg, c, shared, xs, groupSize, top, n, d, dk[n, d]);
    }
    forall n, d | 0 <= n < shared.seqlenK && 0 <= d < shared.hdimVo
      ensures NearTo(dv[n, d], Sum(ExactDv(E, shared, xs, n, d), 0, groupSize), TwiceTolerance(Lg, shared, top),
                     Sum(DvSizes(E, shared, xs, n, d), 0, groupSize))
    {
      DvEntryNear(E, Lg, c, shared, xs, groupSize, top, n, d);
    }
  }

  method AllHeads(E: real -> real, Lg: real -> real, shared: Head, inputs: int -> QueryHead, groupSize: nat,
                  s: Step, o: OutSlice, size: nat) returns (outs: seq<array<real>>, grads: seq<Grad>, dqs: seq<array2<real>>)
    requires IsExp(E) && IsLog(E, Lg) && shared.smScale > 0.0 && GroupFits(shared, inputs, groupSize, s, o, size)
    ensures |outs| == |grads| == |dqs| == groupSize
    ensures forall i :: 0 <= i < groupSize ==> fresh(outs[i]) && fresh(dqs[i])
    ensures forall i :: 0 <= i < groupSize ==> HeadDone(E, Lg, shared, inputs(i), grads[i], o, outs[i], dqs[i])
  {
    hide Sum, OutDone, DqDone, AllRowsStored, AllBlocks;
    outs, grads, dqs := [], [], [];
    for j := 0 to groupSize
      invariant |outs| == |grads| == |dqs| == j
      invariant forall i :: 0 <= i < j ==> fresh(outs[i]) && fresh(dqs[i])
      invariant forall i :: 0 <= i < j ==> HeadDone(E, Lg, shared, inputs(i), grads[i], o, outs[i], dqs[i])
    {
      var h := HeadOf(shared, inputs(j));
      assert h.Valid();
      var out, g := HeadForward(E, Lg, h, inputs(j).grad.dO, s, o, size);
      var dq := HeadDq(E, Lg, h, g, s, o, size);
      assert HeadDone(E, Lg, shared, inputs(j), g, o, out, dq);
      outs, grads, dqs := outs + [out], grads + [g], dqs + [dq];
    }
  }

  lemma WithGradsValid(shared: Head, inputs: int -> QueryHead, grads: seq<Grad>)
    requires GroupValid(shared, inputs)
    ensures GroupValid(shared, WithGrads(inputs, grads))
    ensures forall j :: WithGrads(inputs, grads)(j).dropout == inputs(j).dropout
  {
    forall j ensures HeadOf(shared, WithGrads(inputs, grads)(j)).Valid() { assert HeadOf(shared, inputs(j)).Valid(); }
  }

  lemma HeadDoneWithGrad(E: real -> real, Lg: real -> real, shared: Head, x: QueryHead, g: Grad, o: OutSlice,
                         out: array<real>, dq: array2<real>)
    requires HeadDone(E, Lg, shared, x, g, o, out, dq)
    ensures HeadDone(E, Lg, shared, x.(grad := g), g, o, out, dq) && g.dO == x.grad.dO
  {
    hide OutDone, DqDone, AllRowsStored;
  }

  lemma HeadsDone(E: real -> real, Lg: real -> real, shared: Head, xs: int -> QueryHead, groupSize: nat, o: OutSlice,
                  outs: seq<array<real>>, dqs: seq<array2<real>>)
    requires IsExp(E) && GroupValid(shared, xs) && shared.smScale != 0.0 && |outs| == |dqs| == groupSize
    requires forall j :: 0 <= j < groupSize ==> HeadDone(E, Lg, shared, xs(j), xs(j).grad, o, outs[j], dqs[j])
    ensures forall j :: 0 <= j < groupSize ==> AllRowsStored(E, Lg, HeadOf(shared, xs(j)), xs(j).grad, LOG2E, LN2)
    ensures forall j :: 0 <= j < groupSize ==> OutDone(E, HeadOf(shared, xs(j)), o, outs[j])
    ensures forall j :: 0 <= j < groupSize ==> DqDone(E, Lg, HeadOf(shared, xs(j)), xs(j).grad, dqs[j])
  {
    hide OutDone, DqDone, AllRowsStored;
  }
}
