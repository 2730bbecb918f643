/** The block planner of the attention kernels: which key blocks a tile of query rows visits without
    a mask, and which it visits with one. The dk/dv kernel calls the same planner with the two axes
    exchanged. All integers are 32-bit in the kernels; no overflow is modelled. */
module Intervals {
  import opened Arith

  /** A closed block range; it is empty when lo > hi. */
  datatype Range = Range(lo: int, hi: int) {
    predicate Empty() { lo > hi }
    predicate Has(b: int) { lo <= b <= hi }
    function Size(): (n: nat)
      ensures n == 0 <==> Empty()
      ensures !Empty() ==> lo + n == hi + 1
    {
      if hi - lo + 1 > 0 then hi - lo + 1 else 0
    }
  }

  /** The left-masked, the unmasked ("full") and the right-masked block range of one tile. */
  datatype Plan = Plan(lb: Range, fb: Range, rb: Range) {
    predicate Has(b: int) { lb.Has(b) || fb.Has(b) || rb.Has(b) }
    predicate AllEmpty() { lb.Empty() && fb.Empty() && rb.Empty() }
    ghost predicate Disjoint() {
      && (forall b :: lb.Has(b) ==> !fb.Has(b) && !rb.Has(b))
      && (forall b :: fb.Has(b) ==> !rb.Has(b))
    }
  }

  // ---------------------------------------------------------------- scalar helpers

  function DivRd(x: int, y: int): int
    requires y > 0
  {
    var d := TruncDiv(x, y);
    if d * y > x then d - 1 else d
  }

  /** The correction step turns truncation into floor, for negative numerators as well. */
  lemma DivRdIsFloor(x: int, y: int)
    requires y > 0
    ensures DivRd(x, y) * y <= x < (DivRd(x, y) + 1) * y
    ensures DivRd(x, y) == x / y
  {
    if x >= 0 {
      DivBounds(x, y);
    } else {
      var q := (-x) / y;
      DivBounds(-x, y);
      assert (-q) * y == -(q * y);
    }
    DivUnique(x, y, DivRd(x, y));
  }

  lemma DivRdFloorAll(y: int)
    requires y > 0
    ensures forall x {:trigger DivRd(x, y)} :: DivRd(x, y) == x / y
  {
    forall x ensures DivRd(x, y) == x / y { DivRdIsFloor(x, y); }
  }

  function ClosedIntervalIsect(a: Range, b: Range): Range {
    if (b.lo > a.hi || a.lo > b.hi) || a.lo > a.hi then Range(-114, -514)
    else Range(Max(a.lo, b.lo), Min(a.hi, b.hi))
  }

  /** The intersection holds exactly the common blocks, sentinel or not. */
  lemma IsectExact(a: Range, b: Range)
    ensures forall x :: ClosedIntervalIsect(a, b).Has(x) <==> a.Has(x) && b.Has(x)
  {
  }

  // ---------------------------------------------------------------- windows and the visible set

  const TOP_LEFT := -2147483647      // 0x80000001 as int32
  const BOTTOM_RIGHT := -2147483646  // 0x80000002 as int32

  /** The compiled kernels have CAUSAL_TYPE 0 or 3, so only the special window values remain. */
  function ParseWindow(left: int, right: int, seqlenQ: int, seqlenK: int): (int, int) {
    (if left == TOP_LEFT then seqlenQ else if left == BOTTOM_RIGHT then seqlenQ else left,
     if right == TOP_LEFT then 0 else if right == BOTTOM_RIGHT then seqlenK - seqlenQ else right)
  }

  predicate InWindow(windowLeft: int, windowRight: int, m: int, n: int) {
    m - windowLeft <= n <= m + windowRight
  }

  /** Query row m attends key n. */
  predicate Visible(isCausal: bool, windowLeft: int, windowRight: int, seqlenQ: int, seqlenK: int, m: int, n: int) {
    && 0 <= m < seqlenQ && 0 <= n < seqlenK
    && (isCausal ==> InWindow(windowLeft, windowRight, m, n))
  }

  // ---------------------------------------------------------------- the planner

  function CalculateIntervals(isCausal: bool, windowLeft: int, windowRight: int,
                              startM: int, seqlenQ: int, seqlenK: int, maskOnSeqQ: bool,
                              blockM: int, blockN: int): Plan
    requires blockN > 0
  {
    var plan :=
      if isCausal then
        var endM := Min(startM + blockM, seqlenQ);
        var lsec := Range(DivRd(startM - windowLeft, blockN), DivRd(endM - windowLeft - 1, blockN));
        var rsec := Range(DivRd(startM + windowRight, blockN), DivRd(endM + windowRight - 1, blockN));
        SplitAtWindowLines(lsec, rsec, Range(0, TruncDiv(seqlenK - 1, blockN)), maskOnSeqQ)
      else if maskOnSeqQ then
        Plan(Range(0, Cdiv(seqlenK, blockN) - 1), Range(-1, -2), Range(-1, -2))
      else
        Plan(Range(-1, -2), Range(0, TruncDiv(seqlenK, blockN)),
             Range(TruncDiv(seqlenK, blockN) + 1, Cdiv(seqlenK, blockN) - 1));
    TrimPartialKeyBlock(plan, seqlenK, blockN)
  }

  /** lsec and rsec are the blocks crossed by the left and the right window line, vb the valid blocks. */
  function SplitAtWindowLines(lsec: Range, rsec: Range, vb: Range, maskOnSeqQ: bool): Plan {
    var ub := ClosedIntervalIsect(lsec, rsec);
    if ub.Empty() && !maskOnSeqQ then
      Plan(ClosedIntervalIsect(lsec, vb),
           ClosedIntervalIsect(Range(lsec.hi + 1, rsec.lo - 1), vb),
           ClosedIntervalIsect(rsec, vb))
    else
      Plan(ClosedIntervalIsect(Range(lsec.lo, rsec.hi), vb), Range(-3, -4), Range(-3, -4))
  }

  /** The late fix-up: a full range reaching the partial last key block gives that block to rb. */
  function TrimPartialKeyBlock(plan: Plan, seqlenK: int, blockN: int): Plan
    requires blockN > 0
  {
    if plan.fb.lo * blockN < seqlenK && seqlenK < plan.fb.hi * blockN + blockN then
      var maskedSeqKBlock := TruncDiv(seqlenK, blockN);
      Plan(plan.lb, Range(plan.fb.lo, maskedSeqKBlock - 1), Range(maskedSeqKBlock, maskedSeqKBlock))
    else
      plan
  }

  // ---------------------------------------------------------------- correctness

  /** What the kernels rely on. Tile rows are startM .. startM + blockM. */
  ghost predicate PlanCorrect(plan: Plan, isCausal: bool, windowLeft: int, windowRight: int,
                              startM: int, seqlenQ: int, seqlenK: int, blockM: int, blockN: int)
    requires blockN > 0
  {
    && plan.Disjoint()
    && (forall b :: plan.Has(b) ==> 0 <= b)
    // every visible pair of the tile lies in a planned block
    && (forall m, n :: startM <= m < startM + blockM && Visible(isCausal, windowLeft, windowRight, seqlenQ, seqlenK, m, n)
          ==> plan.Has(n / blockN))
    // every pair of a full block is visible, so no mask is needed and no load leaves the tensors
    && (forall m, n :: startM <= m < startM + blockM && plan.fb.Has(n / blockN)
          ==> Visible(isCausal, windowLeft, windowRight, seqlenQ, seqlenK, m, n))
    // in particular whole blocks, which is what one load reads
    && (forall b {:trigger plan.fb.Has(b)} :: plan.fb.Has(b) ==> b * blockN + blockN <= seqlenK)
  }

  lemma PlanIsCorrect(isCausal: bool, windowLeft: int, windowRight: int,
                      startM: int, seqlenQ: int, seqlenK: int, maskOnSeqQ: bool, blockM: int, blockN: int)
    requires seqlenK >= 1 && 0 <= startM < seqlenQ && blockM >= 1 && blockN >= 1
    requires maskOnSeqQ == (startM + blockM > seqlenQ)
    ensures PlanCorrect(
              CalculateIntervals(isCausal, windowLeft, windowRight, startM, seqlenQ, seqlenK, maskOnSeqQ, blockM, blockN),
              isCausal, windowLeft, windowRight, startM, seqlenQ, seqlenK, blockM, blockN)
  {
    if isCausal {
      WindowedPlanIsCorrect(windowLeft, windowRight, startM, seqlenQ, seqlenK, maskOnSeqQ, blockM, blockN);
    } else {
      DensePlanIsCorrect(windowLeft, windowRight, startM, seqlenQ, seqlenK, maskOnSeqQ, blockM, blockN);
    }
  }

  lemma DensePlanIsCorrect(windowLeft: int, windowRight: int,
                           startM: int, seqlenQ: int, seqlenK: int, maskOnSeqQ: bool, blockM: int, blockN: int)
    requires seqlenK >= 1 && 0 <= startM < seqlenQ && blockM >= 1 && blockN >= 1
    requires maskOnSeqQ == (startM + blockM > seqlenQ)
    ensures PlanCorrect(
              CalculateIntervals(false, windowLeft, windowRight, startM, seqlenQ, seqlenK, maskOnSeqQ, blockM, blockN),
              false, windowLeft, windowRight, startM, seqlenQ, seqlenK, blockM, blockN)
  {
    var plan := CalculateIntervals(false, windowLeft, windowRight, startM, seqlenQ, seqlenK, maskOnSeqQ, blockM, blockN);
    var s := seqlenK / blockN;
    DivBounds(seqlenK, blockN);
    CdivFloor(seqlenK, blockN);
    Floor(seqlenK, blockN, 0);
    assert plan == if maskOnSeqQ then Plan(Range(0, (seqlenK - 1) / blockN), Range(-1, -2), Range(-1, -2))
                   else Plan(Range(-1, -2), Range(0, s - 1), Range(s, s));
    forall m, n | startM <= m < startM + blockM && Visible(false, windowLeft, windowRight, seqlenQ, seqlenK, m, n)
      ensures plan.Has(n / blockN)
    {
      Floor(n, blockN, 0);
      DivMono(n, seqlenK, blockN);
      DivMono(n, seqlenK - 1, blockN);
    }
    forall b {:trigger plan.fb.Has(b)} | plan.fb.Has(b) ensures b * blockN + blockN <= seqlenK {
      Floor(seqlenK, blockN, b + 1);
    }
    forall m, n | startM <= m < startM + blockM && plan.fb.Has(n / blockN)
      ensures Visible(false, windowLeft, windowRight, seqlenQ, seqlenK, m, n)
    {
      Floor(n, blockN, 0);
      DivBounds(n, blockN);
    }
  }

  /** The four block indices of the window lines, and the order they are known to be in. */
  datatype Lines = Lines(lLo: int, lHi: int, rLo: int, rHi: int, vHi: int) {
    ghost predicate Ordered() { lLo <= lHi && rLo <= rHi && 0 <= vHi }
    function United(maskOnSeqQ: bool): bool { maskOnSeqQ || (rLo <= lHi && lLo <= rHi) }
  }

  function LinesOf(windowLeft: int, windowRight: int, startM: int, seqlenQ: int, seqlenK: int,
                   blockM: int, blockN: int): Lines
    requires blockN > 0
  {
    var endM := Min(startM + blockM, seqlenQ);
    Lines((startM - windowLeft) / blockN, (endM - windowLeft - 1) / blockN,
          (startM + windowRight) / blockN, (endM + windowRight - 1) / blockN, (seqlenK - 1) / blockN)
  }

  lemma LinesOrdered(windowLeft: int, windowRight: int, startM: int, seqlenQ: int, seqlenK: int, blockM: int, blockN: int)
    requires seqlenK >= 1 && 0 <= startM < seqlenQ && blockM >= 1 && blockN >= 1
    ensures LinesOf(windowLeft, windowRight, startM, seqlenQ, seqlenK, blockM, blockN).Ordered()
  {
    var endM := Min(startM + blockM, seqlenQ);
    DivMono(startM - windowLeft, endM - windowLeft - 1, blockN);
    DivMono(startM + windowRight, endM + windowRight - 1, blockN);
    DivMono(0, seqlenK - 1, blockN);
  }

  lemma SplitShape(k: Lines, maskOnSeqQ: bool)
    requires k.Ordered()
    ensures
      var plan := SplitAtWindowLines(Range(k.lLo, k.lHi), Range(k.rLo, k.rHi), Range(0, k.vHi), maskOnSeqQ);
      && (forall b :: plan.lb.Has(b) <==> 0 <= b <= k.vHi && k.lLo <= b <= if k.United(maskOnSeqQ) then k.rHi else k.lHi)
      && (forall b :: plan.fb.Has(b) <==> !k.United(maskOnSeqQ) && 0 <= b <= k.vHi && k.lHi < b < k.rLo)
      && (forall b :: plan.rb.Has(b) <==> !k.United(maskOnSeqQ) && 0 <= b <= k.vHi && k.rLo <= b <= k.rHi)
      && (plan.fb.Empty() ==> plan.fb.lo < 0 && plan.fb.hi < -1)
  {
  }

  /** The last key block is either partial, and then it is block seqlenK / blockN, or exactly full. */
  lemma LastBlock(vHi: int, seqlenK: int, blockN: int)
    requires seqlenK >= 1 && blockN >= 1 && vHi == (seqlenK - 1) / blockN
    ensures vHi * blockN < seqlenK <= vHi * blockN + blockN
    ensures seqlenK / blockN == if seqlenK == vHi * blockN + blockN then vHi + 1 else vHi
  {
    DivBounds(seqlenK - 1, blockN);
    if seqlenK == vHi * blockN + blockN {
      DivUnique(seqlenK, blockN, vHi + 1);
    } else {
      DivUnique(seqlenK, blockN, vHi);
    }
  }

  /** The fix-up moves the last block out of fb when that block is partial; otherwise it does nothing. */
  lemma TrimShape(plan: Plan, vHi: int, seqlenK: int, blockN: int)
    requires seqlenK >= 1 && blockN >= 1 && vHi == (seqlenK - 1) / blockN
    requires plan.fb.Empty() ==> plan.fb.lo < 0 && plan.fb.hi < -1
    requires !plan.fb.Empty() ==> 0 <= plan.fb.lo && plan.fb.hi <= vHi
    ensures
      var moved := !plan.fb.Empty() && plan.fb.hi == vHi && seqlenK != vHi * blockN + blockN;
      TrimPartialKeyBlock(plan, seqlenK, blockN)
        == if moved then Plan(plan.lb, Range(plan.fb.lo, vHi - 1), Range(vHi, vHi)) else plan
  {
    LastBlock(vHi, seqlenK, blockN);
    TrimGuard(plan.fb, vHi, seqlenK, blockN);
  }

  lemma TrimGuard(fb: Range, vHi: int, seqlenK: int, blockN: int)
    requires seqlenK >= 1 && blockN >= 1 && vHi * blockN < seqlenK <= vHi * blockN + blockN
    requires fb.Empty() ==> fb.lo < 0 && fb.hi < -1
    requires !fb.Empty() ==> 0 <= fb.lo && fb.hi <= vHi
    ensures (fb.lo * blockN < seqlenK && seqlenK < fb.hi * blockN + blockN)
            <==> !fb.Empty() && fb.hi == vHi && seqlenK != vHi * blockN + blockN
  {
    if fb.Empty() {
      MulMono(fb.hi + 1, 0, blockN);
    } else {
      MulMono(fb.lo, vHi, blockN);
      if fb.hi < vHi { MulMono(fb.hi + 1, vHi, blockN); }
    }
  }

  /** The windowed plan, written as one set of blocks per range. */
  lemma WindowedShape(windowLeft: int, windowRight: int,
                      startM: int, seqlenQ: int, seqlenK: int, maskOnSeqQ: bool, blockM: int, blockN: int, k: Lines)
    requires seqlenK >= 1 && 0 <= startM < seqlenQ && blockM >= 1 && blockN >= 1
    requires k == LinesOf(windowLeft, windowRight, startM, seqlenQ, seqlenK, blockM, blockN)
    ensures k.Ordered()
    ensures
      var plan := CalculateIntervals(true, windowLeft, windowRight, startM, seqlenQ, seqlenK, maskOnSeqQ, blockM, blockN);
      var united := k.United(maskOnSeqQ);
      var partial := seqlenK != k.vHi * blockN + blockN;
      && (forall b :: plan.lb.Has(b) <==> 0 <= b <= k.vHi && k.lLo <= b <= if united then k.rHi else k.lHi)
      && (forall b :: plan.fb.Has(b) <==> !united && 0 <= b <= k.vHi && k.lHi < b < k.rLo && !(partial && b == k.vHi))
      && (forall b :: plan.rb.Has(b) <==> !united && 0 <= b <= k.vHi
                                          && (k.rLo <= b <= k.rHi || (k.lHi < b < k.rLo && partial && b == k.vHi)))
  {
    LinesOrdered(windowLeft, windowRight, startM, seqlenQ, seqlenK, blockM, blockN);
    DivRdFloorAll(blockN);
    SplitShape(k, maskOnSeqQ);
    var split := SplitAtWindowLines(Range(k.lLo, k.lHi), Range(k.rLo, k.rHi), Range(0, k.vHi), maskOnSeqQ);
    assert !split.fb.Empty() ==> split.fb.Has(split.fb.lo) && split.fb.Has(split.fb.hi);
    TrimShape(split, k.vHi, seqlenK, blockN);
    assert CalculateIntervals(true, windowLeft, windowRight, startM, seqlenQ, seqlenK, maskOnSeqQ, blockM, blockN)
        == TrimPartialKeyBlock(split, seqlenK, blockN);
  }

  lemma WindowedPlanIsCorrect(windowLeft: int, windowRight: int,
                              startM: int, seqlenQ: int, seqlenK: int, maskOnSeqQ: bool, blockM: int, blockN: int)
    requires seqlenK >= 1 && 0 <= startM < seqlenQ && blockM >= 1 && blockN >= 1
    requires maskOnSeqQ == (startM + blockM > seqlenQ)
    ensures PlanCorrect(
              CalculateIntervals(true, windowLeft, windowRight, startM, seqlenQ, seqlenK, maskOnSeqQ, blockM, blockN),
              true, windowLeft, windowRight, startM, seqlenQ, seqlenK, blockM, blockN)
  {
    var plan := CalculateIntervals(true, windowLeft, windowRight, startM, seqlenQ, seqlenK, maskOnSeqQ, blockM, blockN);
    var endM := Min(startM + blockM, seqlenQ);
    var k := LinesOf(windowLeft, windowRight, startM, seqlenQ, seqlenK, blockM, blockN);
    WindowedShape(windowLeft, windowRight, startM, seqlenQ, seqlenK, maskOnSeqQ, blockM, blockN, k);
    forall m, n | startM <= m < startM + blockM && Visible(true, windowLeft, windowRight, seqlenQ, seqlenK, m, n)
      ensures plan.Has(n / blockN)
    {
      DivMono(0, n, blockN);
      DivMono(startM - windowLeft, n, blockN);
      DivMono(n, endM + windowRight - 1, blockN);
      DivMono(n, seqlenK - 1, blockN);
    }
    forall b {:trigger plan.fb.Has(b)} | plan.fb.Has(b) ensures b * blockN + blockN <= seqlenK {
      FullBlockEndsInside(b, k.vHi, seqlenK, blockN);
    }
    forall m, n | startM <= m < startM + blockM && plan.fb.Has(n / blockN)
      ensures Visible(true, windowLeft, windowRight, seqlenQ, seqlenK, m, n)
    {
      var b := n / blockN;
      FullBlockEndsInside(b, k.vHi, seqlenK, blockN);
      FullBlockInWindow(b, n, endM - windowLeft - 1, startM + windowRight, blockN);
    }
  }

  lemma FullBlockEndsInside(b: int, vHi: int, seqlenK: int, blockN: int)
    requires blockN >= 1 && vHi == (seqlenK - 1) / blockN
    requires b < vHi || (b == vHi && seqlenK == vHi * blockN + blockN)
    ensures b * blockN + blockN <= seqlenK
  {
    DivBounds(seqlenK - 1, blockN);
    if b < vHi { MulMono(b + 1, vHi, blockN); }
  }

  lemma FullBlockInWindow(b: int, n: int, left: int, right: int, blockN: int)
    requires blockN >= 1 && b == n / blockN && 0 <= b && left / blockN < b < right / blockN
    ensures left < n < right && b * blockN <= n < b * blockN + blockN && 0 <= n
  {
    DivBounds(n, blockN);
    Floor(left, blockN, b - 1);
    Floor(right, blockN, b + 1);
    MulMono(0, b, blockN);
  }

  // ---------------------------------------------------------------- tightness and the early exit

  /** Some pair of the tile is visible. */
  ghost predicate TileSees(windowLeft: int, windowRight: int, startM: int, seqlenQ: int, seqlenK: int, blockM: int) {
    exists m, n :: startM <= m < startM + blockM && Visible(true, windowLeft, windowRight, seqlenQ, seqlenK, m, n)
  }

  /** Block b of the key axis holds a visible pair of the tile. */
  ghost predicate BlockSees(windowLeft: int, windowRight: int, startM: int, seqlenQ: int, seqlenK: int,
                            blockM: int, blockN: int, b: int)
    requires blockN > 0
  {
    exists m, n :: startM <= m < startM + blockM && n / blockN == b
      && Visible(true, windowLeft, windowRight, seqlenQ, seqlenK, m, n)
  }

  /** For a window that is not inverted, a planned block is wasted exactly when the left window line of
      the tile's first row already passes the last key, and then every planned block is. */
  lemma PlannedBlockSees(windowLeft: int, windowRight: int, startM: int, seqlenQ: int, seqlenK: int,
                         maskOnSeqQ: bool, blockM: int, blockN: int, b: int)
    requires seqlenK >= 1 && 0 <= startM < seqlenQ && blockM >= 1 && blockN >= 1
    requires maskOnSeqQ == (startM + blockM > seqlenQ)
    requires windowLeft + windowRight >= 0
    requires CalculateIntervals(true, windowLeft, windowRight, startM, seqlenQ, seqlenK, maskOnSeqQ, blockM, blockN).Has(b)
    ensures BlockSees(windowLeft, windowRight, startM, seqlenQ, seqlenK, blockM, blockN, b)
            <==> startM - windowLeft < seqlenK
  {
    var endM := Min(startM + blockM, seqlenQ);
    WindowedShape(windowLeft, windowRight, startM, seqlenQ, seqlenK, maskOnSeqQ, blockM, blockN,
                  LinesOf(windowLeft, windowRight, startM, seqlenQ, seqlenK, blockM, blockN));
    DivMono(startM - windowLeft, endM - windowLeft - 1, blockN);
    DivMono(startM - windowLeft, startM + windowRight, blockN);
    DivMono(endM - windowLeft - 1, endM + windowRight - 1, blockN);
    Floor(endM + windowRight - 1, blockN, b);
    Floor(startM - windowLeft, blockN, b);
    Floor(seqlenK - 1, blockN, b);
    Floor(0, blockN, b);
    if startM - windowLeft < seqlenK {
      // the first column of the block the window can reach, and a row that reaches it
      var n := Max(Max(b * blockN, 0), startM - windowLeft);
      var m := Max(startM, n - windowRight);
      MulMono(0, b, blockN);
      DivUnique(n, blockN, b);
      assert Visible(true, windowLeft, windowRight, seqlenQ, seqlenK, m, n);
    }
  }

  /** Nothing runs masked that need not: under a window, when the tile does not overflow the queries, the full range
      holds exactly the whole blocks strictly between the two lines of every row. */
  lemma FullRangeExactly(windowLeft: int, windowRight: int, startM: int, seqlenQ: int, seqlenK: int, blockM: int, blockN: int, b: int)
    requires seqlenK >= 1 && 0 <= startM < seqlenQ && blockM >= 1 && blockN >= 1
    ensures CalculateIntervals(true, windowLeft, windowRight, startM, seqlenQ, seqlenK, startM + blockM > seqlenQ, blockM, blockN).fb.Has(b) <==>
      && startM + blockM <= seqlenQ && 0 <= b && (b + 1) * blockN <= seqlenK
      && startM + blockM - 1 - windowLeft < b * blockN && (b + 1) * blockN <= startM + windowRight
  {
    var k := LinesOf(windowLeft, windowRight, startM, seqlenQ, seqlenK, blockM, blockN);
    WindowedShape(windowLeft, windowRight, startM, seqlenQ, seqlenK, startM + blockM > seqlenQ, blockM, blockN, k);
    hide CalculateIntervals;
    assert (b + 1) * blockN == b * blockN + blockN;
    Floor(startM + blockM - windowLeft - 1, blockN, b);
    Floor(startM + windowRight, blockN, b + 1);
    Floor(seqlenK - 1, blockN, b);
    WholeBlocks(seqlenK, blockN, b);
  }

  /** A valid block is whole unless it is the last one and the last one is partial. */
  lemma WholeBlocks(seqlenK: int, blockN: int, b: int)
    requires seqlenK >= 1 && blockN >= 1
    ensures (b + 1) * blockN <= seqlenK <==>
      b <= (seqlenK - 1) / blockN && !(seqlenK != (seqlenK - 1) / blockN * blockN + blockN && b == (seqlenK - 1) / blockN)
  {
    var last := (seqlenK - 1) / blockN;
    DivBounds(seqlenK - 1, blockN);
    assert (b + 1) * blockN == b * blockN + blockN;
    if b < last { MulMono(b + 1, last, blockN); }
    if b > last { MulMono(last + 1, b, blockN); assert (last + 1) * blockN == last * blockN + blockN; }
  }

  /** The same without a window: exactly the whole blocks. */
  lemma DenseFullRangeExactly(windowLeft: int, windowRight: int, startM: int, seqlenQ: int, seqlenK: int, blockM: int, blockN: int, b: int)
    requires seqlenK >= 1 && 0 <= startM < seqlenQ && blockM >= 1 && blockN >= 1
    ensures CalculateIntervals(false, windowLeft, windowRight, startM, seqlenQ, seqlenK, startM + blockM > seqlenQ, blockM, blockN).fb.Has(b) <==>
      startM + blockM <= seqlenQ && 0 <= b && (b + 1) * blockN <= seqlenK
  {
    DivBounds(seqlenK, blockN);
    assert (b + 1) * blockN == b * blockN + blockN;
    Floor(seqlenK, blockN, b + 1);
    WholeBlocks(seqlenK, blockN, b);
  }

  /** The kernel's early exit: it is taken only for tiles that see nothing; it misses such a tile exactly
      when the tile's window begins past the last key but inside the last (partial) key block. */
  lemma EarlyExitExact(windowLeft: int, windowRight: int, startM: int, seqlenQ: int, seqlenK: int,
                       maskOnSeqQ: bool, blockM: int, blockN: int)
    requires seqlenK >= 1 && 0 <= startM < seqlenQ && blockM >= 1 && blockN >= 1
    requires maskOnSeqQ == (startM + blockM > seqlenQ)
    requires windowLeft + windowRight >= 0
    ensures
      var plan := CalculateIntervals(true, windowLeft, windowRight, startM, seqlenQ, seqlenK, maskOnSeqQ, blockM, blockN);
      var sees := TileSees(windowLeft, windowRight, startM, seqlenQ, seqlenK, blockM);
      && (plan.AllEmpty() ==> !sees)
      && ((plan.AllEmpty() <==> !sees)
          <==> !(seqlenK <= startM - windowLeft < Cdiv(seqlenK, blockN) * blockN
                 && 0 <= Min(startM + blockM, seqlenQ) - 1 + windowRight))
  {
    var plan := CalculateIntervals(true, windowLeft, windowRight, startM, seqlenQ, seqlenK, maskOnSeqQ, blockM, blockN);
    var endM := Min(startM + blockM, seqlenQ);
    AllEmptyBounds(windowLeft, windowRight, startM, seqlenQ, seqlenK, maskOnSeqQ, blockM, blockN);
    TileSeesExact(windowLeft, windowRight, startM, seqlenQ, seqlenK, blockM);
  }

  lemma AllEmptyBounds(windowLeft: int, windowRight: int, startM: int, seqlenQ: int, seqlenK: int,
                       maskOnSeqQ: bool, blockM: int, blockN: int)
    requires seqlenK >= 1 && 0 <= startM < seqlenQ && blockM >= 1 && blockN >= 1
    requires windowLeft + windowRight >= 0
    ensures CalculateIntervals(true, windowLeft, windowRight, startM, seqlenQ, seqlenK, maskOnSeqQ, blockM, blockN).AllEmpty()
            <==> Cdiv(seqlenK, blockN) * blockN <= startM - windowLeft || Min(startM + blockM, seqlenQ) - 1 + windowRight < 0
    ensures seqlenK <= Cdiv(seqlenK, blockN) * blockN
  {
    var k := LinesOf(windowLeft, windowRight, startM, seqlenQ, seqlenK, blockM, blockN);
    AllEmptyExact(windowLeft, windowRight, startM, seqlenQ, seqlenK, maskOnSeqQ, blockM, blockN, k);
    LineBeyondLastBlock(startM - windowLeft, seqlenK, blockN);
    Floor(Min(startM + blockM, seqlenQ) - 1 + windowRight, blockN, 0);
  }

  lemma LineBeyondLastBlock(x: int, seqlenK: int, blockN: int)
    requires seqlenK >= 1 && blockN >= 1
    ensures (seqlenK - 1) / blockN < x / blockN <==> Cdiv(seqlenK, blockN) * blockN <= x
    ensures seqlenK <= Cdiv(seqlenK, blockN) * blockN
  {
    var vHi := (seqlenK - 1) / blockN;
    CdivFloor(seqlenK, blockN);
    Floor(x, blockN, vHi + 1);
    DivBounds(seqlenK - 1, blockN);
  }

  /** The plan is empty exactly when all key blocks lie left of the left line or right of the right one. */
  lemma AllEmptyExact(windowLeft: int, windowRight: int, startM: int, seqlenQ: int, seqlenK: int,
                      maskOnSeqQ: bool, blockM: int, blockN: int, k: Lines)
    requires seqlenK >= 1 && 0 <= startM < seqlenQ && blockM >= 1 && blockN >= 1
    requires k == LinesOf(windowLeft, windowRight, startM, seqlenQ, seqlenK, blockM, blockN)
    requires windowLeft + windowRight >= 0
    ensures CalculateIntervals(true, windowLeft, windowRight, startM, seqlenQ, seqlenK, maskOnSeqQ, blockM, blockN).AllEmpty()
            <==> k.vHi < k.lLo || k.rHi < 0
  {
    var plan := CalculateIntervals(true, windowLeft, windowRight, startM, seqlenQ, seqlenK, maskOnSeqQ, blockM, blockN);
    WindowedShape(windowLeft, windowRight, startM, seqlenQ, seqlenK, maskOnSeqQ, blockM, blockN, k);
    var endM := Min(startM + blockM, seqlenQ);
    DivMono(startM - windowLeft, startM + windowRight, blockN);
    DivMono(endM - windowLeft - 1, endM + windowRight - 1, blockN);
    assert plan.Has(Max(k.lLo, 0)) <==> k.lLo <= k.vHi && 0 <= k.rHi;
    forall b | plan.Has(b) ensures k.lLo <= k.vHi && 0 <= k.rHi { }
    assert !plan.lb.Empty() ==> plan.Has(plan.lb.lo);
    assert !plan.fb.Empty() ==> plan.Has(plan.fb.lo);
    assert !plan.rb.Empty() ==> plan.Has(plan.rb.lo);
  }

  lemma TileSeesExact(windowLeft: int, windowRight: int, startM: int, seqlenQ: int, seqlenK: int, blockM: int)
    requires seqlenK >= 1 && 0 <= startM < seqlenQ && blockM >= 1
    requires windowLeft + windowRight >= 0
    ensures TileSees(windowLeft, windowRight, startM, seqlenQ, seqlenK, blockM)
            <==> startM - windowLeft < seqlenK && 0 <= Min(startM + blockM, seqlenQ) - 1 + windowRight
  {
    var endM := Min(startM + blockM, seqlenQ);
    if startM - windowLeft < seqlenK && 0 <= endM - 1 + windowRight {
      var n := Max(0, startM - windowLeft);
      var m := Max(startM, n - windowRight);
      assert Visible(true, windowLeft, windowRight, seqlenQ, seqlenK, m, n);
    }
  }

  /** The tile above exists: 48 queries, 17 keys, window (12, 12), blocks of 16. */
  lemma EarlyExitMissesATile()
    ensures !TileSees(12, 12, 32, 48, 17, 16)
    ensures !CalculateIntervals(true, 12, 12, 32, 48, 17, false, 16, 16).AllEmpty()
  {
    TileSeesExact(12, 12, 32, 48, 17, 16);
  }

  /** The planner's one demand, made exact: the plan is correct for every window, mode and block size when
      there is a key. With no key at all it is correct exactly when the tile overflows the queries, or there is
      a window and block 0 does not lie between its two lines for the whole tile, or holds a single key. */
  lemma ZeroKeysExactly(isCausal: bool, windowLeft: int, windowRight: int,
                        startM: int, seqlenQ: int, seqlenK: nat, blockM: int, blockN: int)
    requires 0 <= startM < seqlenQ && blockM >= 1 && blockN >= 1
    ensures PlanCorrect(
              CalculateIntervals(isCausal, windowLeft, windowRight, startM, seqlenQ, seqlenK, startM + blockM > seqlenQ, blockM, blockN),
              isCausal, windowLeft, windowRight, startM, seqlenQ, seqlenK, blockM, blockN)
            <==>
            seqlenK >= 1 || startM + blockM > seqlenQ
            || (isCausal && !(blockN >= 2 && startM + blockM <= windowLeft && startM + windowRight >= blockN))
  {
    if seqlenK >= 1 {
      PlanIsCorrect(isCausal, windowLeft, windowRight, startM, seqlenQ, seqlenK, startM + blockM > seqlenQ, blockM, blockN);
    } else if isCausal {
      NoKeysWindowed(windowLeft, windowRight, startM, seqlenQ, blockM, blockN);
    } else {
      NoKeysDense(windowLeft, windowRight, startM, seqlenQ, blockM, blockN);
    }
  }

  /** With no key nothing is visible, so a plan is correct exactly when it is well formed and runs nothing unmasked. */
  lemma CorrectWithoutKeys(plan: Plan, isCausal: bool, windowLeft: int, windowRight: int,
                           startM: int, seqlenQ: int, blockM: int, blockN: int)
    requires blockM >= 1 && blockN >= 1 && plan.Disjoint() && (forall b :: plan.Has(b) ==> 0 <= b)
    ensures PlanCorrect(plan, isCausal, windowLeft, windowRight, startM, seqlenQ, 0, blockM, blockN) <==> plan.fb.Empty()
  {
    if !plan.fb.Empty() {
      DivUnique(plan.fb.lo * blockN, blockN, plan.fb.lo);
      assert plan.fb.Has(plan.fb.lo * blockN / blockN);
      assert !Visible(isCausal, windowLeft, windowRight, seqlenQ, 0, startM, plan.fb.lo * blockN);
    }
  }

  lemma NoKeysDense(windowLeft: int, windowRight: int, startM: int, seqlenQ: int, blockM: int, blockN: int)
    requires 0 <= startM < seqlenQ && blockM >= 1 && blockN >= 1
    ensures PlanCorrect(
              CalculateIntervals(false, windowLeft, windowRight, startM, seqlenQ, 0, startM + blockM > seqlenQ, blockM, blockN),
              false, windowLeft, windowRight, startM, seqlenQ, 0, blockM, blockN)
            <==> startM + blockM > seqlenQ
  {
    DivUnique(0, blockN, 0);
    DivUnique(blockN - 1, blockN, 0);
    var mask := startM + blockM > seqlenQ;
    var plan := CalculateIntervals(false, windowLeft, windowRight, startM, seqlenQ, 0, mask, blockM, blockN);
    assert plan == if mask then Plan(Range(0, -1), Range(-1, -2), Range(-1, -2)) else Plan(Range(-1, -2), Range(0, 0), Range(1, -1));
    CorrectWithoutKeys(plan, false, windowLeft, windowRight, startM, seqlenQ, blockM, blockN);
  }

  lemma NoKeysWindowed(windowLeft: int, windowRight: int, startM: int, seqlenQ: int, blockM: int, blockN: int)
    requires 0 <= startM < seqlenQ && blockM >= 1 && blockN >= 1
    ensures PlanCorrect(
              CalculateIntervals(true, windowLeft, windowRight, startM, seqlenQ, 0, startM + blockM > seqlenQ, blockM, blockN),
              true, windowLeft, windowRight, startM, seqlenQ, 0, blockM, blockN)
            <==> startM + blockM > seqlenQ || !(blockN >= 2 && startM + blockM <= windowLeft && startM + windowRight >= blockN)
  {
    var mask, endM := startM + blockM > seqlenQ, Min(startM + blockM, seqlenQ);
    var vHi := if blockN == 1 then -1 else 0;
    NoKeysLines(windowLeft, windowRight, startM, seqlenQ, blockM, blockN, mask);
    DivMono(startM - windowLeft, endM - windowLeft - 1, blockN);
    DivMono(startM + windowRight, endM + windowRight - 1, blockN);
    Floor(endM - windowLeft - 1, blockN, -1);
    Floor(startM + windowRight, blockN, 1);
    hide CalculateIntervals, SplitAtWindowLines, TrimPartialKeyBlock, PlanCorrect;
    var lsec := Range((startM - windowLeft) / blockN, (endM - windowLeft - 1) / blockN);
    var rsec := Range((startM + windowRight) / blockN, (endM + windowRight - 1) / blockN);
    var split := SplitAtWindowLines(lsec, rsec, Range(0, vHi), mask);
    NoKeysSplit(lsec.lo, lsec.hi, rsec.lo, rsec.hi, vHi, mask);
    NoKeysTrim(split, blockN);
    CorrectWithoutKeys(split, true, windowLeft, windowRight, startM, seqlenQ, blockM, blockN);
  }

  lemma NoKeysLines(windowLeft: int, windowRight: int, startM: int, seqlenQ: int, blockM: int, blockN: int, mask: bool)
    requires blockM >= 1 && blockN >= 1
    ensures var endM := Min(startM + blockM, seqlenQ);
      CalculateIntervals(true, windowLeft, windowRight, startM, seqlenQ, 0, mask, blockM, blockN)
        == TrimPartialKeyBlock(
             SplitAtWindowLines(Range((startM - windowLeft) / blockN, (endM - windowLeft - 1) / blockN),
                                Range((startM + windowRight) / blockN, (endM + windowRight - 1) / blockN),
                                Range(0, if blockN == 1 then -1 else 0), mask), 0, blockN)
  {
    hide SplitAtWindowLines, TrimPartialKeyBlock, DivRd;
    DivRdFloorAll(blockN);
    DivUnique(1, blockN, if blockN == 1 then 1 else 0);
  }

  lemma NoKeysSplit(lLo: int, lHi: int, rLo: int, rHi: int, vHi: int, mask: bool)
    requires lLo <= lHi && rLo <= rHi && -1 <= vHi <= 0
    ensures var plan := SplitAtWindowLines(Range(lLo, lHi), Range(rLo, rHi), Range(0, vHi), mask);
      && plan.Disjoint() && (forall b :: plan.Has(b) ==> 0 <= b)
      && (plan.fb.Empty() <==> !(!mask && vHi == 0 && lHi <= -1 && 1 <= rLo))
      && (plan.fb.lo >= 0 || plan.fb.hi <= -1)
  {
  }

  lemma NoKeysTrim(split: Plan, blockN: int)
    requires blockN >= 1 && (split.fb.lo >= 0 || split.fb.hi <= -1)
    ensures TrimPartialKeyBlock(split, 0, blockN) == split
  {
    assert (split.fb.hi + 1) * blockN == split.fb.hi * blockN + blockN;
    if split.fb.lo >= 0 { MulMono(0, split.fb.lo, blockN); } else { MulMono(split.fb.hi + 1, 0, blockN); }
  }

  /** What an argument for the left side of the window asks of a pair: nothing for either special value. */
  predicate LeftAsks(left: int, m: int, n: int) {
    left == -2147483647 || left == -2147483646 || m - left <= n
  }

  /** The same for the right side; the special values align the causal line with the top left and with the
      bottom right corner of the score matrix. */
  predicate RightAsks(right: int, seqlenQ: int, seqlenK: int, m: int, n: int) {
    if right == -2147483647 then n <= m
    else if right == -2147483646 then n - (seqlenK - 1) <= m - (seqlenQ - 1)
    else n <= m + right
  }

  /** Side by side, whatever the two arguments are: a pair is visible under the parsed window exactly when it
      exists and both sides hold. Without a window every existing pair is visible. */
  lemma ParsedWindowExactly(left: int, right: int, seqlenQ: int, seqlenK: int, m: int, n: int)
    ensures var (l, r) := ParseWindow(left, right, seqlenQ, seqlenK);
      Visible(true, l, r, seqlenQ, seqlenK, m, n) <==>
        0 <= m < seqlenQ && 0 <= n < seqlenK && LeftAsks(left, m, n) && RightAsks(right, seqlenQ, seqlenK, m, n)
    ensures Visible(false, left, right, seqlenQ, seqlenK, m, n) <==> 0 <= m < seqlenQ && 0 <= n < seqlenK
  {
  }

  /** A sliding window of 128 keys ending at the query's own: row 100 of 256 sees the keys 0 .. 100. */
  lemma SlidingWindow(n: int)
    ensures var (l, r) := ParseWindow(128, 0, 256, 256);
      && (Visible(true, l, r, 256, 256, 100, n) <==> 0 <= n <= 100)
      && (Visible(true, l, r, 256, 256, 200, n) <==> 72 <= n <= 200)
  {
  }

  /** The special window values select exactly the two classical causal masks. */
  lemma SpecialWindows(seqlenQ: int, seqlenK: int, m: int, n: int)
    requires 0 <= m < seqlenQ && 0 <= n < seqlenK
    ensures var (l, r) := ParseWindow(TOP_LEFT, TOP_LEFT, seqlenQ, seqlenK);
            Visible(true, l, r, seqlenQ, seqlenK, m, n) <==> n <= m
    ensures var (l, r) := ParseWindow(BOTTOM_RIGHT, BOTTOM_RIGHT, seqlenQ, seqlenK);
            Visible(true, l, r, seqlenQ, seqlenK, m, n) <==> n <= m + seqlenK - seqlenQ
  {
  }

  /** Exchanging the axes and the two windows keeps the visible set: what the dk/dv kernel relies on. */
  lemma Transposed(isCausal: bool, windowLeft: int, windowRight: int, seqlenQ: int, seqlenK: int, m: int, n: int)
    ensures Visible(isCausal, windowLeft, windowRight, seqlenQ, seqlenK, m, n)
            <==> Visible(isCausal, windowRight, windowLeft, seqlenK, seqlenQ, n, m)
  {
  }
}
