/** How a kernel walks a plan: the full range first, then both masked ranges in one fused loop. */
module Sweep {
  import opened Arith
  import opened RealSums
  import opened Intervals
  import opened Options

  /** The block visited by iteration blockIndex of the fused loop over two ranges. Without a second
      range (the unmasked call) the first one just continues. */
  function FusedBlock(blockIndex: int, nblocks1: int, blockRange1: int, blockRange2: Option<int>): int {
    if blockRange2.None? || blockIndex < nblocks1 then blockIndex + blockRange1
    else blockIndex - nblocks1 + blockRange2.value
  }

  /** The columns of count blocks starting at block first. */
  function BlockSpan(first: int, count: int, block: int): Span {
    Span(first * block, (first + count) * block)
  }

  /** The columns the fused loop has visited after blockIndex iterations, range by range. */
  function FirstSpan(blockIndex: int, nblocks1: int, blockRange1: int, block: int): Span {
    BlockSpan(blockRange1, Min(blockIndex, nblocks1), block)
  }

  function SecondSpan(blockIndex: int, nblocks1: int, blockRange2: Option<int>, block: int): Span {
    if blockRange2.None? then Span(0, 0) else BlockSpan(blockRange2.value, Max(0, blockIndex - nblocks1), block)
  }

  lemma EmptySpan(first: int, block: int)
    ensures BlockSpan(first, 0, block).lo == BlockSpan(first, 0, block).hi
  {
  }

  function RangeSpan(r: Range, block: int): Span {
    BlockSpan(r.lo, r.Size(), block)
  }

  lemma EmptyRangeSpan(r: Range, block: int)
    requires r.Empty()
    ensures RangeSpan(r, block).lo == RangeSpan(r, block).hi
  {
  }

  lemma InitialSpans(nblocks1: nat, blockRange1: int, blockRange2: Option<int>, block: int)
    ensures FirstSpan(0, nblocks1, blockRange1, block).lo == FirstSpan(0, nblocks1, blockRange1, block).hi
    ensures SecondSpan(0, nblocks1, blockRange2, block).lo == SecondSpan(0, nblocks1, blockRange2, block).hi
  {
  }

  /** After its last iteration the loop has visited both ranges completely. */
  lemma LoopSpans(r1: Range, r2: Range, block: int)
    ensures FirstSpan(r1.Size() + 0, r1.Size(), r1.lo, block) == RangeSpan(r1, block)
    ensures SecondSpan(r1.Size() + 0, r1.Size(), None, block) == Span(0, 0)
    ensures FirstSpan(r1.Size() + r2.Size(), r1.Size(), r1.lo, block) == RangeSpan(r1, block)
    ensures SecondSpan(r1.Size() + r2.Size(), r1.Size(), Some(r2.lo), block) == RangeSpan(r2, block)
  {
    hide BlockSpan;
  }

  lemma RangeSpanHas(r: Range, block: int, x: int)
    requires block >= 1
    ensures RangeSpan(r, block).Has(x) <==> r.Has(x / block)
  {
    Floor(x, block, r.lo);
    Floor(x, block, r.hi);
  }

  lemma AppendBlock(first: int, count: nat, block: nat)
    ensures var b := first + count;
      BlockSpan(first, count + 1, block) == Span(BlockSpan(first, count, block).lo, b * block + block)
    ensures BlockSpan(first, count, block).hi == (first + count) * block
    ensures BlockSpan(first, count, block).lo <= BlockSpan(first, count, block).hi
  {
    MulMono(first, first + count, block);
    assert (first + count + 1) * block == (first + count) * block + block;
  }

  /** p' and q' are p and q with [lo, hi) appended to q, or to p while q is still empty. */
  ghost predicate Appended(p: Span, q: Span, p': Span, q': Span, lo: int, hi: int) {
    && p.lo <= p.hi && q.lo <= q.hi && lo <= hi
    && ((q.hi == lo && p' == p && q' == Span(q.lo, hi)) || (p.hi == lo && q.lo == q.hi && q' == q && p' == Span(p.lo, hi)))
  }

  /** One iteration appends exactly one block, taken from one of the two ranges. */
  lemma FusedStep(blockIndex: int, nblocks1: nat, nblocks2: nat, blockRange1: int, blockRange2: Option<int>, block: nat)
    requires 0 <= blockIndex < nblocks1 + nblocks2
    requires blockRange2.None? ==> nblocks2 == 0
    ensures var b := FusedBlock(blockIndex, nblocks1, blockRange1, blockRange2);
            && Appended(FirstSpan(blockIndex, nblocks1, blockRange1, block), SecondSpan(blockIndex, nblocks1, blockRange2, block),
                        FirstSpan(blockIndex + 1, nblocks1, blockRange1, block), SecondSpan(blockIndex + 1, nblocks1, blockRange2, block),
                        b * block, b * block + block)
            && if blockIndex < nblocks1 then blockRange1 <= b < blockRange1 + nblocks1
               else blockRange2.Some? && blockRange2.value <= b < blockRange2.value + nblocks2
  {
    hide BlockSpan;
    AppendBlock(blockRange1, Min(blockIndex, nblocks1), block);
    if blockRange2.Some? {
      AppendBlock(blockRange2.value, Max(0, blockIndex - nblocks1), block);
      EmptySpan(blockRange2.value, block);
    }
  }

  lemma SumAppended(f: int -> real, p: Span, q: Span, p': Span, q': Span, lo: int, hi: int)
    requires Appended(p, q, p', q', lo, hi)
    ensures Sum(f, p'.lo, p'.hi) + Sum(f, q'.lo, q'.hi) == Sum(f, p.lo, p.hi) + Sum(f, q.lo, q.hi) + Sum(f, lo, hi)
  {
    hide Sum;
    if q.hi == lo && p' == p && q' == Span(q.lo, hi) { SumSplit(f, q.lo, lo, hi); } else { SumSplit(f, p.lo, lo, hi); }
  }

  lemma MaxOverAppended(init: real, f: int -> Score, p: Span, q: Span, p': Span, q': Span, lo: int, hi: int)
    requires Appended(p, q, p', q', lo, hi)
    ensures MaxOver(MaxOver(init, f, p'.lo, p'.hi), f, q'.lo, q'.hi)
         == MaxOver(MaxOver(MaxOver(init, f, p.lo, p.hi), f, q.lo, q.hi), f, lo, hi)
  {
    if q.hi == lo && p' == p && q' == Span(q.lo, hi) {
      MaxOverSplit(MaxOver(init, f, p.lo, p.hi), f, q.lo, lo, hi);
    } else {
      MaxOverSplit(init, f, p.lo, lo, hi);
    }
  }

  /** The three spans of a plan add up to the whole axis, for any f that is zero wherever no block is
      planned, and zero where a planned block sticks out of the axis. */
  lemma SumOverPlan(f: int -> real, plan: Plan, block: int, len: int)
    requires block >= 1 && plan.Disjoint()
    requires forall x :: 0 <= x < len && f(x) != 0.0 ==> plan.Has(x / block)
    requires forall x :: !(0 <= x < len) ==> f(x) == 0.0
    ensures Sum(f, RangeSpan(plan.fb, block).lo, RangeSpan(plan.fb, block).hi)
          + Sum(f, RangeSpan(plan.lb, block).lo, RangeSpan(plan.lb, block).hi)
          + Sum(f, RangeSpan(plan.rb, block).lo, RangeSpan(plan.rb, block).hi)
         == Sum(f, 0, len)
  {
    SpansHave(plan, block);
    SumOverSpans(f, RangeSpan(plan.fb, block), RangeSpan(plan.lb, block), RangeSpan(plan.rb, block), 0, len);
  }

  lemma MaxOverPlan(init: real, f: int -> Score, plan: Plan, block: int, len: int)
    requires block >= 1
    requires forall x :: 0 <= x < len && f(x).Fin? ==> plan.Has(x / block)
    requires forall x :: !(0 <= x < len) ==> f(x).NegInf?
    ensures var p, q, r := RangeSpan(plan.fb, block), RangeSpan(plan.lb, block), RangeSpan(plan.rb, block);
            MaxOver(MaxOver(MaxOver(init, f, p.lo, p.hi), f, q.lo, q.hi), f, r.lo, r.hi) == MaxOver(init, f, 0, len)
  {
    SpansHave(plan, block);
    MaxOverSpans(init, f, RangeSpan(plan.fb, block), RangeSpan(plan.lb, block), RangeSpan(plan.rb, block), 0, len);
  }

  lemma SpansHave(plan: Plan, block: int)
    requires block >= 1
    ensures forall x :: RangeSpan(plan.fb, block).Has(x) <==> plan.fb.Has(x / block)
    ensures forall x :: RangeSpan(plan.lb, block).Has(x) <==> plan.lb.Has(x / block)
    ensures forall x :: RangeSpan(plan.rb, block).Has(x) <==> plan.rb.Has(x / block)
  {
    forall x
      ensures RangeSpan(plan.fb, block).Has(x) <==> plan.fb.Has(x / block)
      ensures RangeSpan(plan.lb, block).Has(x) <==> plan.lb.Has(x / block)
      ensures RangeSpan(plan.rb, block).Has(x) <==> plan.rb.Has(x / block)
    {
      RangeSpanHas(plan.fb, block, x); RangeSpanHas(plan.lb, block, x); RangeSpanHas(plan.rb, block, x);
    }
  }
}
