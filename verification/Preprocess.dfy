/** The preprocess kernel of the backward pass: delta, the row sum of out * dO, one block of rows at a time. */
module Preprocess {
  import opened Arith
  import opened RealSums
  import opened ComposedTensors
  import opened Attention
  import opened Gradients

  /** out * dO along row m */
  function ProductOf(x: Grid, y: Grid, m: int): int -> real { c => x(m, c) * y(m, c) }

  /** One program: loads both row blocks in three pieces, multiplies, sums, and stores the rows that exist. */
  method BwdPreprocess(out: Grid, dO: Grid, seqlenQ: int, hdimVo: int, d0: nat, d1: nat, d2: nat, paddedHead: bool,
                       offZh: nat, maxSeqlenQ: int, programId: nat, blockM: nat, delta: array<real>)
    requires 0 <= seqlenQ <= maxSeqlenQ && offZh * maxSeqlenQ + maxSeqlenQ <= delta.Length
    requires 0 <= hdimVo <= d0 + d1 + d2 && (paddedHead || hdimVo == d0 + d1 + d2)
    modifies delta
    ensures forall m :: programId * blockM <= m < programId * blockM + blockM && m < seqlenQ ==>
              0 <= offZh * maxSeqlenQ + m < delta.Length
              && delta[offZh * maxSeqlenQ + m] == Sum(ProductOf(out, dO, m), 0, hdimVo)
    ensures forall a :: 0 <= a < delta.Length && !InBlock(a - offZh * maxSeqlenQ, programId * blockM, blockM, seqlenQ) ==>
              delta[a] == old(delta[a])
  {
    hide Sum, ComposedDot;
    var start, offM := offZh * maxSeqlenQ, programId * blockM;
    var o := LoadPiece(out, seqlenQ, hdimVo, true, paddedHead);
    var dOt := LoadPiece(dO, seqlenQ, hdimVo, true, paddedHead);
    var overflow := offM + blockM - seqlenQ;
    assert 0 <= start && 0 <= offM by { MulMono(0, offZh, maxSeqlenQ); MulMono(0, programId, blockM); }
    forall i | 0 <= i < blockM && (overflow > 0 ==> i < blockM - overflow) {
      delta[start + offM + i] := ComposedDot(o, o, o, dOt, dOt, dOt, offM + i, offM + i, d0, d1, d2);
    }
    forall m | offM <= m < offM + blockM && m < seqlenQ
      ensures start + m < delta.Length && delta[start + m] == Sum(ProductOf(out, dO, m), 0, hdimVo)
    {
      assert delta[start + offM + (m - offM)] == ComposedDot(o, o, o, dOt, dOt, dOt, m, m, d0, d1, d2);
      ComposedDotIsDot(out, dO, m, m, seqlenQ, seqlenQ, hdimVo, d0, d1, d2, true, true, paddedHead);
      SumEqual(ProductOf(out, dO, m), c => out(m, c) * dO(m, c), 0, hdimVo);
    }
  }

  predicate InBlock(m: int, offM: int, blockM: int, seqlenQ: int) { offM <= m < offM + blockM && m < seqlenQ }

  /** On the output of the forward kernel this is the delta of the gradient formulas. */
  lemma StoredDeltaIsDelta(E: real -> real, h: Head, g: Grad, log2e: real, m: int, out: Grid)
    requires IsExp(E) && h.Valid()
    requires forall d :: 0 <= d < h.hdimVo ==> out(m, d) == AttentionAt(E, h, log2e, m, d)
    ensures Sum(ProductOf(out, g.dO, m), 0, h.hdimVo) == DeltaAt(E, h, g, log2e, m)
  {
    hide Sum, AttentionAt;
    SumEqual(ProductOf(out, g.dO, m), OutDo(E, h, g, log2e, m), 0, h.hdimVo);
  }
}
