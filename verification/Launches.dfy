/** Whole launches of one (batch, head): every workgroup of the grid, in any order, on the head's own memory.
    What single tiles are proved to write adds up to the complete tensors. */
module Launches {
  import opened Arith
  import opened RealSums
  import opened Intervals
  import opened Dropout
  import opened Attention
  import opened Gradients
  import opened ComposedTensors
  import opened ForwardKernel
  import opened Preprocess
  import opened BackwardKernels
  import opened WorkDistribution

  // ---------------------------------------------------------------- which tiles run

  /** The tiles of an axis, each at least once. */
  ghost predicate AllBlocks(blocks: seq<nat>, len: int, block: int)
    requires block >= 1
  {
    forall b: nat :: b in blocks <==> b < Cdiv(len, block)
  }

  /** All workgroups of a grid, in the order in which they happen to run. */
  ghost predicate RunsGrid(grid: Dim3, order: seq<Dim3>) {
    forall p :: p in order <==> grid.Launches(p)
  }

  /** The tiles of one (batch, head), in that order. */
  function BlocksOf(numXcds: int, heads: nat, batch: int, head: int, order: seq<Dim3>): seq<nat>
    requires forall i :: 0 <= i < |order| ==> order[i].x >= 0
  {
    if order == [] then []
    else
      var item := TiledDecode(numXcds, heads, order[0]);
      (if item.batch == batch && item.head == head && item.block >= 0 then [item.block as nat] else [])
        + BlocksOf(numXcds, heads, batch, head, order[1..])
  }

  lemma {:induction false} BlocksOfHas(numXcds: int, heads: nat, batch: int, head: int, order: seq<Dim3>, b: nat)
    requires forall i :: 0 <= i < |order| ==> order[i].x >= 0
    ensures b in BlocksOf(numXcds, heads, batch, head, order)
       <==> exists i :: 0 <= i < |order| && TiledDecode(numXcds, heads, order[i]) == Item(batch, head, b)
  {
    if order != [] {
      BlocksOfHas(numXcds, heads, batch, head, order[1..], b);
      if b in BlocksOf(numXcds, heads, batch, head, order[1..]) {
        var i :| 0 <= i < |order[1..]| && TiledDecode(numXcds, heads, order[1..][i]) == Item(batch, head, b);
        assert order[i + 1] == order[1..][i];
      }
      if exists i :: 0 <= i < |order| && TiledDecode(numXcds, heads, order[i]) == Item(batch, head, b) {
        var i :| 0 <= i < |order| && TiledDecode(numXcds, heads, order[i]) == Item(batch, head, b);
        if i > 0 { assert order[1..][i - 1] == order[i]; }
      }
    }
  }

  /** Whatever the order, a grid runs every tile of every (batch, head), and no tile outside the axis. */
  lemma GridRunsAllBlocks(numXcds: int, len: int, block: int, heads: nat, batches: int, batch: int, head: int, order: seq<Dim3>)
    requires block >= 1 && numXcds >= 1 && 0 <= batch < batches && 0 <= head < heads
    requires RunsGrid(TiledGrid(numXcds, len, block, heads, batches), order)
    ensures forall i :: 0 <= i < |order| ==> order[i].x >= 0
    ensures AllBlocks(BlocksOf(numXcds, heads, batch, head, order), len, block)
  {
    hide Cdiv, RemapXcd;
    var grid := TiledGrid(numXcds, len, block, heads, batches);
    forall i | 0 <= i < |order| ensures grid.Launches(order[i]) { assert order[i] in order; }
    forall b: nat ensures b in BlocksOf(numXcds, heads, batch, head, order) <==> b < Cdiv(len, block) {
      BlocksOfHas(numXcds, heads, batch, head, order, b);
      if b < Cdiv(len, block) {
        var p := TiledGridCoversOnce(numXcds, len, block, heads, batches, Item(batch, head, b));
        assert p in order;
      }
    }
  }

  /** Tile b of an axis holds positions b * block .. , and none of them twice. */
  lemma TileOf(len: int, block: int, x: int)
    requires block >= 1 && 0 <= x < len
    ensures 0 <= x / block < Cdiv(len, block) && x / block * block <= x < x / block * block + block
  {
    BlocksPartitionAxis(len, block, x);
  }

  lemma BlockInside(blocks: seq<nat>, len: int, block: int, i: nat)
    requires block >= 1 && AllBlocks(blocks, len, block) && i < |blocks|
    ensures 0 <= blocks[i] * block < len
  {
    assert blocks[i] in blocks;
    BlocksPartitionAxis(len, block, 0);
  }

  /** Position x lies in one of the first i tiles that run. */
  ghost predicate Ran(blocks: seq<nat>, i: nat, len: int, block: nat, x: int)
    requires i <= |blocks|
  {
    exists j :: 0 <= j < i && InBlock(x, blocks[j] * block, block, len)
  }

  lemma RanNext(blocks: seq<nat>, i: nat, len: int, block: nat, x: int)
    requires i < |blocks|
    ensures Ran(blocks, i + 1, len, block, x) <==> Ran(blocks, i, len, block, x) || InBlock(x, blocks[i] * block, block, len)
    ensures Ran(blocks, i + 1, len, block, x) ==> 0 <= x < len
  {
    if Ran(blocks, i + 1, len, block, x) {
      var j :| 0 <= j < i + 1 && InBlock(x, blocks[j] * block, block, len);
      MulMono(0, blocks[j], block);
    }
  }

  lemma NoneRan(blocks: seq<nat>, len: int, block: nat)
    ensures forall x :: !Ran(blocks, 0, len, block, x)
  {
  }

  lemma AllRan(blocks: seq<nat>, len: int, block: nat, x: int)
    requires block >= 1 && AllBlocks(blocks, len, block) && 0 <= x < len
    ensures Ran(blocks, |blocks|, len, block, x)
  {
    TileOf(len, block, x);
    assert (x / block) as nat in blocks;
    var j :| 0 <= j < |blocks| && blocks[j] == x / block;
    assert InBlock(x, blocks[j] * block, block, len);
  }

  // ---------------------------------------------------------------- forward

  /** The zeros of early exits stay inside their rows, or no tile of the head exits. */
  ghost predicate NoSpill(h: Head, o: OutSlice, blockM: nat, blockN: nat)
    requires blockM >= 1 && blockN >= 1
  {
    o.BlockDmodel() <= o.strideRow || forall b: nat :: b < Cdiv(h.seqlenQ, blockM) ==> !ExitsEarly(h, b * blockM, blockM, blockN)
  }

  /** What a finished forward pass leaves in the log-sum-exp of row m. */
  ghost function StoredLse(E: real -> real, Lg: real -> real, h: Head, blockM: nat, blockN: nat, m: int): Lse
    requires IsExp(E) && blockM >= 1 && blockN >= 1
  {
    if ExitsEarly(h, m / blockM * blockM, blockM, blockN) then PosInf else Lse.Lse(LseAt(E, Lg, h, LOG2E, LN2, m))
  }

  /** Row m of Out and L is finished. */
  ghost predicate RowStored(E: real -> real, Lg: real -> real, h: Head, o: OutSlice, blockM: nat, blockN: nat,
                            mem: seq<real>, lse: seq<Lse>, m: int)
    requires IsExp(E) && h.Valid() && blockM >= 1 && blockN >= 1
  {
    && 0 <= m < |lse| && lse[m] == StoredLse(E, Lg, h, blockM, blockN, m)
    && forall d :: 0 <= d < h.hdimVo ==> 0 <= o.At(m, d) < |mem| && mem[o.At(m, d)] == AttentionAt(E, h, LOG2E, m, d)
  }

  ghost predicate TileStored(E: real -> real, Lg: real -> real, h: Head, o: OutSlice, blockM: nat, blockN: nat,
                             mem: seq<real>, lse: seq<Lse>, b: nat)
    requires IsExp(E) && h.Valid() && blockM >= 1 && blockN >= 1
  {
    forall m :: b * blockM <= m < b * blockM + blockM && m < h.seqlenQ ==> RowStored(E, Lg, h, o, blockM, blockN, mem, lse, m)
  }

  /** No other tile writes a cell of row m. */
  lemma OtherTileSpares(h: Head, o: OutSlice, b: nat, blockM: nat, blockN: nat, size: int, m: int, d: int)
    requires blockM >= 1 && blockN >= 1 && b < Cdiv(h.seqlenQ, blockM) && NoSpill(h, o, blockM, blockN)
    requires 0 <= o.base && 0 <= h.hdimVo <= o.strideRow && 1 <= o.strideRow && o.base + h.seqlenQ * o.strideRow <= size
    requires 0 <= m < h.seqlenQ && 0 <= d < h.hdimVo && !(b * blockM <= m < b * blockM + blockM)
    ensures !TileWrites(h, o, b * blockM, blockM, blockN, o.At(m, d))
  {
    hide ExitsEarly, Cdiv;
    CellOf(size, o.base, o.strideRow, m, d, h.seqlenQ, h.hdimVo);
    if ExitsEarly(h, b * blockM, blockM, blockN) {
      forall r | b * blockM <= r < Min(b * blockM + blockM, h.seqlenQ) ensures !(0 <= o.At(m, d) - Addr(o.base, o.strideRow, r, 0) < o.strideRow) {
        RowsApart(m, r, d, o.strideRow);
      }
    }
  }

  lemma RowsApart(m: int, r: int, d: int, stride: int)
    requires stride >= 1 && 0 <= d < stride && m != r
    ensures !(0 <= m * stride + d - r * stride < stride)
  {
    DivUnique(m * stride + d, stride, m);
    if 0 <= m * stride + d - r * stride < stride { DivUnique(m * stride + d, stride, r); }
  }

  /** One more tile: its rows are stored, and the rows of every other tile keep what they hold. */
  lemma TileAdds(E: real -> real, Lg: real -> real, h: Head, o: OutSlice, blockM: nat, blockN: nat, size: int,
                 mem: seq<real>, lse: seq<Lse>, mem': seq<real>, lse': seq<Lse>, b: nat, other: nat)
    requires IsExp(E) && h.Valid() && blockM >= 1 && blockN >= 1 && b < Cdiv(h.seqlenQ, blockM) && NoSpill(h, o, blockM, blockN)
    requires 0 <= o.base && 0 <= h.hdimVo <= o.strideRow && 1 <= o.strideRow && o.base + h.seqlenQ * o.strideRow <= size
    requires |mem| == |mem'| == size && |lse| == |lse'| == h.seqlenQ
    requires forall a :: 0 <= a < size && !TileWrites(h, o, b * blockM, blockM, blockN, a) ==> mem'[a] == mem[a]
    requires forall m :: 0 <= m < h.seqlenQ && !(b * blockM <= m < b * blockM + blockM) ==> lse'[m] == lse[m]
    requires TileStored(E, Lg, h, o, blockM, blockN, mem', lse', b) && TileStored(E, Lg, h, o, blockM, blockN, mem, lse, other)
    ensures TileStored(E, Lg, h, o, blockM, blockN, mem', lse', other)
  {
    hide TileWrites, Addr, AttentionAt, StoredLse, NoSpill, Cdiv;
    if other != b {
      forall m | other * blockM <= m < other * blockM + blockM && m < h.seqlenQ
        ensures RowStored(E, Lg, h, o, blockM, blockN, mem', lse', m)
      {
        TilesApart(other, b, blockM, m);
        assert RowStored(E, Lg, h, o, blockM, blockN, mem, lse, m);
        forall d | 0 <= d < h.hdimVo ensures mem'[o.At(m, d)] == mem[o.At(m, d)] {
          OtherTileSpares(h, o, b, blockM, blockN, size, m, d);
        }
      }
    }
  }

  lemma TilesApart(b: nat, c: nat, block: nat, m: int)
    requires b != c && b * block <= m < b * block + block
    ensures 0 <= m && !(c * block <= m < c * block + block)
  {
    MulMono(0, b, block);
    DivUnique(m, block, b);
    if c * block <= m < c * block + block { DivUnique(m, block, c); }
  }

  /** One tile of the launch, on snapshots of memory. */
  method ForwardTile(E: real -> real, Lg: real -> real, h: Head, o: OutSlice, blockM: nat, blockN: nat, b: nat,
                     mem: array<real>, lse: array<Lse>)
    requires IsExp(E) && h.Valid() && blockM >= 1 && blockN >= 1 && DropoutAligned(h, blockN)
    requires b < Cdiv(h.seqlenQ, blockM) && NoSpill(h, o, blockM, blockN)
    requires Fits(mem, o.base, o.strideRow, h.seqlenQ, h.hdimVo) && h.hdimVo <= o.BlockDmodel() && lse.Length == h.seqlenQ
    modifies mem, lse
    ensures TileStored(E, Lg, h, o, blockM, blockN, mem[..], lse[..], b)
    ensures forall a :: 0 <= a < mem.Length && !TileWrites(h, o, b * blockM, blockM, blockN, a) ==> mem[a] == old(mem[a])
    ensures forall m :: 0 <= m < h.seqlenQ && !(b * blockM <= m < b * blockM + blockM) ==> lse[m] == old(lse[m])
  {
    hide Addr, AttentionAt, ExitsEarly, LseAt, TileWrites;
    BlocksPartitionAxis(h.seqlenQ, blockM, 0);
    ExitFits(h, o, blockM, blockN, b, mem);
    AttnFwdTile(E, Lg, h, b * blockM, blockM, blockN, mem, o, h.seqlenQ, lse);
    forall m | b * blockM <= m < b * blockM + blockM && m < h.seqlenQ
      ensures RowStored(E, Lg, h, o, blockM, blockN, mem[..], lse[..], m)
    {
      DivUnique(m, blockM, b);
    }
  }

  lemma ExitFits(h: Head, o: OutSlice, blockM: nat, blockN: nat, b: nat, mem: array<real>)
    requires h.Valid() && blockM >= 1 && blockN >= 1 && b < Cdiv(h.seqlenQ, blockM) && NoSpill(h, o, blockM, blockN)
    requires Fits(mem, o.base, o.strideRow, h.seqlenQ, h.hdimVo) && h.hdimVo <= o.BlockDmodel()
    ensures OutFits(h, mem, o, b * blockM, blockM, blockN)
  {
    hide ExitsEarly, Cdiv;
    if ExitsEarly(h, b * blockM, blockM, blockN) {
      var r := Min(b * blockM + blockM, h.seqlenQ) - 1;
      MulMono(r + 1, h.seqlenQ, o.strideRow);
      assert (r + 1) * o.strideRow == r * o.strideRow + o.strideRow;
    }
  }

  /** The forward launch: Out and L of the head, complete, whatever the block sizes and the order. */
  method ForwardLaunch(E: real -> real, Lg: real -> real, h: Head, o: OutSlice, blocks: seq<nat>, blockM: nat, blockN: nat,
                       mem: array<real>, lse: array<Lse>)
    requires IsExp(E) && h.Valid() && blockM >= 1 && blockN >= 1 && DropoutAligned(h, blockN)
    requires AllBlocks(blocks, h.seqlenQ, blockM) && NoSpill(h, o, blockM, blockN)
    requires Fits(mem, o.base, o.strideRow, h.seqlenQ, h.hdimVo) && h.hdimVo <= o.BlockDmodel() && lse.Length == h.seqlenQ
    modifies mem, lse
    ensures forall m :: 0 <= m < h.seqlenQ ==> RowStored(E, Lg, h, o, blockM, blockN, mem[..], lse[..], m)
  {
    hide TileWrites, TileStored, RowStored, NoSpill, Cdiv;
    for i := 0 to |blocks|
      invariant forall j :: 0 <= j < i ==> TileStored(E, Lg, h, o, blockM, blockN, mem[..], lse[..], blocks[j])
    {
      assert blocks[i] in blocks;
      ghost var was, wasLse := mem[..], lse[..];
      ForwardTile(E, Lg, h, o, blockM, blockN, blocks[i], mem, lse);
      forall j | 0 <= j < i ensures TileStored(E, Lg, h, o, blockM, blockN, mem[..], lse[..], blocks[j]) {
        TileAdds(E, Lg, h, o, blockM, blockN, mem.Length, was, wasLse, mem[..], lse[..], blocks[i], blocks[j]);
      }
    }
    forall m | 0 <= m < h.seqlenQ ensures RowStored(E, Lg, h, o, blockM, blockN, mem[..], lse[..], m) {
      TileOf(h.seqlenQ, blockM, m);
      assert (m / blockM) as nat in blocks;
      StoredTileRow(E, Lg, h, o, blockM, blockN, mem[..], lse[..], m / blockM, m);
    }
  }

  lemma StoredTileRow(E: real -> real, Lg: real -> real, h: Head, o: OutSlice, blockM: nat, blockN: nat,
                      mem: seq<real>, lse: seq<Lse>, b: nat, m: int)
    requires IsExp(E) && h.Valid() && blockM >= 1 && blockN >= 1 && TileStored(E, Lg, h, o, blockM, blockN, mem, lse, b)
    requires b * blockM <= m < b * blockM + blockM && m < h.seqlenQ
    ensures RowStored(E, Lg, h, o, blockM, blockN, mem, lse, m)
  {
  }

  /** The forward launch on its grid: any order of the workgroups of all heads leaves this head's Out and L complete. */
  method ForwardOnGrid(E: real -> real, Lg: real -> real, h: Head, o: OutSlice, numXcds: int, heads: nat, batches: int, batch: int, head: int,
                       order: seq<Dim3>, blockM: nat, blockN: nat, mem: array<real>, lse: array<Lse>)
    requires IsExp(E) && h.Valid() && blockM >= 1 && blockN >= 1 && DropoutAligned(h, blockN) && NoSpill(h, o, blockM, blockN)
    requires numXcds >= 1 && 0 <= batch < batches && 0 <= head < heads
    requires RunsGrid(TiledGrid(numXcds, h.seqlenQ, blockM, heads, batches), order)
    requires Fits(mem, o.base, o.strideRow, h.seqlenQ, h.hdimVo) && h.hdimVo <= o.BlockDmodel() && lse.Length == h.seqlenQ
    modifies mem, lse
    ensures forall m :: 0 <= m < h.seqlenQ ==> RowStored(E, Lg, h, o, blockM, blockN, mem[..], lse[..], m)
  {
    hide NoSpill, RowStored, RunsGrid, AllBlocks;
    GridRunsAllBlocks(numXcds, h.seqlenQ, blockM, heads, batches, batch, head, order);
    ForwardLaunch(E, Lg, h, o, BlocksOf(numXcds, heads, batch, head, order), blockM, blockN, mem, lse);
  }

  // ---------------------------------------------------------------- preprocess

  /** The stored delta of one head, from its first row on, where it is finished. */
  ghost predicate DeltaStored(out: Grid, dO: Grid, hdimVo: int, delta: seq<real>, start: int, m: int) {
    0 <= start + m < |delta| && delta[start + m] == Sum(ProductOf(out, dO, m), 0, hdimVo)
  }

  /** The preprocess launch: the delta of every row of the head. */
  method PreprocessLaunch(out: Grid, dO: Grid, seqlenQ: int, hdimVo: int, d0: nat, d1: nat, d2: nat, offZh: nat,
                          blocks: seq<nat>, blockM: nat, delta: array<real>)
    requires 1 <= seqlenQ && blockM >= 1 && AllBlocks(blocks, seqlenQ, blockM)
    requires offZh * seqlenQ + seqlenQ <= delta.Length && 0 <= hdimVo <= d0 + d1 + d2
    modifies delta
    ensures forall m :: 0 <= m < seqlenQ ==> DeltaStored(out, dO, hdimVo, delta[..], offZh * seqlenQ, m)
    ensures forall a :: 0 <= a < delta.Length && !(offZh * seqlenQ <= a < offZh * seqlenQ + seqlenQ) ==> delta[a] == old(delta[a])
  {
    hide Sum, Cdiv, Ran;
    var start := offZh * seqlenQ;
    NoneRan(blocks, seqlenQ, blockM);
    for i := 0 to |blocks|
      invariant forall a :: 0 <= a < delta.Length && !(start <= a < start + seqlenQ) ==> delta[a] == old(delta[a])
      invariant forall m :: Ran(blocks, i, seqlenQ, blockM, m) ==> DeltaStored(out, dO, hdimVo, delta[..], start, m)
    {
      MulMono(0, blocks[i], blockM);
      ghost var was := delta[..];
      BwdPreprocess(out, dO, seqlenQ, hdimVo, d0, d1, d2, hdimVo < d0 + d1 + d2, offZh, seqlenQ, blocks[i], blockM, delta);
      forall m | Ran(blocks, i + 1, seqlenQ, blockM, m) ensures DeltaStored(out, dO, hdimVo, delta[..], start, m) {
        RanNext(blocks, i, seqlenQ, blockM, m);
        if !InBlock(m, blocks[i] * blockM, blockM, seqlenQ) {
          assert DeltaStored(out, dO, hdimVo, was, start, m);
          assert InBlock(start + m - start, blocks[i] * blockM, blockM, seqlenQ) == InBlock(m, blocks[i] * blockM, blockM, seqlenQ);
        }
      }
    }
    forall m | 0 <= m < seqlenQ ensures DeltaStored(out, dO, hdimVo, delta[..], start, m) { AllRan(blocks, seqlenQ, blockM, m); }
  }

  // ---------------------------------------------------------------- backward

  /** The dq launch: DQ of the head, complete. */
  method DqLaunch(E: real -> real, h: Head, g: Grad, blocks: seq<nat>, blockM: nat, blockN: nat) returns (dq: array2<real>)
    requires h.Valid() && h.smScale > 0.0 && blockM >= 1 && blockN >= 1 && DropoutAligned(h, blockN)
    requires AllBlocks(blocks, h.seqlenQ, blockM)
    ensures fresh(dq) && dq.Length0 == h.seqlenQ && dq.Length1 == h.hdimQk
    ensures forall m, d :: 0 <= m < h.seqlenQ && 0 <= d < h.hdimQk ==> dq[m, d] == DqAt(E, h, g, RCP_LN2, m, d)
  {
    hide DqAt, Cdiv, Ran;
    dq := new real[h.seqlenQ, h.hdimQk];
    NoneRan(blocks, h.seqlenQ, blockM);
    for i := 0 to |blocks|
      invariant forall m, d :: Ran(blocks, i, h.seqlenQ, blockM, m) && 0 <= m < h.seqlenQ && 0 <= d < h.hdimQk
                  ==> dq[m, d] == DqAt(E, h, g, RCP_LN2, m, d)
    {
      BlockInside(blocks, h.seqlenQ, blockM, i);
      BwdDqTile(E, h, g, blocks[i] * blockM, blockM, blockN, dq);
      forall m, d | Ran(blocks, i + 1, h.seqlenQ, blockM, m) && 0 <= m < h.seqlenQ && 0 <= d < h.hdimQk
        ensures dq[m, d] == DqAt(E, h, g, RCP_LN2, m, d)
      {
        RanNext(blocks, i, h.seqlenQ, blockM, m);
      }
    }
    forall m, d | 0 <= m < h.seqlenQ && 0 <= d < h.hdimQk ensures dq[m, d] == DqAt(E, h, g, RCP_LN2, m, d) {
      AllRan(blocks, h.seqlenQ, blockM, m);
    }
  }

  /** The dk/dv launch: DK and DV of one kv head, complete. */
  method DkDvLaunch(E: real -> real, shared: Head, xs: int -> QueryHead, groupSize: nat, blocks: seq<nat>, blockM: nat, blockN: nat)
      returns (dk: array2<real>, dv: array2<real>)
    requires GroupValid(shared, xs) && shared.smScale > 0.0 && blockM >= 1 && blockN >= 1
    requires 1 <= shared.seqlenK && 0 <= shared.hdimQk && 0 <= shared.hdimVo
    requires blockN % PHILOX_RN_PER_OFFSET == 0 || forall j :: xs(j).dropout.NoDropout?
    requires AllBlocks(blocks, shared.seqlenK, blockN)
    ensures fresh(dk) && dk.Length0 == shared.seqlenK && dk.Length1 == shared.hdimQk
    ensures fresh(dv) && dv.Length0 == shared.seqlenK && dv.Length1 == shared.hdimVo
    ensures forall n, d :: 0 <= n < shared.seqlenK && 0 <= d < shared.hdimQk ==> dk[n, d] == DkAt(E, shared, xs, groupSize, LOG2E, n, d)
    ensures forall n, d :: 0 <= n < shared.seqlenK && 0 <= d < shared.hdimVo ==> dv[n, d] == DvAt(E, shared, xs, groupSize, LOG2E, n, d)
  {
    hide DkAt, DvAt, Cdiv, GroupValid, Ran;
    var len := shared.seqlenK;
    dk := new real[len, shared.hdimQk];
    dv := new real[len, shared.hdimVo];
    NoneRan(blocks, len, blockN);
    for i := 0 to |blocks|
      invariant forall n, d :: Ran(blocks, i, len, blockN, n) && 0 <= n < len && 0 <= d < shared.hdimQk
                  ==> dk[n, d] == DkAt(E, shared, xs, groupSize, LOG2E, n, d)
      invariant forall n, d :: Ran(blocks, i, len, blockN, n) && 0 <= n < len && 0 <= d < shared.hdimVo
                  ==> dv[n, d] == DvAt(E, shared, xs, groupSize, LOG2E, n, d)
    {
      BlockInside(blocks, len, blockN, i);
      BwdDkDvTile(E, shared, xs, groupSize, blocks[i], blockM, blockN, dk, dv);
      forall n ensures Ran(blocks, i + 1, len, blockN, n) <==>
          Ran(blocks, i, len, blockN, n) || InBlock(n, blocks[i] * blockN, blockN, len) {
        RanNext(blocks, i, len, blockN, n);
      }
    }
    forall n | 0 <= n < len ensures Ran(blocks, |blocks|, len, blockN, n) { AllRan(blocks, len, blockN, n); }
  }
}
