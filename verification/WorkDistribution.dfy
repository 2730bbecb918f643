/** Launch grids and the program-id decodes of the kernels: which work item each workgroup computes. */
module WorkDistribution {
  import opened Arith

  // ---------------------------------------------------------------- XCD remapping

  /** Number of XCDs that own one pid more than the others. */
  function TallXcds(grid: int, numXcds: int): int
    requires numXcds >= 1
  {
    if grid % numXcds == 0 then numXcds else grid % numXcds
  }

  function RemapXcd(pid: int, grid: int, numXcds: int): int
    requires pid >= 0 && grid >= 0 && numXcds >= 1
  {
    if numXcds == 1 then pid
    else
      var pidsPerXcd := (grid + numXcds - 1) / numXcds;
      var tallXcds := TallXcds(grid, numXcds);
      var xcd := pid % numXcds;
      var localPid := pid / numXcds;
      if xcd < tallXcds then xcd * pidsPerXcd + localPid
      else tallXcds * pidsPerXcd + (xcd - tallXcds) * (pidsPerXcd - 1) + localPid
  }

  /** How many pids below grid fall on the given XCD. */
  function XcdLoad(xcd: int, grid: int, numXcds: int): int
    requires numXcds >= 1
  {
    var per := (grid + numXcds - 1) / numXcds;
    if xcd < TallXcds(grid, numXcds) then per else per - 1
  }

  /** First remapped pid of an XCD. */
  function XcdBase(xcd: int, grid: int, numXcds: int): int
    requires numXcds >= 1
  {
    var per, tall := (grid + numXcds - 1) / numXcds, TallXcds(grid, numXcds);
    if xcd < tall then xcd * per else tall * per + (xcd - tall) * (per - 1)
  }

  /** grid == tall * per + (numXcds - tall) * (per - 1) */
  lemma GridSplits(grid: int, numXcds: int)
    requires grid >= 1 && numXcds >= 1
    ensures var per, tall := (grid + numXcds - 1) / numXcds, TallXcds(grid, numXcds);
      && per >= 1 && 1 <= tall <= numXcds
      && grid == numXcds * (per - 1) + tall
  {
    var q, r := grid / numXcds, grid % numXcds;
    DivModBack(grid, numXcds);
    if r == 0 {
      DivUnique(grid + numXcds - 1, numXcds, q);
      assert numXcds * (q - 1) + numXcds == q * numXcds;
      if q <= 0 { MulMono(q, 0, numXcds); }
    } else {
      assert (q + 1) * numXcds == q * numXcds + numXcds;
      DivUnique(grid + numXcds - 1, numXcds, q + 1);
      Floor(grid, numXcds, 0);
    }
  }

  /** pid is below grid exactly when its rank on its XCD is below that XCD's load. */
  lemma LocalPidBound(pid: int, grid: int, numXcds: int)
    requires pid >= 0 && grid >= 1 && numXcds >= 1
    ensures pid < grid <==> pid / numXcds < XcdLoad(pid % numXcds, grid, numXcds)
  {
    GridSplits(grid, numXcds);
    DivModBack(pid, numXcds);
    hide TallXcds;
    RankBound(pid / numXcds, pid % numXcds, (grid + numXcds - 1) / numXcds, TallXcds(grid, numXcds), numXcds);
  }

  /** l * y + x against y * (per - 1) + tall, digit by digit. */
  lemma RankBound(l: int, x: int, per: int, tall: int, y: int)
    requires 0 <= x < y && 1 <= tall <= y
    ensures l * y + x < y * (per - 1) + tall <==> l < if x < tall then per else per - 1
  {
    if l < per - 1 {
      MulMono(l + 1, per - 1, y);
    } else if l >= per {
      MulMono(per, l, y);
    }
  }

  /** The bases tile [0, grid): each XCD's range ends where the next one starts. */
  lemma BasesAreContiguous(xcd: int, grid: int, numXcds: int)
    requires grid >= 1 && 0 <= xcd < numXcds
    ensures XcdBase(0, grid, numXcds) == 0
    ensures XcdBase(xcd, grid, numXcds) + XcdLoad(xcd, grid, numXcds)
         == if xcd + 1 < numXcds then XcdBase(xcd + 1, grid, numXcds) else grid
  {
    GridSplits(grid, numXcds);
    hide TallXcds;
    BasesLinear(xcd, (grid + numXcds - 1) / numXcds, TallXcds(grid, numXcds), numXcds, grid);
  }

  lemma BasesLinear(x: int, per: int, tall: int, numXcds: int, grid: int)
    requires per >= 1 && 1 <= tall <= numXcds && 0 <= x < numXcds && grid == numXcds * (per - 1) + tall
    ensures var base := (k: int) => if k < tall then k * per else tall * per + (k - tall) * (per - 1);
      base(0) == 0 && base(x) + (if x < tall then per else per - 1) == if x + 1 < numXcds then base(x + 1) else grid
  {
    assert (x + 1) * per == x * per + per;
    assert (x + 1 - tall) * (per - 1) == (x - tall) * (per - 1) + (per - 1);
    assert tall * per + (numXcds - tall) * (per - 1) == numXcds * (per - 1) + tall;
    assert x + 1 == tall ==> (x + 1) * per == tall * per + (x + 1 - tall) * (per - 1);
  }

  lemma {:induction false} BasesIncrease(x: int, y: int, grid: int, numXcds: int)
    requires grid >= 1 && 0 <= x < y < numXcds
    ensures XcdBase(x, grid, numXcds) + XcdLoad(x, grid, numXcds) <= XcdBase(y, grid, numXcds)
    decreases y - x
  {
    BasesAreContiguous(x, grid, numXcds);
    if x + 1 < y {
      BasesIncrease(x + 1, y, grid, numXcds);
      GridSplits(grid, numXcds);
    }
  }

  /** The remap keeps each XCD's pids (one residue class) in one contiguous range, in order. */
  lemma RemapIsContiguous(pid: int, grid: int, numXcds: int)
    requires 0 <= pid < grid && numXcds >= 1
    ensures RemapXcd(pid, grid, numXcds) == XcdBase(pid % numXcds, grid, numXcds) + pid / numXcds
    ensures 0 <= pid / numXcds < XcdLoad(pid % numXcds, grid, numXcds)
  {
    LocalPidBound(pid, grid, numXcds);
    Floor(pid, numXcds, 0);
    if numXcds == 1 {
      DivUnique(pid, 1, pid);
    }
  }

  /** The inverse: find the XCD whose range holds the new pid. */
  function OwnerXcd(p: int, grid: int, numXcds: int): int
    requires numXcds >= 1 && grid >= 1
  {
    var per, tall := (grid + numXcds - 1) / numXcds, TallXcds(grid, numXcds);
    GridSplits(grid, numXcds);
    if p < tall * per then p / per else if per == 1 then 0 else tall + (p - tall * per) / (per - 1)
  }

  lemma OwnerOwns(p: int, grid: int, numXcds: int)
    requires 0 <= p < grid && numXcds >= 1
    ensures var x := OwnerXcd(p, grid, numXcds);
      0 <= x < numXcds && XcdBase(x, grid, numXcds) <= p < XcdBase(x, grid, numXcds) + XcdLoad(x, grid, numXcds)
  {
    GridSplits(grid, numXcds);
    var per, tall := (grid + numXcds - 1) / numXcds, TallXcds(grid, numXcds);
    if p < tall * per {
      DivBounds(p, per);
      QuotientBelow(p, per, tall);
    } else {
      var rest := p - tall * per;
      assert numXcds * (per - 1) + tall == tall * per + (numXcds - tall) * (per - 1);
      if per == 1 {
        assert false;
      } else {
        DivBounds(rest, per - 1);
        QuotientBelow(rest, per - 1, numXcds - tall);
      }
    }
  }

  /** Injective and onto [0, grid): a permutation of the pids, for every grid and XCD count. */
  lemma RemapIsInjective(a: int, b: int, grid: int, numXcds: int)
    requires 0 <= a < grid && 0 <= b < grid && numXcds >= 1
    ensures 0 <= RemapXcd(a, grid, numXcds) < grid
    ensures RemapXcd(a, grid, numXcds) == RemapXcd(b, grid, numXcds) ==> a == b
  {
    hide RemapXcd, XcdBase, XcdLoad;
    RemapIsContiguous(a, grid, numXcds);
    RemapIsContiguous(b, grid, numXcds);
    var x, y := a % numXcds, b % numXcds;
    RangeInside(x, grid, numXcds);
    if x < y { BasesIncrease(x, y, grid, numXcds); }
    if y < x { BasesIncrease(y, x, grid, numXcds); }
    DivModBack(a, numXcds);
    DivModBack(b, numXcds);
  }

  lemma RangeInside(x: int, grid: int, numXcds: int)
    requires grid >= 1 && 0 <= x < numXcds
    ensures 0 <= XcdBase(x, grid, numXcds) && XcdBase(x, grid, numXcds) + XcdLoad(x, grid, numXcds) <= grid
  {
    GridSplits(grid, numXcds);
    BasesAreContiguous(x, grid, numXcds);
    BasesAreContiguous(numXcds - 1, grid, numXcds);
    if 0 < x { BasesIncrease(0, x, grid, numXcds); }
    if x < numXcds - 1 { BasesIncrease(x, numXcds - 1, grid, numXcds); }
  }

  lemma RemapIsOnto(p: int, grid: int, numXcds: int) returns (pid: int)
    requires 0 <= p < grid && numXcds >= 1
    ensures 0 <= pid < grid && RemapXcd(pid, grid, numXcds) == p
  {
    OwnerOwns(p, grid, numXcds);
    var x := OwnerXcd(p, grid, numXcds);
    var l := p - XcdBase(x, grid, numXcds);
    pid := l * numXcds + x;
    hide XcdBase, XcdLoad, RemapXcd, OwnerXcd;
    DivMod(l, x, numXcds);
    MulMono(0, l, numXcds);
    LocalPidBound(pid, grid, numXcds);
    RemapIsContiguous(pid, grid, numXcds);
  }

  // ---------------------------------------------------------------- grids and decodes

  datatype Dim3 = Dim3(x: int, y: int, z: int) {
    predicate Launches(p: Dim3) { 0 <= p.x < x && 0 <= p.y < y && 0 <= p.z < z }
  }

  /** A work item of the forward, dq and dk/dv kernels: batch, head, block of the tiled axis. */
  datatype Item = Item(batch: int, head: int, block: int)

  /** The grid of the non-persistent forward, dq and dk/dv kernels: the tiled length is max_seqlen_q for
      the first two and max_seqlen_k for the last, whose heads are kv heads. */
  function TiledGrid(numXcds: int, len: int, block: int, heads: int, batches: int): Dim3
    requires block >= 1
  {
    var s := Cdiv(len, block);
    if numXcds > 1 then Dim3(heads, s, batches) else Dim3(s, heads, batches)
  }

  /** What the workgroup with program id p computes. */
  function TiledDecode(numXcds: int, heads: int, p: Dim3): Item
    requires p.x >= 0 && heads >= 0
  {
    if numXcds > 1 then Item(p.z, RemapXcd(p.x, heads, numXcds), p.y)
    else Item(p.z, p.y, p.x)
  }

  /** Each item is computed by exactly one workgroup, and no workgroup computes anything else. */
  lemma TiledGridCoversOnce(numXcds: int, len: int, block: int, heads: int, batches: int, item: Item)
      returns (p: Dim3)
    requires block >= 1 && numXcds >= 1
    requires 0 <= item.batch < batches && 0 <= item.head < heads && 0 <= item.block < Cdiv(len, block)
    ensures TiledGrid(numXcds, len, block, heads, batches).Launches(p) && TiledDecode(numXcds, heads, p) == item
    ensures forall q: Dim3 :: TiledGrid(numXcds, len, block, heads, batches).Launches(q) && TiledDecode(numXcds, heads, q) == item
              ==> q == p
  {
    hide RemapXcd, Cdiv;
    if numXcds > 1 {
      var x := RemapIsOnto(item.head, heads, numXcds);
      p := Dim3(x, item.block, item.batch);
      forall q: Dim3 | TiledGrid(numXcds, len, block, heads, batches).Launches(q) && TiledDecode(numXcds, heads, q) == item ensures q == p {
        RemapIsInjective(q.x, x, heads, numXcds);
      }
    } else {
      p := Dim3(item.block, item.head, item.batch);
    }
  }

  /** The order in which the hardware hands out workgroups: x fastest. */
  function LinearId(grid: Dim3, p: Dim3): int { p.x + grid.x * (p.y + grid.y * p.z) }

  /** What the remap is for: workgroups go round robin to the XCDs, so when the heads divide evenly all blocks of
      a head run on one XCD, and each XCD serves consecutive heads. */
  lemma HeadsStayOnTheirXcd(numXcds: int, len: int, block: int, heads: int, batches: int, p: Dim3)
    requires block >= 1 && numXcds > 1 && heads >= 1 && heads % numXcds == 0
    requires TiledGrid(numXcds, len, block, heads, batches).Launches(p)
    ensures var xcd, per := LinearId(TiledGrid(numXcds, len, block, heads, batches), p) % numXcds, heads / numXcds;
      xcd * per <= TiledDecode(numXcds, heads, p).head < xcd * per + per
  {
    hide Cdiv;
    var q, rest, per := p.x / numXcds, p.y + Cdiv(len, block) * p.z, heads / numXcds;
    DivModBack(p.x, numXcds);
    DivModBack(heads, numXcds);
    assert per * numXcds == heads;
    assert p.x + heads * rest == (q + per * rest) * numXcds + p.x % numXcds;
    DivMod(q + per * rest, p.x % numXcds, numXcds);
    RemapIsContiguous(p.x, heads, numXcds);
    EvenLoads(heads, numXcds, p.x % numXcds);
    hide RemapXcd, XcdBase, XcdLoad;
  }

  /** Without XCDs the workgroups run through the blocks of a head, then the heads, then the batches. */
  lemma BlocksOfAHeadAreConsecutive(len: int, block: int, heads: int, batches: int, p: Dim3)
    requires block >= 1 && TiledGrid(1, len, block, heads, batches).Launches(p)
    ensures var item := TiledDecode(1, heads, p);
      LinearId(TiledGrid(1, len, block, heads, batches), p) == (item.batch * heads + item.head) * Cdiv(len, block) + item.block
  {
    hide Cdiv;
    assert heads * p.z + p.y == p.z * heads + p.y;
  }

  lemma EvenLoads(heads: int, numXcds: int, xcd: int)
    requires numXcds >= 1 && heads >= 1 && heads % numXcds == 0 && 0 <= xcd < numXcds
    ensures XcdLoad(xcd, heads, numXcds) == heads / numXcds && XcdBase(xcd, heads, numXcds) == xcd * (heads / numXcds)
  {
    DivModBack(heads, numXcds);
    DivUnique(heads + numXcds - 1, numXcds, heads / numXcds);
  }

  /** The blocks are a partition of the axis: each position below len lies in exactly one launched block. */
  lemma BlocksPartitionAxis(len: int, block: int, x: int)
    requires block >= 1
    ensures 0 <= x < len ==> 0 <= x / block < Cdiv(len, block)
    ensures forall b :: b * block <= x < b * block + block <==> b == x / block
    ensures forall b :: 0 <= b < Cdiv(len, block) ==> 0 <= b * block < len
  {
    if 0 <= x < len {
      Floor(x, block, 0);
      Floor(len + (block - 1), block, x / block + 1);
      DivBounds(x, block);
      assert (x / block + 1) * block == x / block * block + block;
    }
    forall b ensures b * block <= x < b * block + block <==> b == x / block {
      DivBounds(x, block);
      if b * block <= x < b * block + block { DivUnique(x, block, b); }
    }
    forall b | 0 <= b < Cdiv(len, block) ensures 0 <= b * block < len {
      Floor(len + (block - 1), block, b + 1);
      MulMono(0, b, block);
      assert (b + 1) * block == b * block + block;
    }
  }

  // ---------------------------------------------------------------- fused backward

  datatype FusedItem = KvBlock(batch: int, headK: int, block: int) | QBlock(batch: int, headQ: int, block: int)

  /** BLOCK_N tiles both axes of the fused kernel. */
  function FusedGrid(maxSeqlenQ: int, maxSeqlenK: int, blockN: int, numHeadQ: int, numHeadK: int, batches: int): Dim3
    requires blockN >= 1 && numHeadK >= 1
  {
    Dim3(Cdiv(maxSeqlenK, blockN) + Cdiv(maxSeqlenQ, blockN) * (numHeadQ / numHeadK), numHeadK, batches)
  }

  function FusedDecode(maxSeqlenQ: int, maxSeqlenK: int, blockN: int, numHeadQ: int, numHeadK: int, p: Dim3): FusedItem
    requires blockN >= 1 && numHeadK >= 1 && maxSeqlenQ >= 1 && p.x >= 0
  {
    var numKvBlocks := Cdiv(maxSeqlenK, blockN);
    var numQBlocks := Cdiv(maxSeqlenQ, blockN);
    BlocksPartitionAxis(maxSeqlenQ, blockN, 0);
    if p.x >= numKvBlocks then
      var offPid := p.x - numKvBlocks;
      var groupSize := numHeadQ / numHeadK;
      QBlock(p.z, offPid / numQBlocks + p.y * groupSize, offPid % numQBlocks)
    else
      KvBlock(p.z, p.y, p.x)
  }

  predicate FusedItemValid(maxSeqlenQ: int, maxSeqlenK: int, blockN: int, numHeadQ: int, numHeadK: int, batches: int, item: FusedItem)
    requires blockN >= 1
  {
    match item
    case KvBlock(z, hk, b) => 0 <= z < batches && 0 <= hk < numHeadK && 0 <= b < Cdiv(maxSeqlenK, blockN)
    case QBlock(z, hq, b) => 0 <= z < batches && 0 <= hq < numHeadQ && 0 <= b < Cdiv(maxSeqlenQ, blockN)
  }

  /** The program id of an item. */
  function FusedEncode(maxSeqlenQ: int, maxSeqlenK: int, blockN: int, numHeadQ: int, numHeadK: int, item: FusedItem): Dim3
    requires blockN >= 1 && numHeadK >= 1 && numHeadQ >= numHeadK
  {
    match item
    case KvBlock(z, hk, b) => Dim3(b, hk, z)
    case QBlock(z, hq, b) =>
      var groupSize := numHeadQ / numHeadK;
      Floor(numHeadQ, numHeadK, 1);
      Dim3(Cdiv(maxSeqlenK, blockN) + hq % groupSize * Cdiv(maxSeqlenQ, blockN) + b, hq / groupSize, z)
  }

  /** The fused kernel computes every key block and every (query head, query block) pair exactly once, and
      nothing else: encode and decode are inverse bijections between launched ids and valid items. */
  lemma FusedItemHasItsPid(maxSeqlenQ: int, maxSeqlenK: int, blockN: int, numHeadQ: int, numHeadK: int, batches: int, item: FusedItem)
    requires blockN >= 1 && numHeadK >= 1 && numHeadQ >= numHeadK && numHeadQ % numHeadK == 0 && maxSeqlenQ >= 1 && maxSeqlenK >= 1
    requires FusedItemValid(maxSeqlenQ, maxSeqlenK, blockN, numHeadQ, numHeadK, batches, item)
    ensures var id := FusedEncode(maxSeqlenQ, maxSeqlenK, blockN, numHeadQ, numHeadK, item);
      && FusedGrid(maxSeqlenQ, maxSeqlenK, blockN, numHeadQ, numHeadK, batches).Launches(id)
      && FusedDecode(maxSeqlenQ, maxSeqlenK, blockN, numHeadQ, numHeadK, id) == item
  {
    var kv, nq, g := Cdiv(maxSeqlenK, blockN), Cdiv(maxSeqlenQ, blockN), numHeadQ / numHeadK;
    BlocksPartitionAxis(maxSeqlenQ, blockN, 0);
    BlocksPartitionAxis(maxSeqlenK, blockN, 0);
    Floor(numHeadQ, numHeadK, 1);
    GroupsExact(numHeadQ, numHeadK);
    hide Cdiv;
    match item {
      case KvBlock(z, hk, b) => MulMono(0, g, nq);
      case QBlock(z, hq, b) =>
        QuotientBelow(hq, g, numHeadK);
        DivModBack(hq, g);
        DigitsBelow(hq % g, b, nq, g);
        DivMod(hq % g, b, nq);
    }
  }

  lemma FusedPidHasItsItem(maxSeqlenQ: int, maxSeqlenK: int, blockN: int, numHeadQ: int, numHeadK: int, batches: int, p: Dim3)
    requires blockN >= 1 && numHeadK >= 1 && numHeadQ >= numHeadK && numHeadQ % numHeadK == 0 && maxSeqlenQ >= 1 && maxSeqlenK >= 1
    requires FusedGrid(maxSeqlenQ, maxSeqlenK, blockN, numHeadQ, numHeadK, batches).Launches(p)
    ensures var it := FusedDecode(maxSeqlenQ, maxSeqlenK, blockN, numHeadQ, numHeadK, p);
      && FusedItemValid(maxSeqlenQ, maxSeqlenK, blockN, numHeadQ, numHeadK, batches, it)
      && FusedEncode(maxSeqlenQ, maxSeqlenK, blockN, numHeadQ, numHeadK, it) == p
    ensures match FusedDecode(maxSeqlenQ, maxSeqlenK, blockN, numHeadQ, numHeadK, p)
      case KvBlock(z, hk, b) => z == p.z && hk == p.y && b == p.x < Cdiv(maxSeqlenK, blockN)
      case QBlock(z, hq, b) => z == p.z && hq / (numHeadQ / numHeadK) == p.y && p.x >= Cdiv(maxSeqlenK, blockN)
  {
    var kv, nq, g := Cdiv(maxSeqlenK, blockN), Cdiv(maxSeqlenQ, blockN), numHeadQ / numHeadK;
    BlocksPartitionAxis(maxSeqlenQ, blockN, 0);
    Floor(numHeadQ, numHeadK, 1);
    GroupsExact(numHeadQ, numHeadK);
    hide Cdiv;
    if p.x >= kv {
      var off := p.x - kv;
      DivModBack(off, nq);
      assert nq * g == g * nq;
      QuotientBelow(off, nq, g);
      DivMod(p.y, off / nq, g);
      DigitsBelow(p.y, off / nq, g, numHeadK);
    }
  }

  lemma GroupsExact(numHeadQ: int, numHeadK: int)
    requires numHeadK >= 1 && numHeadQ % numHeadK == 0
    ensures numHeadK * (numHeadQ / numHeadK) == numHeadQ
  {
    DivModBack(numHeadQ, numHeadK);
  }

  /** The heads a kv head's dk/dv workgroup loops over are exactly those whose forward and dq workgroups
      read that kv head. */
  lemma GroupHeadsAgree(headQ: int, headK: int, numHeadQ: int, numHeadK: int)
    requires numHeadK >= 1 && numHeadQ >= numHeadK
    ensures var groupSize := numHeadQ / numHeadK;
      groupSize >= 1 && (headQ / groupSize == headK <==> headK * groupSize <= headQ < headK * groupSize + groupSize)
  {
    var g := numHeadQ / numHeadK;
    Floor(numHeadQ, numHeadK, 1);
    DivBounds(headQ, g);
    if headK * g <= headQ < headK * g + g { DivUnique(headQ, g, headK); }
  }
}
