/** The persistent kernel with the forward kernel's own early exit: which launches lose tiles. */
module PersistentForward {
  import opened Arith
  import opened Intervals
  import opened Attention
  import opened ComposedTensors
  import opened ForwardKernel
  import opened PersistentTiles
  import opened Launches

  /** The launch of a head geometry: every head of every batch has the same lengths and windows. */
  function TilesPerHead(h: Head, blockM: nat): nat
    requires h.Valid() && blockM >= 1
  {
    BlocksPositive(h.seqlenQ, blockM);
    Cdiv(h.seqlenQ, blockM)
  }

  lemma BlocksPositive(len: int, block: nat)
    requires len >= 1 && block >= 1
    ensures Cdiv(len, block) >= 1
    ensures (Cdiv(len, block) - 1) * block < len <= Cdiv(len, block) * block
  {
    CdivFloor(len, block);
    DivBounds(len - 1, block);
    Floor(len - 1, block, 0);
    assert Cdiv(len, block) * block == (Cdiv(len, block) - 1) * block + block;
  }

  function ForwardLaunchOf(h: Head, numHeadQ: nat, batch: nat, blockM: nat, blockN: nat): Launch
    requires h.Valid() && blockM >= 1 && blockN >= 1 && numHeadQ >= 1
  {
    var per := TilesPerHead(h, blockM);
    BlocksPositive(h.seqlenQ, blockM);
    Launch(per * numHeadQ * batch, (t: nat) => ExitsEarly(h, TileDecode(t, per, numHeadQ).qBlock * blockM, blockM, blockN))
  }

  ghost predicate EveryRunWritesAll(l: Launch, workgroups: nat) {
    forall states, movers :: Finishes(l, workgroups, states, movers) ==> AllWritten(l, states[|states| - 1])
  }

  /** The tiles of a head that must not exit: all of them, or all but the last one when there is one head only. */
  function Exposed(h: Head, numHeadQ: nat, batch: nat, blockM: nat): nat
    requires h.Valid() && blockM >= 1
  {
    BlocksPositive(h.seqlenQ, blockM);
    if numHeadQ * batch >= 2 then TilesPerHead(h, blockM) else TilesPerHead(h, blockM) - 1
  }

  /** Every schedule writes every tile exactly when none of those exits early. */
  lemma AllWrittenExactly(h: Head, numHeadQ: nat, batch: nat, blockM: nat, blockN: nat, workgroups: nat)
    requires h.Valid() && blockM >= 1 && blockN >= 1 && numHeadQ >= 1 && batch >= 1 && workgroups >= 1
    ensures EveryRunWritesAll(ForwardLaunchOf(h, numHeadQ, batch, blockM, blockN), workgroups)
       <==> forall q: nat :: q < Exposed(h, numHeadQ, batch, blockM) ==> !ExitsEarly(h, q * blockM, blockM, blockN)
  {
    hide ExitsEarly, Finishes, AllWritten, Cdiv;
    var l, per, heads := ForwardLaunchOf(h, numHeadQ, batch, blockM, blockN), TilesPerHead(h, blockM), numHeadQ * batch;
    BlocksPositive(h.seqlenQ, blockM);
    AllWrittenInEveryRunExactly(l, workgroups);
    assert l.total == per * heads;
    if forall q: nat :: q < Exposed(h, numHeadQ, batch, blockM) ==> !ExitsEarly(h, q * blockM, blockM, blockN) {
      forall t: nat | t + 1 < l.total ensures !l.exits(t) { DecodedIsExposed(t, per, numHeadQ, batch); }
    } else {
      var q: nat :| q < Exposed(h, numHeadQ, batch, blockM) && ExitsEarly(h, q * blockM, blockM, blockN);
      FirstHeadDecodes(q, per, numHeadQ, batch);
      assert l.exits(q);
    }
  }

  lemma DecodedIsExposed(t: nat, per: nat, numHeadQ: nat, batch: nat)
    requires per >= 1 && numHeadQ >= 1 && batch >= 1 && t + 1 < per * (numHeadQ * batch)
    ensures 0 <= TileDecode(t, per, numHeadQ).qBlock < if numHeadQ * batch >= 2 then per else per - 1
  {
    MulMono(1, numHeadQ, per);
    MulMono(1, batch, numHeadQ);
    DivModBack(t % (per * numHeadQ), per);
    if numHeadQ * batch < 2 { DivUnique(t, per, 0); }
  }

  /** The first tiles are those of the first head. */
  lemma FirstHeadDecodes(q: nat, per: nat, numHeadQ: nat, batch: nat)
    requires per >= 1 && numHeadQ >= 1 && batch >= 1 && q < if numHeadQ * batch >= 2 then per else per - 1
    ensures TileDecode(q, per, numHeadQ).qBlock == q && q + 1 < per * (numHeadQ * batch)
  {
    MulMono(1, numHeadQ, per);
    DivUnique(q, per * numHeadQ, 0);
    DivUnique(q, per, 0);
    MulMono(1, batch, numHeadQ);
    if numHeadQ * batch >= 2 { MulMono(2, numHeadQ * batch, per); } else { MulMono(1, numHeadQ * batch, per); }
  }

  /** The tile's window starts past the last key block, or ends before the first key. */
  predicate Outside(h: Head, startM: int, blockM: nat, blockN: nat)
    requires blockN >= 1
  {
    Cdiv(h.seqlenK, blockN) * blockN <= startM - h.windowLeft || Min(startM + blockM, h.seqlenQ) - 1 + h.windowRight < 0
  }

  /** The right line of the first tile reaches key 0, and the left line of tile k - 1 starts before the end of
      the last key block. */
  predicate Reaches(h: Head, k: nat, blockM: nat, blockN: nat)
    requires blockN >= 1
  {
    && 0 <= Min(blockM, h.seqlenQ) - 1 + h.windowRight
    && (k - 1) * blockM - h.windowLeft < Cdiv(h.seqlenK, blockN) * blockN
  }

  lemma NoneOutside(h: Head, k: nat, blockM: nat, blockN: nat)
    requires blockN >= 1
    ensures (forall q: nat :: q < k ==> !Outside(h, q * blockM, blockM, blockN)) <==> k == 0 || Reaches(h, k, blockM, blockN)
  {
    hide Cdiv;
    assert 0 * blockM == 0;
    if k > 0 && Reaches(h, k, blockM, blockN) {
      forall q: nat | q < k ensures !Outside(h, q * blockM, blockM, blockN) {
        MulMono(q, k - 1, blockM);
        MulMono(0, q, blockM);
      }
    }
    if k > 0 && forall q: nat :: q < k ==> !Outside(h, q * blockM, blockM, blockN) {
      assert !Outside(h, 0 * blockM, blockM, blockN) && !Outside(h, (k - 1) * blockM, blockM, blockN);
    }
  }

  /** The same in numbers. Without a window no tile is ever lost. */
  lemma NothingLostExactly(h: Head, numHeadQ: nat, batch: nat, blockM: nat, blockN: nat, workgroups: nat)
    requires h.Valid() && blockM >= 1 && blockN >= 1 && numHeadQ >= 1 && batch >= 1 && workgroups >= 1
    requires h.isCausal ==> h.windowLeft + h.windowRight >= 0
    ensures EveryRunWritesAll(ForwardLaunchOf(h, numHeadQ, batch, blockM, blockN), workgroups) <==>
      !h.isCausal || Exposed(h, numHeadQ, batch, blockM) == 0 || Reaches(h, Exposed(h, numHeadQ, batch, blockM), blockM, blockN)
  {
    AllWrittenExactly(h, numHeadQ, batch, blockM, blockN, workgroups);
    hide EveryRunWritesAll, ExitsEarly, Outside, Reaches;
    var k := Exposed(h, numHeadQ, batch, blockM);
    if !h.isCausal {
      forall q: nat ensures !ExitsEarly(h, q * blockM, blockM, blockN) { NoWindowNoExit(h, q * blockM, blockM, blockN); }
    } else {
      forall q: nat | q < k ensures ExitsEarly(h, q * blockM, blockM, blockN) == Outside(h, q * blockM, blockM, blockN) {
        ExposedInside(h, numHeadQ, batch, blockM, q);
        ExitBounds(h, q * blockM, blockM, blockN);
      }
      NoneOutside(h, k, blockM, blockN);
    }
  }

  lemma NoWindowNoExit(h: Head, startM: int, blockM: nat, blockN: nat)
    requires !h.isCausal && blockN >= 1
    ensures !ExitsEarly(h, startM, blockM, blockN)
  {
    hide CalculateIntervals;
  }

  lemma ExposedInside(h: Head, numHeadQ: nat, batch: nat, blockM: nat, q: nat)
    requires h.Valid() && blockM >= 1 && q < Exposed(h, numHeadQ, batch, blockM)
    ensures 0 <= q * blockM < h.seqlenQ
  {
    BlocksPositive(h.seqlenQ, blockM);
    MulMono(q, TilesPerHead(h, blockM) - 1, blockM);
    MulMono(0, q, blockM);
  }

  lemma ExitBounds(h: Head, startM: int, blockM: nat, blockN: nat)
    requires h.Valid() && h.isCausal && h.windowLeft + h.windowRight >= 0 && blockM >= 1 && blockN >= 1 && 0 <= startM < h.seqlenQ
    ensures ExitsEarly(h, startM, blockM, blockN) == Outside(h, startM, blockM, blockN)
  {
    hide CalculateIntervals, Cdiv;
    AllEmptyBounds(h.windowLeft, h.windowRight, startM, h.seqlenQ, h.seqlenK, startM + blockM > h.seqlenQ, blockM, blockN);
  }

  /** Bottom-right causal attention of 32 queries on 16 keys in 16 x 16 blocks: tile 0 sees nothing and exits, so
      the workgroup that draws it drops tile 1, which sees every key it should. */
  lemma BottomRightLosesATile(h: Head, numHeadQ: nat, batch: nat, workgroups: nat) returns (states: seq<State>, movers: seq<nat>)
    requires h.Valid() && h.isCausal && h.seqlenQ == 32 && h.seqlenK == 16
    requires (h.windowLeft, h.windowRight) == ParseWindow(BOTTOM_RIGHT, BOTTOM_RIGHT, 32, 16)
    requires numHeadQ >= 1 && batch >= 1 && workgroups >= 1
    ensures ExitsEarly(h, 0, 16, 16) && !ExitsEarly(h, 16, 16, 16) && h.Sees(16, 0)
    ensures var l := ForwardLaunchOf(h, numHeadQ, batch, 16, 16);
      Finishes(l, workgroups, states, movers) && !WrittenBySome(states[|states| - 1], 1)
  {
    hide Finishes;
    ExitBounds(h, 0, 16, 16);
    ExitBounds(h, 16, 16, 16);
    assert Cdiv(16, 16) == 1 && Cdiv(32, 16) == 2;
    var l := ForwardLaunchOf(h, numHeadQ, batch, 16, 16);
    MulMono(1, batch, numHeadQ);
    FirstHeadDecodes(0, 2, numHeadQ, batch);
    assert 2 * numHeadQ * batch == 2 * (numHeadQ * batch);
    hide ExitsEarly;
    assert l.exits(0);
    states, movers := ScheduleLosingATile(l, workgroups, 0);
  }

  // ---------------------------------------------------------------- the tiles of one head

  function WrittenTiles(wgs: seq<Wg>): seq<nat> {
    if wgs == [] then [] else wgs[0].written + WrittenTiles(wgs[1..])
  }

  lemma {:induction false} WrittenTilesHas(wgs: seq<Wg>, t: nat)
    ensures t in WrittenTiles(wgs) <==> exists w :: 0 <= w < |wgs| && Wrote(wgs[w], t)
  {
    if wgs != [] {
      WrittenTilesHas(wgs[1..], t);
      if t in WrittenTiles(wgs[1..]) {
        var w :| 0 <= w < |wgs[1..]| && Wrote(wgs[1..][w], t);
        assert Wrote(wgs[w + 1], t);
      }
      if exists w :: 0 <= w < |wgs| && Wrote(wgs[w], t) {
        var w :| 0 <= w < |wgs| && Wrote(wgs[w], t);
        if w > 0 { assert Wrote(wgs[1..][w - 1], t); }
      }
    }
  }

  /** The query blocks among some tiles that belong to one (batch, head). */
  function HeadBlocks(tiles: seq<nat>, per: nat, numHeadQ: nat, batch: int, head: int): seq<nat>
    requires per >= 1 && numHeadQ >= 1
  {
    if tiles == [] then []
    else
      var t := TileDecode(tiles[0], per, numHeadQ);
      (if t.batch == batch && t.headQ == head && 0 <= t.qBlock then [t.qBlock as nat] else [])
        + HeadBlocks(tiles[1..], per, numHeadQ, batch, head)
  }

  lemma {:induction false} HeadBlocksHas(tiles: seq<nat>, per: nat, numHeadQ: nat, batch: int, head: int, b: nat)
    requires per >= 1 && numHeadQ >= 1
    ensures b in HeadBlocks(tiles, per, numHeadQ, batch, head)
       <==> exists i :: 0 <= i < |tiles| && TileDecode(tiles[i], per, numHeadQ) == Tile(batch, head, b)
  {
    if tiles != [] {
      HeadBlocksHas(tiles[1..], per, numHeadQ, batch, head, b);
      if b in HeadBlocks(tiles[1..], per, numHeadQ, batch, head) {
        var i :| 0 <= i < |tiles[1..]| && TileDecode(tiles[1..][i], per, numHeadQ) == Tile(batch, head, b);
        assert tiles[i + 1] == tiles[1..][i];
      }
      if exists i :: 0 <= i < |tiles| && TileDecode(tiles[i], per, numHeadQ) == Tile(batch, head, b) {
        var i :| 0 <= i < |tiles| && TileDecode(tiles[i], per, numHeadQ) == Tile(batch, head, b);
        if i > 0 { assert tiles[1..][i - 1] == tiles[i]; }
      }
    }
  }

  /** Where nothing is lost, a finished persistent run has been over every tile of every head, as a launch on
      the ordinary grid has. */
  lemma PersistentRunsAllBlocks(h: Head, numHeadQ: nat, batches: nat, blockM: nat, blockN: nat, s: State, batch: int, head: int)
    requires h.Valid() && blockM >= 1 && blockN >= 1 && numHeadQ >= 1 && 0 <= batch < batches && 0 <= head < numHeadQ
    requires AllWritten(ForwardLaunchOf(h, numHeadQ, batches, blockM, blockN), s)
    ensures AllBlocks(HeadBlocks(WrittenTiles(s.wgs), TilesPerHead(h, blockM), numHeadQ, batch, head), h.seqlenQ, blockM)
  {
    hide ExitsEarly, Cdiv, TileDecode, TileEncode;
    var per, l := TilesPerHead(h, blockM), ForwardLaunchOf(h, numHeadQ, batches, blockM, blockN);
    BlocksPositive(h.seqlenQ, blockM);
    forall b: nat ensures b in HeadBlocks(WrittenTiles(s.wgs), per, numHeadQ, batch, head) <==> b < per {
      HeadBlocksHas(WrittenTiles(s.wgs), per, numHeadQ, batch, head, b);
      if b < per {
        TileDecodeIsBijection(0, Tile(batch, head, b), per, numHeadQ, batches);
        var t := TileEncode(Tile(batch, head, b), per, numHeadQ) as nat;
        assert t < l.total && WrittenBySome(s, t);
        WrittenTilesHas(s.wgs, t);
      }
      forall t: nat ensures TileDecode(t, per, numHeadQ).qBlock < per { DecodeBelow(t, per, numHeadQ); }
    }
  }

  lemma DecodeBelow(t: nat, per: nat, numHeadQ: nat)
    requires per >= 1 && numHeadQ >= 1
    ensures TileDecode(t, per, numHeadQ).qBlock < per
  {
    MulMono(1, numHeadQ, per);
    DivModBack(t % (per * numHeadQ), per);
  }

  /** The persistent forward launch of one head: where nothing is lost, every finished run of any number of
      workgroups leaves Out and L complete. */
  method ForwardPersistent(E: real -> real, Lg: real -> real, h: Head, o: OutSlice, numHeadQ: nat, batches: nat, batch: int, head: int,
                           workgroups: nat, states: seq<State>, movers: seq<nat>, blockM: nat, blockN: nat,
                           mem: array<real>, lse: array<Lse>)
    requires IsExp(E) && h.Valid() && blockM >= 1 && blockN >= 1 && DropoutAligned(h, blockN) && workgroups >= 1
    requires numHeadQ >= 1 && 0 <= batch < batches && 0 <= head < numHeadQ
    requires Finishes(ForwardLaunchOf(h, numHeadQ, batches, blockM, blockN), workgroups, states, movers)
    requires h.isCausal ==> h.windowLeft + h.windowRight >= 0
    requires var k := Exposed(h, numHeadQ, batches, blockM); !h.isCausal || k == 0 || Reaches(h, k, blockM, blockN)
    requires NoSpill(h, o, blockM, blockN)
    requires Fits(mem, o.base, o.strideRow, h.seqlenQ, h.hdimVo) && h.hdimVo <= o.BlockDmodel() && lse.Length == h.seqlenQ
    modifies mem, lse
    ensures forall m :: 0 <= m < h.seqlenQ ==> RowStored(E, Lg, h, o, blockM, blockN, mem[..], lse[..], m)
  {
    NothingLostExactly(h, numHeadQ, batches, blockM, blockN, workgroups);
    hide Reaches, NoSpill, RowStored, Finishes, AllWritten, AllBlocks;
    var s := states[|states| - 1];
    PersistentRunsAllBlocks(h, numHeadQ, batches, blockM, blockN, s, batch, head);
    ForwardLaunch(E, Lg, h, o, HeadBlocks(WrittenTiles(s.wgs), TilesPerHead(h, blockM), numHeadQ, batch, head), blockM, blockN, mem, lse);
  }
}
