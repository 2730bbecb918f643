/** Counter-based dropout: which random number decides whether the pair (m, n) of one head is kept. */
module Dropout {
  import opened Arith

  const PHILOX_RN_PER_OFFSET := 4

  /** word(offset, w) is the w-th of the four 32-bit numbers philox yields at one offset. */
  type Rng = (int, int) -> int

  /** Where a random number sits in the philox stream. */
  datatype Slot = Slot(offset: int, lane: int)

  /** Two nested joins and a reshape interleave the four words, so lane 1 holds word 2. */
  function LaneWord(lane: int): int
    requires 0 <= lane < PHILOX_RN_PER_OFFSET
  {
    if lane == 1 then 2 else if lane == 2 then 1 else lane
  }

  /** tl.join stacks two tensors along a new last axis; reshape reads the axes back in row-major order. */
  function Join(x: seq<int>, y: seq<int>): seq<seq<int>>
    requires |x| == |y|
  {
    seq(|x|, i requires 0 <= i < |x| => [x[i], y[i]])
  }

  function Flatten(rows: seq<seq<int>>): seq<int> { if rows == [] then [] else rows[0] + Flatten(rows[1..]) }

  /** The four words of one offset in the order the mask sees them. */
  function Lanes(word: int -> int): seq<int> { Flatten(Join([word(0), word(1)], [word(2), word(3)])) }

  /** Every lane gets a word of its own, in the interleaved order. */
  lemma LanesInterleave(word: int -> int)
    ensures |Lanes(word)| == PHILOX_RN_PER_OFFSET
    ensures forall lane :: 0 <= lane < PHILOX_RN_PER_OFFSET ==> Lanes(word)[lane] == word(LaneWord(lane))
    ensures forall a, b :: 0 <= a < PHILOX_RN_PER_OFFSET && 0 <= b < PHILOX_RN_PER_OFFSET && LaneWord(a) == LaneWord(b) ==> a == b
  {
    var rows := Join([word(0), word(1)], [word(2), word(3)]);
    assert rows == [[word(0), word(2)], [word(1), word(3)]];
    assert rows[1..] == [[word(1), word(3)]] && rows[1..][1..] == [];
    assert Flatten(rows[1..]) == rows[1..][0] + Flatten(rows[1..][1..]) == [word(1), word(3)];
    assert Flatten(rows) == rows[0] + Flatten(rows[1..]);
  }

  function Trunc(x: real): int { if x >= 0.0 then x.Floor else -(-x).Floor }

  /** The threshold for probability p: p - 0.5 on the scale of 32-bit words, truncated toward zero. */
  function Threshold(p: real): int { Trunc((p - 0.5) * 4294967295.0) }

  function FastDropoutOffset(philoxOffset: int, i: int, j: int, stride: int): int {
    philoxOffset + i * stride + j
  }

  /** The slot behind element (i, j) of the mask of the tile at (startM, startN). */
  function TileSlot(offsetBase: int, startM: int, startN: int, i: int, j: nat, stride: int): Slot {
    var philoxOffset := offsetBase + startM * stride + TruncDiv(startN, PHILOX_RN_PER_OFFSET);
    Slot(FastDropoutOffset(philoxOffset, i, j / PHILOX_RN_PER_OFFSET, stride), j % PHILOX_RN_PER_OFFSET)
  }

  function FastDropoutMask(rng: Rng, idropoutP: int, offsetBase: int, startM: int, startN: int, i: int, j: nat, stride: int): bool {
    var slot := TileSlot(offsetBase, startM, startN, i, j, stride);
    rng(slot.offset, LaneWord(slot.lane)) > idropoutP
  }

  /** The slot of the pair (m, n), without any tile. */
  function PairSlot(offsetBase: int, m: int, n: nat, stride: int): Slot {
    Slot(offsetBase + m * stride + n / PHILOX_RN_PER_OFFSET, n % PHILOX_RN_PER_OFFSET)
  }

  function Keep(rng: Rng, idropoutP: int, offsetBase: int, m: int, n: nat, stride: int): bool {
    var slot := PairSlot(offsetBase, m, n, stride);
    rng(slot.offset, LaneWord(slot.lane)) > idropoutP
  }

  /** Every tile reads the slot of the pair itself exactly when tiles start at a multiple of four keys. */
  lemma TileSlotIsPairSlot(offsetBase: int, startM: int, startN: nat, i: int, j: nat, stride: int)
    ensures TileSlot(offsetBase, startM, startN, i, j, stride) == PairSlot(offsetBase, startM + i, startN + j, stride)
            <==> startN % PHILOX_RN_PER_OFFSET == 0
  {
    assert (startM + i) * stride == startM * stride + i * stride;
    if startN % 4 == 0 {
      DivMod(startN / 4 + j / 4, j % 4, 4);
    }
  }

  /** Block origins are multiples of the block size, so N % 4 == 0, which the kernel asserts, is enough. */
  lemma MaskIsBlockIndependent(rng: Rng, idropoutP: int, offsetBase: int, startM: int, blockIndex: nat, blockN: nat,
                               i: int, j: nat, stride: int)
    requires blockN % PHILOX_RN_PER_OFFSET == 0
    ensures FastDropoutMask(rng, idropoutP, offsetBase, startM, blockIndex * blockN, i, j, stride)
         == Keep(rng, idropoutP, offsetBase, startM + i, blockIndex * blockN + j, stride)
  {
    var q := blockN / 4;
    assert blockIndex * blockN == blockIndex * q * 4;
    DivMod(blockIndex * q, 0, 4);
    TileSlotIsPairSlot(offsetBase, startM, blockIndex * blockN, i, j, stride);
  }

  /** The kernels' per-head base: heads of all batches laid out one after the other. */
  function BatchPhiloxOffset(philoxOffsetBase: int, offZH: int, maxSeqlenQ: int, stride: int): int {
    philoxOffsetBase + offZH * maxSeqlenQ * stride
  }

  function PhiloxOffsetStride(maxSeqlenK: int): int { Cdiv(maxSeqlenK, PHILOX_RN_PER_OFFSET) }

  function SlotOf(philoxOffsetBase: int, maxSeqlenQ: int, maxSeqlenK: int, zh: nat, m: nat, n: nat): Slot {
    var stride := PhiloxOffsetStride(maxSeqlenK);
    PairSlot(BatchPhiloxOffset(philoxOffsetBase, zh, maxSeqlenQ, stride), m, n, stride)
  }

  /** The random numbers of the launch lie in the stream as its score matrices do in memory, row by row, with rows
      padded to a multiple of four: number (batch-head, m, n) is the n-th of row zh * max_seqlen_q + m. */
  lemma SlotsAreRowMajor(philoxOffsetBase: int, maxSeqlenQ: int, maxSeqlenK: nat, zh: nat, m: nat, n: nat)
    ensures var slot, rowLength := SlotOf(philoxOffsetBase, maxSeqlenQ, maxSeqlenK, zh, m, n), (maxSeqlenK + 3) / 4 * 4;
      slot.offset * 4 + slot.lane == philoxOffsetBase * 4 + (zh * maxSeqlenQ + m) * rowLength + n
  {
    var stride := (maxSeqlenK + 3) / 4;
    assert (zh * maxSeqlenQ * stride + m * stride) * 4 == (zh * maxSeqlenQ + m) * (stride * 4);
  }

  /** Two different pairs of the whole launch never share a random number. */
  lemma SlotsAreDistinct(philoxOffsetBase: int, maxSeqlenQ: int, maxSeqlenK: int,
                         zh: nat, m: nat, n: nat, zh': nat, m': nat, n': nat)
    requires m < maxSeqlenQ && m' < maxSeqlenQ && n < maxSeqlenK && n' < maxSeqlenK
    requires SlotOf(philoxOffsetBase, maxSeqlenQ, maxSeqlenK, zh, m, n)
          == SlotOf(philoxOffsetBase, maxSeqlenQ, maxSeqlenK, zh', m', n')
    ensures zh == zh' && m == m' && n == n'
  {
    var stride := PhiloxOffsetStride(maxSeqlenK);
    assert n / 4 < stride && n' / 4 < stride;
    RowColumnUnique(zh * maxSeqlenQ + m, n / 4, zh' * maxSeqlenQ + m', n' / 4, stride) by {
      assert (zh * maxSeqlenQ + m) * stride == zh * maxSeqlenQ * stride + m * stride;
      assert (zh' * maxSeqlenQ + m') * stride == zh' * maxSeqlenQ * stride + m' * stride;
    }
    RowColumnUnique(zh, m, zh', m', maxSeqlenQ);
  }

  lemma RowColumnUnique(q: int, r: int, q': int, r': int, y: int)
    requires 0 <= r < y && 0 <= r' < y && q * y + r == q' * y + r'
    ensures q == q' && r == r'
  {
    DivMod(q, r, y);
    DivMod(q', r', y);
  }
}
