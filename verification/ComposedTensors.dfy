/** A head dimension handled as three power-of-two pieces: loads, dot products and stores of the pieces
    against the same operation on the unsplit row. */
module ComposedTensors {
  import opened Arith
  import opened RealSums

  type Grid = (int, int) -> real

  /** One piece of composed_load: columns first .. first + width of a row, masked past iCols when padded. */
  function LoadPiece(t: Grid, iRows: int, iCols: int, paddedRow: bool, paddedCol: bool): Grid {
    (r, c) =>
      if ((paddedRow || paddedCol) && r >= iRows) || (paddedCol && c >= iCols) then 0.0 else t(r, c)
  }

  /** Column d of a row assembled from the three pieces. */
  function Assembled(p0: Grid, p1: Grid, p2: Grid, d0: int, d1: int): Grid {
    (r, c) => if c < d0 then p0(r, c) else if c < d0 + d1 then p1(r, c) else p2(r, c)
  }

  /** composed_dot_both: pieces of width zero are skipped. */
  function ComposedDot(l0: Grid, l1: Grid, l2: Grid, r0: Grid, r1: Grid, r2: Grid, m: int, n: int, d0: int, d1: int, d2: int): real {
    var acc := Sum(c => l0(m, c) * r0(n, c), 0, d0);
    var acc1 := if d1 > 0 then acc + Sum(c => l1(m, c) * r1(n, c), d0, d0 + d1) else acc;
    if d2 > 0 then acc1 + Sum(c => l2(m, c) * r2(n, c), d0 + d1, d0 + d1 + d2) else acc1
  }

  /** The dot product of loaded pieces is the dot product over the true head dimension, padded or not. */
  lemma ComposedDotIsDot(q: Grid, k: Grid, m: int, n: int, rowsQ: int, rowsK: int, hdim: int, d0: nat, d1: nat, d2: nat,
                         padRowQ: bool, padRowK: bool, paddedHead: bool)
    requires 0 <= m < rowsQ && 0 <= n < rowsK && 0 <= hdim <= d0 + d1 + d2
    requires paddedHead || hdim == d0 + d1 + d2
    ensures var l, r := LoadPiece(q, rowsQ, hdim, padRowQ, paddedHead), LoadPiece(k, rowsK, hdim, padRowK, paddedHead);
      ComposedDot(l, l, l, r, r, r, m, n, d0, d1, d2) == Sum(c => q(m, c) * k(n, c), 0, hdim)
  {
    var l, r := LoadPiece(q, rowsQ, hdim, padRowQ, paddedHead), LoadPiece(k, rowsK, hdim, padRowK, paddedHead);
    var f := (c: int) => l(m, c) * r(n, c);
    var D := d0 + d1 + d2;
    PiecesAddUp(l, r, m, n, d0, d1, d2, f);
    SumSplit(f, 0, hdim, D);
    SumEqual(f, c => q(m, c) * k(n, c), 0, hdim);
    SumZero(f, hdim, D);
  }

  lemma PiecesAddUp(l: Grid, r: Grid, m: int, n: int, d0: nat, d1: nat, d2: nat, f: int -> real)
    requires forall c :: f(c) == l(m, c) * r(n, c)
    ensures ComposedDot(l, l, l, r, r, r, m, n, d0, d1, d2) == Sum(f, 0, d0 + d1 + d2)
  {
    hide Sum;
    var g := (c: int) => l(m, c) * r(n, c);
    SumEqual(f, g, 0, d0 + d1 + d2);
    SumSplit(g, 0, d0, d0 + d1 + d2);
    SumSplit(g, d0, d0 + d1, d0 + d1 + d2);
    SumEmpty(g, d0);
    SumEmpty(g, d0 + d1);
  }

  // ---------------------------------------------------------------- stores

  /** The address of a cell; the kernels assume a unit column stride. */
  function Addr(base: int, strideRow: int, r: int, c: int): int { base + r * strideRow + c }

  /** The store's mask: a dimension is checked only when the tile overflows it. */
  predicate StoreMask(r: int, c: int, startRow: int, startCol: int, regRows: int, regCols: int, oRows: int, oCols: int) {
    && startRow <= r < startRow + regRows && startCol <= c < startCol + regCols
    && (startRow + regRows - oRows > 0 ==> r < oRows)
    && (startCol + regCols - oCols > 0 ==> c < oCols)
  }

  /** The tensor a store may touch: rows of strideRow cells inside mem, columns no wider than a row. */
  ghost predicate Fits(mem: array<real>, base: int, strideRow: int, oRows: int, oCols: int) {
    0 <= base && 0 <= oCols <= strideRow && 1 <= strideRow && 0 <= oRows && base + oRows * strideRow <= mem.Length
  }

  /** Stores one register tile. A memory cell is found again as row and column by division. */
  method Mstore2d(mem: array<real>, regs: Grid, regRows: nat, regCols: nat, base: int,
                  startRow: nat, startCol: nat, oRows: int, oCols: int, strideRow: int)
    requires Fits(mem, base, strideRow, oRows, oCols)
    modifies mem
    ensures forall r, c :: startRow <= r < startRow + regRows && r < oRows && startCol <= c < startCol + regCols && c < oCols
              ==> 0 <= Addr(base, strideRow, r, c) < mem.Length && mem[Addr(base, strideRow, r, c)] == regs(r, c)
    ensures forall a :: 0 <= a < mem.Length && !InTile(a, base, strideRow, startRow, startCol, regRows, regCols, oRows, oCols)
              ==> mem[a] == old(mem[a])
  {
    forall a | 0 <= a < mem.Length
               && StoreMask((a - base) / strideRow, (a - base) % strideRow, startRow, startCol, regRows, regCols, oRows, oCols)
    {
      mem[a] := regs((a - base) / strideRow, (a - base) % strideRow);
    }
    forall r, c | startRow <= r < startRow + regRows && r < oRows && startCol <= c < startCol + regCols && c < oCols
      ensures 0 <= Addr(base, strideRow, r, c) < mem.Length && mem[Addr(base, strideRow, r, c)] == regs(r, c)
    {
      CellOf(mem.Length, base, strideRow, r, c, oRows, oCols);
    }
  }

  /** The address belongs to a cell of the tile that is inside the tensor. */
  predicate InTile(a: int, base: int, strideRow: int, startRow: int, startCol: int, regRows: int, regCols: int, oRows: int, oCols: int)
    requires strideRow >= 1
  {
    var r, c := (a - base) / strideRow, (a - base) % strideRow;
    startRow <= r < startRow + regRows && startCol <= c < startCol + regCols && r < oRows && c < oCols
  }

  lemma CellOf(size: int, base: int, strideRow: int, r: int, c: int, oRows: int, oCols: int)
    requires 0 <= base && 0 <= oCols <= strideRow && 1 <= strideRow && base + oRows * strideRow <= size
    requires 0 <= r < oRows && 0 <= c < oCols
    ensures 0 <= Addr(base, strideRow, r, c) < size
    ensures (Addr(base, strideRow, r, c) - base) / strideRow == r && (Addr(base, strideRow, r, c) - base) % strideRow == c
  {
    DivMod(r, c, strideRow);
    DigitsBelow(r, c, strideRow, oRows);
  }

  /** Stores the three pieces: exactly the in-bounds cells of the unsplit tile are written, each with its
      register value, and nothing else. */
  method ComposedStore(mem: array<real>, regs0: Grid, regs1: Grid, regs2: Grid, regRows: nat, d0: nat, d1: nat, d2: nat,
                       base: int, startRow: nat, oRows: int, oCols: int, strideRow: int)
    requires Fits(mem, base, strideRow, oRows, oCols)
    modifies mem
    ensures forall r, c :: startRow <= r < startRow + regRows && r < oRows && 0 <= c < d0 + d1 + d2 && c < oCols
              ==> 0 <= Addr(base, strideRow, r, c) < mem.Length
                  && mem[Addr(base, strideRow, r, c)] == Assembled(regs0, regs1, regs2, d0, d1)(r, c)
    ensures forall a :: 0 <= a < mem.Length && !InTile(a, base, strideRow, startRow, 0, regRows, d0 + d1 + d2, oRows, oCols)
              ==> mem[a] == old(mem[a])
  {
    Mstore2d(mem, regs0, regRows, d0, base, startRow, 0, oRows, oCols, strideRow);
    if d1 > 0 { Mstore2d(mem, regs1, regRows, d1, base, startRow, d0, oRows, oCols, strideRow); }
    if d2 > 0 { Mstore2d(mem, regs2, regRows, d2, base, startRow, d0 + d1, oRows, oCols, strideRow); }
    forall r, c | startRow <= r < startRow + regRows && r < oRows && 0 <= c < d0 + d1 + d2 && c < oCols
      ensures 0 <= Addr(base, strideRow, r, c) < mem.Length
      ensures mem[Addr(base, strideRow, r, c)] == Assembled(regs0, regs1, regs2, d0, d1)(r, c)
    {
      CellOf(mem.Length, base, strideRow, r, c, oRows, oCols);
    }
  }

  // ---------------------------------------------------------------- the early exit's store

  /** Cell a is written by a store of the columns startCol .. startCol + width of the rows startRow .. endRow. */
  predicate Covered(a: int, base: int, strideRow: int, startRow: int, endRow: int, startCol: int, width: int) {
    exists r :: startRow <= r < endRow && startCol <= a - Addr(base, strideRow, r, 0) < startCol + width
  }

  /** One piece of zeros. The column bound passed is BLOCK_DMODEL, which no piece overflows, so only rows are
      masked; where rows are narrower than that, neighbouring rows' cells coincide and get the same zero. */
  method ZeroStore(mem: array<real>, regCols: nat, base: int, startRow: nat, endRow: int, startCol: nat, strideRow: int)
    modifies mem
    ensures forall a :: 0 <= a < mem.Length ==>
              mem[a] == if Covered(a, base, strideRow, startRow, endRow, startCol, regCols) then 0.0 else old(mem[a])
  {
    forall a | 0 <= a < mem.Length && Covered(a, base, strideRow, startRow, endRow, startCol, regCols) { mem[a] := 0.0; }
  }

  /** Memory after the early exit has stored its three pieces of zeros. */
  function Exited(mem: seq<real>, base: int, strideRow: int, startRow: int, endRow: int, width: int): (r: seq<real>)
    ensures |r| == |mem|
  {
    seq(|mem|, a requires 0 <= a < |mem| => if Covered(a, base, strideRow, startRow, endRow, 0, width) then 0.0 else mem[a])
  }

  /** The store of an exiting tile: all its cells lie inside the memory it is given. */
  method ExitStore(mem: array<real>, regRows: nat, d0: nat, d1: nat, d2: nat, base: int, startRow: nat, oRows: int, strideRow: int)
    requires 0 <= base && 1 <= strideRow && startRow < oRows
    requires Addr(base, strideRow, Min(startRow + regRows, oRows) - 1, d0 + d1 + d2) <= mem.Length
    modifies mem
    ensures mem[..] == Exited(old(mem[..]), base, strideRow, startRow, Min(startRow + regRows, oRows), d0 + d1 + d2)
  {
    hide Covered;
    var endRow := Min(startRow + regRows, oRows);
    forall a ensures Covered(a, base, strideRow, startRow, endRow, 0, d0 + d1 + d2) <==>
        Covered(a, base, strideRow, startRow, endRow, 0, d0) || (d1 > 0 && Covered(a, base, strideRow, startRow, endRow, d0, d1))
        || (d2 > 0 && Covered(a, base, strideRow, startRow, endRow, d0 + d1, d2)) {
      PiecesCover(a, base, strideRow, startRow, endRow, d0, d1, d2);
    }
    ZeroStore(mem, d0, base, startRow, endRow, 0, strideRow);
    if d1 > 0 { ZeroStore(mem, d1, base, startRow, endRow, d0, strideRow); }
    if d2 > 0 { ZeroStore(mem, d2, base, startRow, endRow, d0 + d1, strideRow); }
  }

  lemma PiecesCover(a: int, base: int, strideRow: int, startRow: int, endRow: int, d0: nat, d1: nat, d2: nat)
    ensures Covered(a, base, strideRow, startRow, endRow, 0, d0 + d1 + d2) <==>
            Covered(a, base, strideRow, startRow, endRow, 0, d0) || (d1 > 0 && Covered(a, base, strideRow, startRow, endRow, d0, d1))
            || (d2 > 0 && Covered(a, base, strideRow, startRow, endRow, d0 + d1, d2))
  {
    hide Addr;
  }

  /** Cell a belongs to the memory of the rows startRow .. endRow. */
  predicate InRows(a: int, base: int, strideRow: int, startRow: int, endRow: int) {
    Addr(base, strideRow, startRow, 0) <= a < Addr(base, strideRow, endRow, 0)
  }

  ghost predicate Confined(size: nat, base: int, strideRow: int, startRow: int, endRow: int, width: int) {
    forall mem: seq<real>, a :: |mem| == size && 0 <= a < size && !InRows(a, base, strideRow, startRow, endRow) ==>
      Exited(mem, base, strideRow, startRow, endRow, width)[a] == mem[a]
  }

  /** The early exit keeps every cell outside its tile's rows, whatever the memory holds, exactly when a row has
      room for BLOCK_DMODEL cells. */
  lemma ExitStoreConfinedExactly(size: nat, base: int, strideRow: int, startRow: int, endRow: int, width: nat)
    requires 0 <= base && 1 <= strideRow && 0 <= startRow < endRow && Addr(base, strideRow, endRow - 1, width) <= size
    ensures Confined(size, base, strideRow, startRow, endRow, width) <==> width <= strideRow
  {
    if width <= strideRow {
      forall a | Covered(a, base, strideRow, startRow, endRow, 0, width) ensures InRows(a, base, strideRow, startRow, endRow) {
        var r :| startRow <= r < endRow && 0 <= a - Addr(base, strideRow, r, 0) < width;
        MulMono(startRow, r, strideRow);
        MulMono(r + 1, endRow, strideRow);
        assert (r + 1) * strideRow == r * strideRow + strideRow;
      }
    } else {
      var a := Addr(base, strideRow, endRow, 0);
      assert endRow * strideRow == (endRow - 1) * strideRow + strideRow;
      assert startRow <= endRow - 1 < endRow && 0 <= a - Addr(base, strideRow, endRow - 1, 0) < width;
      MulMono(0, endRow, strideRow);
      SpillIsSeen(size, base, strideRow, startRow, endRow, width, a);
    }
  }

  lemma SpillIsSeen(size: nat, base: int, strideRow: int, startRow: int, endRow: int, width: nat, a: int)
    requires 0 <= a < size && startRow < endRow && !InRows(a, base, strideRow, startRow, endRow)
    requires 0 <= a - Addr(base, strideRow, endRow - 1, 0) < width
    ensures !Confined(size, base, strideRow, startRow, endRow, width)
  {
    var ones := seq(size, _ => 1.0);
    assert Covered(a, base, strideRow, startRow, endRow, 0, width);
    assert Exited(ones, base, strideRow, startRow, endRow, width)[a] != ones[a];
  }

  /** A head dimension of 40 is rounded up to 48; with contiguous rows an exiting tile of 16 rows clears the first
      cells of row 16. */
  lemma ExitStoreSpills(mem: seq<real>)
    requires |mem| >= 1280
    ensures !InRows(640, 0, 40, 0, 16) && Exited(mem, 0, 40, 0, 16, 48)[640] == 0.0
  {
    assert 0 <= 640 - Addr(0, 40, 15, 0) < 48;
  }
}
