/** How a head dimension is rounded up on the host to a sum of at most three powers of two, and why the
    kernels' greedy split of that sum always succeeds. */
module HeadDims {

  predicate IsPow2(x: nat) { x == 1 || (x > 1 && x % 2 == 0 && IsPow2(x / 2)) }

  /** 2 ** (n.bit_length() - 1) */
  function TopPow2(n: nat): (p: nat)
    requires n >= 1
    ensures IsPow2(p) && p <= n < 2 * p
  {
    if n == 1 then 1 else 2 * TopPow2(n / 2)
  }

  /** Number of one bits. */
  function Bits(n: nat): nat { if n == 0 then 0 else n % 2 + Bits(n / 2) }

  lemma {:induction false} AddPow2(n: nat, p: nat)
    requires IsPow2(p)
    ensures Bits(n + p) <= Bits(n) + 1
    decreases n + p
  {
    if p == 1 {
      if n % 2 == 1 {
        assert (n + 1) / 2 == n / 2 + 1;
        AddPow2(n / 2, 1);
      }
    } else {
      assert (n + p) / 2 == n / 2 + p / 2 && (n + p) % 2 == n % 2;
      AddPow2(n / 2, p / 2);
    }
  }

  lemma {:induction false} RemoveTop(n: nat)
    requires n >= 1
    ensures Bits(n - TopPow2(n)) == Bits(n) - 1
  {
    if n >= 2 {
      RemoveTop(n / 2);
      var rest := n / 2 - TopPow2(n / 2);
      assert n - TopPow2(n) == 2 * rest + n % 2;
      assert (2 * rest + n % 2) / 2 == rest;
    }
  }

  lemma {:induction false} NoBits(n: nat)
    ensures Bits(n) == 0 <==> n == 0
  {
    if n > 0 { NoBits(n / 2); }
  }

  /** One piece of the kernels' compile-time split; a used-up remainder gives an empty piece. */
  function Piece(remainder: nat): nat { if remainder > 0 then TopPow2(remainder) else 0 }

  datatype Pieces = Pieces(d0: nat, d1: nat, d2: nat, rest: nat)

  /** BLOCK_DMODEL0, 1, 2 and BLOCK_DMODEL_R3. */
  function SplitHeadDim(d: nat): Pieces
    requires d >= 1
  {
    var d0 := TopPow2(d);
    var d1 := Piece(d - d0);
    var d2 := Piece(d - d0 - d1);
    Pieces(d0, d1, d2, d - d0 - d1 - d2)
  }

  lemma PieceBits(n: nat)
    ensures Piece(n) <= n && (n > 0 ==> Piece(n) > 0)
    ensures Bits(n - Piece(n)) == if n > 0 then Bits(n) - 1 else 0
  {
    if n > 0 { RemoveTop(n); }
  }

  /** Both static asserts of the kernels hold exactly for the sums of at most three powers of two. */
  lemma SplitSucceedsExactly(d: nat)
    requires d >= 1
    ensures var s := SplitHeadDim(d);
      && (s.rest == 0 <==> Bits(d) <= 3)
      && (s.d1 > 0 || s.d2 == 0) && s.d0 + s.d1 + s.d2 + s.rest == d
  {
    hide Bits, Piece, TopPow2;
    var s := SplitHeadDim(d);
    assert s.d0 == Piece(d) by { FirstPiece(d); }
    PieceBits(d);
    PieceBits(d - s.d0);
    PieceBits(d - s.d0 - s.d1);
    NoBits(d); NoBits(d - s.d0); NoBits(d - s.d0 - s.d1); NoBits(s.rest);
  }

  lemma FirstPiece(d: nat)
    requires d >= 1
    ensures SplitHeadDim(d).d0 == Piece(d)
  {
  }

  function Sum3(r: seq<nat>): nat
    requires |r| == 3
  {
    r[0] + r[1] + r[2]
  }

  predicate PieceOk(x: nat) { x == 0 || (IsPow2(x) && x >= 16) }

  lemma SumHasThreeBits(r: seq<nat>)
    requires |r| == 3 && PieceOk(r[0]) && PieceOk(r[1]) && PieceOk(r[2])
    ensures Bits(Sum3(r)) <= 3
  {
    hide Bits, IsPow2;
    NoBits(0);
    if r[0] > 0 { AddPow2(0, r[0]); }
    if r[1] > 0 { AddPow2(r[0], r[1]); }
    if r[2] > 0 { AddPow2(r[0] + r[1], r[2]); }
  }

  /** sorted(ret, reverse=True), for the one case that occurs: only the last of three was enlarged. */
  function SortDescending(r: seq<nat>): (s: seq<nat>)
    requires |r| == 3
    ensures |s| == 3 && s[0] >= s[1] >= s[2]
    ensures Sum3(s) == Sum3(r)
    ensures forall i :: 0 <= i < 3 ==> s[i] in r
  {
    var a := if r[0] >= r[1] then r else [r[1], r[0], r[2]];
    var b := if a[1] >= a[2] then a else [a[0], a[2], a[1]];
    var c := if b[0] >= b[1] then b else [b[1], b[0], b[2]];
    c
  }

  /** The host's rounding: terminates for every head dimension, never rounds down, wastes less than 16
      columns or less than a quarter, and always yields a dimension the kernels can split. */
  method FactorHeadDim(headDim: nat) returns (ret: seq<nat>)
    requires headDim >= 1
    ensures |ret| == 3 && ret[0] >= ret[1] >= ret[2] && ret[0] > 0
    ensures PieceOk(ret[0]) && PieceOk(ret[1]) && PieceOk(ret[2])
    ensures headDim <= Sum3(ret)
    ensures Sum3(ret) < headDim + 16 || 4 * (Sum3(ret) - headDim) < headDim
    ensures SplitHeadDim(Sum3(ret)).rest == 0
  {
    hide Bits, TopPow2, IsPow2, SplitHeadDim;
    ret := [0, 0, 0];
    var lk: int := headDim;
    var i := 0;
    while i < 3 && lk > 0
      invariant 0 <= i <= 3 && |ret| == 3
      invariant forall j :: 0 <= j < i ==> IsPow2(ret[j]) && ret[j] >= 16
      invariant forall j :: i <= j < 3 ==> ret[j] == 0
      invariant forall j :: 0 < j < i ==> ret[j] <= ret[j - 1]
      invariant Sum3(ret) + lk == headDim && -16 < lk && (i == 0 ==> lk == headDim)
      invariant 0 < i && 0 < lk ==> lk < ret[i - 1]
      invariant i == 1 ==> 2 * lk < headDim
      invariant i == 2 ==> 4 * lk < headDim
      invariant i == 3 && 0 < lk ==> 4 * (lk + ret[2]) < headDim
      invariant i == 3 ==> ret[2] > 0
    {
      var maxPo2 := TopPow2(lk);
      if 0 < i { TopMono(lk, ret[i - 1]); }
      Pow2Sixteen();
      maxPo2 := if maxPo2 < 16 then 16 else maxPo2;
      ret := ret[i := maxPo2];
      lk := lk - maxPo2;
      i := i + 1;
    }
    while Sum3(ret) < headDim
      invariant |ret| == 3 && ret[0] >= ret[1] >= ret[2]
      invariant PieceOk(ret[0]) && PieceOk(ret[1]) && PieceOk(ret[2]) && ret[0] > 0
      invariant Sum3(ret) < headDim ==> ret[2] > 0 && headDim <= Sum3(ret) + ret[2] && 4 * (headDim - Sum3(ret) + ret[2]) < headDim
      invariant Sum3(ret) >= headDim ==> Sum3(ret) < headDim + 16 || 4 * (Sum3(ret) - headDim) < headDim
      decreases headDim - Sum3(ret)
    {
      DoublePow2(ret[2]);
      ret := ret[2 := ret[2] * 2];
      ret := SortDescending(ret);
    }
    SumHasThreeBits(ret);
    SplitSucceedsExactly(Sum3(ret));
  }

  lemma DoublePow2(p: nat)
    requires IsPow2(p)
    ensures IsPow2(p * 2)
  {
  }

  lemma Pow2Sixteen()
    ensures IsPow2(16)
  {
    assert IsPow2(1) && IsPow2(2) && IsPow2(4) && IsPow2(8);
  }

  /** A number below a power of two has its top power below it too. */
  lemma {:induction false} TopMono(n: nat, p: nat)
    requires 1 <= n < p && IsPow2(p)
    ensures TopPow2(n) < p
  {
  }
}
