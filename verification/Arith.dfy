/** Integer arithmetic shared by the kernels: truncating division, floors and mixed radix. */
module Arith {

  function Min(a: int, b: int): int { if a < b then a else b }
  function Max(a: int, b: int): int { if a < b then b else a }

  /** Integer division of the GPU: it truncates toward zero. */
  function TruncDiv(x: int, y: int): int
    requires y > 0
  {
    if x >= 0 then x / y else -((-x) / y)
  }

  function Cdiv(x: int, y: int): int
    requires y > 0
  {
    TruncDiv(x + y - 1, y)
  }

  lemma DivBounds(x: int, y: int)
    requires y > 0
    ensures (x / y) * y <= x < (x / y) * y + y
  {
  }

  /** A quotient is pinned down by the two multiples around x. */
  lemma DivUnique(x: int, y: int, q: int)
    requires y > 0 && q * y <= x < q * y + y
    ensures x / y == q
  {
    DivBounds(x, y);
    if x / y < q { MulMono(x / y + 1, q, y); }
    if x / y > q { MulMono(q + 1, x / y, y); }
  }

  lemma MulMono(a: int, b: int, y: int)
    requires a <= b && y >= 0
    ensures a * y <= b * y
  {
  }

  lemma DivMono(a: int, b: int, y: int)
    requires a <= b && y > 0
    ensures a / y <= b / y
  {
    DivBounds(a, y); DivBounds(b, y);
    if a / y > b / y { MulMono(b / y + 1, a / y, y); }
  }

  /** Floor division and multiplication are adjoint: the one fact every block argument uses. */
  lemma Floor(x: int, y: int, q: int)
    requires y > 0
    ensures q <= x / y <==> q * y <= x
    ensures x / y <= q <==> x < q * y + y
  {
    DivBounds(x, y);
    if q <= x / y { MulMono(q, x / y, y); } else { MulMono(x / y + 1, q, y); }
    if x / y <= q { MulMono(x / y, q, y); } else { MulMono(q + 1, x / y, y); }
  }

  lemma CdivFloor(x: int, y: int)
    requires x >= 1 && y >= 1
    ensures Cdiv(x, y) - 1 == (x - 1) / y
  {
    DivBounds(x - 1, y);
    DivUnique(x + y - 1, y, (x - 1) / y + 1);
  }

  /** Quotient and remainder are a bijection: the one step of every mixed-radix decode. */
  lemma DivMod(q: int, r: int, y: int)
    requires y > 0 && 0 <= r < y
    ensures (q * y + r) / y == q && (q * y + r) % y == r
  {
    DivUnique(q * y + r, y, q);
  }

  lemma DivModBack(x: int, y: int)
    requires y > 0
    ensures (x / y) * y + x % y == x && 0 <= x % y < y
  {
  }

  /** A two-digit number stays below the product of its radices. */
  lemma DigitsBelow(q: int, r: int, y: int, n: int)
    requires y > 0 && 0 <= r < y && 0 <= q < n
    ensures 0 <= q * y + r < n * y
  {
    MulMono(q + 1, n, y);
    MulMono(0, q, y);
  }

  lemma QuotientBelow(x: int, y: int, n: int)
    requires y > 0 && 0 <= x < n * y
    ensures 0 <= x / y < n
  {
    Floor(x, y, 0);
    Floor(x, y, n);
  }
}
