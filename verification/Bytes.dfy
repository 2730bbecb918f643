/** Little-endian integers in byte sequences. */
module Bytes {
  type Byte = x: int | 0 <= x < 256

  function U16(n: int): (b: seq<Byte>)
    requires 0 <= n < 0x1_0000
    ensures |b| == 2 && Le16(b, 0) == n
    ensures b[0] == n % 256 && b[1] == n / 256
  {
    [n % 256, n / 256]
  }

  function U32(n: int): (b: seq<Byte>)
    requires 0 <= n < 0x1_0000_0000
    ensures |b| == 4 && Le32(b, 0) == n
    ensures b[0] == n % 256 && b[1] == n / 256 % 256 && b[2] == n / 65536 % 256 && b[3] == n / 16777216
  {
    var q1 := n / 256;
    var q2 := q1 / 256;
    [n % 256, q1 % 256, q2 % 256, q2 / 256]
  }

  /** The readers shift and or the bytes together; on bytes this is a weighted sum. */
  function Le16(b: seq<Byte>, at: nat): (n: int)
    requires at + 2 <= |b|
    ensures 0 <= n < 0x1_0000
  {
    (b[at] as int) + 256 * (b[at + 1] as int)
  }

  function Le32(b: seq<Byte>, at: nat): (n: int)
    requires at + 4 <= |b|
    ensures 0 <= n < 0x1_0000_0000
  {
    (b[at] as int) + 256 * (b[at + 1] as int) + 65536 * (b[at + 2] as int) + 16777216 * (b[at + 3] as int)
  }

  /** The least significant byte comes first, and reading is the only inverse of writing. */
  lemma LittleEndian(b: seq<Byte>)
    ensures |b| == 2 ==> U16(Le16(b, 0)) == b
    ensures |b| == 4 ==> U32(Le32(b, 0)) == b
    ensures U16(0x0201) == [1, 2] && U32(0x04030201) == [1, 2, 3, 4]
  {
    if |b| == 2 { assert U16(Le16(b, 0)) == [b[0], b[1]]; }
    if |b| == 4 {
      FourDigits(b[0] as int, b[1] as int, b[2] as int, b[3] as int);
      assert U32(Le32(b, 0)) == [b[0], b[1], b[2], b[3]];
    }
  }

  lemma FourDigits(a: int, b: int, c: int, d: int)
    requires 0 <= a < 256 && 0 <= b < 256 && 0 <= c < 256 && 0 <= d < 256
    ensures var n := a + 256 * b + 65536 * c + 16777216 * d;
      n % 256 == a && n / 256 % 256 == b && n / 65536 % 256 == c && n / 16777216 == d
  {
    var n := a + 256 * b + 65536 * c + 16777216 * d;
    var q := b + 256 * c + 65536 * d;
    assert n == 256 * q + a && n / 256 == q;
    assert n / 65536 == c + 256 * d && n / 16777216 == d;
  }

  /** A field read inside a longer sequence. */
  lemma Le16In(a: seq<Byte>, b: seq<Byte>, c: seq<Byte>, at: nat)
    requires at + 2 <= |b|
    ensures Le16(a + b + c, |a| + at) == Le16(b, at)
  {
  }

  lemma Le32In(a: seq<Byte>, b: seq<Byte>, c: seq<Byte>, at: nat)
    requires at + 4 <= |b|
    ensures Le32(a + b + c, |a| + at) == Le32(b, at)
  {
  }

  /** Fields written one after the other. */
  function U16s(ns: seq<int>): (b: seq<Byte>)
    requires forall i :: 0 <= i < |ns| ==> 0 <= ns[i] < 0x1_0000
    ensures |b| == 2 * |ns|
    ensures forall i :: 0 <= i < |ns| ==> Le16(b, 2 * i) == ns[i]
  {
    if ns == [] then []
    else
      var front := U16s(ns[..|ns| - 1]);
      assert forall i :: 0 <= i < |ns| - 1 ==> Le16(front, 2 * i) == ns[i];
      front + U16(ns[|ns| - 1])
  }

  function U32s(ns: seq<int>): (b: seq<Byte>)
    requires forall i :: 0 <= i < |ns| ==> 0 <= ns[i] < 0x1_0000_0000
    ensures |b| == 4 * |ns|
    ensures forall i :: 0 <= i < |ns| ==> Le32(b, 4 * i) == ns[i]
  {
    if ns == [] then []
    else
      var front := U32s(ns[..|ns| - 1]);
      assert forall i :: 0 <= i < |ns| - 1 ==> Le32(front, 4 * i) == ns[i];
      front + U32(ns[|ns| - 1])
  }
}
