/** Bytes, 32-bit words in little-endian order, and alignment. */
module Bytes {

  type Byte = b: int | 0 <= b < 0x100
  type Word32 = w: int | 0 <= w < TWO32
  const TWO31: int := 0x8000_0000
  const TWO32: int := 0x1_0000_0000

  /** The conversion to a 32-bit `int`. */
  function AsInt(x: int): (r: int)
    ensures -TWO31 <= r < TWO31
  {
    var w := x % TWO32;
    if w < TWO31 then w else w - TWO32
  }

  lemma WordIsItself(x: nat)
    requires x < TWO32
    ensures x % TWO32 == x
  {
  }

  /** The four bytes of a word, least significant first. */
  function WordBytes(w: Word32): (bytes: seq<Byte>)
    ensures |bytes| == 4
  {
    [w % 0x100, w / 0x100 % 0x100, w / 0x1_0000 % 0x100, w / 0x100_0000]
  }

  /** Reads a word back. */
  function BytesWord(bytes: seq<Byte>): (w: Word32)
    requires |bytes| == 4
  {
    var b0: int, b1: int, b2: int, b3: int := bytes[0], bytes[1], bytes[2], bytes[3];
    b0 + 0x100 * b1 + 0x1_0000 * b2 + 0x100_0000 * b3
  }

  lemma WordRoundTrip(w: Word32)
    ensures BytesWord(WordBytes(w)) == w
  {
    var b1, b2, b3 := w / 0x100, w / 0x1_0000, w / 0x100_0000;
    assert b2 == b1 / 0x100 && b3 == b2 / 0x100;
  }

  /** The least significant byte comes first. */
  lemma LeastFirst(w: Word32)
    ensures var b := WordBytes(w);
            w == b[0] as int + 0x100 * b[1] as int + 0x1_0000 * b[2] as int + 0x100_0000 * b[3] as int
  {
    WordRoundTrip(w);
  }

  lemma BytesRoundTrip(bytes: seq<Byte>)
    requires |bytes| == 4
    ensures WordBytes(BytesWord(bytes)) == bytes
  {
    var w := BytesWord(bytes);
    var b1: int, b2: int, b3: int := bytes[1], bytes[2], bytes[3];
    assert w / 0x100 == b1 + 0x100 * b2 + 0x1_0000 * b3;
    assert w / 0x1_0000 == b2 + 0x100 * b3;
    assert w / 0x100_0000 == b3;
  }

  /** The two bytes of a half word, least significant first. */
  function HalfBytes(h: nat): (bytes: seq<Byte>)
    ensures |bytes| == 2
  {
    [h % 0x100, h / 0x100 % 0x100]
  }

  /** `x` rounded up to a multiple of `n`. */
  function RoundUp(x: nat, n: nat): (r: nat)
    requires n > 0
    ensures x <= r < x + n && r % n == 0
  {
    if x % n == 0 then x else
      var r := x + (n - x % n);
      RoundUpIsMultiple(x, n);
      r
  }

  lemma RoundUpIsMultiple(x: nat, n: nat)
    requires n > 0 && x % n != 0
    ensures (x + (n - x % n)) % n == 0
  {
    var q := x / n;
    assert x == n * q + x % n;
    assert x + (n - x % n) == n * (q + 1);
    MultipleModZero(n, q + 1);
  }

  lemma MultipleModZero(n: int, q: int)
    requires n > 0
    ensures (n * q) % n == 0
  {
    var m := n * q;
    assert m == n * (m / n) + m % n;
    SmallMultiple(n, q - m / n, m % n);
  }

  /** The only multiple of `n` strictly between `-n` and `n` is 0. */
  lemma SmallMultiple(n: int, k: int, r: int)
    requires -n < r < n && n * k == r
    ensures k == 0 && r == 0
  {
    assert k >= 1 ==> n * k >= n;
    assert k <= -1 ==> n * k <= -n;
  }

  /** Rounding up gives the least multiple that is not below `x`. */
  lemma RoundUpLeast(x: nat, n: nat, y: nat)
    requires n > 0 && x <= y && y % n == 0
    ensures RoundUp(x, n) <= y
  {
    var r := RoundUp(x, n);
    if y < r {
      DifferenceOfMultiples(r, y, n);
      SmallMultiple(n, r / n - y / n, r - y);
    }
  }

  lemma DifferenceOfMultiples(a: nat, b: nat, n: nat)
    requires n > 0 && a % n == 0 && b % n == 0
    ensures n * (a / n - b / n) == a - b
  {
    assert a == n * (a / n) && b == n * (b / n);
  }
}
