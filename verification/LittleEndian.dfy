/** Numbers as little-endian bytes of any width. */
module LittleEndian {
  import opened Bits
  import opened Bytes

  function Pow256(k: nat): (p: nat)
    ensures p > 0
  {
    if k == 0 then 1 else 0x100 * Pow256(k - 1)
  }

  lemma Pow2ByteMore(j: nat)
    ensures Pow2(j + 8) == 0x100 * Pow2(j)
  {
    assert Pow2(j + 2) == 4 * Pow2(j);
    assert Pow2(j + 4) == 4 * Pow2(j + 2);
    assert Pow2(j + 6) == 4 * Pow2(j + 4);
  }

  lemma {:induction false} Pow256IsPow2(k: nat)
    ensures Pow256(k) == Pow2(8 * k)
  {
    if k > 0 {
      Pow256IsPow2(k - 1);
      Pow2ByteMore(8 * k - 8);
    }
  }

  /** Byte `i` of a number: the number shifted right by `i` bytes, and its low byte. */
  function ByteAt(x: nat, i: nat): Byte {
    if i == 0 then x % 0x100 else ByteAt(x / 0x100, i - 1)
  }

  function NumberBytes(offset: nat, width: nat): (bytes: seq<Byte>)
    ensures |bytes| == width
    ensures forall i {:trigger bytes[i]} | 0 <= i < width :: bytes[i] == ByteAt(offset, i)
  {
    seq(width, i requires 0 <= i < width => ByteAt(offset, i))
  }

  /** The number written as bytes, least significant first. */
  function BytesNumber(bytes: seq<Byte>): nat {
    if bytes == [] then 0 else bytes[0] as int + 0x100 * BytesNumber(bytes[1..])
  }

  /** A number is read back if and only if it fits the width. */
  lemma {:induction false} NumberRoundTrip(offset: nat, width: nat)
    ensures BytesNumber(NumberBytes(offset, width)) == offset <==> offset < Pow256(width)
  {
    if width > 0 {
      var bytes := NumberBytes(offset, width);
      assert bytes[1..] == NumberBytes(offset / 0x100, width - 1);
      NumberRoundTrip(offset / 0x100, width - 1);
    }
  }

  lemma {:induction false} NumberBound(bytes: seq<Byte>)
    ensures BytesNumber(bytes) < Pow256(|bytes|)
  {
    if bytes != [] {
      NumberBound(bytes[1..]);
    }
  }

  lemma {:induction false} NumberAppend(bytes: seq<Byte>, b: Byte)
    ensures BytesNumber(bytes + [b]) == BytesNumber(bytes) + b * Pow256(|bytes|)
  {
    if bytes == [] {
      assert bytes + [b] == [b];
    } else {
      var tail := bytes[1..];
      assert (bytes + [b])[1..] == tail + [b];
      NumberAppend(tail, b);
      assert b * Pow256(|bytes|) == 0x100 * (b * Pow256(|tail|));
    }
  }

  lemma {:induction false} ByteBound(offset: nat, i: nat)
    requires offset < Pow256(i + 1)
    ensures ByteAt(offset, i) == offset / Pow256(i)
  {
    if i > 0 {
      ByteBound(offset / 0x100, i - 1);
      DivDiv(offset, Pow256(i - 1));
    }
  }

  lemma DivDiv(x: nat, p: nat)
    requires p > 0
    ensures x / 0x100 / p == x / (0x100 * p)
  {
    var q, r := x / 0x100, x % 0x100;
    var h, l := q / p, q % p;
    assert x == 0x100 * q + r && q == p * h + l;
    assert x == (0x100 * p) * h + (0x100 * l + r);
    QuotientIs(x, 0x100 * p, h, 0x100 * l + r);
  }

  lemma QuotientIs(x: nat, d: nat, q: nat, r: nat)
    requires d > 0 && x == d * q + r && r < d
    ensures x / d == q
  {
    var k := x / d - q;
    assert d * k == r - x % d by {
      assert d * k == d * (x / d) - d * q;
    }
    SmallMultiple(d, k, r - x % d);
  }
}
