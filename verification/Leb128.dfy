/** LEB128 as the encoder of the line table writes it, and as the standards read it. */
module Leb128 {
  import opened Bytes

  // ----- reference: section 7.6 of DWARF version 4 -----

  /** Unsigned LEB128. */
  function EncodeUnsigned(v: nat): (bytes: seq<Byte>)
    ensures |bytes| >= 1
  {
    if v < 128 then [v] else [v % 128 + 128] + EncodeUnsigned(v / 128)
  }

  /** Signed LEB128: `/` and `%` floor, as the arithmetic shift and the mask do. */
  function EncodeSigned(v: int): (bytes: seq<Byte>)
    ensures |bytes| >= 1
    decreases if v >= 0 then v else -v
  {
    if -64 <= v < 64 then [v % 128] else [v % 128 + 128] + EncodeSigned(v / 128)
  }

  datatype Decoded = Decoded(value: int, rest: seq<Byte>) | Truncated

  function DecodeUnsigned(bytes: seq<Byte>): (d: Decoded)
    ensures d.Decoded? ==> |d.rest| < |bytes| && d.value >= 0
  {
    if bytes == [] then Truncated
    else if bytes[0] < 128 then Decoded(bytes[0], bytes[1..])
    else match DecodeUnsigned(bytes[1..])
      case Truncated => Truncated
      case Decoded(v, rest) => Decoded(bytes[0] - 128 + 128 * v, rest)
  }

  function DecodeSigned(bytes: seq<Byte>): (d: Decoded)
    ensures d.Decoded? ==> |d.rest| < |bytes|
  {
    if bytes == [] then Truncated
    else if bytes[0] < 64 then Decoded(bytes[0], bytes[1..])
    else if bytes[0] < 128 then Decoded(bytes[0] as int - 128, bytes[1..])
    else match DecodeSigned(bytes[1..])
      case Truncated => Truncated
      case Decoded(v, rest) => Decoded(bytes[0] - 128 + 128 * v, rest)
  }

  lemma {:induction false} UnsignedRoundTrip(v: nat, rest: seq<Byte>)
    ensures DecodeUnsigned(EncodeUnsigned(v) + rest) == Decoded(v, rest)
  {
    var bytes := EncodeUnsigned(v) + rest;
    if v < 128 {
      assert bytes[1..] == rest;
    } else {
      assert bytes[1..] == EncodeUnsigned(v / 128) + rest;
      UnsignedRoundTrip(v / 128, rest);
    }
  }

  lemma {:induction false} SignedRoundTrip(v: int, rest: seq<Byte>)
    ensures DecodeSigned(EncodeSigned(v) + rest) == Decoded(v, rest)
    decreases if v >= 0 then v else -v
  {
    var bytes := EncodeSigned(v) + rest;
    if -64 <= v < 64 {
      assert bytes[1..] == rest;
    } else {
      assert bytes[1..] == EncodeSigned(v / 128) + rest;
      SignedRoundTrip(v / 128, rest);
    }
  }

  // ----- the encoder -----

  /** The loop of `PushBackUnsigned`. */
  method PushBackUnsigned(data: seq<Byte>, value: Word32) returns (data': seq<Byte>)
    ensures data' == data + EncodeUnsigned(value)
  {
    var out, v := value % 128, value / 128;
    data' := data;
    while v != 0
      invariant v >= 0 && 0 <= out < 128
      invariant data' + EncodeUnsigned(out + 128 * v) == data + EncodeUnsigned(value)
    {
      data' := data' + [out + 128];
      out, v := v % 128, v / 128;
    }
    data' := data' + [out];
  }

  /** The loop of `PushBackSigned`: the extra bits are those of `value ^ (value >> 31)` above
      the low six, that is of `value` or of its complement. */
  method PushBackSigned(data: seq<Byte>, value: int) returns (data': seq<Byte>)
    ensures data' == data + EncodeSigned(value)
  {
    var v := value;
    var extraBits := Magnitude(v) / 64;
    var out := v % 128;
    data' := data;
    while extraBits != 0
      invariant extraBits == Magnitude(v) / 64 && out == v % 128
      invariant data' + EncodeSigned(v) == data + EncodeSigned(value)
      decreases extraBits
    {
      ghost var whole := EncodeSigned(v);
      data' := data' + [out + 128];
      v := v / 128;
      assert whole == [out + 128] + EncodeSigned(v);
      out := v % 128;
      extraBits := extraBits / 128;
    }
    data' := data' + [out];
  }

  /** `v ^ (v >> 31)`: the value itself, or the one's complement of a negative one. */
  function Magnitude(v: int): nat {
    if v >= 0 then v else -v - 1
  }

  // ----- the decoder of the runtime -----

  /** `DecodeUnsignedLeb128`: at most five bytes, the fifth is shifted in whole. */
  function DecodeWord(bytes: seq<Byte>): (d: Decoded)
  {
    DecodeWordFrom(bytes, 0)
  }

  /** The byte at position `i` of the encoding and those after it. */
  function DecodeWordFrom(bytes: seq<Byte>, i: nat): (d: Decoded)
    requires i <= 4
    ensures d.Decoded? ==> |d.rest| < |bytes| && 0 <= d.value < (if i == 0 then TWO32 else if i == 1 then 0x200_0000
                             else if i == 2 then 0x4_0000 else if i == 3 then 0x800 else 16)
    decreases 4 - i
  {
    if bytes == [] then Truncated
    else if i == 4 then Decoded(bytes[0] % 16, bytes[1..])
    else if bytes[0] < 128 then Decoded(bytes[0], bytes[1..])
    else match DecodeWordFrom(bytes[1..], i + 1)
      case Truncated => Truncated
      case Decoded(v, rest) => Decoded(bytes[0] - 128 + 128 * v, rest)
  }

  lemma {:induction false} WordDecodes(v: nat, rest: seq<Byte>, i: nat)
    requires i <= 4
    requires v < (if i == 0 then TWO32 else if i == 1 then 0x200_0000 else if i == 2 then 0x4_0000
                  else if i == 3 then 0x800 else 16)
    ensures DecodeWordFrom(EncodeUnsigned(v) + rest, i) == Decoded(v, rest)
    decreases 4 - i
  {
    var bytes := EncodeUnsigned(v) + rest;
    if v < 128 {
      assert bytes[1..] == rest;
    } else {
      assert bytes[1..] == EncodeUnsigned(v / 128) + rest;
      WordDecodes(v / 128, rest, i + 1);
    }
  }

  /** `DecodeSignedLeb128`: at most five bytes, the fifth contributes its low four bits. */
  function DecodeInt(bytes: seq<Byte>): (d: Decoded)
  {
    DecodeIntFrom(bytes, 0)
  }

  /** How far the value of bytes `i` and later can be from 0. */
  function IntBound(i: nat): int
    requires i <= 4
  {
    if i == 0 then 0x8000_0000 else if i == 1 then 0x100_0000 else if i == 2 then 0x2_0000
    else if i == 3 then 0x400 else 8
  }

  function DecodeIntFrom(bytes: seq<Byte>, i: nat): (d: Decoded)
    requires i <= 4
    ensures d.Decoded? ==> |d.rest| < |bytes| && -IntBound(i) <= d.value < IntBound(i)
    decreases 4 - i
  {
    if bytes == [] then Truncated
    else if i == 4 then
      var low: int := bytes[0] % 16;
      Decoded(if low >= 8 then low - 16 else low, bytes[1..])
    else if bytes[0] < 64 then Decoded(bytes[0], bytes[1..])
    else if bytes[0] < 128 then Decoded(bytes[0] as int - 128, bytes[1..])
    else match DecodeIntFrom(bytes[1..], i + 1)
      case Truncated => Truncated
      case Decoded(v, rest) => Decoded(bytes[0] - 128 + 128 * v, rest)
  }

  lemma {:induction false} IntDecodes(v: int, rest: seq<Byte>, i: nat)
    requires i <= 4 && -IntBound(i) <= v < IntBound(i)
    ensures DecodeIntFrom(EncodeSigned(v) + rest, i) == Decoded(v, rest)
    decreases 4 - i
  {
    var bytes := EncodeSigned(v) + rest;
    if -64 <= v < 64 {
      assert bytes[1..] == rest;
    } else {
      assert bytes[1..] == EncodeSigned(v / 128) + rest;
      IntDecodes(v / 128, rest, i + 1);
    }
  }
}
