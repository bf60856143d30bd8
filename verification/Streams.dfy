/** Output streams: a file with a position, as `lseek` and `write` see it. */
module Streams {
  import opened Bytes

  /** The byte at position `k`; a file reads as zeros past its end and in its holes. */
  function At(contents: seq<Byte>, k: nat): Byte {
    if k < |contents| then contents[k] else 0
  }

  function Zeros(n: nat): (z: seq<Byte>)
    ensures |z| == n && forall i | 0 <= i < n :: z[i] == 0
  {
    seq(n, _ => 0)
  }

  /** The file after writing `bytes` at `pos`. */
  function Overwrite(contents: seq<Byte>, pos: nat, bytes: seq<Byte>): (after: seq<Byte>)
    ensures forall k: nat :: At(after, k) == if pos <= k < pos + |bytes| then bytes[k - pos] else At(contents, k)
  {
    if bytes == [] then contents
    else if |contents| < pos then contents + Zeros(pos - |contents|) + bytes
    else if |contents| <= pos + |bytes| then contents[..pos] + bytes
    else contents[..pos] + bytes + contents[pos + |bytes|..]
  }

  /** Writing two pieces one after the other is writing them at once. */
  lemma OverwriteTwice(contents: seq<Byte>, pos: nat, a: seq<Byte>, b: seq<Byte>)
    ensures Overwrite(Overwrite(contents, pos, a), pos + |a|, b) == Overwrite(contents, pos, a + b)
  {
    if a == [] {
      assert a + b == b;
    } else if b == [] {
      assert a + b == a;
    }
  }

  /** `bytes` stand at `offset`. */
  ghost predicate Placed(contents: seq<Byte>, offset: nat, bytes: seq<Byte>) {
    forall i | 0 <= i < |bytes| :: At(contents, offset + i) == bytes[i]
  }

  /** Only positions in `[from, to)` differ, and the file has not become shorter. */
  ghost predicate SameOutside(before: seq<Byte>, after: seq<Byte>, from: nat, to: nat) {
    |before| <= |after| && forall k: nat :: k < from || to <= k ==> At(after, k) == At(before, k)
  }

  lemma SameOutsideThen(a: seq<Byte>, b: seq<Byte>, c: seq<Byte>, from: nat, mid: nat, to: nat)
    requires from <= mid <= to && SameOutside(a, b, from, mid) && SameOutside(b, c, mid, to)
    ensures SameOutside(a, c, from, to)
  {
    forall k: nat | k < from || to <= k ensures At(c, k) == At(a, k) {
      assert At(c, k) == At(b, k);
    }
  }

  lemma PlacedStays(before: seq<Byte>, after: seq<Byte>, from: nat, to: nat, offset: nat, bytes: seq<Byte>)
    requires Placed(before, offset, bytes) && SameOutside(before, after, from, to)
    requires offset + |bytes| <= from || to <= offset
    ensures Placed(after, offset, bytes)
  {
    forall i | 0 <= i < |bytes| ensures At(after, offset + i) == bytes[i] {
      assert At(after, offset + i) == At(before, offset + i);
    }
  }

  /** The change lies beside a range that holds the bytes. */
  lemma PlacedInside(before: seq<Byte>, after: seq<Byte>, lo: nat, hi: nat, from: nat, to: nat, offset: nat,
                     bytes: seq<Byte>)
    requires lo <= offset && offset + |bytes| <= hi && (hi <= from || to <= lo)
    requires Placed(before, offset, bytes) && SameOutside(before, after, from, to)
    ensures Placed(after, offset, bytes)
  {
    PlacedStays(before, after, from, to, offset, bytes);
  }

  lemma PlacedPart(contents: seq<Byte>, offset: nat, bytes: seq<Byte>, at: nat, part: seq<Byte>)
    requires Placed(contents, offset, bytes)
    requires at + |part| <= |bytes| && bytes[at..at + |part|] == part
    ensures Placed(contents, offset + at, part)
  {
    forall i | 0 <= i < |part| ensures At(contents, offset + at + i) == part[i] {
      assert At(contents, offset + (at + i)) == bytes[at + i] == bytes[at..at + |part|][i];
    }
  }

  datatype Whence = SeekSet | SeekCurrent | SeekEnd

  /** Where a seek leads; a negative target is refused. */
  function Target(contents: seq<Byte>, pos: nat, offset: int, whence: Whence): int {
    match whence
    case SeekSet => offset
    case SeekCurrent => pos + offset
    case SeekEnd => |contents| + offset
  }

  /** A file whose writes succeed. */
  class Sink {
    var contents: seq<Byte>
    var pos: nat

    constructor (contents: seq<Byte>, pos: nat)
      ensures this.contents == contents && this.pos == pos
    {
      this.contents, this.pos := contents, pos;
    }

    method WriteFully(bytes: seq<Byte>)
      modifies this
      ensures contents == Overwrite(old(contents), old(pos), bytes)
      ensures pos == old(pos) + |bytes|
    {
      contents := Overwrite(contents, pos, bytes);
      pos := pos + |bytes|;
    }

    method Seek(offset: int, whence: Whence) returns (r: int)
      modifies this`pos
      ensures var target := Target(contents, old(pos), offset, whence);
              if target >= 0 then pos == target && r == target else pos == old(pos) && r == -1
    {
      var target: int :=
        match whence
        case SeekSet => offset
        case SeekCurrent => pos + offset
        case SeekEnd => |contents| + offset;
      if target < 0 {
        return -1;
      }
      pos := target;
      return target;
    }
  }

  /** What a successful write does to positions. */
  lemma OverwritePlaces(before: seq<Byte>, pos: nat, bytes: seq<Byte>)
    ensures Placed(Overwrite(before, pos, bytes), pos, bytes)
    ensures SameOutside(before, Overwrite(before, pos, bytes), pos, pos + |bytes|)
  {
  }
}
