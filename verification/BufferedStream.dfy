/**
 The buffered output stream: small writes are collected in a buffer of fixed size, large writes
 and seeks flush it. It refines the stream it writes to.
 */
module BufferedStream {
  import opened Bytes
  import opened Streams

  const BUFFER_SIZE: nat := 8192

  /** What an unbuffered stream would hold: its bytes and its position. */
  datatype View = View(contents: seq<Byte>, pos: nat)

  datatype Op = Put(bytes: seq<Byte>) | SeekTo(offset: int, whence: Whence)

  /** One operation on an unbuffered stream. */
  function Plain(v: View, op: Op): View {
    match op
    case Put(bytes) => View(Overwrite(v.contents, v.pos, bytes), v.pos + |bytes|)
    case SeekTo(offset, whence) =>
      var target := Target(v.contents, v.pos, offset, whence);
      if target >= 0 then v.(pos := target) else v
  }

  /** A run of operations on an unbuffered stream. */
  function PlainRun(v: View, ops: seq<Op>): View {
    if ops == [] then v else Plain(PlainRun(v, ops[..|ops| - 1]), ops[|ops| - 1])
  }

  /** `contents` and `pos` are what an unbuffered stream would have by now. */
  class BufferedOutputStream {
    const sink: Sink
    const buffer: array<Byte>
    var used: nat
    ghost var contents: seq<Byte>
    ghost var pos: nat

    /** With `n` bytes pending, this is the file as the unbuffered stream has it. */
    ghost predicate Agrees(n: nat)
      reads this, buffer, sink
    {
      n <= buffer.Length && contents == Overwrite(sink.contents, sink.pos, buffer[..n]) && pos == sink.pos + n
    }

    /** The quantifier keeps the bytes out of sight of those who only write. */
    ghost predicate Valid()
      reads this, buffer, sink
    {
      && buffer.Length == BUFFER_SIZE && used <= BUFFER_SIZE
      && forall n {:trigger Agrees(n)} | used <= n <= used :: Agrees(n)
    }

    /** Nothing is pending: the sink has all the bytes. */
    ghost predicate Flushed()
      reads this, sink
    {
      used == 0 && sink.contents == contents && sink.pos == pos
    }

    constructor (sink: Sink)
      ensures Valid() && Flushed() && fresh(buffer) && this.sink == sink
    {
      this.sink := sink;
      buffer := new Byte[BUFFER_SIZE];
      used := 0;
      contents, pos := sink.contents, sink.pos;
    }

    method Flush()
      requires Valid()
      modifies this`used, sink
      ensures Valid() && Flushed()
    {
      assert Agrees(used);
      if used > 0 {
        sink.WriteFully(buffer[..used]);
        used := 0;
      }
    }

    method WriteFully(bytes: seq<Byte>)
      requires Valid()
      modifies this, buffer, sink
      ensures Valid()
      ensures contents == Overwrite(old(contents), old(pos), bytes) && pos == old(pos) + |bytes|
    {
      if |bytes| > BUFFER_SIZE {
        Flush();
        sink.WriteFully(bytes);
        contents, pos := sink.contents, sink.pos;
        return;
      }
      if used + |bytes| > BUFFER_SIZE {
        Flush();
      }
      Append(bytes);
    }

    /** Adds bytes to the pending ones. */
    method Append(bytes: seq<Byte>)
      requires Valid() && used + |bytes| <= BUFFER_SIZE
      modifies this, buffer
      ensures Valid()
      ensures contents == Overwrite(old(contents), old(pos), bytes) && pos == old(pos) + |bytes|
    {
      assert Agrees(used);
      ghost var pending := buffer[..used];
      Copy(bytes);
      OverwriteTwice(sink.contents, sink.pos, pending, bytes);
      used := used + |bytes|;
      contents, pos := Overwrite(contents, pos, bytes), pos + |bytes|;
    }

    /** Copies `bytes` behind the pending ones. */
    method Copy(bytes: seq<Byte>)
      requires buffer.Length == BUFFER_SIZE && used + |bytes| <= BUFFER_SIZE
      modifies buffer
      ensures buffer[..used + |bytes|] == old(buffer[..used]) + bytes
    {
      for i := 0 to |bytes|
        invariant buffer[..used + i] == old(buffer[..used]) + bytes[..i]
      {
        buffer[used + i] := bytes[i];
        assert buffer[..used + i] == old(buffer[..used]) + bytes[..i];
      }
    }

    method Seek(offset: int, whence: Whence) returns (r: int)
      requires Valid()
      modifies this, sink
      ensures Valid() && Flushed() && contents == old(contents)
      ensures var target := Target(contents, old(pos), offset, whence);
              if target >= 0 then pos == target && r == target else pos == old(pos) && r == -1
    {
      Flush();
      r := sink.Seek(offset, whence);
      pos := sink.pos;
    }

    /** Any run of operations leaves sink and buffer together as the unbuffered run leaves the
        sink; after a seek the buffer is empty and the sinks are the same. */
    method Run(ops: seq<Op>)
      requires Valid()
      modifies this, buffer, sink
      ensures Valid()
      ensures View(contents, pos) == PlainRun(old(View(contents, pos)), ops)
      ensures ops != [] && ops[|ops| - 1].SeekTo? ==> Flushed()
    {
      for i := 0 to |ops|
        invariant Valid()
        invariant View(contents, pos) == PlainRun(old(View(contents, pos)), ops[..i])
        invariant i > 0 && ops[i - 1].SeekTo? ==> Flushed()
      {
        assert ops[..i + 1][..i] == ops[..i];
        match ops[i]
        case Put(bytes) => WriteFully(bytes);
        case SeekTo(offset, whence) => var _ := Seek(offset, whence);
      }
      assert ops[..|ops|] == ops;
    }
  }

  // ----- failing sinks -----

  /** A buffered stream over a sink that may fail: the sink's bytes at its end, and the pending bytes. */
  datatype Flaky = Flaky(written: seq<Byte>, pending: seq<Byte>)

  /** The flush: whether or not the sink took the bytes, the buffer is empty afterwards. */
  function FlakyFlush(s: Flaky, sinkOk: bool): (Flaky, bool) {
    if s.pending == [] then (s, true)
    else (Flaky(if sinkOk then s.written + s.pending else s.written, []), sinkOk)
  }

  /** The write, with the answers of the sink to the flush and to the write itself. The answer of
      the flush is not looked at when the bytes exceed the buffer. */
  function FlakyWrite(s: Flaky, bytes: seq<Byte>, flushOk: bool, writeOk: bool): (Flaky, bool) {
    if |bytes| > BUFFER_SIZE then
      var (s1, _) := FlakyFlush(s, flushOk);
      (if writeOk then s1.(written := s1.written + bytes) else s1, writeOk)
    else if |s.pending| + |bytes| > BUFFER_SIZE then
      var (s1, ok) := FlakyFlush(s, flushOk);
      if !ok then (s1, false) else (s1.(pending := bytes), true)
    else (s.(pending := s.pending + bytes), true)
  }

  /** A write that reports success has kept all bytes, unless it was larger than the buffer, the
      flush before it failed, and there was something to flush: exactly then bytes are lost silently. */
  lemma SilentLoss(s: Flaky, bytes: seq<Byte>, flushOk: bool, writeOk: bool)
    requires FlakyWrite(s, bytes, flushOk, writeOk).1
    ensures var s' := FlakyWrite(s, bytes, flushOk, writeOk).0;
            s'.written + s'.pending == s.written + s.pending + bytes
            <==> !(|bytes| > BUFFER_SIZE && s.pending != [] && !flushOk)
  {
    var s' := FlakyWrite(s, bytes, flushOk, writeOk).0;
    var (s1, _) := FlakyFlush(s, flushOk);
    if |bytes| > BUFFER_SIZE {
      if s.pending != [] && !flushOk {
        assert |s'.written + s'.pending| < |s.written + s.pending + bytes|;
      } else {
        assert s1.written == s.written + s.pending && s1.pending == [];
      }
    } else if |s.pending| + |bytes| <= BUFFER_SIZE {
      assert s.written + (s.pending + bytes) == s.written + s.pending + bytes;
    }
  }

  /** Success is reported although bytes are missing. */
  predicate Loses(s: Flaky, bytes: seq<Byte>, flushOk: bool, writeOk: bool) {
    var (s', ok) := FlakyWrite(s, bytes, flushOk, writeOk);
    ok && s'.written + s'.pending != s.written + s.pending + bytes
  }

  /** What a caller can tell before the write: some sink makes it lose bytes if and only if the write
      is larger than the buffer and something is pending. */
  lemma LossPossible(s: Flaky, bytes: seq<Byte>)
    ensures (exists flushOk, writeOk :: Loses(s, bytes, flushOk, writeOk)) <==> |bytes| > BUFFER_SIZE && s.pending != []
  {
    forall flushOk, writeOk | Loses(s, bytes, flushOk, writeOk) ensures |bytes| > BUFFER_SIZE && s.pending != [] {
      SilentLoss(s, bytes, flushOk, writeOk);
    }
    if |bytes| > BUFFER_SIZE && s.pending != [] {
      SilentLoss(s, bytes, false, true);
      assert Loses(s, bytes, false, true);
    }
  }

  /** One byte pending, one byte too many to buffer, and a sink that refuses the flush. */
  lemma LostByte()
    ensures var s := Flaky([], [7]);
            var bytes := Zeros(BUFFER_SIZE + 1);
            Loses(s, bytes, false, true) && FlakyWrite(s, bytes, false, true) == (Flaky(bytes, []), true)
  {
    var s, bytes := Flaky([], [7]), Zeros(BUFFER_SIZE + 1);
    assert [] + bytes == bytes;
    assert |s.written + s.pending + bytes| == |bytes| + 1;
  }
}
