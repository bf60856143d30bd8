/** Pieces of a file laid out one after the other, each at the next multiple of its alignment. */
module Chunks {
  import opened Bytes
  import opened Streams
  import opened BufferedStream

  /** A piece: its size and its alignment. */
  datatype Chunk = Chunk(size: nat, align: nat)

  ghost predicate ValidChunks(chunks: seq<Chunk>) {
    forall i | 0 <= i < |chunks| :: chunks[i].align > 0
  }

  /** The position after the first `i` chunks. */
  ghost function End(chunks: seq<Chunk>, start: nat, i: nat): nat
    requires ValidChunks(chunks) && i <= |chunks|
    decreases i, 0
  {
    if i == 0 then start else Start(chunks, start, i - 1) + chunks[i - 1].size
  }

  /** Where chunk `i` begins. */
  ghost function Start(chunks: seq<Chunk>, start: nat, i: nat): nat
    requires ValidChunks(chunks) && i < |chunks|
    decreases i, 1
  {
    RoundUp(End(chunks, start, i), chunks[i].align)
  }

  lemma {:induction false} EndGrows(chunks: seq<Chunk>, start: nat, i: nat, j: nat)
    requires ValidChunks(chunks) && i <= j <= |chunks|
    ensures start <= End(chunks, start, i) <= End(chunks, start, j)
    decreases j
  {
    if i < j {
      EndGrows(chunks, start, i, j - 1);
    } else if i > 0 {
      EndGrows(chunks, start, i - 1, i - 1);
    }
  }

  /** Chunks are aligned, in order and disjoint. */
  lemma {:induction false} ChunksDisjoint(chunks: seq<Chunk>, start: nat, i: nat, j: nat)
    requires ValidChunks(chunks) && i < j < |chunks|
    ensures start <= Start(chunks, start, i)
    ensures Start(chunks, start, i) % chunks[i].align == 0
    ensures Start(chunks, start, i) + chunks[i].size <= Start(chunks, start, j)
  {
    EndGrows(chunks, start, i, i);
    EndGrows(chunks, start, i + 1, j);
    assert Start(chunks, start, i) + chunks[i].size == End(chunks, start, i + 1);
  }

  lemma {:induction false} StartWithin(chunks: seq<Chunk>, start: nat, i: nat)
    requires ValidChunks(chunks) && i < |chunks|
    ensures start <= End(chunks, start, i) <= Start(chunks, start, i)
    ensures Start(chunks, start, i) + chunks[i].size <= End(chunks, start, |chunks|)
  {
    EndGrows(chunks, start, i, i);
    EndGrows(chunks, start, i + 1, |chunks|);
    assert Start(chunks, start, i) + chunks[i].size == End(chunks, start, i + 1);
  }

  /** The layout loop: offsets, the final position, and the bytes spent on alignment. */
  method LayOut(chunks: seq<Chunk>, start: nat) returns (offsets: seq<nat>, end: nat, padding: nat)
    requires ValidChunks(chunks)
    ensures |offsets| == |chunks|
    ensures forall i | 0 <= i < |chunks| :: offsets[i] == Start(chunks, start, i)
    ensures end == End(chunks, start, |chunks|)
    ensures end == start + padding + TotalSize(chunks)
  {
    offsets, end, padding := [], start, 0;
    for i := 0 to |chunks|
      invariant |offsets| == i
      invariant forall j {:trigger offsets[j]} | 0 <= j < i :: offsets[j] == Start(chunks, start, j)
      invariant end == End(chunks, start, i)
      invariant end == start + padding + TotalSize(chunks[..i])
    {
      assert chunks[..i + 1][..i] == chunks[..i];
      var aligned := RoundUp(end, chunks[i].align);
      padding := padding + (aligned - end);
      offsets := offsets + [aligned];
      end := aligned + chunks[i].size;
    }
    assert chunks[..|chunks|] == chunks;
  }

  function TotalSize(chunks: seq<Chunk>): nat {
    if chunks == [] then 0 else TotalSize(chunks[..|chunks| - 1]) + chunks[|chunks| - 1].size
  }

  // ----- writing -----

  /** The bytes of the chunks fit their sizes. */
  ghost predicate Fits(chunks: seq<Chunk>, data: seq<seq<Byte>>) {
    |data| == |chunks| && forall i | 0 <= i < |chunks| :: |data[i]| == chunks[i].size
  }

  /** The first `n` chunks stand where the layout put them. */
  ghost predicate ChunksPlaced(contents: seq<Byte>, base: nat, chunks: seq<Chunk>, data: seq<seq<Byte>>,
                               start: nat, n: nat)
    requires ValidChunks(chunks) && |data| == |chunks| && n <= |chunks|
  {
    forall i | 0 <= i < n :: Placed(contents, base + Start(chunks, start, i), data[i])
  }

  /** Changes outside the chunks' range leave them in place. */
  lemma {:induction false} ChunksStay(before: seq<Byte>, after: seq<Byte>, base: nat, chunks: seq<Chunk>,
                                      data: seq<seq<Byte>>, start: nat, n: nat, from: nat, to: nat)
    requires ValidChunks(chunks) && Fits(chunks, data) && n <= |chunks|
    requires ChunksPlaced(before, base, chunks, data, start, n) && SameOutside(before, after, from, to)
    requires base + End(chunks, start, n) <= from || to <= base + start
    ensures ChunksPlaced(after, base, chunks, data, start, n)
  {
    forall i | 0 <= i < n ensures Placed(after, base + Start(chunks, start, i), data[i]) {
      EndGrows(chunks, start, i + 1, n);
      StartWithin(chunks, start, i);
      assert Start(chunks, start, i) + chunks[i].size == End(chunks, start, i + 1);
      PlacedInside(before, after, base + start, base + End(chunks, start, n), from, to, base + Start(chunks, start, i),
                   data[i]);
    }
  }

  /** One more chunk. */
  lemma ChunksStep(before: seq<Byte>, after: seq<Byte>, base: nat, chunks: seq<Chunk>, data: seq<seq<Byte>>,
                   start: nat, i: nat)
    requires ValidChunks(chunks) && Fits(chunks, data) && i < |chunks|
    requires ChunksPlaced(before, base, chunks, data, start, i)
    requires SameOutside(before, after, base + End(chunks, start, i), base + End(chunks, start, i + 1))
    requires Placed(after, base + Start(chunks, start, i), data[i])
    ensures ChunksPlaced(after, base, chunks, data, start, i + 1)
  {
    ChunksStay(before, after, base, chunks, data, start, i, base + End(chunks, start, i), base + End(chunks, start, i + 1));
  }

  /** Seeks to every offset and writes the chunk there; counts the bytes written. */
  method WriteChunks(out: BufferedOutputStream, base: nat, chunks: seq<Chunk>, data: seq<seq<Byte>>, offsets: seq<nat>,
                     ghost start: nat)
    returns (size: nat)
    requires ValidChunks(chunks) && Fits(chunks, data) && |offsets| == |chunks|
    requires forall i | 0 <= i < |chunks| :: offsets[i] == Start(chunks, start, i)
    requires out.pos == base + start
    requires out.Valid()
    modifies out, out.buffer, out.sink
    ensures out.Valid()
    ensures out.pos == base + End(chunks, start, |chunks|)
    ensures ChunksPlaced(out.contents, base, chunks, data, start, |chunks|)
    ensures SameOutside(old(out.contents), out.contents, base + start, out.pos)
    ensures size == TotalSize(chunks)
  {
    size := 0;
    for i := 0 to |chunks|
      invariant out.Valid()
      invariant out.pos == base + End(chunks, start, i) && base + start <= out.pos
      invariant ChunksPlaced(out.contents, base, chunks, data, start, i)
      invariant SameOutside(old(out.contents), out.contents, base + start, out.pos)
      invariant size == TotalSize(chunks[..i])
    {
      ghost var before, from := out.contents, out.pos;
      WriteChunkAt(out, base + offsets[i], data[i]);
      size := size + |data[i]|;
      ChunksStep(before, out.contents, base, chunks, data, start, i);
      SameOutsideThen(old(out.contents), before, out.contents, base + start, from, out.pos);
      assert chunks[..i + 1][..i] == chunks[..i];
    }
    assert chunks[..|chunks|] == chunks;
  }

  /** Writes chunks without being told their offsets: aligns the position anew before each of them, and
      counts padding and bytes. It ends where the layout ends. */
  method WriteAligned(out: BufferedOutputStream, ghost base: nat, chunks: seq<Chunk>, data: seq<seq<Byte>>, start: nat)
    returns (end: nat, padding: nat, size: nat)
    requires ValidChunks(chunks) && Fits(chunks, data) && out.pos == base + start
    requires out.Valid()
    modifies out, out.buffer, out.sink
    ensures out.Valid()
    ensures end == End(chunks, start, |chunks|) && out.pos == base + end
    ensures ChunksPlaced(out.contents, base, chunks, data, start, |chunks|)
    ensures SameOutside(old(out.contents), out.contents, base + start, out.pos)
    ensures size == TotalSize(chunks) && start + padding + size == end
  {
    end, padding, size := start, 0, 0;
    for i := 0 to |chunks|
      invariant out.Valid()
      invariant end == End(chunks, start, i) && out.pos == base + end && start <= end
      invariant ChunksPlaced(out.contents, base, chunks, data, start, i)
      invariant SameOutside(old(out.contents), out.contents, base + start, out.pos)
      invariant size == TotalSize(chunks[..i]) && start + padding + size == end
    {
      ghost var before, from := out.contents, out.pos;
      var aligned := RoundUp(end, chunks[i].align);
      WriteAfter(out, aligned - end, data[i]);
      padding, size, end := padding + (aligned - end), size + |data[i]|, aligned + |data[i]|;
      ChunksStep(before, out.contents, base, chunks, data, start, i);
      SameOutsideThen(old(out.contents), before, out.contents, base + start, from, out.pos);
      assert chunks[..i + 1][..i] == chunks[..i];
    }
    assert chunks[..|chunks|] == chunks;
  }

  /** Skips `padding` bytes and writes. */
  method WriteAfter(out: BufferedOutputStream, padding: nat, bytes: seq<Byte>)
    requires out.Valid()
    modifies out, out.buffer, out.sink
    ensures out.Valid()
    ensures out.pos == old(out.pos) + padding + |bytes| && Placed(out.contents, old(out.pos) + padding, bytes)
    ensures SameOutside(old(out.contents), out.contents, old(out.pos), out.pos)
  {
    var _ := out.Seek(padding, SeekCurrent);
    OverwritePlaces(out.contents, out.pos, bytes);
    out.WriteFully(bytes);
  }

  /** Moves forward to `offset` and writes there. */
  method WriteChunkAt(out: BufferedOutputStream, offset: nat, bytes: seq<Byte>)
    requires out.pos <= offset
    requires out.Valid()
    modifies out, out.buffer, out.sink
    ensures out.Valid()
    ensures out.pos == offset + |bytes| && Placed(out.contents, offset, bytes)
    ensures SameOutside(old(out.contents), out.contents, old(out.pos), out.pos)
  {
    var _ := out.Seek(offset, SeekSet);
    OverwritePlaces(out.contents, offset, bytes);
    out.WriteFully(bytes);
  }
}
