/**
 The pieces of the ELF file: file header, program headers, sections in order, section headers. They are
 written in another order than they lie in, so it matters that they do not overlap. Two of them are the
 oat file, which its writer produces in one go.
 */
module ElfLayout {
  import opened Bytes
  import opened Streams
  import opened BufferedStream
  import OatWriter

  // ----- pieces -----

  /** What a piece consists of: bytes in memory, the oat file up to its code, or the code. */
  datatype Data = Memory(bytes: seq<Byte>) | OatData(size: nat) | OatText(size: nat)

  function Size(data: Data): nat {
    match data
    case Memory(bytes) => |bytes|
    case OatData(size) => size
    case OatText(size) => size
  }

  datatype Piece = Piece(offset: nat, data: Data)

  function PieceEnd(p: Piece): nat {
    p.offset + Size(p.data)
  }

  /** Pieces in file order. */
  ghost predicate Ascending(pieces: seq<Piece>) {
    forall i {:trigger InTurn(pieces, i)} | 0 <= i < |pieces| - 1 :: InTurn(pieces, i)
  }

  ghost predicate InTurn(pieces: seq<Piece>, i: nat)
    requires i + 1 < |pieces|
  {
    PieceEnd(pieces[i]) <= pieces[i + 1].offset
  }

  /** Pieces in file order are pairwise disjoint. */
  lemma {:induction false} PiecesDisjoint(pieces: seq<Piece>, i: nat, j: nat)
    requires Ascending(pieces) && i < j < |pieces|
    ensures PieceEnd(pieces[i]) <= pieces[j].offset
    decreases j
  {
    assert InTurn(pieces, j - 1);
    if i < j - 1 {
      PiecesDisjoint(pieces, i, j - 1);
    }
  }

  // ----- the oat file among the pieces -----

  /** An oat file: what goes into it, and where. */
  datatype Oat = Oat(input: OatWriter.Input, marks: OatWriter.Marks, layout: OatWriter.Layout)

  ghost predicate IsOat(oat: Oat) {
    && OatWriter.ValidInput(oat.input) && OatWriter.IsMarks(oat.input, oat.marks)
    && OatWriter.IsLayout(oat.input, oat.marks, oat.layout) && oat.layout.size < TWO32
  }

  ghost predicate IsOatAt(contents: seq<Byte>, base: nat, oat: Oat) {
    IsOat(oat) && OatWriter.FilePlaced(contents, base, oat.input, oat.marks, oat.layout)
  }

  /** The layout of the oat file; the quantifier keeps it out of sight where it does not matter. */
  ghost predicate ValidOat(oat: Oat) {
    forall o {:trigger IsOat(o)} | o == oat :: IsOat(o)
  }

  /** The oat file stands at `base`, every part where its layout promised it. */
  ghost predicate OatPlaced(contents: seq<Byte>, base: nat, oat: Oat) {
    forall o {:trigger IsOatAt(contents, base, o)} | o == oat :: IsOatAt(contents, base, o)
  }

  lemma OatStays(before: seq<Byte>, after: seq<Byte>, base: nat, oat: Oat, from: nat, to: nat)
    requires OatPlaced(before, base, oat) && SameOutside(before, after, from, to)
    requires base + oat.layout.size <= from || to <= base
    ensures OatPlaced(after, base, oat)
  {
    assert IsOatAt(before, base, oat);
    OatWriter.FileStays(before, after, base, oat.input, oat.marks, oat.layout, from, to);
  }

  lemma ExecInside(oat: Oat)
    requires ValidOat(oat)
    ensures oat.layout.exec <= oat.layout.size < TWO32
  {
    assert IsOat(oat);
    OatWriter.MarksOrdered(oat.input, oat.marks);
  }

  /** Piece `at` is the oat file up to its code, the next piece begins where it ends and is the code; no
      other piece belongs to the oat file. */
  ghost predicate OatAt(pieces: seq<Piece>, at: nat, oat: Oat) {
    && at + 1 < |pieces| && oat.layout.exec <= oat.layout.size
    && pieces[at].data == OatData(oat.layout.exec)
    && pieces[at + 1] == Piece(PieceEnd(pieces[at]), OatText(oat.layout.size - oat.layout.exec))
    && forall i {:trigger pieces[i]} | 0 <= i < |pieces| && i != at && i != at + 1 :: pieces[i].data.Memory?
  }

  /** The bytes written with piece `i`: with the first part of the oat file also the second. */
  function Written(p: Piece, oatSize: nat): nat {
    p.offset + if p.data.OatData? then oatSize else Size(p.data)
  }

  lemma WritesDisjoint(pieces: seq<Piece>, at: nat, oat: Oat, i: nat, j: nat)
    requires Ascending(pieces) && OatAt(pieces, at, oat) && i < |pieces| && j < |pieces|
    requires i != j && i != at + 1 && j != at + 1
    ensures var size := oat.layout.size;
            Written(pieces[i], size) <= pieces[j].offset || Written(pieces[j], size) <= pieces[i].offset
  {
    var a, b := if i < j then i else j, if i < j then j else i;
    PiecesDisjoint(pieces, a, b);
    if a == at {
      PiecesDisjoint(pieces, at + 1, b);
    }
  }

  ghost predicate PiecePlaced(contents: seq<Byte>, p: Piece, oat: Oat) {
    match p.data
    case Memory(bytes) => Placed(contents, p.offset, bytes) && (bytes != [] ==> p.offset + |bytes| <= |contents|)
    case OatData(_) => OatPlaced(contents, p.offset, oat)
    case OatText(_) => true
  }

  /** Changes beside a piece leave it alone. */
  lemma PieceStays(before: seq<Byte>, after: seq<Byte>, p: Piece, oat: Oat, from: nat, to: nat)
    requires PiecePlaced(before, p, oat) && SameOutside(before, after, from, to)
    requires Written(p, oat.layout.size) <= from || to <= p.offset
    ensures PiecePlaced(after, p, oat)
  {
    match p.data
    case Memory(bytes) => PlacedStays(before, after, from, to, p.offset, bytes);
    case OatData(_) => OatStays(before, after, p.offset, oat, from, to);
    case OatText(_) =>
  }

  // ----- writing the pieces -----

  /** The pieces listed in `done` stand in the file. */
  ghost predicate AllPlaced(contents: seq<Byte>, pieces: seq<Piece>, oat: Oat, done: seq<nat>) {
    forall k {:trigger done[k]} | 0 <= k < |done| :: done[k] < |pieces| && PiecePlaced(contents, pieces[done[k]], oat)
  }

  /** Writing one piece leaves those already written alone. */
  lemma PlacedMore(before: seq<Byte>, after: seq<Byte>, pieces: seq<Piece>, oat: Oat, at: nat, done: seq<nat>, i: nat)
    requires Ascending(pieces) && OatAt(pieces, at, oat) && i < |pieces| && i != at + 1
    requires AllPlaced(before, pieces, oat, done) && PiecePlaced(after, pieces[i], oat)
    requires SameOutside(before, after, pieces[i].offset, Written(pieces[i], oat.layout.size))
    ensures AllPlaced(after, pieces, oat, done + [i])
  {
    var more := done + [i];
    forall k | 0 <= k < |more| ensures more[k] < |pieces| && PiecePlaced(after, pieces[more[k]], oat) {
      if k < |done| && done[k] != i && done[k] != at + 1 {
        WritesDisjoint(pieces, at, oat, done[k], i);
        PieceStays(before, after, pieces[done[k]], oat, pieces[i].offset, Written(pieces[i], oat.layout.size));
      }
    }
  }

  lemma TextPlaced(contents: seq<Byte>, pieces: seq<Piece>, oat: Oat, at: nat, done: seq<nat>)
    requires OatAt(pieces, at, oat) && AllPlaced(contents, pieces, oat, done)
    ensures AllPlaced(contents, pieces, oat, done + [at + 1])
  {
  }

  /** Bytes in memory go to the file; the oat writer gets a buffered stream over the file, and nothing of
      it is left pending; the code is part of what the oat writer wrote. */
  method WriteData(out: Sink, data: Data, input: OatWriter.Input, l: OatWriter.Layout, ghost oat: Oat)
    requires ValidOat(oat) && oat.input == input && oat.layout == l
    modifies out
    ensures PiecePlaced(out.contents, Piece(old(out.pos), data), oat)
    ensures SameOutside(old(out.contents), out.contents, old(out.pos), Written(Piece(old(out.pos), data), l.size))
    ensures data.OatText? ==> out.contents == old(out.contents)
  {
    match data {
      case Memory(bytes) =>
        OverwritePlaces(out.contents, out.pos, bytes);
        out.WriteFully(bytes);
      case OatData(_) =>
        assert IsOat(oat);
        var stream := new BufferedOutputStream(out);
        var _ := OatWriter.Write(stream, input, oat.marks, l);
      case OatText(_) =>
    }
  }

  /** One piece: a seek, then its data. */
  method WritePiece(out: Sink, pieces: seq<Piece>, i: nat, input: OatWriter.Input, l: OatWriter.Layout, ghost oat: Oat,
                    ghost at: nat, ghost done: seq<nat>)
    requires ValidOat(oat) && oat.input == input && oat.layout == l
    requires Ascending(pieces) && OatAt(pieces, at, oat) && i < |pieces|
    requires AllPlaced(out.contents, pieces, oat, done)
    modifies out
    ensures AllPlaced(out.contents, pieces, oat, done + [i])
  {
    ghost var before := out.contents;
    var _ := out.Seek(pieces[i].offset, SeekSet);
    WriteData(out, pieces[i].data, input, l, oat);
    if i == at + 1 {
      TextPlaced(before, pieces, oat, at, done);
    } else {
      PlacedMore(before, out.contents, pieces, oat, at, done, i);
    }
  }

  /** `WriteOutFile`: whatever the order, every piece ends up in its place, and the oat file, code
      included, with them. */
  method WriteOutFile(out: Sink, pieces: seq<Piece>, order: seq<nat>, input: OatWriter.Input, l: OatWriter.Layout,
                      ghost oat: Oat, ghost at: nat)
    requires ValidOat(oat) && oat.input == input && oat.layout == l
    requires Ascending(pieces) && OatAt(pieces, at, oat)
    requires forall k {:trigger order[k]} | 0 <= k < |order| :: order[k] < |pieces|
    requires forall i | 0 <= i < |pieces| :: i in order
    modifies out
    ensures forall i {:trigger pieces[i]} | 0 <= i < |pieces| :: PiecePlaced(out.contents, pieces[i], oat)
  {
    for k := 0 to |order|
      invariant AllPlaced(out.contents, pieces, oat, order[..k])
    {
      WritePiece(out, pieces, order[k], input, l, oat, at, order[..k]);
      assert order[..k + 1] == order[..k] + [order[k]];
    }
    assert order[..|order|] == order;
    forall i | 0 <= i < |pieces| ensures PiecePlaced(out.contents, pieces[i], oat) {
      assert i in order;
      var k :| 0 <= k < |order| && order[k] == i;
      assert order[k] == i;
    }
  }
}
