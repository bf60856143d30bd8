/** The parts of a 32-bit ELF file that the writer and the stripper look at. */
module ElfFormat {
  import opened Bytes
  import opened Streams

  const EHDR_SIZE: nat := 52
  const SHDR_SIZE: nat := 40

  // Where the file header keeps the section header table.
  const E_SHOFF: nat := 32
  const E_SHNUM: nat := 48
  const E_SHSTRNDX: nat := 50

  datatype Shdr =
    Shdr(name: Word32, kind: Word32, flags: Word32, addr: Word32, offset: Word32, size: Word32, link: Word32,
         info: Word32, align: Word32, entsize: Word32)

  function WordAt(file: seq<Byte>, at: nat): Word32 {
    BytesWord([At(file, at), At(file, at + 1), At(file, at + 2), At(file, at + 3)])
  }

  function HalfAt(file: seq<Byte>, at: nat): nat {
    At(file, at) as int + 0x100 * At(file, at + 1) as int
  }

  function ShdrAt(file: seq<Byte>, at: nat): Shdr {
    Shdr(WordAt(file, at), WordAt(file, at + 4), WordAt(file, at + 8), WordAt(file, at + 12), WordAt(file, at + 16),
         WordAt(file, at + 20), WordAt(file, at + 24), WordAt(file, at + 28), WordAt(file, at + 32),
         WordAt(file, at + 36))
  }

  function ShdrWords(h: Shdr): seq<Word32> {
    [h.name, h.kind, h.flags, h.addr, h.offset, h.size, h.link, h.info, h.align, h.entsize]
  }

  function AllBytes(words: seq<Word32>): (bytes: seq<Byte>)
    ensures |bytes| == 4 * |words|
  {
    if words == [] then [] else AllBytes(words[..|words| - 1]) + WordBytes(words[|words| - 1])
  }

  function ShdrBytes(h: Shdr): (bytes: seq<Byte>)
    ensures |bytes| == SHDR_SIZE
  {
    AllBytes(ShdrWords(h))
  }

  // ----- round trips -----

  lemma WordPlaced(file: seq<Byte>, at: nat, w: Word32)
    requires Placed(file, at, WordBytes(w))
    ensures WordAt(file, at) == w
  {
    var bytes := WordBytes(w);
    assert At(file, at) == bytes[0] && At(file, at + 1) == bytes[1];
    assert At(file, at + 2) == bytes[2] && At(file, at + 3) == bytes[3];
    assert [At(file, at), At(file, at + 1), At(file, at + 2), At(file, at + 3)] == bytes;
    WordRoundTrip(w);
  }

  lemma HalfPlaced(file: seq<Byte>, at: nat, h: nat)
    requires Placed(file, at, HalfBytes(h)) && h < 0x1_0000
    ensures HalfAt(file, at) == h
  {
    var bytes := HalfBytes(h);
    assert At(file, at) == bytes[0] && At(file, at + 1) == bytes[1];
  }

  lemma PlacedPieces(file: seq<Byte>, at: nat, first: seq<Byte>, rest: seq<Byte>)
    requires Placed(file, at, first + rest)
    ensures Placed(file, at, first) && Placed(file, at + |first|, rest)
  {
    PlacedPart(file, at, first + rest, 0, first);
    PlacedPart(file, at, first + rest, |first|, rest);
  }

  lemma {:induction false} PlacedWords(file: seq<Byte>, at: nat, words: seq<Word32>)
    requires Placed(file, at, AllBytes(words))
    ensures forall i {:trigger words[i]} | 0 <= i < |words| :: WordAt(file, at + 4 * i) == words[i]
    decreases |words|
  {
    if words != [] {
      var last := |words| - 1;
      PlacedPieces(file, at, AllBytes(words[..last]), WordBytes(words[last]));
      PlacedWords(file, at, words[..last]);
      WordPlaced(file, at + 4 * last, words[last]);
      forall i | 0 <= i < |words| ensures WordAt(file, at + 4 * i) == words[i] {
        if i < last {
          assert words[..last][i] == words[i];
        }
      }
    }
  }

  /** A section header is read back where it was written. */
  lemma ShdrPlaced(file: seq<Byte>, at: nat, h: Shdr)
    requires Placed(file, at, ShdrBytes(h))
    ensures ShdrAt(file, at) == h
  {
    var words := ShdrWords(h);
    PlacedWords(file, at, words);
    assert WordAt(file, at + 4 * 0) == words[0] && WordAt(file, at + 4 * 1) == words[1];
    assert WordAt(file, at + 4 * 2) == words[2] && WordAt(file, at + 4 * 3) == words[3];
    assert WordAt(file, at + 4 * 4) == words[4] && WordAt(file, at + 4 * 5) == words[5];
    assert WordAt(file, at + 4 * 6) == words[6] && WordAt(file, at + 4 * 7) == words[7];
    assert WordAt(file, at + 4 * 8) == words[8] && WordAt(file, at + 4 * 9) == words[9];
  }

  // ----- what a change elsewhere leaves alone -----

  lemma WordStays(before: seq<Byte>, after: seq<Byte>, from: nat, to: nat, at: nat)
    requires SameOutside(before, after, from, to) && (at + 4 <= from || to <= at)
    ensures WordAt(after, at) == WordAt(before, at)
  {
    assert At(after, at) == At(before, at) && At(after, at + 1) == At(before, at + 1);
    assert At(after, at + 2) == At(before, at + 2) && At(after, at + 3) == At(before, at + 3);
  }

  lemma HalfStays(before: seq<Byte>, after: seq<Byte>, from: nat, to: nat, at: nat)
    requires SameOutside(before, after, from, to) && (at + 2 <= from || to <= at)
    ensures HalfAt(after, at) == HalfAt(before, at)
  {
    assert At(after, at) == At(before, at) && At(after, at + 1) == At(before, at + 1);
  }

  lemma ShdrStays(before: seq<Byte>, after: seq<Byte>, from: nat, to: nat, at: nat)
    requires SameOutside(before, after, from, to) && (at + SHDR_SIZE <= from || to <= at)
    ensures ShdrAt(after, at) == ShdrAt(before, at)
  {
    WordStays(before, after, from, to, at);
    WordStays(before, after, from, to, at + 4);
    WordStays(before, after, from, to, at + 8);
    WordStays(before, after, from, to, at + 12);
    WordStays(before, after, from, to, at + 16);
    WordStays(before, after, from, to, at + 20);
    WordStays(before, after, from, to, at + 24);
    WordStays(before, after, from, to, at + 28);
    WordStays(before, after, from, to, at + 32);
    WordStays(before, after, from, to, at + 36);
  }

  // ----- section names -----

  /** The bytes from `at` up to the next zero. */
  function CString(file: seq<Byte>, at: nat): seq<Byte>
    decreases |file| - at
  {
    if at >= |file| || file[at] == 0 then [] else [file[at]] + CString(file, at + 1)
  }
}
