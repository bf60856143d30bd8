/**
 The generator of the `.debug_line` program: it turns the delta-formatted source map of every
 compiled method into opcodes for the DWARF line-number state machine.
 */
module LineProgram {
  import opened Bytes
  import opened Leb128
  import opened DwarfLine
  import opened SrcMaps

  // ----- the bytes of one line table entry -----

  /** The special opcode as the generator computes it, in unsigned 32-bit arithmetic. */
  function SpecialOpcode(deltaAddr: Word32, deltaLine: int): Word32 {
    (deltaLine - LINE_BASE + LINE_RANGE * deltaAddr + OPCODE_BASE) % TWO32
  }

  function DeltaBytes(deltaAddr: Word32, deltaLine: int): seq<Byte> {
    if LINE_BASE <= deltaLine < LINE_BASE + LINE_RANGE && SpecialOpcode(deltaAddr, deltaLine) <= 255 then
      [SpecialOpcode(deltaAddr, deltaLine)]
    else AddressBytes(deltaAddr) + LineBytes(deltaLine) + [1]
  }

  /** The standard opcode that advances the address, left out for a delta of 0. */
  function AddressBytes(deltaAddr: Word32): seq<Byte> {
    if deltaAddr != 0 then [2] + EncodeUnsigned(deltaAddr) else []
  }

  /** The standard opcode that advances the line, left out for a delta of 0. */
  function LineBytes(deltaLine: int): seq<Byte> {
    if deltaLine != 0 then [3] + EncodeSigned(deltaLine) else []
  }

  /** The multiplication by the line range wrapped around and left a number that looks like an opcode. */
  predicate OpcodeWraps(deltaAddr: Word32, deltaLine: int) {
    && LINE_BASE <= deltaLine < LINE_BASE + LINE_RANGE
    && deltaLine - LINE_BASE + LINE_RANGE * deltaAddr + OPCODE_BASE >= TWO32
    && SpecialOpcode(deltaAddr, deltaLine) <= 255
  }

  /** The registers after one entry. */
  function AfterDelta(r: Registers, deltaAddr: Word32, deltaLine: int): Registers {
    Advance(r, deltaAddr).(line := r.line + deltaLine)
  }

  lemma SpecialDelta(r: Registers, deltaAddr: Word32, deltaLine: int)
    requires LINE_BASE <= deltaLine < LINE_BASE + LINE_RANGE
    requires deltaLine - LINE_BASE + LINE_RANGE * deltaAddr + OPCODE_BASE <= 255
    ensures OPCODE_BASE <= SpecialOpcode(deltaAddr, deltaLine) <= 255
    ensures AfterSpecial(SpecialOpcode(deltaAddr, deltaLine), r) == AfterDelta(r, deltaAddr, deltaLine)
  {
    var adjusted := deltaLine - LINE_BASE + LINE_RANGE * deltaAddr;
    assert adjusted / LINE_RANGE == deltaAddr && adjusted % LINE_RANGE == deltaLine - LINE_BASE;
  }

  /** Without the wrap-around, the bytes append exactly the row of the next entry. */
  lemma DeltaAppends(r: Registers, deltaAddr: Word32, deltaLine: int)
    requires !OpcodeWraps(deltaAddr, deltaLine)
    ensures var r' := AfterDelta(r, deltaAddr, deltaLine);
            Appends(DeltaBytes(deltaAddr, deltaLine), r, [RowOf(r')], r')
  {
    var r' := AfterDelta(r, deltaAddr, deltaLine);
    forall rest: seq<Byte>
      ensures Run(DeltaBytes(deltaAddr, deltaLine) + rest, r) == Prepend([RowOf(r')], Run(rest, r'))
    {
      if LINE_BASE <= deltaLine < LINE_BASE + LINE_RANGE && SpecialOpcode(deltaAddr, deltaLine) <= 255 {
        SpecialDelta(r, deltaAddr, deltaLine);
        RunSpecial(SpecialOpcode(deltaAddr, deltaLine), rest, r);
      } else {
        StandardDelta(r, deltaAddr, deltaLine, rest);
      }
    }
  }

  lemma DeltaExtends(data: seq<Byte>, rows: seq<Row>, r: Registers, bytes: seq<Byte>, deltaAddr: Word32, deltaLine: int)
    requires Appends(data, Initial(), rows, r)
    requires bytes == DeltaBytes(deltaAddr, deltaLine) && !OpcodeWraps(deltaAddr, deltaLine)
    ensures var r' := AfterDelta(r, deltaAddr, deltaLine);
            Appends(data + bytes, Initial(), rows + [RowOf(r')], r')
  {
    var r' := AfterDelta(r, deltaAddr, deltaLine);
    DeltaAppends(r, deltaAddr, deltaLine);
    AppendsMore(data, Initial(), rows, r, bytes, [RowOf(r')], r');
  }

  lemma {:induction false} RunAddressBytes(r: Registers, deltaAddr: Word32, rest: seq<Byte>)
    ensures Run(AddressBytes(deltaAddr) + rest, r) == Run(rest, Advance(r, deltaAddr))
  {
    if deltaAddr != 0 {
      RunAdvancePc(deltaAddr, rest, r);
    } else {
      assert AddressBytes(deltaAddr) + rest == rest && Advance(r, deltaAddr) == r;
    }
  }

  lemma {:induction false} RunLineBytes(r: Registers, deltaLine: int, rest: seq<Byte>)
    ensures Run(LineBytes(deltaLine) + rest, r) == Run(rest, r.(line := r.line + deltaLine))
  {
    if deltaLine != 0 {
      RunAdvanceLine(deltaLine, rest, r);
    } else {
      assert LineBytes(deltaLine) + rest == rest && r.(line := r.line + deltaLine) == r;
    }
  }

  lemma {:induction false} StandardDelta(r: Registers, deltaAddr: Word32, deltaLine: int, rest: seq<Byte>)
    ensures var r' := AfterDelta(r, deltaAddr, deltaLine);
            Run(AddressBytes(deltaAddr) + LineBytes(deltaLine) + [1] + rest, r)
            == Prepend([RowOf(r')], Run(rest, r'))
  {
    var addr, line := AddressBytes(deltaAddr), LineBytes(deltaLine);
    assert addr + line + [1] + rest == addr + (line + ([1] + rest));
    RunAddressBytes(r, deltaAddr, line + ([1] + rest));
    RunLineBytes(Advance(r, deltaAddr), deltaLine, [1] + rest);
    RunCopy(rest, AfterDelta(r, deltaAddr, deltaLine));
  }

  /** The bytes of an entry denote that entry if and only if the opcode did not wrap around. */
  lemma {:induction false} DeltaExact(r: Registers, deltaAddr: Word32, deltaLine: int)
    ensures Run(DeltaBytes(deltaAddr, deltaLine), r) == Table([RowOf(AfterDelta(r, deltaAddr, deltaLine))])
       <==> !OpcodeWraps(deltaAddr, deltaLine)
  {
    if !OpcodeWraps(deltaAddr, deltaLine) {
      DeltaAppends(r, deltaAddr, deltaLine);
      AppendsAll(DeltaBytes(deltaAddr, deltaLine), r, [RowOf(AfterDelta(r, deltaAddr, deltaLine))],
                 AfterDelta(r, deltaAddr, deltaLine));
    } else {
      WrappedOpcode(r, SpecialOpcode(deltaAddr, deltaLine), deltaAddr, deltaLine);
    }
  }

  /** A single opcode moves the address by at most 17, the wrapped delta is far larger. */
  lemma {:induction false} WrappedOpcode(r: Registers, opcode: Byte, deltaAddr: Word32, deltaLine: int)
    requires 18 <= deltaAddr
    ensures Run([opcode], r) != Table([RowOf(AfterDelta(r, deltaAddr, deltaLine))])
  {
    assert [opcode][1..] == [];
    if opcode >= OPCODE_BASE {
      var step := (opcode - OPCODE_BASE) / LINE_RANGE;
      assert step <= 17;
      assert Run([opcode], r) == Table([RowOf(AfterSpecial(opcode, r))]);
      assert (r.address + step) % TWO32 != (r.address + deltaAddr) % TWO32;
    } else if opcode == 1 {
      assert Run([opcode], r) == Table([RowOf(r)]);
    }
  }

  /** The wrap-around happens: a delta of 306783378 bytes within one line is written as opcode 14. */
  lemma WrappingEntry()
    ensures OpcodeWraps(306783378, 0) && DeltaBytes(306783378, 0) == [14]
    ensures Run(DeltaBytes(306783378, 0), Initial()) == Table([Row(0, 1, -3, false)])
  {
    assert [14][1..] == [];
    assert Run([14], Initial()) == Prepend([RowOf(AfterSpecial(14, Initial()))], Run([], AfterSpecial(14, Initial())));
  }

  /** No wrap-around for any delta below 2^32 / 14. */
  lemma SmallDeltasDoNotWrap(deltaAddr: Word32, deltaLine: int)
    requires LINE_RANGE * deltaAddr + 26 < TWO32
    ensures !OpcodeWraps(deltaAddr, deltaLine)
  {
  }

  lemma ModuloSum(a: nat, b: nat)
    ensures (a + b) % TWO32 == (a % TWO32 + b) % TWO32
  {
  }

  // ----- the generator -----

  /** The opcodes of `PutDelta`: one special opcode if it fits, else standard opcodes. */
  method EncodeDelta(deltaAddr: Word32, deltaLine: int) returns (data: seq<Byte>)
    ensures data == DeltaBytes(deltaAddr, deltaLine)
  {
    if LINE_BASE <= deltaLine < LINE_BASE + LINE_RANGE {
      var specialOpcode := SpecialOpcode(deltaAddr, deltaLine);
      if specialOpcode <= 255 {
        data := [specialOpcode];
        return;
      }
    }
    data := EncodeStandard(deltaAddr, deltaLine);
  }

  method EncodeStandard(deltaAddr: Word32, deltaLine: int) returns (data: seq<Byte>)
    ensures data == AddressBytes(deltaAddr) + LineBytes(deltaLine) + [1]
  {
    data := [];
    if deltaAddr != 0 {
      data := PushBackUnsigned([2], deltaAddr);
    }
    if deltaLine != 0 {
      var line := PushBackSigned([3], deltaLine);
      data := data + line;
    }
    data := data + [1];
  }

  // ----- what becomes of the program -----

  /** How the reader takes what has been written: as it was meant; with a line that is off; with a row that
      is not the one meant, whatever follows; or it depends on what follows. */
  datatype Fate = Exact | Shifted | Wrong | Unclear

  /** A wrapped opcode that makes the reader append a row at once: special opcodes and `copy`. */
  predicate Shows(opcode: Word32) {
    opcode >= OPCODE_BASE || opcode == 1
  }

  function DeltaFate(f: Fate, deltaAddr: Word32, deltaLine: int): Fate {
    if f.Wrong? || f.Unclear? then f
    else if OpcodeWraps(deltaAddr, deltaLine) then
      if Shows(SpecialOpcode(deltaAddr, deltaLine)) then Wrong else Unclear
    else if f.Shifted? then Wrong
    else Exact
  }

  /** The fate after the line has been set, by a difference that is stored in an `int`. */
  function LineFate(f: Fate, difference: int): Fate {
    if AsInt(difference) in [difference, 0] || f.Wrong? then f
    else if f.Exact? then Shifted
    else Unclear
  }

  /** Whatever follows `data`, the reader does not begin with `rows`. */
  ghost predicate Spoils(data: seq<Byte>, rows: seq<Row>) {
    forall rest: seq<Byte> {:trigger data + rest} :: !BeginsWith(Run(data + rest, Initial()), rows)
  }

  predicate BeginsWith(t: Table, rows: seq<Row>) {
    t.Table? && rows <= t.rows
  }

  lemma SpoilsMore(data: seq<Byte>, rows: seq<Row>, bytes: seq<Byte>, more: seq<Row>)
    requires Spoils(data, rows)
    ensures Spoils(data + bytes, rows + more)
  {
    forall rest: seq<Byte> ensures !BeginsWith(Run(data + bytes + rest, Initial()), rows + more) {
      assert data + bytes + rest == data + (bytes + rest);
      assert !BeginsWith(Run(data + (bytes + rest), Initial()), rows);
      assert rows <= rows + more;
    }
  }

  /** A row that is not the one meant spoils the program. */
  lemma WrongRow(data: seq<Byte>, rows: seq<Row>, r: Registers, bytes: seq<Byte>, row: Row, after: Registers,
                 meant: Row)
    requires Appends(data, Initial(), rows, r) && Appends(bytes, r, [row], after) && row != meant
    ensures Spoils(data + bytes, rows + [meant])
  {
    AppendsMore(data, Initial(), rows, r, bytes, [row], after);
    forall rest: seq<Byte> ensures !BeginsWith(Run(data + bytes + rest, Initial()), rows + [meant]) {
      var t := Run(data + bytes + rest, Initial());
      assert t == Prepend(rows + [row], Run(rest, after));
      assert t.Table? ==> t.rows[|rows|] == row;
      assert (rows + [meant])[|rows|] == meant;
    }
  }

  /** The registers after a single opcode that appends a row. */
  function AfterOpcode(opcode: Byte, r: Registers): Registers
    requires Shows(opcode)
  {
    if opcode >= OPCODE_BASE then AfterSpecial(opcode, r) else r
  }

  lemma OpcodeAppends(opcode: Byte, r: Registers)
    requires Shows(opcode)
    ensures Appends([opcode], r, [RowOf(AfterOpcode(opcode, r))], AfterOpcode(opcode, r))
  {
    var after := AfterOpcode(opcode, r);
    forall rest: seq<Byte> ensures Run([opcode] + rest, r) == Prepend([RowOf(after)], Run(rest, after)) {
      if opcode >= OPCODE_BASE {
        RunSpecial(opcode, rest, r);
      } else {
        RunCopy(rest, r);
      }
    }
  }

  /** A single opcode moves the address by at most 17 and the line by at most 8. */
  lemma OpcodeMovesLittle(opcode: Byte, r: Registers, deltaAddr: Word32)
    requires Shows(opcode) && 18 <= deltaAddr
    ensures var after := AfterOpcode(opcode, r);
            -5 <= after.line - r.line <= 8 && after.address != Advance(r, deltaAddr).address
  {
    if opcode >= OPCODE_BASE {
      var step := (opcode - OPCODE_BASE) / LINE_RANGE;
      assert 0 <= step <= 17;
      StepsDiffer(r.address, step, deltaAddr);
    } else {
      StepsDiffer(r.address, 0, deltaAddr);
    }
  }

  lemma StepsDiffer(address: Word32, a: nat, b: Word32)
    requires a < b
    ensures (address + a) % TWO32 != (address + b) % TWO32
    ensures a == 0 ==> (address + a) % TWO32 == address
  {
  }

  /** The reader is off by so many lines that no single opcode makes up for it. */
  predicate FarApart(r: Registers, meant: Registers) {
    r.line - meant.line >= 0x1000 || meant.line - r.line >= 0x1000
  }

  /** The bytes of one more entry, read from registers `r` where `meant` was meant. */
  lemma DeltaSpoils(data: seq<Byte>, rows: seq<Row>, r: Registers, meant: Registers, deltaAddr: Word32, deltaLine: int)
    requires Appends(data, Initial(), rows, r)
    requires OpcodeWraps(deltaAddr, deltaLine) ==> Shows(SpecialOpcode(deltaAddr, deltaLine))
    requires FarApart(r, meant) || (r == meant && OpcodeWraps(deltaAddr, deltaLine))
    ensures Spoils(data + DeltaBytes(deltaAddr, deltaLine), rows + [RowOf(AfterDelta(meant, deltaAddr, deltaLine))])
  {
    var bytes, row := DeltaBytes(deltaAddr, deltaLine), RowOf(AfterDelta(meant, deltaAddr, deltaLine));
    if OpcodeWraps(deltaAddr, deltaLine) {
      var opcode: Byte := SpecialOpcode(deltaAddr, deltaLine);
      OpcodeAppends(opcode, r);
      OpcodeMovesLittle(opcode, r, deltaAddr);
      WrongRow(data, rows, r, bytes, RowOf(AfterOpcode(opcode, r)), AfterOpcode(opcode, r), row);
    } else {
      var after := AfterDelta(r, deltaAddr, deltaLine);
      DeltaAppends(r, deltaAddr, deltaLine);
      WrongRow(data, rows, r, bytes, RowOf(after), after, row);
    }
  }

  /** Writes opcodes. `rows` and `regs` are what the reader is meant to make of the bytes written so far,
      `fate` is what it does make of them, and `actual` are its registers while its line is off. */
  class LineTableGenerator {
    var data: seq<Byte>
    var currentAddress: nat
    var currentLine: int
    var currentFileIndex: nat
    ghost var rows: seq<Row>
    ghost var regs: Registers
    ghost var fate: Fate
    ghost var actual: Registers

    ghost predicate Valid()
      reads this
    {
      && Tracks(data)
      && regs.address == currentAddress % TWO32
      && regs.line == currentLine
      && (regs.file == currentFileIndex || (currentFileIndex == 0 && regs.file == 1))
    }

    /** What the fate says of the bytes. */
    ghost predicate Tracks(bytes: seq<Byte>)
      reads this
    {
      && (fate.Exact? ==> Appends(bytes, Initial(), rows, regs))
      && (fate.Shifted? ==> Appends(bytes, Initial(), rows, actual) && FarApart(actual, regs))
      && (fate.Wrong? ==> Spoils(bytes, rows))
    }

    /** The generator starts like the reader: address 0, line 1; file 0 stands for "not set yet". */
    constructor ()
      ensures Valid() && rows == [] && currentLine == 1 && currentAddress == 0 && fate == Exact
    {
      data, currentAddress, currentLine, currentFileIndex := [], 0, 1, 0;
      rows, regs, fate, actual := [], Initial(), Exact, Initial();
      new;
      AppendsNothing(Initial());
    }

    method PutDelta(deltaAddr: Word32, deltaLine: int)
      requires Valid()
      modifies this
      ensures Valid() && data == old(data) + DeltaBytes(deltaAddr, deltaLine)
      ensures regs == AfterDelta(old(regs), deltaAddr, deltaLine) && rows == old(rows) + [RowOf(regs)]
      ensures fate == DeltaFate(old(fate), deltaAddr, deltaLine)
      ensures currentFileIndex == old(currentFileIndex)
    {
      ModuloSum(currentAddress, deltaAddr);
      currentLine := currentLine + deltaLine;
      currentAddress := currentAddress + deltaAddr;
      var bytes := EncodeDelta(deltaAddr, deltaLine);
      TrackDelta(deltaAddr, deltaLine);
      data := data + bytes;
    }

    /** What the bytes of an entry do to the reader. */
    ghost method TrackDelta(deltaAddr: Word32, deltaLine: int)
      requires Tracks(data)
      modifies this`rows, this`regs, this`fate
      ensures Tracks(data + DeltaBytes(deltaAddr, deltaLine)) && fate == DeltaFate(old(fate), deltaAddr, deltaLine)
      ensures regs == AfterDelta(old(regs), deltaAddr, deltaLine) && rows == old(rows) + [RowOf(regs)]
    {
      var after, next := AfterDelta(regs, deltaAddr, deltaLine), DeltaFate(fate, deltaAddr, deltaLine);
      if next.Exact? {
        DeltaExtends(data, rows, regs, DeltaBytes(deltaAddr, deltaLine), deltaAddr, deltaLine);
      } else if next.Wrong? {
        if fate.Wrong? {
          SpoilsMore(data, rows, DeltaBytes(deltaAddr, deltaLine), [RowOf(after)]);
        } else {
          DeltaSpoils(data, rows, if fate.Exact? then regs else actual, regs, deltaAddr, deltaLine);
        }
      }
      rows, regs, fate := rows + [RowOf(after)], after, next;
    }

    method SetAddr(addr: Word32)
      requires Valid()
      modifies this
      ensures Valid() && rows == old(rows) && regs == old(regs).(address := addr) && fate == old(fate)
      ensures currentFileIndex == old(currentFileIndex)
    {
      if currentAddress == addr {
        return;
      }
      currentAddress := addr;
      AddressAppends(addr, regs);
      AddressAppends(addr, actual);
      Track([0, 5, 2] + WordBytes(addr), regs.(address := addr), actual.(address := addr));
      data := data + ([0, 5, 2] + WordBytes(addr));
    }

    /** The difference is stored in an `int`. */
    method SetLine(line: nat)
      requires Valid()
      modifies this
      ensures Valid() && rows == old(rows)
      ensures regs == if AsInt(line - old(currentLine)) != 0 then old(regs).(line := line) else old(regs)
      ensures fate == LineFate(old(fate), line - old(currentLine))
      ensures currentFileIndex == old(currentFileIndex)
    {
      var deltaLine := AsInt(line - currentLine);
      if deltaLine != 0 {
        LineAppends(deltaLine, regs);
        LineAppends(deltaLine, actual);
        ghost var exact := deltaLine == line - currentLine;
        AsIntMoves(line - currentLine);
        currentLine := line;
        var encoded := PushBackSigned([3], deltaLine);
        if exact {
          Track(encoded, regs.(line := line), actual.(line := actual.line + deltaLine));
        } else {
          TrackShift(encoded, line, regs.(line := regs.line + deltaLine));
        }
        data := data + encoded;
      }
    }

    method SetFile(fileIndex: Word32)
      requires Valid() && fileIndex >= 1
      modifies this
      ensures Valid() && rows == old(rows) && regs == old(regs).(file := fileIndex) && fate == old(fate)
      ensures currentFileIndex == fileIndex
    {
      if currentFileIndex != fileIndex {
        currentFileIndex := fileIndex;
        FileAppends(fileIndex, regs);
        FileAppends(fileIndex, actual);
        var encoded := PushBackUnsigned([4], fileIndex);
        Track(encoded, regs.(file := fileIndex), actual.(file := fileIndex));
        data := data + encoded;
      }
    }

    /** Ends the sequence; the reader resets its registers, the generator is not used any more. */
    method EndSequence()
      requires Valid()
      modifies this
      ensures rows == old(rows) + [Row(old(regs).address, old(regs).file, old(regs).line, true)]
      ensures old(fate).Exact? ==> Run(data, Initial()) == Table(rows)
      ensures old(fate).Wrong? ==> !BeginsWith(Run(data, Initial()), old(rows))
    {
      ghost var last := Row(regs.address, regs.file, regs.line, true);
      if fate.Exact? {
        EndAppends(regs);
        AppendsMore(data, Initial(), rows, regs, [0, 1, 1], [last], Initial());
        AppendsAll(data + [0, 1, 1], Initial(), rows + [last], Initial());
      }
      data, rows := data + [0, 1, 1], rows + [last];
    }

    /** What bytes that append no row do to the reader. */
    ghost method Track(bytes: seq<Byte>, after: Registers, actualAfter: Registers)
      requires Tracks(data) && Appends(bytes, regs, [], after) && Appends(bytes, actual, [], actualAfter)
      requires actualAfter.line - after.line == actual.line - regs.line
      modifies this`regs, this`actual
      ensures Tracks(data + bytes) && regs == after
    {
      match fate {
        case Exact => AppendsMore(data, Initial(), rows, regs, bytes, [], after);
        case Shifted => AppendsMore(data, Initial(), rows, actual, bytes, [], actualAfter);
        case Wrong => SpoilsMore(data, rows, bytes, []);
        case Unclear =>
      }
      assert rows + [] == rows;
      regs, actual := after, actualAfter;
    }

    /** What bytes do that leave the reader at another line than the one meant. */
    ghost method TrackShift(bytes: seq<Byte>, line: int, after: Registers)
      requires Tracks(data) && Appends(bytes, regs, [], after) && FarApart(after, regs.(line := line))
      modifies this`regs, this`actual, this`fate
      ensures Tracks(data + bytes) && regs == old(regs).(line := line)
      ensures fate == if old(fate).Exact? then Shifted else if old(fate).Wrong? then Wrong else Unclear
    {
      match fate {
        case Exact => AppendsMore(data, Initial(), rows, regs, bytes, [], after);
        case Wrong => SpoilsMore(data, rows, bytes, []);
        case _ =>
      }
      assert rows + [] == rows;
      regs, actual := regs.(line := line), after;
      fate := if fate.Exact? then Shifted else if fate.Wrong? then Wrong else Unclear;
    }
  }

  /** A difference that does not fit is off by a multiple of 2^32. */
  lemma AsIntMoves(x: int)
    ensures AsInt(x) != x ==> AsInt(x) - x >= 0x1000 || x - AsInt(x) >= 0x1000
  {
  }

  lemma AddressAppends(addr: Word32, r: Registers)
    ensures Appends([0, 5, 2] + WordBytes(addr), r, [], r.(address := addr))
  {
    forall rest: seq<Byte>
      ensures Run([0, 5, 2] + WordBytes(addr) + rest, r) == Prepend([], Run(rest, r.(address := addr)))
    {
      RunSetAddress(addr, rest, r);
    }
  }

  lemma {:induction false} LineAppends(delta: int, r: Registers)
    ensures Appends([3] + EncodeSigned(delta), r, [], r.(line := r.line + delta))
  {
    forall rest: seq<Byte>
      ensures Run([3] + EncodeSigned(delta) + rest, r) == Prepend([], Run(rest, r.(line := r.line + delta)))
    {
      RunAdvanceLine(delta, rest, r);
    }
  }

  lemma {:induction false} FileAppends(file: nat, r: Registers)
    ensures Appends([4] + EncodeUnsigned(file), r, [], r.(file := file))
  {
    forall rest: seq<Byte>
      ensures Run([4] + EncodeUnsigned(file) + rest, r) == Prepend([], Run(rest, r.(file := file)))
    {
      RunSetFile(file, rest, r);
    }
  }

  lemma EndAppends(r: Registers)
    ensures Appends([0, 1, 1], r, [Row(r.address, r.file, r.line, true)], Initial())
  {
    forall rest: seq<Byte>
      ensures Run([0, 1, 1] + rest, r) == Prepend([Row(r.address, r.file, r.line, true)], Run(rest, Initial()))
    {
      RunEndSequence(rest, r);
    }
  }

  // ----- the line program of all methods -----

  /** The address of a file name; names are compared by address. */
  type FileName = nat

  /** One compiled method: its source file, its code range, and its line map. */
  datatype DebugMethod = DebugMethod(file: FileName, lowPc: Word32, highPc: Word32, lines: seq<SrcMapElem>)

  /** `sorted` is a possible result of sorting the method's lines by pc. */
  ghost predicate IsSortOf(sorted: seq<SrcMapElem>, m: DebugMethod) {
    SortedByFrom(sorted) && multiset(sorted) == multiset(m.lines)
  }

  function StartOf(m: DebugMethod): SrcMapElem {
    SrcMapElem(m.lowPc, 1)
  }

  /** No difference of kept lines overflows. */
  ghost predicate Encodable(sorted: seq<SrcMapElem>, m: DebugMethod) {
    LinesOk(Kept(sorted, m.highPc), StartOf(m))
  }

  function EntriesFate(f: Fate, deltas: seq<SrcMapElem>): Fate {
    if deltas == [] then f
    else
      var d := deltas[|deltas| - 1];
      DeltaFate(EntriesFate(f, deltas[..|deltas| - 1]), d.from, d.to)
  }

  /** The fate after a method whose line map begins where the last one left the line. */
  ghost function MethodFate(f: Fate, line: int, sorted: seq<SrcMapElem>, m: DebugMethod): Fate
    requires Encodable(sorted, m)
  {
    var kept := Kept(sorted, m.highPc);
    if kept == [] then f else EntriesFate(LineFate(f, 1 - line), Deltas(kept, StartOf(m)))
  }

  /** The line a method leaves. */
  function LineAfter(line: int, kept: seq<SrcMapElem>): int {
    if kept == [] then line else kept[|kept| - 1].to
  }

  function EndLine(methods: seq<DebugMethod>, sorts: seq<seq<SrcMapElem>>): (line: Int32)
    requires |sorts| == |methods|
  {
    if methods == [] then 1
    else
      var n := |methods| - 1;
      LineAfter(EndLine(methods[..n], sorts[..n]), Kept(sorts[n], methods[n].highPc))
  }

  ghost predicate AllEncodable(methods: seq<DebugMethod>, sorts: seq<seq<SrcMapElem>>) {
    |sorts| == |methods| && forall i {:trigger methods[i]} | 0 <= i < |methods| :: Encodable(sorts[i], methods[i])
  }

  /** The fate of the program of all methods. */
  ghost function ProgramFate(methods: seq<DebugMethod>, sorts: seq<seq<SrcMapElem>>): Fate
    requires AllEncodable(methods, sorts)
  {
    if methods == [] then Exact
    else
      var n := |methods| - 1;
      var before, line := ProgramFate(methods[..n], sorts[..n]), EndLine(methods[..n], sorts[..n]);
      MethodFate(before, line, sorts[n], methods[n])
  }

  /** The rows expected for one method: its kept entries in pc order, moved by the text offset. */
  function MethodRows(kept: seq<SrcMapElem>, textOffset: Word32, fileIndex: int): (rows: seq<Row>)
    ensures |rows| == |kept|
  {
    seq(|kept|, i requires 0 <= i < |kept| =>
      Row((kept[i].from + textOffset) % TWO32, fileIndex, kept[i].to, false))
  }

  /** The position of `file` in the list of file names, counting from 1 in order of first use. */
  function FileIndex(files: seq<FileName>, file: FileName): (i: nat)
    ensures i <= |files|
    ensures i == 0 <==> file !in files
    ensures i > 0 ==> files[i - 1] == file
  {
    if files == [] then 0
    else
      var rest := FileIndex(files[..|files| - 1], file);
      if rest > 0 then rest else if files[|files| - 1] == file then |files| else 0
  }

  /** The rows of all methods; `files` is the emitted list of file names. */
  ghost function ExpectedRows(methods: seq<DebugMethod>, sorts: seq<seq<SrcMapElem>>, files: seq<FileName>,
                              textOffset: Word32): seq<Row>
    requires |sorts| == |methods|
  {
    if methods == [] then []
    else
      var n := |methods| - 1;
      ExpectedRows(methods[..n], sorts[..n], files, textOffset) +
      MethodRows(Kept(sorts[n], methods[n].highPc), textOffset, FileIndex(files, methods[n].file))
  }

  function HighestPc(methods: seq<DebugMethod>): Word32 {
    if methods == [] then 0
    else
      var n := |methods| - 1;
      var rest := HighestPc(methods[..n]);
      if rest < methods[n].highPc then methods[n].highPc else rest
  }

  /** The file names in order of first use, each once. */
  method CollectFiles(methods: seq<DebugMethod>) returns (files: seq<FileName>)
    ensures forall m | m in methods :: m.file in files
    ensures forall i, j | 0 <= i < j < |files| :: files[i] != files[j]
    ensures |files| <= |methods|
  {
    files := [];
    for i := 0 to |methods|
      invariant |files| <= i
      invariant forall j | 0 <= j < i :: methods[j].file in files
      invariant forall j, k | 0 <= j < k < |files| :: files[j] != files[k]
    {
      if methods[i].file !in files {
        files := files + [methods[i].file];
      }
    }
  }

  /** Emits one entry; `previous` is where the registers are meant to stand. */
  method PutEntry(g: LineTableGenerator, d: SrcMapElem, ghost e: SrcMapElem, ghost previous: SrcMapElem,
                  ghost textOffset: Word32)
    requires g.Valid() && LineFits(e, previous) && d == Delta(e, previous)
    requires g.regs.address == (previous.from + textOffset) % TWO32 && g.regs.line == previous.to
    modifies g
    ensures g.Valid() && g.regs == Registers((e.from + textOffset) % TWO32, old(g.regs).file, e.to)
    ensures g.rows == old(g.rows) + [Row((e.from + textOffset) % TWO32, old(g.regs).file, e.to, false)]
    ensures g.fate == DeltaFate(old(g.fate), d.from, d.to)
  {
    AddressStep(previous.from, e.from, textOffset);
    g.PutDelta(d.from, d.to);
  }

  lemma {:induction false} FateStep(f: Fate, deltas: seq<SrcMapElem>, i: nat)
    requires i < |deltas|
    ensures EntriesFate(f, deltas[..i + 1]) == DeltaFate(EntriesFate(f, deltas[..i]), deltas[i].from, deltas[i].to)
  {
    assert deltas[..i + 1][..i] == deltas[..i];
  }

  lemma PrefixGrows(rows: seq<Row>, i: nat)
    requires i < |rows|
    ensures rows[..i + 1] == rows[..i] + [rows[i]]
  {
  }

  method PutEntries(g: LineTableGenerator, deltas: seq<SrcMapElem>, ghost kept: seq<SrcMapElem>,
                    ghost start: SrcMapElem, ghost textOffset: Word32)
    requires g.Valid() && LinesOk(kept, start) && deltas == Deltas(kept, start)
    requires g.regs.address == (start.from + textOffset) % TWO32 && g.regs.line == start.to
    modifies g
    ensures g.Valid() && g.rows == old(g.rows) + MethodRows(kept, textOffset, old(g.regs).file)
    ensures g.fate == EntriesFate(old(g.fate), deltas) && g.regs.line == LineAfter(start.to, kept)
  {
    ghost var expected := MethodRows(kept, textOffset, g.regs.file);
    for i := 0 to |deltas|
      invariant g.Valid()
      invariant g.rows == old(g.rows) + expected[..i]
      invariant g.regs.file == old(g.regs).file
      invariant g.regs.address == (Before(kept, start, i).from + textOffset) % TWO32
      invariant g.regs.line == Before(kept, start, i).to
      invariant g.fate == EntriesFate(old(g.fate), deltas[..i])
    {
      DeltaAt(kept, start, i);
      FateStep(old(g.fate), deltas, i);
      PutEntry(g, deltas[i], kept[i], Before(kept, start, i), textOffset);
      PrefixGrows(expected, i);
    }
    assert expected[..|deltas|] == expected && deltas[..|deltas|] == deltas;
  }

  /** Sets the registers to the begin of a method. */
  method BeginMethod(g: LineTableGenerator, fileIndex: Word32, addr: Word32, ghost line: Int32)
    requires g.Valid() && fileIndex >= 1 && g.regs.line == line
    modifies g
    ensures g.Valid() && g.rows == old(g.rows) && g.regs == Registers(addr, fileIndex, 1)
    ensures g.fate == LineFate(old(g.fate), 1 - line)
  {
    g.SetFile(fileIndex);
    g.SetAddr(addr);
    g.SetLine(1);
  }

  /** Emits the entries of one method. */
  method PutMethod(g: LineTableGenerator, m: DebugMethod, sorted: seq<SrcMapElem>, fileIndex: Word32,
                   textOffset: Word32, ghost line: Int32)
    requires g.Valid() && fileIndex >= 1 && g.regs.line == line
    requires IsSortOf(sorted, m) && Encodable(sorted, m)
    modifies g
    ensures g.Valid() && g.regs.line == LineAfter(line, Kept(sorted, m.highPc))
    ensures g.rows == old(g.rows) + MethodRows(Kept(sorted, m.highPc), textOffset, fileIndex)
    ensures g.fate == MethodFate(old(g.fate), line, sorted, m)
  {
    var srcMap := new SrcMap(m.lines);
    srcMap.DeltaFormat(sorted, StartOf(m), m.highPc);
    if srcMap.elems != [] {
      BeginMethod(g, fileIndex, (m.lowPc + textOffset) % TWO32, line);
      PutEntries(g, srcMap.elems, Kept(sorted, m.highPc), StartOf(m), textOffset);
    }
  }

  lemma AddressStep(a: Word32, b: Word32, textOffset: Word32)
    ensures ((a + textOffset) % TWO32 + (b - a) % TWO32) % TWO32 == (b + textOffset) % TWO32
  {
  }

  /** The first methods have been written: registers, rows and fate are theirs. */
  ghost predicate Progress(g: LineTableGenerator, methods: seq<DebugMethod>, sorts: seq<seq<SrcMapElem>>,
                           files: seq<FileName>, textOffset: Word32)
    reads g
  {
    && AllEncodable(methods, sorts) && g.regs.line == EndLine(methods, sorts)
    && g.rows == ExpectedRows(methods, sorts, files, textOffset) && g.fate == ProgramFate(methods, sorts)
  }

  lemma {:induction false} ProgramStep(methods: seq<DebugMethod>, sorts: seq<seq<SrcMapElem>>, files: seq<FileName>,
                                       textOffset: Word32, i: nat)
    requires AllEncodable(methods, sorts) && i < |methods|
    ensures AllEncodable(methods[..i], sorts[..i]) && AllEncodable(methods[..i + 1], sorts[..i + 1])
    ensures var m, sorted := methods[i], sorts[i];
            var line, kept := EndLine(methods[..i], sorts[..i]), Kept(sorted, m.highPc);
            && EndLine(methods[..i + 1], sorts[..i + 1]) == LineAfter(line, kept)
            && ExpectedRows(methods[..i + 1], sorts[..i + 1], files, textOffset)
               == ExpectedRows(methods[..i], sorts[..i], files, textOffset)
                  + MethodRows(kept, textOffset, FileIndex(files, m.file))
            && ProgramFate(methods[..i + 1], sorts[..i + 1])
               == MethodFate(ProgramFate(methods[..i], sorts[..i]), line, sorted, m)
  {
    assert methods[..i + 1][..i] == methods[..i] && sorts[..i + 1][..i] == sorts[..i];
  }

  /** Emits the next method. */
  method PutNext(g: LineTableGenerator, methods: seq<DebugMethod>, sorts: seq<seq<SrcMapElem>>, i: nat,
                 files: seq<FileName>, textOffset: Word32)
    requires g.Valid() && AllEncodable(methods, sorts) && i < |methods| && |files| < TWO32
    requires Progress(g, methods[..i], sorts[..i], files, textOffset)
    requires IsSortOf(sorts[i], methods[i]) && methods[i].file in files
    modifies g
    ensures g.Valid() && Progress(g, methods[..i + 1], sorts[..i + 1], files, textOffset)
  {
    ProgramStep(methods, sorts, files, textOffset, i);
    var fileIndex := FileIndex(files, methods[i].file);
    PutMethod(g, methods[i], sorts[i], fileIndex, textOffset, EndLine(methods[..i], sorts[..i]));
  }

  lemma HighestStep(methods: seq<DebugMethod>, i: nat)
    requires i < |methods|
    ensures HighestPc(methods[..i + 1])
         == if HighestPc(methods[..i]) < methods[i].highPc then methods[i].highPc else HighestPc(methods[..i])
  {
    assert methods[..i + 1][..i] == methods[..i];
  }

  /** No method reaches beyond `high`, and one reaches it. */
  ghost predicate IsHighest(methods: seq<DebugMethod>, high: Word32) {
    && (forall m | m in methods :: m.highPc <= high)
    && (if methods == [] then high == 0 else exists m | m in methods :: m.highPc == high)
  }

  lemma {:induction false} HighestIsHighest(methods: seq<DebugMethod>)
    ensures IsHighest(methods, HighestPc(methods))
  {
    if methods != [] {
      var n := |methods| - 1;
      HighestIsHighest(methods[..n]);
      assert methods == methods[..n] + [methods[n]];
      assert methods[n] in methods;
    }
  }

  /** Ends the program at the highest address. */
  method Finish(g: LineTableGenerator, addr: Word32) returns (program: seq<Byte>, ghost last: Row)
    requires g.Valid()
    modifies g
    ensures last.endSequence && last.address == addr
    ensures old(g.fate).Exact? ==> Run(program, Initial()) == Table(old(g.rows) + [last])
    ensures old(g.fate).Wrong? ==> !BeginsWith(Run(program, Initial()), old(g.rows))
  {
    g.SetAddr(addr);
    last := Row(g.regs.address, g.regs.file, g.regs.line, true);
    g.EndSequence();
    program := g.data;
  }

  /** Emits all methods. */
  method PutAll(g: LineTableGenerator, methods: seq<DebugMethod>, sorts: seq<seq<SrcMapElem>>, files: seq<FileName>,
                textOffset: Word32)
    returns (cunitHighPc: Word32)
    requires AllEncodable(methods, sorts) && |files| < TWO32
    requires forall i {:trigger methods[i]} | 0 <= i < |methods| ::
               IsSortOf(sorts[i], methods[i]) && methods[i].file in files
    requires g.Valid() && Progress(g, [], [], files, textOffset)
    modifies g
    ensures g.Valid() && Progress(g, methods, sorts, files, textOffset) && cunitHighPc == HighestPc(methods)
  {
    cunitHighPc := 0;
    for i := 0 to |methods|
      invariant g.Valid() && Progress(g, methods[..i], sorts[..i], files, textOffset)
      invariant cunitHighPc == HighestPc(methods[..i])
    {
      HighestStep(methods, i);
      if cunitHighPc < methods[i].highPc {
        cunitHighPc := methods[i].highPc;
      }
      PutNext(g, methods, sorts, i, files, textOffset);
    }
    assert methods[..|methods|] == methods && sorts[..|methods|] == sorts;
  }

  /** The whole line program. `sorts[i]` is the sorted line map of method `i`. */
  method GenerateLineProgram(methods: seq<DebugMethod>, sorts: seq<seq<SrcMapElem>>, textOffset: Word32)
    returns (program: seq<Byte>, files: seq<FileName>, ghost last: Row)
    requires |methods| < TWO32 && AllEncodable(methods, sorts)
    requires forall i {:trigger methods[i]} | 0 <= i < |methods| :: IsSortOf(sorts[i], methods[i])
    ensures forall m | m in methods :: m.file in files
    ensures last.endSequence && last.address == (HighestPc(methods) + textOffset) % TWO32
    ensures Meant(program, methods, sorts, files, textOffset, last)
  {
    files := CollectFiles(methods);
    var g := new LineTableGenerator();
    var cunitHighPc := PutAll(g, methods, sorts, files, textOffset);
    program, last := Finish(g, (cunitHighPc + textOffset) % TWO32);
  }

  /** What the program means to a reader: if its fate is exact, the expected rows and the end row; if it is
      wrong, not even a table that begins with the expected rows. */
  ghost predicate Meant(program: seq<Byte>, methods: seq<DebugMethod>, sorts: seq<seq<SrcMapElem>>,
                        files: seq<FileName>, textOffset: Word32, last: Row)
    requires AllEncodable(methods, sorts)
  {
    var rows := ExpectedRows(methods, sorts, files, textOffset);
    && (ProgramFate(methods, sorts).Exact? ==> Run(program, Initial()) == Table(rows + [last]))
    && (ProgramFate(methods, sorts).Wrong? ==> !BeginsWith(Run(program, Initial()), rows))
  }

  // ----- which programs are exact -----

  ghost predicate NoneWraps(deltas: seq<SrcMapElem>) {
    forall i {:trigger deltas[i]} | 0 <= i < |deltas| :: !OpcodeWraps(deltas[i].from, deltas[i].to)
  }

  /** Every opcode that wraps around appends a row. */
  ghost predicate NoneSilent(deltas: seq<SrcMapElem>) {
    forall i {:trigger deltas[i]} | 0 <= i < |deltas| ::
      OpcodeWraps(deltas[i].from, deltas[i].to) ==> Shows(SpecialOpcode(deltas[i].from, deltas[i].to))
  }

  lemma {:induction false} EntriesExact(f: Fate, deltas: seq<SrcMapElem>)
    ensures EntriesFate(f, deltas).Exact? <==> f.Exact? && NoneWraps(deltas)
    ensures EntriesFate(f, deltas).Shifted? ==> deltas == []
    ensures NoneSilent(deltas) && !f.Unclear? ==> !EntriesFate(f, deltas).Unclear?
  {
    if deltas != [] {
      EntriesExact(f, deltas[..|deltas| - 1]);
    }
  }

  /** What one can check of a method beforehand: no opcode wraps around, and the step back to line 1 fits. */
  ghost predicate Plain(line: int, sorted: seq<SrcMapElem>, m: DebugMethod)
    requires Encodable(sorted, m)
  {
    var kept := Kept(sorted, m.highPc);
    kept == [] || (AsInt(1 - line) == 1 - line && NoneWraps(Deltas(kept, StartOf(m))))
  }

  ghost predicate Visible(sorted: seq<SrcMapElem>, m: DebugMethod)
    requires Encodable(sorted, m)
  {
    NoneSilent(Deltas(Kept(sorted, m.highPc), StartOf(m)))
  }

  lemma MethodExact(f: Fate, line: Int32, sorted: seq<SrcMapElem>, m: DebugMethod)
    requires Encodable(sorted, m) && !f.Shifted?
    ensures MethodFate(f, line, sorted, m).Exact? <==> f.Exact? && Plain(line, sorted, m)
    ensures !MethodFate(f, line, sorted, m).Shifted?
    ensures Visible(sorted, m) && !f.Unclear? ==> !MethodFate(f, line, sorted, m).Unclear?
  {
    EntriesExact(LineFate(f, 1 - line), Deltas(Kept(sorted, m.highPc), StartOf(m)));
  }

  ghost predicate PlainAt(methods: seq<DebugMethod>, sorts: seq<seq<SrcMapElem>>, i: nat)
    requires AllEncodable(methods, sorts) && i < |methods|
  {
    Encodable(sorts[i], methods[i]) && Plain(EndLine(methods[..i], sorts[..i]), sorts[i], methods[i])
  }

  ghost predicate VisibleAt(methods: seq<DebugMethod>, sorts: seq<seq<SrcMapElem>>, i: nat)
    requires AllEncodable(methods, sorts) && i < |methods|
  {
    Encodable(sorts[i], methods[i]) && Visible(sorts[i], methods[i])
  }

  ghost predicate AllPlain(methods: seq<DebugMethod>, sorts: seq<seq<SrcMapElem>>)
    requires AllEncodable(methods, sorts)
  {
    forall i {:trigger PlainAt(methods, sorts, i)} | 0 <= i < |methods| :: PlainAt(methods, sorts, i)
  }

  ghost predicate AllVisible(methods: seq<DebugMethod>, sorts: seq<seq<SrcMapElem>>)
    requires AllEncodable(methods, sorts)
  {
    forall i {:trigger VisibleAt(methods, sorts, i)} | 0 <= i < |methods| :: VisibleAt(methods, sorts, i)
  }

  /** The fate is exact if and only if all methods are plain; it is open only if some opcode wraps around
      to one that appends no row. */
  lemma {:induction false} ProgramExact(methods: seq<DebugMethod>, sorts: seq<seq<SrcMapElem>>)
    requires AllEncodable(methods, sorts)
    ensures ProgramFate(methods, sorts).Exact? <==> AllPlain(methods, sorts)
    ensures !ProgramFate(methods, sorts).Shifted?
    ensures AllVisible(methods, sorts) ==> !ProgramFate(methods, sorts).Unclear?
  {
    if methods != [] {
      var n := |methods| - 1;
      var front, rest := methods[..n], sorts[..n];
      ProgramExact(front, rest);
      PlainFront(methods, sorts);
      MethodExact(ProgramFate(front, rest), EndLine(front, rest), sorts[n], methods[n]);
      assert PlainAt(methods, sorts, n) <==> Plain(EndLine(front, rest), sorts[n], methods[n]);
      assert VisibleAt(methods, sorts, n) <==> Visible(sorts[n], methods[n]);
    }
  }

  lemma SamePrefix(methods: seq<DebugMethod>, sorts: seq<seq<SrcMapElem>>, n: nat, i: nat)
    requires AllEncodable(methods, sorts) && i < n <= |methods|
    ensures AllEncodable(methods[..n], sorts[..n])
    ensures PlainAt(methods, sorts, i) <==> PlainAt(methods[..n], sorts[..n], i)
    ensures VisibleAt(methods, sorts, i) <==> VisibleAt(methods[..n], sorts[..n], i)
  {
    assert methods[..n][..i] == methods[..i] && sorts[..n][..i] == sorts[..i];
  }

  lemma PlainFront(methods: seq<DebugMethod>, sorts: seq<seq<SrcMapElem>>)
    requires AllEncodable(methods, sorts) && methods != []
    ensures var n := |methods| - 1;
            && AllEncodable(methods[..n], sorts[..n])
            && (AllPlain(methods, sorts) <==> AllPlain(methods[..n], sorts[..n]) && PlainAt(methods, sorts, n))
            && (AllVisible(methods, sorts) <==> AllVisible(methods[..n], sorts[..n]) && VisibleAt(methods, sorts, n))
  {
    var n := |methods| - 1;
    forall i | 0 <= i < n
      ensures PlainAt(methods, sorts, i) <==> PlainAt(methods[..n], sorts[..n], i)
      ensures VisibleAt(methods, sorts, i) <==> VisibleAt(methods[..n], sorts[..n], i)
    {
      SamePrefix(methods, sorts, n, i);
    }
  }

  /** The reader gets the expected rows if and only if no opcode wraps around and every step back to line 1
      fits, provided that no opcode wraps around to one that appends no row. */
  lemma {:induction false} ProgramRightIffPlain(program: seq<Byte>, methods: seq<DebugMethod>,
                                                sorts: seq<seq<SrcMapElem>>, files: seq<FileName>, textOffset: Word32,
                                                last: Row)
    requires AllEncodable(methods, sorts) && Meant(program, methods, sorts, files, textOffset, last)
    requires AllVisible(methods, sorts)
    ensures BeginsWith(Run(program, Initial()), ExpectedRows(methods, sorts, files, textOffset))
       <==> AllPlain(methods, sorts)
  {
    ProgramExact(methods, sorts);
  }
}
