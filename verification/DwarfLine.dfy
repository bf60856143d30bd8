/**
 The line-number state machine of section 6.2 of DWARF version 4, for a header with
 minimum_instruction_length 1, line_base -5, line_range 14, opcode_base 13 and four-byte
 addresses: the reader of what the line table generator writes.
 */
module DwarfLine {
  import opened Bytes
  import opened Leb128

  const LINE_BASE: int := -5
  const LINE_RANGE: int := 14
  const OPCODE_BASE: int := 13

  /** The registers of section 6.2.2 that rows report. */
  datatype Registers = Registers(address: Word32, file: int, line: int)

  datatype Row = Row(address: Word32, file: int, line: int, endSequence: bool)

  datatype Table = Malformed | Table(rows: seq<Row>)

  function Initial(): Registers {
    Registers(0, 1, 1)
  }

  function Advance(r: Registers, delta: nat): Registers {
    r.(address := (r.address + delta) % TWO32)
  }

  function RowOf(r: Registers): Row {
    Row(r.address, r.file, r.line, false)
  }

  function Prepend(rows: seq<Row>, t: Table): Table {
    if t.Malformed? then Malformed else Table(rows + t.rows)
  }

  /** The rows a program appends when it runs from registers `r`. */
  function Run(p: seq<Byte>, r: Registers): Table
    decreases |p|, 0
  {
    if p == [] then Table([])
    else if p[0] >= OPCODE_BASE then
      var r' := AfterSpecial(p[0], r);
      Prepend([RowOf(r')], Run(p[1..], r'))
    else if p[0] == 0 then RunExtended(p[1..], r)
    else RunStandard(p[0], p[1..], r)
  }

  /** Section 6.2.5.1. */
  function AfterSpecial(opcode: Byte, r: Registers): Registers
    requires opcode >= OPCODE_BASE
  {
    var adjusted := opcode - OPCODE_BASE;
    Advance(r, adjusted / LINE_RANGE).(line := r.line + LINE_BASE + adjusted % LINE_RANGE)
  }

  /** Section 6.2.5.2. */
  function RunStandard(opcode: Byte, p: seq<Byte>, r: Registers): Table
    requires 0 < opcode < OPCODE_BASE
    decreases |p|, 1
  {
    match opcode
    case 1 => Prepend([RowOf(r)], Run(p, r))
    case 2 => (match DecodeUnsigned(p)
               case Truncated => Malformed
               case Decoded(v, rest) => Run(rest, Advance(r, v)))
    case 3 => (match DecodeSigned(p)
               case Truncated => Malformed
               case Decoded(v, rest) => Run(rest, r.(line := r.line + v)))
    case 4 => (match DecodeUnsigned(p)
               case Truncated => Malformed
               case Decoded(v, rest) => Run(rest, r.(file := v)))
    case 5 => (match DecodeUnsigned(p)
               case Truncated => Malformed
               case Decoded(_, rest) => Run(rest, r))
    case 8 => Run(p, Advance(r, (255 - OPCODE_BASE) / LINE_RANGE))
    case 9 => if |p| < 2 then Malformed else Run(p[2..], Advance(r, p[0] as int + 256 * p[1] as int))
    case 12 => (match DecodeUnsigned(p)
                case Truncated => Malformed
                case Decoded(_, rest) => Run(rest, r))
    case _ => Run(p, r)
  }

  /** Section 6.2.5.3: a length, an opcode, and its arguments. */
  function RunExtended(p: seq<Byte>, r: Registers): Table
    decreases |p|, 1
  {
    match DecodeUnsigned(p)
    case Truncated => Malformed
    case Decoded(length, rest) =>
      if length == 0 || |rest| < length then Malformed
      else if rest[0] == 1 then
        Prepend([Row(r.address, r.file, r.line, true)], Run(rest[length..], Initial()))
      else if rest[0] == 2 then
        if length != 5 then Malformed else Run(rest[length..], r.(address := BytesWord(rest[1..5])))
      else Run(rest[length..], r)
  }

  // ----- one instruction in front of the rest of a program -----

  lemma {:induction false} RunAdvancePc(delta: nat, rest: seq<Byte>, r: Registers)
    ensures Run([2] + EncodeUnsigned(delta) + rest, r) == Run(rest, Advance(r, delta))
  {
    var p := [2] + EncodeUnsigned(delta) + rest;
    assert p[1..] == EncodeUnsigned(delta) + rest;
    UnsignedRoundTrip(delta, rest);
  }

  lemma {:induction false} RunAdvanceLine(delta: int, rest: seq<Byte>, r: Registers)
    ensures Run([3] + EncodeSigned(delta) + rest, r) == Run(rest, r.(line := r.line + delta))
  {
    var p := [3] + EncodeSigned(delta) + rest;
    assert p[1..] == EncodeSigned(delta) + rest;
    SignedRoundTrip(delta, rest);
  }

  lemma {:induction false} RunSetFile(file: nat, rest: seq<Byte>, r: Registers)
    ensures Run([4] + EncodeUnsigned(file) + rest, r) == Run(rest, r.(file := file))
  {
    var p := [4] + EncodeUnsigned(file) + rest;
    assert p[1..] == EncodeUnsigned(file) + rest;
    UnsignedRoundTrip(file, rest);
  }

  lemma {:induction false} RunCopy(rest: seq<Byte>, r: Registers)
    ensures Run([1] + rest, r) == Prepend([RowOf(r)], Run(rest, r))
  {
    assert ([1] + rest)[1..] == rest;
  }

  lemma {:induction false} RunSpecial(opcode: Byte, rest: seq<Byte>, r: Registers)
    requires opcode >= OPCODE_BASE
    ensures Run([opcode] + rest, r) == Prepend([RowOf(AfterSpecial(opcode, r))], Run(rest, AfterSpecial(opcode, r)))
  {
    assert ([opcode] + rest)[1..] == rest;
  }

  lemma {:induction false} RunSetAddress(address: Word32, rest: seq<Byte>, r: Registers)
    ensures Run([0, 5, 2] + WordBytes(address) + rest, r) == Run(rest, r.(address := address))
  {
    var p := [0, 5, 2] + WordBytes(address) + rest;
    var args := [2] + WordBytes(address) + rest;
    assert p[1..] == EncodeUnsigned(5) + args;
    UnsignedRoundTrip(5, args);
    assert args[1..5] == WordBytes(address) && args[5..] == rest;
    WordRoundTrip(address);
  }

  lemma {:induction false} RunEndSequence(rest: seq<Byte>, r: Registers)
    ensures Run([0, 1, 1] + rest, r)
         == Prepend([Row(r.address, r.file, r.line, true)], Run(rest, Initial()))
  {
    var p := [0, 1, 1] + rest;
    assert p[1..] == EncodeUnsigned(1) + ([1] + rest);
    UnsignedRoundTrip(1, [1] + rest);
    assert ([1] + rest)[1..] == rest;
  }

  // ----- programs that are written piece by piece -----

  /** Whatever follows `data`, running it first appends `rows` and then continues from `r`. */
  ghost predicate Appends(data: seq<Byte>, from: Registers, rows: seq<Row>, r: Registers) {
    forall rest: seq<Byte> :: Run(data + rest, from) == Prepend(rows, Run(rest, r))
  }

  lemma AppendsNothing(from: Registers)
    ensures Appends([], from, [], from)
  {
    forall rest: seq<Byte> ensures Run([] + rest, from) == Prepend([], Run(rest, from)) {
      assert [] + rest == rest;
    }
  }

  lemma AppendsMore(data: seq<Byte>, from: Registers, rows: seq<Row>, r: Registers,
                    data': seq<Byte>, rows': seq<Row>, r': Registers)
    requires Appends(data, from, rows, r) && Appends(data', r, rows', r')
    ensures Appends(data + data', from, rows + rows', r')
  {
    forall rest: seq<Byte>
      ensures Run(data + data' + rest, from) == Prepend(rows + rows', Run(rest, r'))
    {
      assert data + data' + rest == data + (data' + rest);
      assert Run(data' + rest, r) == Prepend(rows', Run(rest, r'));
      if !Run(rest, r').Malformed? {
        assert rows + (rows' + Run(rest, r').rows) == rows + rows' + Run(rest, r').rows;
      }
    }
  }

  /** A finished program yields exactly its rows. */
  lemma {:induction false} AppendsAll(data: seq<Byte>, from: Registers, rows: seq<Row>, r: Registers)
    requires Appends(data, from, rows, r)
    ensures Run(data, from) == Table(rows)
  {
    assert data + [] == data;
    assert Run(data + [], from) == Prepend(rows, Run([], r));
  }
}
