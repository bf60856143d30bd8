/**
 From the debug information of a dex method to its native line map: the positions decoded from
 the debug stream are joined with the table from native pc to dex pc.
 */
module JavaLines {
  import opened Bytes
  import opened Leb128
  import opened SrcMaps

  // ----- reference: the debug_info_item of the dex format -----

  const FIRST_SPECIAL: int := 0x0a
  const DEX_LINE_BASE: int := -4
  const DEX_LINE_RANGE: int := 15

  datatype DebugOp =
    | AdvancePc(delta: Word32)
    | AdvanceLine(lineDelta: Int32)
    | StartLocal(register: Word32, name: Word32, typ: Word32)
    | StartLocalExtended(register: Word32, name: Word32, typ: Word32, signature: Word32)
    | EndLocal(register: Word32)
    | RestartLocal(register: Word32)
    | SetPrologueEnd
    | SetEpilogueBegin
    | SetFile(name: Word32)
    | Special(opcode: Byte)

  predicate ValidOp(op: DebugOp) {
    op.Special? ==> op.opcode >= FIRST_SPECIAL
  }

  function EncodeOp(op: DebugOp): seq<Byte> {
    match op
    case AdvancePc(d) => [0x01] + EncodeUnsigned(d)
    case AdvanceLine(d) => [0x02] + EncodeSigned(d)
    case StartLocal(r, n, t) => [0x03] + EncodeWords([r, n, t])
    case StartLocalExtended(r, n, t, s) => [0x04] + EncodeWords([r, n, t, s])
    case EndLocal(r) => [0x05] + EncodeWords([r])
    case RestartLocal(r) => [0x06] + EncodeWords([r])
    case SetPrologueEnd => [0x07]
    case SetEpilogueBegin => [0x08]
    case SetFile(n) => [0x09] + EncodeUnsigned(n)
    case Special(opcode) => [opcode]
  }

  /** The operations of a stream, closed by the end marker. */
  function EncodeOps(ops: seq<DebugOp>): seq<Byte> {
    if ops == [] then [0x00] else EncodeOp(ops[0]) + EncodeOps(ops[1..])
  }

  function EncodeWords(words: seq<Word32>): seq<Byte> {
    if words == [] then [] else EncodeUnsigned(words[0]) + EncodeWords(words[1..])
  }

  /** A whole stream: starting line, parameter names, operations. */
  function EncodeStream(line: Word32, parameters: seq<Word32>, ops: seq<DebugOp>): seq<Byte>
    requires |parameters| < TWO32
  {
    EncodeUnsigned(line) + (EncodeUnsigned(|parameters|) + (EncodeWords(parameters) + EncodeOps(ops)))
  }

  /** A position: a dex pc and the source line that starts there. */
  datatype Position = Position(dexPc: Word32, line: Word32)

  /** The positions the operations define. */
  function Positions(ops: seq<DebugOp>, at: Position): seq<Position> {
    if ops == [] then []
    else match ops[0]
      case AdvancePc(d) => Positions(ops[1..], at.(dexPc := (at.dexPc + d) % TWO32))
      case AdvanceLine(d) => Positions(ops[1..], at.(line := (at.line as int + d) % TWO32))
      case Special(opcode) => [AfterSpecial(opcode, at)] + Positions(ops[1..], AfterSpecial(opcode, at))
      case _ => Positions(ops[1..], at)
  }

  function AfterSpecial(opcode: Byte, at: Position): Position {
    var adjusted: int := opcode - FIRST_SPECIAL;
    Position((at.dexPc + adjusted / DEX_LINE_RANGE) % TWO32,
             (at.line + DEX_LINE_BASE + adjusted % DEX_LINE_RANGE) % TWO32)
  }

  // ----- the scan of the writer -----

  datatype Scan = Broken | Scan(positions: seq<Position>)

  function Before(p: Position, s: Scan): Scan {
    if s.Broken? then Broken else Scan([p] + s.positions)
  }

  /** Skips `n` unsigned numbers. */
  function SkipWords(bytes: seq<Byte>, n: nat): (d: Decoded)
    ensures d.Decoded? ==> |d.rest| <= |bytes|
  {
    if n == 0 then Decoded(0, bytes)
    else match DecodeWord(bytes)
      case Truncated => Truncated
      case Decoded(_, rest) => SkipWords(rest, n - 1)
  }

  /** One operation as read: the bytes are bad, the stream ends, the registers move, or they move and
      the position they reach is defined. */
  datatype Next = Bad | Ended | Moved(rest: seq<Byte>, at: Position) | Defined(rest: seq<Byte>, at: Position)

  /** Every opcode as the writer's loop treats it. Opcode 9 (set file) is taken to have no operand. */
  function ReadNext(bytes: seq<Byte>, at: Position): (n: Next)
    requires bytes != []
    ensures n.Moved? || n.Defined? ==> |n.rest| < |bytes|
  {
    ReadOperands(bytes[0], bytes[1..], at)
  }

  function ReadOperands(opcode: Byte, rest: seq<Byte>, at: Position): (n: Next)
    ensures n.Moved? || n.Defined? ==> |n.rest| <= |rest|
  {
    match opcode
    case 0 => Ended
    case 1 => (match DecodeWord(rest)
               case Truncated => Bad
               case Decoded(d, rest') => Moved(rest', at.(dexPc := (at.dexPc + d) % TWO32)))
    case 2 => (match DecodeInt(rest)
               case Truncated => Bad
               case Decoded(d, rest') => Moved(rest', at.(line := (at.line + d) % TWO32)))
    case 3 => Skipped(SkipWords(rest, 3), at)
    case 4 => Skipped(SkipWords(rest, 4), at)
    case 5 => Skipped(SkipWords(rest, 1), at)
    case 6 => Skipped(SkipWords(rest, 1), at)
    case 7 => Moved(rest, at)
    case 8 => Moved(rest, at)
    case 9 => Moved(rest, at)
    case _ => Defined(rest, AfterSpecial(opcode, at))
  }

  function Skipped(d: Decoded, at: Position): Next {
    if d.Truncated? then Bad else Moved(d.rest, at)
  }

  /** What the writer reads from the operations. */
  function ScanOps(bytes: seq<Byte>, at: Position): Scan
    decreases |bytes|
  {
    if bytes == [] then Broken
    else match ReadNext(bytes, at)
      case Bad => Broken
      case Ended => Scan([])
      case Moved(rest, at') => ScanOps(rest, at')
      case Defined(rest, at') => Before(at', ScanOps(rest, at'))
  }

  lemma SpecialParts(a: nat, d: int)
    requires -4 <= d <= 10
    ensures (d + 4 + 15 * a) / 15 == a && (d + 4 + 15 * a) % 15 == d + 4
  {
  }

  lemma SpecialAfter(a: nat, d: int, at: Position)
    requires -4 <= d <= 10 && 0x0a + (d + 4) + 15 * a <= 255
    ensures AfterSpecial(0x0a + (d + 4) + 15 * a, at)
         == Position((at.dexPc + a) % 0x1_0000_0000, (at.line + d) % 0x1_0000_0000)
  {
    SpecialParts(a, d);
  }

  /** A special operation, by what the dex format means with its opcode: the dex pc moves by `a` and the line
      by `d`, for the format as for the writer. */
  lemma SpecialMoves(a: nat, d: int, at: Position, ops: seq<DebugOp>, bytes: seq<Byte>)
    requires -4 <= d <= 10 && 0x0a + (d + 4) + 15 * a <= 255
    ensures var opcode: Byte := 0x0a + (d + 4) + 15 * a;
            var p := Position((at.dexPc + a) % 0x1_0000_0000, (at.line + d) % 0x1_0000_0000);
            var rest := ScanOps(bytes, p);
            && Positions([Special(opcode)] + ops, at) == [p] + Positions(ops, p)
            && ScanOps([opcode] + bytes, at) == if rest.Broken? then Broken else Scan([p] + rest.positions)
  {
    var opcode: Byte := 0x0a + (d + 4) + 15 * a;
    SpecialAfter(a, d, at);
    assert ([Special(opcode)] + ops)[1..] == ops && ([opcode] + bytes)[1..] == bytes;
  }

  /** Every special opcode is one of these. */
  lemma SpecialIs(opcode: Byte) returns (a: nat, d: int)
    requires opcode >= 0x0a
    ensures -4 <= d <= 10 && opcode == 0x0a + (d + 4) + 15 * a
  {
    a, d := (opcode - 0x0a) / 15, (opcode - 0x0a) % 15 - 4;
  }

  /** The scan of a whole stream. */
  function ScanStream(bytes: seq<Byte>): Scan {
    match DecodeWord(bytes)
    case Truncated => Broken
    case Decoded(line, rest) =>
      match DecodeWord(rest)
      case Truncated => Broken
      case Decoded(count, rest') =>
        match SkipWords(rest', count)
        case Truncated => Broken
        case Decoded(_, ops) => ScanOps(ops, Position(0, line))
  }

  lemma {:induction false} WordThen(v: Word32, rest: seq<Byte>)
    ensures DecodeWord(EncodeUnsigned(v) + rest) == Decoded(v, rest)
  {
    WordDecodes(v, rest, 0);
  }

  lemma {:induction false} WordsThen(words: seq<Word32>, rest: seq<Byte>)
    ensures SkipWords(EncodeWords(words) + rest, |words|) == Decoded(0, rest)
  {
    if words == [] {
      assert EncodeWords(words) + rest == rest;
    } else {
      assert EncodeWords(words) + rest == EncodeUnsigned(words[0]) + (EncodeWords(words[1..]) + rest);
      WordThen(words[0], EncodeWords(words[1..]) + rest);
      WordsThen(words[1..], rest);
    }
  }

  // ----- one operation in front of the others -----

  lemma OpcodeFirst(opcode: Byte, operands: seq<Byte>, rest: seq<Byte>, at: Position)
    ensures ReadNext([opcode] + operands + rest, at) == ReadOperands(opcode, operands + rest, at)
  {
    assert ([opcode] + operands + rest)[1..] == operands + rest;
  }

  lemma {:induction false} NextWords(opcode: Byte, words: seq<Word32>, rest: seq<Byte>, at: Position)
    requires (opcode == 3 && |words| == 3) || (opcode == 4 && |words| == 4) || (5 <= opcode <= 6 && |words| == 1)
    ensures ReadNext([opcode] + EncodeWords(words) + rest, at) == Moved(rest, at)
  {
    OpcodeFirst(opcode, EncodeWords(words), rest, at);
    WordsThen(words, rest);
    OperandsSkipped(opcode, |words|, EncodeWords(words) + rest, rest, at);
  }

  lemma {:induction false} OperandsSkipped(opcode: Byte, n: nat, operands: seq<Byte>, rest: seq<Byte>, at: Position)
    requires (opcode == 3 && n == 3) || (opcode == 4 && n == 4) || (5 <= opcode <= 6 && n == 1)
    requires SkipWords(operands, n) == Decoded(0, rest)
    ensures ReadOperands(opcode, operands, at) == Moved(rest, at)
  {
  }

  lemma {:induction false} NextAdvancePc(delta: Word32, rest: seq<Byte>, at: Position)
    ensures ReadNext([0x01] + EncodeUnsigned(delta) + rest, at) == Moved(rest, After(AdvancePc(delta), at))
  {
    OpcodeFirst(1, EncodeUnsigned(delta), rest, at);
    WordThen(delta, rest);
    PcRead(EncodeUnsigned(delta) + rest, delta, rest, at);
  }

  lemma PcRead(operands: seq<Byte>, delta: Word32, rest: seq<Byte>, at: Position)
    requires DecodeWord(operands) == Decoded(delta, rest)
    ensures ReadOperands(1, operands, at) == Moved(rest, After(AdvancePc(delta), at))
  {
  }

  lemma {:induction false} NextAdvanceLine(delta: Int32, rest: seq<Byte>, at: Position)
    ensures ReadNext([0x02] + EncodeSigned(delta) + rest, at) == Moved(rest, After(AdvanceLine(delta), at))
  {
    OpcodeFirst(2, EncodeSigned(delta), rest, at);
    IntDecodes(delta, rest, 0);
    LineRead(EncodeSigned(delta) + rest, delta, rest, at);
  }

  lemma LineRead(operands: seq<Byte>, delta: Int32, rest: seq<Byte>, at: Position)
    requires DecodeInt(operands) == Decoded(delta, rest)
    ensures ReadOperands(2, operands, at) == Moved(rest, After(AdvanceLine(delta), at))
  {
  }

  /** Opcodes without operands. */
  lemma NextPlain(opcode: Byte, rest: seq<Byte>, at: Position)
    requires opcode >= 7
    ensures ReadNext([opcode] + rest, at) ==
            if opcode >= FIRST_SPECIAL then Defined(rest, AfterSpecial(opcode, at)) else Moved(rest, at)
  {
    assert ([opcode] + rest)[1..] == rest;
  }

  lemma NextLocal(op: DebugOp, rest: seq<Byte>, at: Position)
    requires op.StartLocal? || op.StartLocalExtended? || op.EndLocal? || op.RestartLocal?
    ensures ReadNext(EncodeOp(op) + rest, at) == Moved(rest, at)
  {
    match op
    case StartLocal(r, n, t) => NextWords(3, [r, n, t], rest, at);
    case StartLocalExtended(r, n, t, s) => NextWords(4, [r, n, t, s], rest, at);
    case EndLocal(r) => NextWords(5, [r], rest, at);
    case RestartLocal(r) => NextWords(6, [r], rest, at);
  }

  /** The state after an operation other than the last. */
  function After(op: DebugOp, at: Position): Position {
    match op
    case AdvancePc(d) => at.(dexPc := (at.dexPc + d) % TWO32)
    case AdvanceLine(d) => at.(line := (at.line as int + d) % TWO32)
    case Special(opcode) => AfterSpecial(opcode, at)
    case _ => at
  }

  /** Every operation but a set-file operation is read as it is meant. */
  lemma NextOf(op: DebugOp, rest: seq<Byte>, at: Position)
    requires ValidOp(op) && !op.SetFile?
    ensures ReadNext(EncodeOp(op) + rest, at) ==
            if op.Special? then Defined(rest, After(op, at)) else Moved(rest, After(op, at))
  {
    if op.AdvancePc? {
      NextAdvancePc(op.delta, rest, at);
    } else if op.AdvanceLine? {
      NextAdvanceLine(op.lineDelta, rest, at);
    } else if op.SetPrologueEnd? || op.SetEpilogueBegin? || op.Special? {
      NextPlain(EncodeOp(op)[0], rest, at);
    } else {
      NextLocal(op, rest, at);
    }
  }

  lemma {:induction false} ScanOp(op: DebugOp, rest: seq<Byte>, at: Position)
    requires ValidOp(op) && !op.SetFile?
    ensures ScanOps(EncodeOp(op) + rest, at) ==
            if op.Special? then Before(After(op, at), ScanOps(rest, After(op, at))) else ScanOps(rest, After(op, at))
  {
    NextOf(op, rest, at);
  }

  lemma {:induction false} ScanFile(name: Word32, rest: seq<Byte>, at: Position)
    requires 7 <= name <= 9
    ensures ScanOps(EncodeOp(SetFile(name)) + rest, at) == ScanOps(rest, at)
  {
    SetFileMisread(name, rest, at);
    NextPlain(name as Byte, rest, at);
  }

  /** An operation the scan reads as it is meant: any but a set-file operation, save those whose
      operand happens to be an opcode without effect. */
  predicate Readable(op: DebugOp) {
    ValidOp(op) && (op.SetFile? ==> 7 <= op.name <= 9)
  }

  /** The scan finds exactly the positions of a stream of readable operations. */
  lemma {:induction false} ScanIsExact(ops: seq<DebugOp>, rest: seq<Byte>, at: Position)
    requires forall i | 0 <= i < |ops| :: Readable(ops[i])
    ensures ScanOps(EncodeOps(ops) + rest, at) == Scan(Positions(ops, at))
  {
    if ops != [] {
      var tail := EncodeOps(ops[1..]) + rest;
      assert EncodeOps(ops) + rest == EncodeOp(ops[0]) + tail;
      if ops[0].SetFile? {
        ScanFile(ops[0].name, tail, at);
      } else {
        ScanOp(ops[0], tail, at);
      }
      ScanIsExact(ops[1..], rest, After(ops[0], at));
    }
  }

  lemma {:induction false} StreamIsExact(line: Word32, parameters: seq<Word32>, ops: seq<DebugOp>)
    requires |parameters| < TWO32
    requires forall i | 0 <= i < |ops| :: Readable(ops[i])
    ensures ScanStream(EncodeStream(line, parameters, ops)) == Scan(Positions(ops, Position(0, line)))
  {
    var tail := EncodeWords(parameters) + EncodeOps(ops);
    WordThen(line, EncodeUnsigned(|parameters|) + tail);
    WordThen(|parameters|, tail);
    WordsThen(parameters, EncodeOps(ops));
    assert EncodeOps(ops) + [] == EncodeOps(ops);
    ScanIsExact(ops, [], Position(0, line));
  }

  /** The operand of a set-file operation is read as operations of its own. */
  lemma {:induction false} SetFileMisread(name: Word32, rest: seq<Byte>, at: Position)
    ensures ScanOps(EncodeOp(SetFile(name)) + rest, at) == ScanOps(EncodeUnsigned(name) + rest, at)
  {
    assert (EncodeOp(SetFile(name)) + rest)[1..] == EncodeUnsigned(name) + rest;
  }

  /** A set-file operation goes unnoticed in every stream. */
  ghost predicate Unnoticed(name: Word32) {
    forall rest: seq<Byte>, at: Position :: ScanOps(EncodeOp(SetFile(name)) + rest, at) == ScanOps(rest, at)
  }

  /** This is so for exactly three operands: those that read as opcodes without effect. */
  lemma SetFileUnnoticed(name: Word32)
    ensures Unnoticed(name) <==> 7 <= name <= 9
  {
    if 7 <= name <= 9 {
      forall rest: seq<Byte>, at: Position ensures ScanOps(EncodeOp(SetFile(name)) + rest, at) == ScanOps(rest, at) {
        ScanFile(name, rest, at);
      }
    } else {
      var at := Position(0, 1);
      var rest: seq<Byte> := if name == 0 then [0x0e, 0x00] else [0x00];
      SetFileMisread(name, rest, at);
      OperandNoticed(name, rest, at);
      assert ScanOps(EncodeOp(SetFile(name)) + rest, at) != ScanOps(rest, at);
    }
  }

  lemma {:induction false} OperandNoticed(name: Word32, rest: seq<Byte>, at: Position)
    requires !(7 <= name <= 9)
    requires rest == if name == 0 then [0x0e, 0x00] else [0x00]
    ensures ScanOps(EncodeUnsigned(name) + rest, at) != ScanOps(rest, at)
  {
    var bytes := EncodeUnsigned(name) + rest;
    if name == 0 {
      assert rest[1..] == [0x00];
    } else if name < 128 {
      assert bytes == [name as Byte, 0x00] && bytes[1..] == [0x00] && [0x00][1..] == [];
    }
  }

  // ----- the join -----

  function ToInt32(w: Word32): Int32 {
    if w < 0x8000_0000 then w else w - TWO32
  }

  /** The entries of the pc table that belong to a dex pc, in table order. */
  function EntriesOf(table: seq<SrcMapElem>, to: Int32): seq<SrcMapElem> {
    if table == [] then []
    else
      var n := |table| - 1;
      EntriesOf(table[..n], to) + if table[n].to == to then [table[n]] else []
  }

  /** The native lines of one position: one entry per native pc that maps to its dex pc. */
  function LinesAt(entries: seq<SrcMapElem>, line: Word32, startPc: Word32): (lines: seq<SrcMapElem>)
    ensures |lines| == |entries|
  {
    seq(|entries|, i requires 0 <= i < |entries| =>
      SrcMapElem((entries[i].from + startPc) % TWO32, ToInt32(line)))
  }

  /** The join of the positions with the pc table. */
  function Join(positions: seq<Position>, table: seq<SrcMapElem>, startPc: Word32): seq<SrcMapElem> {
    if positions == [] then []
    else
      LinesAt(EntriesOf(table, ToInt32(positions[0].dexPc)), positions[0].line, startPc)
      + Join(positions[1..], table, startPc)
  }

  lemma {:induction false} EntriesConcat(a: seq<SrcMapElem>, b: seq<SrcMapElem>, to: Int32)
    ensures EntriesOf(a + b, to) == EntriesOf(a, to) + EntriesOf(b, to)
  {
    if b == [] {
      assert a + b == a;
    } else {
      var n := |b| - 1;
      assert (a + b)[..|a| + n] == a + b[..n];
      EntriesConcat(a, b[..n], to);
    }
  }

  lemma {:induction false} NoEntries(table: seq<SrcMapElem>, to: Int32)
    requires forall i | 0 <= i < |table| :: table[i].to != to
    ensures EntriesOf(table, to) == []
  {
    if table != [] { NoEntries(table[..|table| - 1], to); }
  }

  lemma {:induction false} AllEntries(table: seq<SrcMapElem>, to: Int32)
    requires forall i | 0 <= i < |table| :: table[i].to == to
    ensures EntriesOf(table, to) == table
  {
    if table != [] { AllEntries(table[..|table| - 1], to); }
  }

  lemma {:induction false} EntriesOfThree(a: seq<SrcMapElem>, b: seq<SrcMapElem>, c: seq<SrcMapElem>, to: Int32)
    requires forall i | 0 <= i < |a| :: a[i].to != to
    requires forall i | 0 <= i < |b| :: b[i].to == to
    requires forall i | 0 <= i < |c| :: c[i].to != to
    ensures EntriesOf(a + b + c, to) == b
  {
    EntriesConcat(a + b, c, to);
    EntriesConcat(a, b, to);
    NoEntries(a, to);
    AllEntries(b, to);
    NoEntries(c, to);
  }

  /** The contiguous run of entries found by the lower bound is all entries of that dex pc. */
  lemma {:induction false} RunIsEntries(table: seq<SrcMapElem>, to: Int32, k: nat, e: nat)
    requires k <= e <= |table|
    requires forall i | 0 <= i < k :: table[i].to != to
    requires forall i | k <= i < e :: table[i].to == to
    requires forall i | e <= i < |table| :: table[i].to != to
    ensures EntriesOf(table, to) == table[k..e]
  {
    var a, b, c := table[..k], table[k..e], table[e..];
    assert table == a + b + c;
    EntriesOfThree(a, b, c, to);
  }

  /** The lookup loop for one position. */
  method AppendLines(pc2dex: SrcMap, at: Position, result: seq<SrcMapElem>, startPc: Word32)
    returns (result': seq<SrcMapElem>)
    requires StrictlyIncreasing(pc2dex.elems)
    ensures result' == result + LinesAt(EntriesOf(pc2dex.elems, ToInt32(at.dexPc)), at.line, startPc)
  {
    var table, to := pc2dex.elems, ToInt32(at.dexPc);
    var k := pc2dex.FindByTo(to);
    var found := k;
    result' := result;
    while found < |table| && table[found].to == to
      invariant k <= found <= |table|
      invariant forall i | k <= i < found :: table[i].to == to
      invariant result' == result + LinesAt(table[k..found], at.line, startPc)
    {
      result' := result' + [SrcMapElem((table[found].from + startPc) % TWO32, ToInt32(at.line))];
      assert table[k..found + 1] == table[k..found] + [table[found]];
      found := found + 1;
    }
    if found < |table| {
      forall i | found <= i < |table| ensures table[i].to != to {
        if i > found { PackedOrder(table[found], table[i]); }
      }
    }
    RunIsEntries(table, to, k, found);
  }

  /** The switch of the decoding loop. Operands of local variables are decoded and dropped. */
  method DecodeOp(stream: seq<Byte>, at: Position) returns (n: Next)
    requires stream != []
    ensures n == ReadNext(stream, at)
  {
    var opcode, rest := stream[0], stream[1..];
    if opcode == 0 {
      n := Ended;
    } else if opcode == 1 {
      var d := DecodeWord(rest);
      n := if d.Truncated? then Bad else Moved(d.rest, at.(dexPc := (at.dexPc + d.value) % TWO32));
    } else if opcode == 2 {
      var d := DecodeInt(rest);
      n := if d.Truncated? then Bad else Moved(d.rest, at.(line := (at.line + d.value) % TWO32));
    } else if 3 <= opcode <= 6 {
      var d := DropOperands(rest, opcode);
      n := Skipped(d, at);
    } else if opcode <= 9 {
      n := Moved(rest, at);
    } else {
      n := Defined(rest, AfterSpecial(opcode, at));
    }
  }

  /** Three operands for a local that starts, one more if it has a signature, one for any other. */
  method DropOperands(stream: seq<Byte>, opcode: Byte) returns (d: Decoded)
    requires 3 <= opcode <= 6
    ensures d == SkipWords(stream, if opcode == 3 then 3 else if opcode == 4 then 4 else 1)
  {
    ghost var n := if opcode == 3 then 3 else if opcode == 4 then 4 else 1;
    d := DecodeWord(stream);
    assert d.Decoded? ==> SkipWords(stream, n) == SkipWords(d.rest, n - 1);
    if opcode <= 4 {
      if d.Decoded? {
        d := DecodeWord(d.rest);
        assert d.Decoded? ==> SkipWords(stream, n) == SkipWords(d.rest, n - 2);
      }
      if d.Decoded? {
        d := DecodeWord(d.rest);
        assert d.Decoded? ==> SkipWords(stream, n) == SkipWords(d.rest, n - 3);
      }
      if opcode == 4 && d.Decoded? {
        d := DecodeWord(d.rest);
      }
    }
    if d.Decoded? {
      d := Decoded(0, d.rest);
    }
  }

  /** One iteration of the decoding loop. */
  method ReadOp(stream: seq<Byte>, at: Position, pc2dex: SrcMap, result: seq<SrcMapElem>, startPc: Word32)
    returns (isEnd: bool, stream': seq<Byte>, at': Position, result': seq<SrcMapElem>)
    requires StrictlyIncreasing(pc2dex.elems) && ScanOps(stream, at).Scan?
    ensures isEnd ==> result' == result + Join(ScanOps(stream, at).positions, pc2dex.elems, startPc)
    ensures !isEnd ==> |stream'| < |stream| && ScanOps(stream', at').Scan?
    ensures !isEnd ==>
              result' + Join(ScanOps(stream', at').positions, pc2dex.elems, startPc)
              == result + Join(ScanOps(stream, at).positions, pc2dex.elems, startPc)
  {
    var n := DecodeOp(stream, at);
    stream', at', result', isEnd := stream, at, result, n.Ended?;
    if n.Moved? {
      stream', at' := n.rest, n.at;
    } else if n.Defined? {
      stream', at' := n.rest, n.at;
      assert ScanOps(stream, at).positions[1..] == ScanOps(stream', at').positions;
      result' := AppendLines(pc2dex, at', result, startPc);
    }
  }

  /** The debug stream of a method, if it has one. */
  datatype DebugStream = NoStream | Stream(bytes: seq<Byte>)

  /** A stream that is there is read to its end. */
  predicate Complete(s: DebugStream) {
    s.Stream? ==> ScanStream(s.bytes).Scan?
  }

  function LinesOf(s: DebugStream, table: seq<SrcMapElem>, startPc: Word32): seq<SrcMapElem>
    requires Complete(s)
  {
    if s.NoStream? then [] else Join(ScanStream(s.bytes).positions, table, startPc)
  }

  /** Decodes the debug stream and appends the native lines of every position. */
  method GetLineInfoForJava(dbgstream: DebugStream, pc2dex: SrcMap, result: seq<SrcMapElem>, startPc: Word32)
    returns (result': seq<SrcMapElem>)
    requires StrictlyIncreasing(pc2dex.elems) && Complete(dbgstream)
    ensures result' == result + LinesOf(dbgstream, pc2dex.elems, startPc)
  {
    if dbgstream.NoStream? {
      result' := result;
      return;
    }
    var header := DecodeWord(dbgstream.bytes);
    var count := DecodeWord(header.rest);
    var stream, parameters := count.rest, count.value;
    while parameters != 0
      invariant 0 <= parameters
      invariant SkipWords(stream, parameters) == SkipWords(count.rest, count.value)
      decreases parameters
    {
      stream := DecodeWord(stream).rest;
      parameters := parameters - 1;
    }
    var at := Position(0, header.value);
    result' := result;
    ghost var all := Join(ScanOps(stream, at).positions, pc2dex.elems, startPc);
    var isEnd := false;
    while !isEnd
      invariant isEnd ==> result' == result + all
      invariant !isEnd ==> ScanOps(stream, at).Scan?
      invariant !isEnd ==> result' + Join(ScanOps(stream, at).positions, pc2dex.elems, startPc) == result + all
      decreases if isEnd then 0 else 1 + |stream|
    {
      isEnd, stream, at, result' := ReadOp(stream, at, pc2dex, result', startPc);
    }
  }

  /** For a stream of readable operations the lines are exactly the join of the positions the
      operations define with the pc table. */
  lemma {:induction false} LineMapIsJoin(line: Word32, parameters: seq<Word32>, ops: seq<DebugOp>,
                                         table: seq<SrcMapElem>, startPc: Word32)
    requires |parameters| < TWO32
    requires forall i | 0 <= i < |ops| :: Readable(ops[i])
    ensures var stream := Stream(EncodeStream(line, parameters, ops));
            && Complete(stream)
            && LinesOf(stream, table, startPc) == Join(Positions(ops, Position(0, line)), table, startPc)
  {
    StreamIsExact(line, parameters, ops);
  }

  /** `x` is the line of `p` at the native pc of `e`: `e` is for the dex pc of `p`, which is a signed number in
      the table, and the line of `p`, made a signed number, is for the native pc behind the start. */
  predicate Joins(p: Position, e: SrcMapElem, startPc: Word32, x: SrcMapElem) {
    && (e.to - p.dexPc) % 0x1_0000_0000 == 0
    && x.from == (e.from + startPc) % 0x1_0000_0000 && (x.to - p.line) % 0x1_0000_0000 == 0
  }

  lemma SignedIsUnique(w: Word32, i: Int32)
    ensures (i - w) % 0x1_0000_0000 == 0 <==> i == ToInt32(w)
  {
  }

  lemma JoinsIs(p: Position, e: SrcMapElem, startPc: Word32, x: SrcMapElem)
    ensures Joins(p, e, startPc, x)
       <==> e.to == ToInt32(p.dexPc) && x == SrcMapElem((e.from + startPc) % TWO32, ToInt32(p.line))
  {
    SignedIsUnique(p.dexPc, e.to);
    SignedIsUnique(p.line, x.to);
  }

  lemma {:induction false} EntriesHave(table: seq<SrcMapElem>, to: Int32, e: SrcMapElem)
    ensures e in EntriesOf(table, to) <==> e in table && e.to == to
  {
    if table != [] {
      var n := |table| - 1;
      assert table == table[..n] + [table[n]];
      EntriesHave(table[..n], to, e);
    }
  }

  lemma {:induction false} LinesHave(table: seq<SrcMapElem>, p: Position, startPc: Word32, x: SrcMapElem)
    ensures x in LinesAt(EntriesOf(table, ToInt32(p.dexPc)), p.line, startPc)
       <==> exists e :: e in table && Joins(p, e, startPc, x)
  {
    var to := ToInt32(p.dexPc);
    var entries := EntriesOf(table, to);
    var lines := LinesAt(entries, p.line, startPc);
    if x in lines {
      var i :| 0 <= i < |lines| && lines[i] == x;
      EntriesHave(table, to, entries[i]);
      JoinsIs(p, entries[i], startPc, x);
    }
    if e :| e in table && Joins(p, e, startPc, x) {
      JoinsIs(p, e, startPc, x);
      EntriesHave(table, to, e);
      var i :| 0 <= i < |entries| && entries[i] == e;
      assert lines[i] == x;
    }
  }

  /** The join has a line exactly for every position and every pc mapped to its dex pc. */
  lemma {:induction false} JoinHas(positions: seq<Position>, table: seq<SrcMapElem>, startPc: Word32, x: SrcMapElem)
    ensures x in Join(positions, table, startPc)
       <==> exists p, e :: p in positions && e in table && Joins(p, e, startPc, x)
  {
    if positions != [] {
      LinesHave(table, positions[0], startPc, x);
      JoinHas(positions[1..], table, startPc, x);
      assert positions == [positions[0]] + positions[1..];
    }
  }

  /** The number of elements of the table whose line is `x`, for one position. */
  function JoinsAt(p: Position, table: seq<SrcMapElem>, startPc: Word32, x: SrcMapElem): nat {
    if table == [] then 0
    else JoinsAt(p, table[..|table| - 1], startPc, x) + if Joins(p, table[|table| - 1], startPc, x) then 1 else 0
  }

  /** The number of pairs of a position and an element of the table whose line is `x`. */
  function JoinsOf(positions: seq<Position>, table: seq<SrcMapElem>, startPc: Word32, x: SrcMapElem): nat {
    if positions == [] then 0
    else JoinsAt(positions[0], table, startPc, x) + JoinsOf(positions[1..], table, startPc, x)
  }

  lemma LinesMore(entries: seq<SrcMapElem>, e: SrcMapElem, line: Word32, startPc: Word32)
    ensures LinesAt(entries + [e], line, startPc)
         == LinesAt(entries, line, startPc) + [SrcMapElem((e.from + startPc) % TWO32, ToInt32(line))]
  {
  }

  lemma CountMore(s: seq<SrcMapElem>, y: SrcMapElem, x: SrcMapElem)
    ensures multiset(s + [y])[x] == multiset(s)[x] + if x == y then 1 else 0
  {
  }

  lemma {:induction false} LinesCounted(table: seq<SrcMapElem>, p: Position, startPc: Word32, x: SrcMapElem)
    ensures multiset(LinesAt(EntriesOf(table, ToInt32(p.dexPc)), p.line, startPc))[x] == JoinsAt(p, table, startPc, x)
  {
    if table != [] {
      var n, to := |table| - 1, ToInt32(p.dexPc);
      var e, entries := table[n], EntriesOf(table[..n], to);
      LinesCounted(table[..n], p, startPc, x);
      JoinsIs(p, e, startPc, x);
      if e.to == to {
        LinesMore(entries, e, p.line, startPc);
        CountMore(LinesAt(entries, p.line, startPc), SrcMapElem((e.from + startPc) % TWO32, ToInt32(p.line)), x);
      } else {
        assert EntriesOf(table, to) == entries;
      }
    }
  }

  /** The join has a line as often as there are positions and pcs for it. */
  lemma {:induction false} JoinCounts(positions: seq<Position>, table: seq<SrcMapElem>, startPc: Word32, x: SrcMapElem)
    ensures multiset(Join(positions, table, startPc))[x] == JoinsOf(positions, table, startPc, x)
  {
    if positions != [] {
      LinesCounted(table, positions[0], startPc, x);
      JoinCounts(positions[1..], table, startPc, x);
    }
  }
}
