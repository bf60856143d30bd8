/**
 The line table of the whole oat file: the debug stream of every compiled method is joined with the
 method's map from native pcs to dex pcs, and the lines found are written as one line program.
 */
module DebugLines {
  import opened Bytes
  import opened DwarfLine
  import opened JavaLines
  import opened LineProgram
  import opened SrcMaps

  /** A compiled method: its source file, its code range, its debug stream and its arranged map. */
  datatype CompiledMethod = CompiledMethod(file: FileName, lowPc: Word32, highPc: Word32, stream: DebugStream,
                                           pc2dex: seq<SrcMapElem>)

  ghost predicate ValidMethod(m: CompiledMethod) {
    StrictlyIncreasing(m.pc2dex) && Complete(m.stream)
  }

  /** The method with the lines its stream defines. */
  function WithLines(m: CompiledMethod): DebugMethod
    requires Complete(m.stream)
  {
    DebugMethod(m.file, m.lowPc, m.highPc, LinesOf(m.stream, m.pc2dex, m.lowPc))
  }

  ghost predicate AreWithLines(methods: seq<CompiledMethod>, all: seq<DebugMethod>, n: nat)
    requires n <= |methods| && n <= |all|
  {
    forall i {:trigger Describes(methods[i], all[i])} | 0 <= i < n :: Describes(methods[i], all[i])
  }

  ghost predicate Describes(m: CompiledMethod, d: DebugMethod) {
    Complete(m.stream) && d == WithLines(m)
  }

  /** Looks up the lines of one method. */
  method FindLines(m: CompiledMethod) returns (d: DebugMethod)
    requires ValidMethod(m)
    ensures Describes(m, d)
  {
    var pc2dex := new SrcMap(m.pc2dex);
    var lines := GetLineInfoForJava(m.stream, pc2dex, [], m.lowPc);
    d := DebugMethod(m.file, m.lowPc, m.highPc, lines);
  }

  method FindAllLines(methods: seq<CompiledMethod>) returns (all: seq<DebugMethod>)
    requires forall i {:trigger methods[i]} | 0 <= i < |methods| :: ValidMethod(methods[i])
    ensures |all| == |methods| && AreWithLines(methods, all, |methods|)
  {
    all := [];
    for i := 0 to |methods|
      invariant |all| == i && AreWithLines(methods, all, i)
    {
      var d := FindLines(methods[i]);
      all := all + [d];
    }
  }

  /** The lines are determined by the methods. */
  lemma LinesUnique(methods: seq<CompiledMethod>, a: seq<DebugMethod>, b: seq<DebugMethod>)
    requires |a| == |methods| == |b| && AreWithLines(methods, a, |methods|) && AreWithLines(methods, b, |methods|)
    ensures a == b
  {
    forall i | 0 <= i < |a| ensures a[i] == b[i] {
      assert Describes(methods[i], a[i]) && Describes(methods[i], b[i]);
    }
  }

  /** `sorts[i]` is a possible sort of the lines of method `i`, and no difference of lines overflows. */
  ghost predicate AreSorts(all: seq<DebugMethod>, sorts: seq<seq<SrcMapElem>>) {
    && AllEncodable(all, sorts)
    && forall i {:trigger all[i]} | 0 <= i < |all| :: IsSortOf(sorts[i], all[i])
  }

  /** From the debug streams to the program: run on the state machine it yields, method by method, the
      lines of the streams at their native pcs, in pc order. */
  method FillInLineTable(methods: seq<CompiledMethod>, sorts: seq<seq<SrcMapElem>>, textOffset: Word32,
                         ghost described: seq<DebugMethod>)
    returns (program: seq<Byte>, files: seq<FileName>, ghost last: Row)
    requires |methods| < TWO32 && forall i {:trigger methods[i]} | 0 <= i < |methods| :: ValidMethod(methods[i])
    requires |described| == |methods| && AreWithLines(methods, described, |methods|) && AreSorts(described, sorts)
    ensures forall m | m in described :: m.file in files
    ensures last.endSequence && last.address == (HighestPc(described) + textOffset) % TWO32
    ensures Meant(program, described, sorts, files, textOffset, last)
  {
    var all := FindAllLines(methods);
    LinesUnique(methods, all, described);
    program, files, last := GenerateLineProgram(all, sorts, textOffset);
  }
}
