/** Source maps: tables from native pc to dex pc or line, kept in a vector. */
module SrcMaps {
  import opened Bytes
  import opened Sequences

  type Int32 = i: int | -0x8000_0000 <= i < 0x8000_0000

  datatype SrcMapElem = SrcMapElem(from: Word32, to: Int32)

  /** The 64-bit integer an element is compared by: `to` in the upper, `from` in the lower half. */
  function Packed(e: SrcMapElem): int {
    (e.to as int) * TWO32 + e.from
  }

  /** Comparing the packed integers compares `to` first and `from` second. */
  lemma PackedOrder(a: SrcMapElem, b: SrcMapElem)
    ensures Packed(a) < Packed(b) <==> a.to < b.to || (a.to == b.to && a.from < b.from)
    ensures Packed(a) == Packed(b) <==> a == b
  {
    var ta: int, tb: int := a.to, b.to;
    assert ta < tb ==> ta * TWO32 + TWO32 <= tb * TWO32;
    assert tb < ta ==> tb * TWO32 + TWO32 <= ta * TWO32;
  }

  ghost predicate SortedByPacked(s: seq<SrcMapElem>) {
    forall i, j | 0 <= i < j < |s| :: Packed(s[i]) <= Packed(s[j])
  }

  ghost predicate StrictlyIncreasing(s: seq<SrcMapElem>) {
    forall i, j | 0 <= i < j < |s| :: Packed(s[i]) < Packed(s[j])
  }

  ghost predicate SortedByFrom(s: seq<SrcMapElem>) {
    forall i, j | 0 <= i < j < |s| :: s[i].from <= s[j].from
  }

  // ----- deltas -----

  /** The entries that stay: those below `highest`, and the first one in any case. */
  function Kept(s: seq<SrcMapElem>, highest: Word32): (k: seq<SrcMapElem>)
    ensures k <= s
  {
    if |s| <= 1 || s[|s| - 1].from < highest then s else Kept(s[..|s| - 1], highest)
  }

  /** In a table sorted by pc, exactly the entries at or past `highest` are dropped, save the first. */
  lemma {:induction false} KeptIsBelow(s: seq<SrcMapElem>, highest: Word32, i: nat)
    requires SortedByFrom(s) && i < |s|
    ensures i < |Kept(s, highest)| <==> i == 0 || s[i].from < highest
  {
    if !(|s| <= 1 || s[|s| - 1].from < highest) && i < |s| - 1 {
      KeptIsBelow(s[..|s| - 1], highest, i);
    }
  }

  /** The difference of two lines fits in 32 bits. */
  predicate LineFits(e: SrcMapElem, previous: SrcMapElem) {
    -0x8000_0000 <= e.to - previous.to < 0x8000_0000
  }

  /** What entry `i` is taken relative to. */
  function Before(s: seq<SrcMapElem>, start: SrcMapElem, i: nat): SrcMapElem
    requires i <= |s|
  {
    if i == 0 then start else s[i - 1]
  }

  /** No difference of neighbouring lines overflows. */
  ghost predicate LinesOk(s: seq<SrcMapElem>, start: SrcMapElem) {
    s == [] || (LinesOk(s[..|s| - 1], start) && LineFits(s[|s| - 1], Before(s, start, |s| - 1)))
  }

  /** The difference of two entries; the pc wraps around. */
  function Delta(e: SrcMapElem, previous: SrcMapElem): (d: SrcMapElem)
    requires LineFits(e, previous)
  {
    SrcMapElem((e.from - previous.from) % TWO32, e.to - previous.to)
  }

  /** The deltas of `s`, the first one relative to `start`. */
  function Deltas(s: seq<SrcMapElem>, start: SrcMapElem): (d: seq<SrcMapElem>)
    requires LinesOk(s, start)
    ensures |d| == |s|
  {
    if s == [] then [] else Deltas(s[..|s| - 1], start) + [Delta(s[|s| - 1], Before(s, start, |s| - 1))]
  }

  lemma {:induction false} DeltaAt(s: seq<SrcMapElem>, start: SrcMapElem, i: nat)
    requires LinesOk(s, start) && i < |s|
    ensures LineFits(s[i], Before(s, start, i)) && Deltas(s, start)[i] == Delta(s[i], Before(s, start, i))
  {
    if i < |s| - 1 {
      DeltaAt(s[..|s| - 1], start, i);
    }
  }

  predicate IsDelta(s: seq<SrcMapElem>, start: SrcMapElem, d: SrcMapElem, i: nat)
    requires i < |s|
  {
    LineFits(s[i], Before(s, start, i)) && d == Delta(s[i], Before(s, start, i))
  }

  lemma {:induction false} AreDeltas(s: seq<SrcMapElem>, start: SrcMapElem, d: seq<SrcMapElem>)
    requires LinesOk(s, start) && |d| == |s|
    requires forall i {:trigger IsDelta(s, start, d[i], i)} | 0 <= i < |s| :: IsDelta(s, start, d[i], i)
    ensures d == Deltas(s, start)
  {
    forall i | 0 <= i < |s| ensures d[i] == Deltas(s, start)[i] {
      assert IsDelta(s, start, d[i], i);
      DeltaAt(s, start, i);
    }
  }

  /** Lines below 2^31 never overflow. */
  lemma {:induction false} PlainLinesFit(s: seq<SrcMapElem>, start: SrcMapElem)
    requires start.to >= 0 && forall i {:trigger s[i]} | 0 <= i < |s| :: s[i].to >= 0
    ensures LinesOk(s, start)
  {
    if s != [] {
      PlainLinesFit(s[..|s| - 1], start);
    }
  }

  /** The pc and line reached by adding up deltas from `start`. */
  function Accumulated(start: SrcMapElem, d: seq<SrcMapElem>): (Word32, int) {
    if d == [] then (start.from, start.to)
    else
      var (from, to) := Accumulated(start, d[..|d| - 1]);
      ((from + d[|d| - 1].from) % TWO32, to + d[|d| - 1].to)
  }

  /** Delta formatting loses nothing: the first `i + 1` deltas lead back to entry `i`. */
  lemma {:induction false} DeltasAccumulate(s: seq<SrcMapElem>, start: SrcMapElem, i: nat)
    requires LinesOk(s, start) && i < |s|
    ensures Accumulated(start, Deltas(s, start)[..i + 1]) == (s[i].from, s[i].to)
  {
    var d := Deltas(s, start);
    assert d[..i + 1][..i] == d[..i];
    DeltaAt(s, start, i);
    if i > 0 {
      DeltasAccumulate(s, start, i - 1);
    } else {
      assert d[..i] == [];
    }
    ModuloDelta(s[i].from, if i == 0 then start.from else s[i - 1].from);
  }

  lemma ModuloDelta(a: Word32, b: Word32)
    ensures (b + (a - b) % TWO32) % TWO32 == a
  {
  }

  /** A vector of map elements. */
  class SrcMap {
    var elems: seq<SrcMapElem>

    constructor (elems: seq<SrcMapElem>)
      ensures this.elems == elems
    {
      this.elems := elems;
    }

    /** Sorts and removes repetitions. `sorted` is what the sort of the standard library left. */
    method Arrange(sorted: seq<SrcMapElem>)
      requires SortedByPacked(sorted) && multiset(sorted) == multiset(elems)
      modifies this
      ensures StrictlyIncreasing(elems)
      ensures Members(elems) == Members(old(elems))
    {
      if elems != [] {
        elems := sorted;
        var unique := Unique(elems);
        assert forall e :: e in sorted <==> e in multiset(sorted);
        assert forall e :: e in old(elems) <==> e in multiset(old(elems));
        assert Members(sorted) == Members(old(elems));
        elems := unique;
      }
    }

    /** Sorts by pc, drops what lies at or past `highestPc`, and replaces values by differences.
        `sorted` is what the sort left: any permutation sorted by pc. */
    method DeltaFormat(sorted: seq<SrcMapElem>, start: SrcMapElem, highestPc: Word32)
      requires SortedByFrom(sorted) && multiset(sorted) == multiset(elems)
      requires LinesOk(Kept(sorted, highestPc), start)
      modifies this
      ensures elems == Deltas(Kept(sorted, highestPc), start)
    {
      assert |multiset(sorted)| == |sorted| && |multiset(elems)| == |elems|;
      if elems != [] {
        elems := sorted;
        DropHighest(highestPc);
        ToDeltas(start);
      }
    }

    method DropHighest(highestPc: Word32)
      requires elems != []
      modifies this
      ensures elems == Kept(old(elems), highestPc) && elems != []
    {
      var i := |elems| - 1;
      assert elems[..i + 1] == elems;
      while i > 0
        invariant 0 <= i < |elems| && elems == old(elems)
        invariant Kept(elems[..i + 1], highestPc) == Kept(elems, highestPc)
      {
        if elems[i].from < highestPc {
          break;
        }
        assert elems[..i + 1][..i] == elems[..i];
        i := i - 1;
      }
      elems := elems[..i + 1];
    }

    /** From the back, so that every difference still sees the original predecessor. */
    method ToDeltas(start: SrcMapElem)
      requires elems != [] && LinesOk(elems, start)
      modifies this
      ensures elems == Deltas(old(elems), start)
    {
      ghost var was := elems;
      var i := |elems| - 1;
      while i >= 1
        invariant 0 <= i < |elems| == |was|
        invariant forall j | 0 <= j <= i :: elems[j] == was[j]
        invariant forall j {:trigger IsDelta(was, start, elems[j], j)} | i < j < |elems| ::
                    IsDelta(was, start, elems[j], j)
      {
        DeltaAt(was, start, i);
        elems := elems[i := Delta(elems[i], elems[i - 1])];
        i := i - 1;
      }
      DeltaAt(was, start, 0);
      elems := elems[0 := Delta(elems[0], start)];
      AreDeltas(was, start, elems);
    }

    /** The first element not below `(to, 0)`. */
    method FindByTo(to: Int32) returns (k: nat)
      requires StrictlyIncreasing(elems)
      ensures k <= |elems|
      ensures forall i | 0 <= i < k :: elems[i].to < to
      ensures forall i | k <= i < |elems| :: elems[i].to >= to
    {
      var key := SrcMapElem(0, to);
      var lo, hi := 0, |elems|;
      while lo < hi
        invariant 0 <= lo <= hi <= |elems|
        invariant forall i | 0 <= i < lo :: Packed(elems[i]) < Packed(key)
        invariant forall i | hi <= i < |elems| :: Packed(elems[i]) >= Packed(key)
      {
        var mid := (lo + hi) / 2;
        if Packed(elems[mid]) < Packed(key) {
          lo := mid + 1;
        } else {
          hi := mid;
        }
      }
      k := lo;
      forall i | 0 <= i < |elems| ensures Packed(elems[i]) < Packed(key) <==> elems[i].to < to {
        PackedOrder(elems[i], key);
      }
    }
  }

  /** `std::unique` on a sorted vector. */
  method Unique(s: seq<SrcMapElem>) returns (u: seq<SrcMapElem>)
    requires SortedByPacked(s)
    ensures StrictlyIncreasing(u) && Members(u) == Members(s)
  {
    u := [];
    for i := 0 to |s|
      invariant StrictlyIncreasing(u)
      invariant forall e :: e in u <==> e in s[..i]
      invariant i > 0 ==> |u| > 0 && u[|u| - 1] == s[i - 1]
      invariant i == 0 ==> u == []
    {
      assert s[..i + 1] == s[..i] + [s[i]];
      if |u| == 0 || u[|u| - 1] != s[i] {
        if |u| > 0 {
          PackedOrder(u[|u| - 1], s[i]);
          assert Packed(s[i - 1]) <= Packed(s[i]);
        }
        u := u + [s[i]];
      }
    }
    assert s[..|s|] == s;
  }

  lemma NonEmptyMembers(s: seq<SrcMapElem>)
    ensures s != [] <==> Members(s) != {}
  {
    if s != [] { assert s[0] in Members(s); }
  }

  lemma MembersWithoutLast(s: seq<SrcMapElem>)
    requires StrictlyIncreasing(s) && s != []
    ensures Members(s[..|s| - 1]) == Members(s) - {s[|s| - 1]}
    ensures forall e | e in Members(s) :: Packed(e) <= Packed(s[|s| - 1])
  {
    var n := |s| - 1;
    forall e | e in s ensures Packed(e) <= Packed(s[n]) && (e in s[..n] <==> e != s[n]) {
      var i :| 0 <= i < |s| && s[i] == e;
      if i < n { assert e == s[..n][i] && Packed(s[i]) < Packed(s[n]); }
    }
  }

  /** The arranged table is determined by its entries: the sort has no say in it. */
  lemma {:induction false} ArrangedUnique(a: seq<SrcMapElem>, b: seq<SrcMapElem>)
    requires StrictlyIncreasing(a) && StrictlyIncreasing(b) && Members(a) == Members(b)
    ensures a == b
    decreases |a|
  {
    NonEmptyMembers(a);
    NonEmptyMembers(b);
    if a != [] {
      var m, n := |a| - 1, |b| - 1;
      MembersWithoutLast(a);
      MembersWithoutLast(b);
      assert a[m] in Members(a) && b[n] in Members(b);
      PackedOrder(a[m], b[n]);
      ArrangedUnique(a[..m], b[..n]);
      assert a == a[..m] + [a[m]] && b == b[..n] + [b[n]];
    }
  }
}
