/**
 The deduplicated tables of the oat file (GC maps, mapping tables, vmap tables). An init pass
 promises an offset for every table; the write pass, later, recognises the first occurrence of a
 table only by comparing the promised offset with its own position.

 Tables are vectors that are already shared by the compiler, so they are compared by address:
 `ids` are the addresses in visiting order and `mem` is what the addresses hold.
 */
module OatMaps {
  import opened Bytes
  import opened Streams
  import opened BufferedStream

  type Memory = nat -> seq<Byte>

  // ----- the layout -----

  /** Visit `i` is the first one of its table. */
  predicate Fresh(ids: seq<nat>, i: nat)
    requires i < |ids|
  {
    ids[i] !in ids[..i]
  }

  /** The bytes taken by the distinct tables among the first `i` visits. */
  function Used(mem: Memory, ids: seq<nat>, i: nat): nat
    requires i <= |ids|
  {
    if i == 0 then 0
    else Used(mem, ids, i - 1) + if Fresh(ids, i - 1) then |mem(ids[i - 1])| else 0
  }

  /** Where table `id` lies relative to the start of the tables. */
  function Place(mem: Memory, ids: seq<nat>, id: nat, i: nat): nat
    requires i <= |ids| && id in ids[..i]
  {
    if id in ids[..i - 1] then Place(mem, ids, id, i - 1) else Used(mem, ids, i - 1)
  }

  lemma PrefixMember(ids: seq<nat>, id: nat, i: nat)
    requires i < |ids|
    ensures id in ids[..i + 1] <==> id in ids[..i] || id == ids[i]
  {
    assert ids[..i + 1] == ids[..i] + [ids[i]];
  }

  lemma {:induction false} PlaceStable(mem: Memory, ids: seq<nat>, id: nat, i: nat, j: nat)
    requires i <= j <= |ids| && id in ids[..i]
    ensures id in ids[..j] && Place(mem, ids, id, j) == Place(mem, ids, id, i)
    decreases j - i
  {
    if i < j {
      PlaceStable(mem, ids, id, i, j - 1);
      PrefixMember(ids, id, j - 1);
    }
  }

  /** A visited table lies below the current end. */
  lemma {:induction false} PlaceBelow(mem: Memory, ids: seq<nat>, id: nat, i: nat)
    requires i <= |ids| && id in ids[..i]
    ensures Place(mem, ids, id, i) + |mem(id)| <= Used(mem, ids, i)
  {
    PrefixMember(ids, id, i - 1);
    if id in ids[..i - 1] {
      PlaceBelow(mem, ids, id, i - 1);
    }
  }

  /** Distinct tables do not overlap. */
  lemma {:induction false} PlacesDisjoint(mem: Memory, ids: seq<nat>, a: nat, b: nat, i: nat)
    requires i <= |ids| && a in ids[..i] && b in ids[..i] && a != b
    ensures Place(mem, ids, a, i) + |mem(a)| <= Place(mem, ids, b, i) ||
            Place(mem, ids, b, i) + |mem(b)| <= Place(mem, ids, a, i)
  {
    PrefixMember(ids, a, i - 1);
    PrefixMember(ids, b, i - 1);
    if a in ids[..i - 1] { PlaceBelow(mem, ids, a, i - 1); }
    if b in ids[..i - 1] { PlaceBelow(mem, ids, b, i - 1); }
    if a in ids[..i - 1] && b in ids[..i - 1] {
      PlacesDisjoint(mem, ids, a, b, i - 1);
    }
  }

  /** The offset promised to visit `i`; empty tables have none. */
  function Offset(mem: Memory, ids: seq<nat>, start: nat, i: nat): nat
    requires i < |ids|
  {
    PrefixMember(ids, ids[i], i);
    if mem(ids[i]) == [] then 0 else start + Place(mem, ids, ids[i], i + 1)
  }

  /** In the write pass, the position equals the promised offset exactly at the first occurrence. */
  lemma {:induction false} FirstByOffset(mem: Memory, ids: seq<nat>, start: nat, i: nat)
    requires i < |ids| && mem(ids[i]) != []
    ensures Offset(mem, ids, start, i) <= start + Used(mem, ids, i)
    ensures Offset(mem, ids, start, i) == start + Used(mem, ids, i) <==> Fresh(ids, i)
  {
    PrefixMember(ids, ids[i], i);
    if !Fresh(ids, i) {
      PlaceBelow(mem, ids, ids[i], i);
    }
  }

  /** Visits of one table are promised one offset. */
  lemma SameTableSameOffset(mem: Memory, ids: seq<nat>, start: nat, i: nat, j: nat)
    requires i < |ids| && j < |ids| && ids[i] == ids[j]
    ensures Offset(mem, ids, start, i) == Offset(mem, ids, start, j)
  {
    PrefixMember(ids, ids[i], i);
    PrefixMember(ids, ids[j], j);
    if i <= j {
      PlaceStable(mem, ids, ids[i], i + 1, j + 1);
    } else {
      PlaceStable(mem, ids, ids[i], j + 1, i + 1);
    }
  }

  // ----- the init pass -----

  /** The dedupe map holds exactly the offsets of the non-empty tables seen so far. */
  ghost predicate DedupeOk(mem: Memory, ids: seq<nat>, start: nat, i: nat, dedupe: map<nat, nat>)
    requires i <= |ids|
  {
    && (forall id :: id in dedupe <==> id in ids[..i] && mem(id) != [])
    && (forall id | id in dedupe :: id in ids[..i] && dedupe[id] == start + Place(mem, ids, id, i))
  }

  /** Gives every visit its offset. */
  method InitMaps(mem: Memory, ids: seq<nat>, start: nat) returns (offsets: seq<nat>, end: nat)
    ensures |offsets| == |ids|
    ensures forall i | 0 <= i < |ids| :: offsets[i] == Offset(mem, ids, start, i)
    ensures end == start + Used(mem, ids, |ids|)
  {
    offsets, end := [], start;
    var dedupe: map<nat, nat> := map[];
    for i := 0 to |ids|
      invariant |offsets| == i
      invariant forall j {:trigger offsets[j]} | 0 <= j < i :: offsets[j] == Offset(mem, ids, start, j)
      invariant end == start + Used(mem, ids, i)
      invariant DedupeOk(mem, ids, start, i, dedupe)
    {
      var offset: nat;
      offset, end, dedupe := InitMap(mem, ids, start, i, end, dedupe);
      offsets := offsets + [offset];
    }
  }

  /** One visit of the init pass. */
  method InitMap(mem: Memory, ids: seq<nat>, ghost start: nat, i: nat, end: nat, dedupe: map<nat, nat>)
    returns (offset: nat, end': nat, dedupe': map<nat, nat>)
    requires i < |ids| && DedupeOk(mem, ids, start, i, dedupe)
    requires end == start + Used(mem, ids, i)
    ensures offset == Offset(mem, ids, start, i) && end' == start + Used(mem, ids, i + 1)
    ensures DedupeOk(mem, ids, start, i + 1, dedupe')
  {
    var id := ids[i];
    forall x ensures x in ids[..i + 1] <==> x in ids[..i] || x == id {
      PrefixMember(ids, x, i);
    }
    offset, end', dedupe' := 0, end, dedupe;
    if mem(id) != [] {
      if id in dedupe {
        offset := dedupe[id];
      } else {
        offset := end;
        dedupe' := dedupe[id := end];
        end' := end + |mem(id)|;
      }
    }
  }

  // ----- the write pass -----

  /** All tables visited so far stand at their places. */
  ghost predicate Written(contents: seq<Byte>, base: nat, mem: Memory, ids: seq<nat>, i: nat)
    requires i <= |ids|
  {
    forall id {:trigger Place(mem, ids, id, i)} | id in ids[..i] ::
      Placed(contents, base + Place(mem, ids, id, i), mem(id))
  }

  ghost predicate AllWritten(contents: seq<Byte>, base: nat, mem: Memory, ids: seq<nat>) {
    Written(contents, base, mem, ids, |ids|)
  }

  /** Writes each table where its offset equals the current position. */
  method WriteMaps(out: BufferedOutputStream, ghost base: nat, mem: Memory, ids: seq<nat>, offsets: seq<nat>,
                   start: nat)
    returns (end: nat)
    requires |offsets| == |ids|
    requires forall i | 0 <= i < |ids| :: offsets[i] == Offset(mem, ids, start, i)
    requires out.pos == base + start
    requires out.Valid()
    modifies out, out.buffer, out.sink
    ensures out.Valid()
    ensures end == start + Used(mem, ids, |ids|) && out.pos == base + end
    ensures AllWritten(out.contents, base + start, mem, ids)
    ensures SameOutside(old(out.contents), out.contents, base + start, base + end)
  {
    end := start;
    for i := 0 to |ids|
      invariant out.Valid()
      invariant end == start + Used(mem, ids, i) && out.pos == base + end
      invariant Written(out.contents, base + start, mem, ids, i)
      invariant SameOutside(old(out.contents), out.contents, base + start, base + end)
    {
      ghost var before, from := out.contents, end;
      end := WriteMap(out, base, mem, ids, offsets[i], start, i, end);
      WrittenStep(before, out.contents, base + start, mem, ids, i);
      SameOutsideThen(old(out.contents), before, out.contents, base + start, base + from, base + end);
    }
  }

  /** One visit of the write pass. */
  method WriteMap(out: BufferedOutputStream, ghost base: nat, mem: Memory, ids: seq<nat>, offset: nat, ghost start: nat,
                  i: nat, end: nat)
    returns (end': nat)
    requires i < |ids| && offset == Offset(mem, ids, start, i)
    requires end == start + Used(mem, ids, i) && out.pos == base + end
    requires out.Valid()
    modifies out, out.buffer, out.sink
    ensures out.Valid()
    ensures end' == start + Used(mem, ids, i + 1) && out.pos == base + end'
    ensures SameOutside(old(out.contents), out.contents, base + end, base + end')
    ensures Fresh(ids, i) ==> Placed(out.contents, base + end, mem(ids[i]))
  {
    var table := mem(ids[i]);
    end' := end;
    if table != [] {
      FirstByOffset(mem, ids, start, i);
    }
    if table != [] && offset == end {
      OverwritePlaces(out.contents, base + end, table);
      out.WriteFully(table);
      end' := end + |table|;
    }
  }

  lemma WrittenStep(before: seq<Byte>, after: seq<Byte>, base: nat, mem: Memory, ids: seq<nat>, i: nat)
    requires i < |ids| && Written(before, base, mem, ids, i)
    requires SameOutside(before, after, base + Used(mem, ids, i), base + Used(mem, ids, i + 1))
    requires Fresh(ids, i) ==> Placed(after, base + Used(mem, ids, i), mem(ids[i]))
    ensures Written(after, base, mem, ids, i + 1)
  {
    forall id | id in ids[..i + 1] ensures Placed(after, base + Place(mem, ids, id, i + 1), mem(id)) {
      PrefixMember(ids, id, i);
      if id in ids[..i] {
        PlaceBelow(mem, ids, id, i);
        PlacedStays(before, after, base + Used(mem, ids, i), base + Used(mem, ids, i + 1),
                    base + Place(mem, ids, id, i), mem(id));
      }
    }
  }

  /** What the finished pass means for one visit: its table stands at its promised offset. */
  lemma WrittenAtOffset(contents: seq<Byte>, base: nat, mem: Memory, ids: seq<nat>, start: nat, i: nat)
    requires i < |ids| && Written(contents, base + start, mem, ids, |ids|)
    ensures mem(ids[i]) != [] ==> Placed(contents, base + Offset(mem, ids, start, i), mem(ids[i]))
  {
    PrefixMember(ids, ids[i], i);
    PlaceStable(mem, ids, ids[i], i + 1, |ids|);
    assert base + start + Place(mem, ids, ids[i], i + 1) == base + (start + Place(mem, ids, ids[i], i + 1));
  }
}
