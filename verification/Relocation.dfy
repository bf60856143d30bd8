/**
 Relocation of the code. The ELF patcher writes words into the text for a base address and records
 which of them are absolute; patchoat later adds a delta to the recorded words. This should be the
 same as patching for the moved base in the first place.
 */
module Relocation {
  import opened Bytes
  import opened Sequences
  import opened Streams
  import opened ElfFormat

  // ----- patches -----

  /** Where things are loaded: this oat file, and the image that moves along with it. */
  datatype Bases = Bases(oat: int, image: int)

  /** The oat file a call leads into: this one, or another one that stays where it is. */
  datatype Target = ThisOat | OtherOat(begin: int)

  /** A word to be patched at a location of the text. A call has the offset of its code in the target
      oat file; a relative call also the addresses of caller and callee as they are loaded while
      patching, and whether the callee is a trampoline of the oat file. */
  datatype Patch =
    | Call(location: nat, target: Target, codeOffset: int)
    | RelativeCall(location: nat, target: Target, codeOffset: int, trampoline: bool, callee: int, caller: int,
                   loadedBase: int, literal: int, adjustment: int)
    | ImageReference(location: nat, offset: int)

  function BaseOf(target: Target, bases: Bases): int {
    match target
    case ThisOat => bases.oat
    case OtherOat(begin) => begin
  }

  /** The word the patcher writes. */
  function Value(p: Patch, bases: Bases): Word32 {
    match p
    case Call(_, target, codeOffset) =>
      if codeOffset != 0 then (BaseOf(target, bases) + codeOffset) % TWO32 else 0
    case RelativeCall(_, target, codeOffset, trampoline, callee, caller, loadedBase, literal, adjustment) =>
      var moved := BaseOf(target, bases);
      var to := if trampoline then (moved + codeOffset) % TWO32 else callee;
      var from := if trampoline then caller + moved - loadedBase else caller;
      (to - (from + literal) + adjustment) % TWO32
    case ImageReference(_, offset) => (bases.image + offset) % TWO32
  }

  function Moved(bases: Bases, delta: int): Bases {
    Bases(bases.oat + delta, bases.image + delta)
  }

  /** Patches whose word follows the base. */
  predicate Follows(p: Patch) {
    p.ImageReference? || (p.Call? && p.codeOffset != 0 && p.target.ThisOat?)
  }

  /** Relative calls are never recorded, all others are. */
  predicate Records(p: Patch) {
    !p.RelativeCall?
  }

  lemma ModSum(a: int, b: int)
    ensures (a % TWO32 + b) % TWO32 == (a + b) % TWO32
  {
  }

  /** The base cancels out of a relative call. */
  lemma RelativeIgnoresBase(p: Patch, bases: Bases, delta: int)
    requires p.RelativeCall?
    ensures Value(p, Moved(bases, delta)) == Value(p, bases)
  {
    if p.trampoline {
      var a, b := BaseOf(p.target, bases), BaseOf(p.target, Moved(bases, delta));
      ModSum(a + p.codeOffset, -(p.caller + a - p.loadedBase + p.literal) + p.adjustment);
      ModSum(b + p.codeOffset, -(p.caller + b - p.loadedBase + p.literal) + p.adjustment);
    }
  }

  /** A word, moved or not. */
  function Shift(v: Word32, delta: int, moved: bool): Word32 {
    (v + if moved then delta else 0) % TWO32
  }

  /** A word follows the base exactly when it says so. */
  lemma ValueMoves(p: Patch, bases: Bases, delta: int)
    ensures Value(p, Moved(bases, delta)) == Shift(Value(p, bases), delta, Follows(p))
  {
    match p
    case Call(_, _, _) =>
      if Follows(p) {
        ModSum(bases.oat + p.codeOffset, delta);
      }
    case RelativeCall(_, _, _, _, _, _, _, _, _) =>
      RelativeIgnoresBase(p, bases, delta);
    case ImageReference(_, offset) =>
      ModSum(bases.image + offset, delta);
  }

  // ----- locations -----

  /** Two locations are the same word or do not overlap. */
  predicate WordsApart(a: nat, b: nat) {
    a == b || a + 4 <= b || b + 4 <= a
  }

  /** The words to be patched lie in the text and do not partly overlap. */
  ghost predicate ValidPatches(patches: seq<Patch>, size: nat) {
    && (forall i {:trigger patches[i]} | 0 <= i < |patches| :: patches[i].location + 4 <= size)
    && (forall i, j {:trigger patches[i], patches[j]} | 0 <= i < |patches| && 0 <= j < |patches| ::
          WordsApart(patches[i].location, patches[j].location))
  }

  /** Somewhere among the first `n` patches is one for `location`. */
  predicate Touched(patches: seq<Patch>, n: nat, location: nat)
    requires n <= |patches|
  {
    n > 0 && (patches[n - 1].location == location || Touched(patches, n - 1, location))
  }

  /** The last patch for `location` among the first `n`. */
  function Last(patches: seq<Patch>, n: nat, location: nat): (p: Patch)
    requires n <= |patches| && Touched(patches, n, location)
    ensures p.location == location && p in patches
  {
    if patches[n - 1].location == location then patches[n - 1] else Last(patches, n - 1, location)
  }

  /** Some patch for `location` among the first `n` is recorded. */
  predicate Recorded(patches: seq<Patch>, n: nat, location: nat)
    requires n <= |patches|
  {
    n > 0 && ((patches[n - 1].location == location && Records(patches[n - 1])) || Recorded(patches, n - 1, location))
  }

  // ----- the text after patching -----

  /** Byte `k` belongs to no patched word. */
  ghost predicate Outside(patches: seq<Patch>, n: nat, k: nat)
    requires n <= |patches|
  {
    n == 0 || (!(patches[n - 1].location <= k < patches[n - 1].location + 4) && Outside(patches, n - 1, k))
  }

  /** Every patched word has the value of its last patch, everything else is as it was. */
  ghost predicate IsPatched(original: seq<Byte>, text: seq<Byte>, patches: seq<Patch>, n: nat, bases: Bases)
    requires n <= |patches|
  {
    && |text| == |original|
    && (forall location {:trigger WordIs(text, patches, n, bases, location)} | Touched(patches, n, location) ::
          WordIs(text, patches, n, bases, location))
    && (forall k {:trigger At(text, k)} | 0 <= k < |text| && Outside(patches, n, k) :: At(text, k) == At(original, k))
  }

  ghost predicate WordIs(text: seq<Byte>, patches: seq<Patch>, n: nat, bases: Bases, location: nat)
    requires n <= |patches| && Touched(patches, n, location)
  {
    WordAt(text, location) == Value(Last(patches, n, location), bases)
  }

  lemma {:induction false} TouchedLocation(patches: seq<Patch>, n: nat, location: nat) returns (i: nat)
    requires n <= |patches| && Touched(patches, n, location)
    ensures i < n && patches[i].location == location
  {
    if patches[n - 1].location == location {
      i := n - 1;
    } else {
      i := TouchedLocation(patches, n - 1, location);
    }
  }

  /** One more patch. */
  lemma PatchStep(original: seq<Byte>, before: seq<Byte>, after: seq<Byte>, patches: seq<Patch>, n: nat, bases: Bases)
    requires n < |patches| && ValidPatches(patches, |original|) && IsPatched(original, before, patches, n, bases)
    requires |after| == |before| && Placed(after, patches[n].location, WordBytes(Value(patches[n], bases)))
    requires SameOutside(before, after, patches[n].location, patches[n].location + 4)
    ensures IsPatched(original, after, patches, n + 1, bases)
  {
    var at, m := patches[n].location, n + 1;
    WordPlaced(after, at, Value(patches[n], bases));
    forall location: nat | Touched(patches, m, location) ensures WordIs(after, patches, m, bases, location) {
      if location != at {
        var i := TouchedLocation(patches, n, location);
        assert WordsApart(patches[i].location, patches[n].location);
        WordStays(before, after, at, at + 4, location);
        assert WordIs(before, patches, n, bases, location);
      }
    }
  }

  // ----- what the words mean -----

  /** A word read at a patched location, with everything loaded at `bases`, leads where the patch wants it: a
      call with code to its code, a relative call from the caller to the callee, or, for a trampoline, from the
      caller as it is loaded to the trampoline as it is loaded, and an image reference into the image. */
  ghost predicate Means(p: Patch, bases: Bases, word: Word32) {
    match p
    case Call(_, ThisOat, codeOffset) =>
      if codeOffset == 0 then word == 0 else (word - bases.oat) % TWO32 == codeOffset % TWO32
    case Call(_, OtherOat(begin), codeOffset) =>
      if codeOffset == 0 then word == 0 else (word - begin) % TWO32 == codeOffset % TWO32
    case RelativeCall(_, _, _, false, callee, caller, _, literal, adjustment) =>
      (caller + literal + word - adjustment) % TWO32 == callee % TWO32
    case RelativeCall(_, ThisOat, codeOffset, true, _, caller, loadedBase, literal, adjustment) =>
      (caller + (bases.oat - loadedBase) + literal + word - adjustment) % TWO32 == (bases.oat + codeOffset) % TWO32
    case RelativeCall(_, OtherOat(begin), codeOffset, true, _, caller, loadedBase, literal, adjustment) =>
      (caller + (begin - loadedBase) + literal + word - adjustment) % TWO32 == (begin + codeOffset) % TWO32
    case ImageReference(_, offset) => (word - bases.image) % TWO32 == offset % TWO32
  }

  lemma ReducedMinus(a: int, b: int)
    ensures (a % TWO32 - b) % TWO32 == (a - b) % TWO32
  {
    ModSum(a, -b);
  }

  lemma ReducedPlus(a: int, b: int)
    ensures (b + a % TWO32) % TWO32 == (b + a) % TWO32
  {
    ModSum(a, b);
  }

  /** A relative word added to where it is relative to. */
  lemma RelativeMeans(to: int, from: int, adjustment: int)
    ensures (from + (to - from + adjustment) % TWO32 - adjustment) % TWO32 == to % TWO32
  {
    ReducedPlus(to - from + adjustment, from - adjustment);
  }

  lemma TrampolineMeans(to: int, from: int, adjustment: int)
    ensures (from + (to % TWO32 - from + adjustment) % TWO32 - adjustment) % TWO32 == to % TWO32
  {
    RelativeMeans(to % TWO32, from, adjustment);
  }

  /** The word the patcher writes means what it should. */
  lemma ValueMeans(p: Patch, bases: Bases)
    ensures Means(p, bases, Value(p, bases))
  {
    match p
    case Call(_, target, codeOffset) =>
      ReducedMinus(BaseOf(target, bases) + codeOffset, BaseOf(target, bases));
    case RelativeCall(_, target, codeOffset, trampoline, callee, caller, loadedBase, literal, adjustment) =>
      var moved := BaseOf(target, bases);
      if trampoline {
        TrampolineMeans(moved + codeOffset, caller + moved - loadedBase + literal, adjustment);
      } else {
        RelativeMeans(callee, caller + literal, adjustment);
      }
    case ImageReference(_, offset) =>
      ReducedMinus(bases.image + offset, bases.image);
  }

  /** No later patch is for the same word. */
  ghost predicate IsLast(list: seq<Patch>, i: nat)
    requires i < |list|
  {
    forall j {:trigger list[j]} | i < j < |list| :: list[j].location != list[i].location
  }

  /** Every patched word means what its last patch wants. */
  ghost predicate WordsMean(text: seq<Byte>, list: seq<Patch>, bases: Bases) {
    forall i {:trigger IsLast(list, i)} | 0 <= i < |list| && IsLast(list, i) ::
      Means(list[i], bases, WordAt(text, list[i].location))
  }

  /** Bytes that belong to no patched word are as they were. */
  ghost predicate OthersAsBefore(original: seq<Byte>, text: seq<Byte>, list: seq<Patch>) {
    |text| == |original| && forall k {:trigger text[k]} | 0 <= k < |text| && InNoPatch(list, k) :: text[k] == original[k]
  }

  ghost predicate InNoPatch(list: seq<Patch>, k: nat) {
    forall i {:trigger list[i]} | 0 <= i < |list| :: k < list[i].location || list[i].location + 4 <= k
  }

  /** Recorded are the locations of calls and image references, relative calls apart. */
  ghost predicate AbsoluteRecorded(recorded: seq<nat>, list: seq<Patch>, writePatches: bool) {
    forall location :: location in recorded <==> writePatches && PatchedAbsolutely(list, location)
  }

  ghost predicate PatchedAbsolutely(list: seq<Patch>, location: nat) {
    exists i {:trigger list[i]} | 0 <= i < |list| :: list[i].location == location && !list[i].RelativeCall?
  }

  lemma {:induction false} LastPatch(list: seq<Patch>, n: nat, i: nat)
    requires i < n <= |list| && forall j {:trigger list[j]} | i < j < n :: list[j].location != list[i].location
    ensures Touched(list, n, list[i].location) && Last(list, n, list[i].location) == list[i]
    decreases n
  {
    if i < n - 1 {
      LastPatch(list, n - 1, i);
    }
  }

  lemma {:induction false} InNoPatchIsOutside(list: seq<Patch>, n: nat, k: nat)
    requires n <= |list| && InNoPatch(list, k)
    ensures Outside(list, n, k)
  {
    if n > 0 {
      InNoPatchIsOutside(list, n - 1, k);
    }
  }

  lemma {:induction false} PatchedMeans(original: seq<Byte>, text: seq<Byte>, list: seq<Patch>, bases: Bases)
    requires IsPatched(original, text, list, |list|, bases)
    ensures WordsMean(text, list, bases) && OthersAsBefore(original, text, list)
  {
    forall i | 0 <= i < |list| && IsLast(list, i) ensures Means(list[i], bases, WordAt(text, list[i].location)) {
      LastPatch(list, |list|, i);
      assert WordIs(text, list, |list|, bases, list[i].location);
      ValueMeans(list[i], bases);
    }
    forall k | 0 <= k < |text| && InNoPatch(list, k) ensures text[k] == original[k] {
      InNoPatchIsOutside(list, |list|, k);
      assert At(text, k) == At(original, k);
    }
  }

  lemma {:induction false} RecordedIsAbsolute(list: seq<Patch>, n: nat, location: nat)
    requires n <= |list|
    ensures Recorded(list, n, location)
       <==> exists i {:trigger list[i]} | 0 <= i < n :: list[i].location == location && !list[i].RelativeCall?
  {
    if n > 0 {
      RecordedIsAbsolute(list, n - 1, location);
    }
  }

  lemma {:induction false} RecordedMeans(recorded: seq<nat>, list: seq<Patch>, writePatches: bool)
    requires AreRecorded(recorded, list, |list|, writePatches)
    ensures AbsoluteRecorded(recorded, list, writePatches)
  {
    forall location ensures location in recorded <==> writePatches && PatchedAbsolutely(list, location) {
      RecordedIsAbsolute(list, |list|, location);
    }
  }

  // ----- two texts -----

  /** Bytes are determined by their word. */
  lemma SameWordSameBytes(a: seq<Byte>, b: seq<Byte>, at: nat)
    requires WordAt(a, at) == WordAt(b, at)
    ensures At(a, at) == At(b, at) && At(a, at + 1) == At(b, at + 1)
    ensures At(a, at + 2) == At(b, at + 2) && At(a, at + 3) == At(b, at + 3)
  {
    var x := [At(a, at), At(a, at + 1), At(a, at + 2), At(a, at + 3)];
    var y := [At(b, at), At(b, at + 1), At(b, at + 2), At(b, at + 3)];
    BytesRoundTrip(x);
    BytesRoundTrip(y);
    assert x == y;
    assert x[0] == y[0] && x[1] == y[1] && x[2] == y[2] && x[3] == y[3];
  }

  // ----- the patcher -----

  /** Writes a word. */
  method WriteWord(text: array<Byte>, at: nat, w: Word32)
    requires at + 4 <= text.Length
    modifies text
    ensures Placed(text[..], at, WordBytes(w)) && SameOutside(old(text[..]), text[..], at, at + 4)
  {
    var bytes := WordBytes(w);
    text[at], text[at + 1], text[at + 2], text[at + 3] := bytes[0], bytes[1], bytes[2], bytes[3];
  }

  class ElfPatcher {
    const text: array<Byte>
    const writePatches: bool
    var patches: seq<nat>
    var patchesSet: set<nat>

    /** The recorded locations, each once. */
    ghost predicate Valid()
      reads this
    {
      Distinct(patches) && forall location :: location in patches <==> location in patchesSet
    }

    constructor (text: array<Byte>, writePatches: bool)
      ensures Valid() && this.text == text && this.writePatches == writePatches && patches == []
    {
      this.text, this.writePatches, patches, patchesSet := text, writePatches, [], {};
    }

    /** `AddPatch`. */
    method AddPatch(location: nat)
      requires Valid()
      modifies `patches, `patchesSet
      ensures Valid()
      ensures forall l :: l in patches <==> l in old(patches) || (writePatches && l == location)
    {
      if writePatches && location !in patchesSet {
        patchesSet := patchesSet + {location};
        DistinctMore(patches, location);
        patches := patches + [location];
      }
    }

    /** `SetPatchLocation`: writes the word and records it unless it is relative. */
    method SetPatchLocation(p: Patch, value: Word32)
      requires Valid() && p.location + 4 <= text.Length
      modifies text, `patches, `patchesSet
      ensures Valid()
      ensures Placed(text[..], p.location, WordBytes(value))
      ensures SameOutside(old(text[..]), text[..], p.location, p.location + 4)
      ensures forall l :: l in patches <==> l in old(patches) || (writePatches && Records(p) && l == p.location)
    {
      WriteWord(text, p.location, value);
      if p.RelativeCall? {
        return;
      }
      AddPatch(p.location);
    }

    /** `PatchElf`: all patches, calls first, then methods, classes and strings. */
    method PatchElf(list: seq<Patch>, bases: Bases)
      requires Valid() && patches == [] && ValidPatches(list, text.Length)
      modifies text, `patches, `patchesSet
      ensures Valid() && IsPatched(old(text[..]), text[..], list, |list|, bases)
      ensures AreRecorded(patches, list, |list|, writePatches)
      ensures WordsMean(text[..], list, bases) && OthersAsBefore(old(text[..]), text[..], list)
      ensures AbsoluteRecorded(patches, list, writePatches)
    {
      ghost var original := text[..];
      for n := 0 to |list|
        invariant Valid() && IsPatched(original, text[..], list, n, bases)
        invariant AreRecorded(patches, list, n, writePatches)
      {
        ghost var before := text[..];
        SetPatchLocation(list[n], Value(list[n], bases));
        PatchStep(original, before, text[..], list, n, bases);
      }
      PatchedMeans(original, text[..], list, bases);
      RecordedMeans(patches, list, writePatches);
    }
  }

  /** The recorded locations are those of the patches that are not relative. */
  ghost predicate AreRecorded(recorded: seq<nat>, list: seq<Patch>, n: nat, writePatches: bool)
    requires n <= |list|
  {
    forall location {:trigger location in recorded} :: location in recorded <==> writePatches && Recorded(list, n, location)
  }

  // ----- patchoat -----

  /** The first `n` recorded words have moved by `delta`, nothing else has changed. */
  ghost predicate IsShifted(before: seq<Byte>, after: seq<Byte>, recorded: seq<nat>, n: nat, delta: int)
    requires n <= |recorded|
  {
    && |after| == |before|
    && (forall i {:trigger WordShifted(before, after, recorded[i], delta)} | 0 <= i < n ::
          WordShifted(before, after, recorded[i], delta))
    && SameBeside(before, after, recorded, n)
  }

  ghost predicate WordShifted(before: seq<Byte>, after: seq<Byte>, at: nat, delta: int) {
    WordAt(after, at) == (WordAt(before, at) + delta) % TWO32
  }

  ghost predicate SameBeside(before: seq<Byte>, after: seq<Byte>, recorded: seq<nat>, n: nat)
    requires n <= |recorded|
  {
    forall k {:trigger At(after, k)} | 0 <= k < |after| && Beside(recorded, n, k) :: At(after, k) == At(before, k)
  }

  /** Byte `k` belongs to none of the first `n` recorded words. */
  ghost predicate Beside(recorded: seq<nat>, n: nat, k: nat)
    requires n <= |recorded|
  {
    forall i {:trigger recorded[i]} | 0 <= i < n :: k < recorded[i] || recorded[i] + 4 <= k
  }

  ghost predicate ValidLocations(recorded: seq<nat>, size: nat) {
    && Distinct(recorded)
    && (forall i {:trigger recorded[i]} | 0 <= i < |recorded| :: recorded[i] + 4 <= size)
    && (forall i, j {:trigger recorded[i], recorded[j]} | 0 <= i < |recorded| && 0 <= j < |recorded| ::
          WordsApart(recorded[i], recorded[j]))
  }

  lemma BesideStep(original: seq<Byte>, before: seq<Byte>, after: seq<Byte>, recorded: seq<nat>, n: nat)
    requires n < |recorded| && |after| == |before| && SameBeside(original, before, recorded, n)
    requires SameOutside(before, after, recorded[n], recorded[n] + 4)
    ensures SameBeside(original, after, recorded, n + 1)
  {
    forall k: nat | k < |after| && Beside(recorded, n + 1, k) ensures At(after, k) == At(original, k) {
      assert k < recorded[n] || recorded[n] + 4 <= k;
      assert Beside(recorded, n, k);
      assert At(before, k) == At(original, k);
    }
  }

  /** A word beside the moved ones is unchanged. */
  lemma WordBeside(before: seq<Byte>, after: seq<Byte>, recorded: seq<nat>, n: nat, at: nat)
    requires n <= |recorded| && at + 4 <= |before| == |after| && SameBeside(before, after, recorded, n)
    requires forall i {:trigger recorded[i]} | 0 <= i < n :: recorded[i] + 4 <= at || at + 4 <= recorded[i]
    ensures WordAt(after, at) == WordAt(before, at)
  {
    assert Beside(recorded, n, at) && Beside(recorded, n, at + 1);
    assert Beside(recorded, n, at + 2) && Beside(recorded, n, at + 3);
    assert At(after, at) == At(before, at) && At(after, at + 1) == At(before, at + 1);
    assert At(after, at + 2) == At(before, at + 2) && At(after, at + 3) == At(before, at + 3);
  }

  lemma ShiftStep(original: seq<Byte>, before: seq<Byte>, after: seq<Byte>, recorded: seq<nat>, n: nat, delta: int)
    requires n < |recorded| && ValidLocations(recorded, |original|) && IsShifted(original, before, recorded, n, delta)
    requires |after| == |before| && SameOutside(before, after, recorded[n], recorded[n] + 4)
    requires Placed(after, recorded[n], WordBytes((WordAt(before, recorded[n]) + delta) % TWO32))
    ensures IsShifted(original, after, recorded, n + 1, delta)
  {
    var at := recorded[n];
    WordPlaced(after, at, (WordAt(before, at) + delta) % TWO32);
    forall i | 0 <= i < n ensures recorded[i] + 4 <= at || at + 4 <= recorded[i] {
      assert WordsApart(recorded[i], recorded[n]) && Differ(recorded, i, n);
    }
    WordBeside(original, before, recorded, n, at);
    assert WordShifted(original, after, at, delta);
    BesideStep(original, before, after, recorded, n);
    OthersShifted(original, before, after, recorded, n, delta);
  }

  lemma OthersShifted(original: seq<Byte>, before: seq<Byte>, after: seq<Byte>, recorded: seq<nat>, n: nat, delta: int)
    requires n < |recorded| && ValidLocations(recorded, |original|) && IsShifted(original, before, recorded, n, delta)
    requires SameOutside(before, after, recorded[n], recorded[n] + 4)
    ensures forall i {:trigger WordShifted(original, after, recorded[i], delta)} | 0 <= i < n ::
              WordShifted(original, after, recorded[i], delta)
  {
    forall i | 0 <= i < n ensures WordShifted(original, after, recorded[i], delta) {
      assert WordsApart(recorded[i], recorded[n]) && Differ(recorded, i, n);
      WordStays(before, after, recorded[n], recorded[n] + 4, recorded[i]);
      assert WordShifted(original, before, recorded[i], delta);
    }
  }

  /** `PatchTextSection`: adds the delta to every recorded word. */
  method PatchTextSection(text: array<Byte>, recorded: seq<nat>, delta: int)
    requires ValidLocations(recorded, text.Length)
    modifies text
    ensures IsShifted(old(text[..]), text[..], recorded, |recorded|, delta)
  {
    ghost var original := text[..];
    for n := 0 to |recorded|
      invariant IsShifted(original, text[..], recorded, n, delta)
    {
      ghost var before := text[..];
      WriteWord(text, recorded[n], (WordAt(text[..], recorded[n]) + delta) % TWO32);
      ShiftStep(original, before, text[..], recorded, n, delta);
    }
  }

  // ----- the two together -----

  lemma {:induction false} RecordedLocation(list: seq<Patch>, n: nat, location: nat) returns (i: nat)
    requires n <= |list| && Recorded(list, n, location)
    ensures i < n && list[i].location == location && Touched(list, n, location)
  {
    if list[n - 1].location == location && Records(list[n - 1]) {
      i := n - 1;
    } else {
      i := RecordedLocation(list, n - 1, location);
    }
  }

  /** What the patcher records can be handed to patchoat. */
  lemma RecordedAreValid(recorded: seq<nat>, list: seq<Patch>, size: nat)
    requires Distinct(recorded) && AreRecorded(recorded, list, |list|, true) && ValidPatches(list, size)
    ensures ValidLocations(recorded, size)
  {
    forall i | 0 <= i < |recorded| ensures recorded[i] + 4 <= size {
      assert recorded[i] in recorded;
      var a := RecordedLocation(list, |list|, recorded[i]);
    }
    forall i, j | 0 <= i < |recorded| && 0 <= j < |recorded| ensures WordsApart(recorded[i], recorded[j]) {
      assert recorded[i] in recorded && recorded[j] in recorded;
      var a := RecordedLocation(list, |list|, recorded[i]);
      var b := RecordedLocation(list, |list|, recorded[j]);
      assert WordsApart(list[a].location, list[b].location);
    }
  }

  /** A word is recorded if and only if it follows the base. */
  ghost predicate Sound(list: seq<Patch>, location: nat)
    requires Touched(list, |list|, location)
  {
    Recorded(list, |list|, location) <==> Follows(Last(list, |list|, location))
  }

  ghost predicate AllSound(list: seq<Patch>) {
    forall location {:trigger Sound(list, location)} | Touched(list, |list|, location) :: Sound(list, location)
  }

  lemma ShiftDiffers(v: Word32, d: int)
    ensures (v + d) % TWO32 == v <==> d % TWO32 == 0
  {
    ModSum(d, v);
    assert d % TWO32 == 0 ==> (d + v) % TWO32 == v % TWO32;
    if d % TWO32 != 0 {
      var r := d % TWO32;
      assert (r + v) % TWO32 == if r + v < TWO32 then r + v else r + v - TWO32;
    }
  }

  lemma ShiftsAgree(v: Word32, d: int, a: bool, b: bool)
    ensures (v + (if a then d else 0)) % TWO32 == (v + (if b then d else 0)) % TWO32 <==> d % TWO32 == 0 || a == b
  {
    ShiftDiffers(v, d);
  }

  lemma WordsAgree(x: Word32, y: Word32, v: Word32, d: int, a: bool, b: bool)
    requires x == Shift(v, d, a) && y == Shift(v, d, b)
    ensures x == y <==> d % TWO32 == 0 || a == b
  {
    ShiftsAgree(v, d, a, b);
  }

  /** The word at a location after both passes. */
  lemma {:induction false} ShiftedWord(t1: seq<Byte>, t2: seq<Byte>, list: seq<Patch>, recorded: seq<nat>, delta: int,
                                       location: nat)
    requires ValidPatches(list, |t1|) && |t2| == |t1| && Touched(list, |list|, location)
    requires IsShifted(t1, t2, recorded, |recorded|, delta) && AreRecorded(recorded, list, |list|, true)
    ensures WordAt(t2, location) == Shift(WordAt(t1, location), delta, Recorded(list, |list|, location))
  {
    if Recorded(list, |list|, location) {
      assert location in recorded;
      RecordedShifted(t1, t2, recorded, delta, location);
    } else {
      Unrecorded(t1, t2, list, recorded, delta, location);
      WordIsReduced(t1, location);
    }
  }

  lemma RecordedShifted(t1: seq<Byte>, t2: seq<Byte>, recorded: seq<nat>, delta: int, location: nat)
    requires IsShifted(t1, t2, recorded, |recorded|, delta) && location in recorded
    ensures WordAt(t2, location) == (WordAt(t1, location) + delta) % TWO32
  {
    var i :| 0 <= i < |recorded| && recorded[i] == location;
    assert WordShifted(t1, t2, recorded[i], delta);
  }

  lemma WordIsReduced(t: seq<Byte>, location: nat)
    ensures WordAt(t, location) == (WordAt(t, location) + 0) % TWO32
  {
  }

  /** It is compared with the word patched for the moved base. */
  lemma {:induction false} WordsCompared(t1: seq<Byte>, t2: seq<Byte>, t3: seq<Byte>, list: seq<Patch>,
                                         recorded: seq<nat>, bases: Bases, delta: int, location: nat)
    requires ValidPatches(list, |t1|) && |t2| == |t1| && Touched(list, |list|, location)
    requires WordIs(t1, list, |list|, bases, location) && WordIs(t3, list, |list|, Moved(bases, delta), location)
    requires IsShifted(t1, t2, recorded, |recorded|, delta) && AreRecorded(recorded, list, |list|, true)
    ensures WordAt(t2, location) == WordAt(t3, location) <==> delta % TWO32 == 0 || Sound(list, location)
  {
    var p := Last(list, |list|, location);
    ShiftedWord(t1, t2, list, recorded, delta, location);
    ValueMoves(p, bases, delta);
    WordsAgree(WordAt(t2, location), WordAt(t3, location), WordAt(t1, location), delta,
               Recorded(list, |list|, location), Follows(p));
  }

  lemma {:induction false} Unrecorded(t1: seq<Byte>, t2: seq<Byte>, list: seq<Patch>, recorded: seq<nat>, delta: int,
                                      location: nat)
    requires ValidPatches(list, |t1|) && |t2| == |t1| && Touched(list, |list|, location)
    requires IsShifted(t1, t2, recorded, |recorded|, delta) && AreRecorded(recorded, list, |list|, true)
    requires !Recorded(list, |list|, location)
    ensures WordAt(t2, location) == WordAt(t1, location)
  {
    var a := TouchedLocation(list, |list|, location);
    forall i | 0 <= i < |recorded| ensures recorded[i] + 4 <= location || location + 4 <= recorded[i] {
      assert recorded[i] in recorded;
      var b := RecordedLocation(list, |list|, recorded[i]);
      assert WordsApart(list[a].location, list[b].location);
    }
    WordBeside(t1, t2, recorded, |recorded|, location);
  }

  lemma {:induction false} InsideSome(list: seq<Patch>, n: nat, k: nat) returns (location: nat)
    requires n <= |list| && !Outside(list, n, k)
    ensures Touched(list, n, location) && location <= k < location + 4
  {
    if list[n - 1].location <= k < list[n - 1].location + 4 {
      location := list[n - 1].location;
    } else {
      location := InsideSome(list, n - 1, k);
    }
  }

  /** Patching for a base and then moving gives the text patched for the moved base, if and only if
      the move is a multiple of 2^32 or every patched word is recorded exactly when its last patch
      follows the base. */
  lemma PatchThenMove(original: seq<Byte>, t1: seq<Byte>, t2: seq<Byte>, t3: seq<Byte>, list: seq<Patch>,
                      recorded: seq<nat>, bases: Bases, delta: int)
    requires ValidPatches(list, |original|) && IsPatched(original, t1, list, |list|, bases)
    requires IsShifted(t1, t2, recorded, |recorded|, delta) && AreRecorded(recorded, list, |list|, true)
    requires IsPatched(original, t3, list, |list|, Moved(bases, delta))
    ensures t2 == t3 <==> delta % TWO32 == 0 || AllSound(list)
  {
    if t2 == t3 && delta % TWO32 != 0 {
      forall location | Touched(list, |list|, location) ensures Sound(list, location) {
        assert WordIs(t1, list, |list|, bases, location) && WordIs(t3, list, |list|, Moved(bases, delta), location);
        WordsCompared(t1, t2, t3, list, recorded, bases, delta, location);
      }
    }
    if delta % TWO32 == 0 || AllSound(list) {
      forall k: nat | k < |t2| ensures At(t2, k) == At(t3, k) {
        ByteCompared(original, t1, t2, t3, list, recorded, bases, delta, k);
      }
      forall k | 0 <= k < |t2| ensures t2[k] == t3[k] {
        assert At(t2, k) == At(t3, k);
      }
    }
  }

  lemma ByteCompared(original: seq<Byte>, t1: seq<Byte>, t2: seq<Byte>, t3: seq<Byte>, list: seq<Patch>,
                     recorded: seq<nat>, bases: Bases, delta: int, k: nat)
    requires ValidPatches(list, |original|) && IsPatched(original, t1, list, |list|, bases) && k < |t2|
    requires IsShifted(t1, t2, recorded, |recorded|, delta) && AreRecorded(recorded, list, |list|, true)
    requires IsPatched(original, t3, list, |list|, Moved(bases, delta))
    requires delta % TWO32 == 0 || AllSound(list)
    ensures At(t2, k) == At(t3, k)
  {
    if Outside(list, |list|, k) {
      OutsideBeside(list, recorded, k);
      assert At(t1, k) == At(original, k) && At(t3, k) == At(original, k);
      assert At(t2, k) == At(t1, k);
    } else {
      var location := InsideSome(list, |list|, k);
      assert WordIs(t1, list, |list|, bases, location) && WordIs(t3, list, |list|, Moved(bases, delta), location);
      assert delta % TWO32 == 0 || Sound(list, location);
      WordsCompared(t1, t2, t3, list, recorded, bases, delta, location);
      SameWordSameBytes(t2, t3, location);
    }
  }

  lemma {:induction false} OutsideAll(list: seq<Patch>, n: nat, k: nat, i: nat)
    requires i < n <= |list| && Outside(list, n, k)
    ensures k < list[i].location || list[i].location + 4 <= k
  {
    if i < n - 1 {
      OutsideAll(list, n - 1, k, i);
    }
  }

  lemma {:induction false} OutsideBeside(list: seq<Patch>, recorded: seq<nat>, k: nat)
    requires Outside(list, |list|, k) && AreRecorded(recorded, list, |list|, true)
    ensures Beside(recorded, |recorded|, k)
  {
    forall i | 0 <= i < |recorded| ensures k < recorded[i] || recorded[i] + 4 <= k {
      assert recorded[i] in recorded;
      var a := RecordedLocation(list, |list|, recorded[i]);
      OutsideAll(list, |list|, k, a);
    }
  }

  // ----- when the condition holds, and when it does not -----

  /** It holds when absolute calls have a code offset and lead into this oat file, and no word is
      patched both absolutely and relatively. */
  lemma {:induction false} CompilerPatchesAreSound(list: seq<Patch>, n: nat, location: nat)
    requires n <= |list| && Touched(list, n, location)
    requires forall i {:trigger list[i]} | 0 <= i < |list| :: Records(list[i]) ==> Follows(list[i])
    requires forall i, j {:trigger list[i], list[j]} | 0 <= i < |list| && 0 <= j < |list| &&
               list[i].location == list[j].location :: Records(list[i]) == Records(list[j])
    ensures Recorded(list, n, location) <==> Follows(Last(list, n, location))
    ensures Records(Last(list, n, location)) <==> Recorded(list, n, location)
  {
    if list[n - 1].location == location {
      if Touched(list, n - 1, location) {
        CompilerPatchesAreSound(list, n - 1, location);
        var i := TouchedLocation(list, n - 1, location);
        LastIsOneOf(list, n - 1, location);
      } else {
        NotRecorded(list, n - 1, location);
      }
    } else {
      CompilerPatchesAreSound(list, n - 1, location);
    }
  }

  lemma {:induction false} LastIsOneOf(list: seq<Patch>, n: nat, location: nat)
    requires n <= |list| && Touched(list, n, location)
    ensures exists i :: 0 <= i < n && list[i] == Last(list, n, location)
  {
    if list[n - 1].location != location {
      LastIsOneOf(list, n - 1, location);
    }
  }

  lemma {:induction false} NotRecorded(list: seq<Patch>, n: nat, location: nat)
    requires n <= |list| && !Touched(list, n, location)
    ensures !Recorded(list, n, location)
  {
    if n > 0 {
      NotRecorded(list, n - 1, location);
    }
  }

  /** A call that does not follow the base although it is recorded. */
  predicate Stays(p: Patch) {
    p.Call? && (p.codeOffset == 0 || p.target.OtherOat?)
  }

  lemma {:induction false} LastIsRecorded(list: seq<Patch>, n: nat, location: nat)
    requires n <= |list| && Touched(list, n, location) && Records(Last(list, n, location))
    ensures Recorded(list, n, location)
  {
    if list[n - 1].location != location {
      LastIsRecorded(list, n - 1, location);
    }
  }

  /** Wherever the last patch of a word is such a call, the moved text is wrong. */
  lemma {:induction false} StayingCallIsMoved(original: seq<Byte>, t1: seq<Byte>, t2: seq<Byte>, t3: seq<Byte>,
                                              list: seq<Patch>, recorded: seq<nat>, bases: Bases, delta: int,
                                              location: nat)
    requires ValidPatches(list, |original|) && IsPatched(original, t1, list, |list|, bases)
    requires IsShifted(t1, t2, recorded, |recorded|, delta) && AreRecorded(recorded, list, |list|, true)
    requires IsPatched(original, t3, list, |list|, Moved(bases, delta)) && delta % TWO32 != 0
    requires Touched(list, |list|, location) && Stays(Last(list, |list|, location))
    ensures t2 != t3
  {
    LastIsRecorded(list, |list|, location);
    assert !Sound(list, location);
    PatchThenMove(original, t1, t2, t3, list, recorded, bases, delta);
  }

  /** Patches a text and moves it, and patches it for the moved base. */
  method PatchBothWays(original: seq<Byte>, list: seq<Patch>, bases: Bases, delta: int)
    returns (moved: seq<Byte>, direct: seq<Byte>)
    requires ValidPatches(list, |original|)
    ensures moved == direct <==> delta % TWO32 == 0 || AllSound(list)
  {
    var text := new Byte[|original|](k requires 0 <= k < |original| => original[k]);
    assert text[..] == original;
    var patcher := new ElfPatcher(text, true);
    patcher.PatchElf(list, bases);
    ghost var t1 := text[..];
    RecordedAreValid(patcher.patches, list, |original|);
    PatchTextSection(text, patcher.patches, delta);
    moved := text[..];
    var other := new Byte[|original|](k requires 0 <= k < |original| => original[k]);
    assert other[..] == original;
    var second := new ElfPatcher(other, true);
    second.PatchElf(list, Moved(bases, delta));
    direct := other[..];
    PatchThenMove(original, t1, moved, direct, list, patcher.patches, bases, delta);
  }

  /** A call without code is written as 0 but recorded: moving the file makes it a wrong address. */
  method CallWithoutCode(original: seq<Byte>, target: Target, bases: Bases, delta: int)
    returns (moved: seq<Byte>, direct: seq<Byte>)
    requires |original| >= 4 && delta % TWO32 != 0
    ensures moved != direct
  {
    var list := [Call(0, target, 0)];
    OneCall(list[0], |original|);
    moved, direct := PatchBothWays(original, list, bases, delta);
  }

  /** So is a call into another oat file, which does not move. */
  method CallIntoOtherOat(original: seq<Byte>, begin: int, codeOffset: int, bases: Bases, delta: int)
    returns (moved: seq<Byte>, direct: seq<Byte>)
    requires |original| >= 4 && delta % TWO32 != 0
    ensures moved != direct
  {
    var list := [Call(0, OtherOat(begin), codeOffset)];
    OneCall(list[0], |original|);
    moved, direct := PatchBothWays(original, list, bases, delta);
  }

  lemma OneCall(p: Patch, size: nat)
    requires Stays(p) && p.location == 0 && size >= 4
    ensures ValidPatches([p], size) && !AllSound([p])
  {
    assert Touched([p], 1, 0) && Recorded([p], 1, 0);
    assert !Sound([p], 0);
  }
}
