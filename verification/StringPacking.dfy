/**
 String packing of the image writer: every string of the heap is moved into one shared
 character array, and a string that is a prefix of another one shares its characters.

 The ordered set of already placed strings holds (start, length) pairs only; its comparator
 reads the array that is being filled. The set is modelled by the sequence of its elements
 in order, and `LowerBound` by the descent that compares through the array.
 */
module StringPacking {

  import opened Sequences

  type Char16 = c: int | 0 <= c < 0x1_0000
  type Text = seq<Char16>

  /** One element of the ordered set: a start index and a length. */
  datatype Range = Range(start: nat, length: nat)

  // ----- lexicographic order -----

  /** The order of the substring comparator. */
  predicate Less(a: Text, b: Text)
    decreases a
  {
    if b == [] then false
    else if a == [] then true
    else if a[0] != b[0] then a[0] < b[0]
    else Less(a[1..], b[1..])
  }

  lemma {:induction false} LessTotal(a: Text, b: Text)
    ensures Less(a, b) || a == b || Less(b, a)
    ensures !(Less(a, b) && Less(b, a))
    ensures !Less(a, a)
    decreases |a| + |b|
  {
    if a != [] && b != [] && a[0] == b[0] {
      LessTotal(a[1..], b[1..]);
      assert a == [a[0]] + a[1..] && b == [b[0]] + b[1..];
    }
    if a != [] {
      LessTotal(a[1..], []);
    }
  }

  predicate Prefix(a: Text, b: Text) {
    |a| <= |b| && a == b[..|a|]
  }

  lemma PrefixTransitive(a: Text, b: Text, c: Text)
    requires Prefix(a, b) && Prefix(b, c)
    ensures Prefix(a, c)
  {
    assert c[..|b|][..|a|] == c[..|a|];
  }

  lemma {:induction false} LessTransitive(a: Text, b: Text, c: Text)
    requires Less(a, b) && Less(b, c)
    ensures Less(a, c)
    decreases a
  {
    if a != [] && a[0] == b[0] && b[0] == c[0] {
      LessTransitive(a[1..], b[1..], c[1..]);
    }
  }

  /** Every text between `p` and an extension of `p` is itself an extension of `p`. */
  lemma {:induction false} BetweenIsExtension(p: Text, x: Text, e: Text)
    requires Prefix(p, e)
    requires !Less(x, p)
    requires x == e || Less(x, e)
    ensures Prefix(p, x)
    decreases p
  {
    if p != [] && x != e {
      BetweenIsExtension(p[1..], x[1..], e[1..]);
    }
  }

  lemma {:induction false} ExtensionNotLess(p: Text, e: Text)
    requires Prefix(p, e)
    ensures !Less(e, p)
    decreases p
  {
    if p != [] {
      ExtensionNotLess(p[1..], e[1..]);
    }
  }

  // ----- the ordered set, seen through what its elements denote -----

  /** Strictly ascending. */
  ghost predicate Ascending(texts: seq<Text>) {
    forall i, j | 0 <= i < j < |texts| :: Less(texts[i], texts[j])
  }

  /** `k` is the first element that is not less than `key`. */
  ghost predicate IsLowerBound(texts: seq<Text>, key: Text, k: nat) {
    && k <= |texts|
    && (forall i | 0 <= i < k :: Less(texts[i], key))
    && (forall i | k <= i < |texts| :: !Less(texts[i], key))
  }

  ghost predicate PrefixFree(texts: seq<Text>) {
    forall i, j | 0 <= i < |texts| && 0 <= j < |texts| && i != j :: !Prefix(texts[i], texts[j])
  }

  /** An extension of `key` exists in the set if and only if the lower bound is one. */
  lemma LowerBoundFindsExtension(texts: seq<Text>, key: Text, k: nat)
    requires Ascending(texts) && IsLowerBound(texts, key, k)
    ensures (exists e | e in texts :: Prefix(key, e)) <==> (k < |texts| && Prefix(key, texts[k]))
  {
    if e :| e in texts && Prefix(key, e) {
      var m :| 0 <= m < |texts| && texts[m] == e;
      ExtensionNotLess(key, e);
      assert k <= m;
      BetweenIsExtension(key, texts[k], e);
    }
    if k < |texts| && Prefix(key, texts[k]) {
      assert texts[k] in texts;
    }
  }

  /** The element at `k` is the lower bound of `key` and extends it. */
  ghost predicate ResolvesAt(texts: seq<Text>, key: Text, k: nat) {
    k < |texts| && Prefix(key, texts[k]) && IsLowerBound(texts, key, k)
  }

  function InsertAt<T>(s: seq<T>, k: nat, x: T): (t: seq<T>)
    requires k <= |s|
    ensures |t| == |s| + 1 && t[k] == x
    ensures forall i | 0 <= i < k :: t[i] == s[i]
    ensures forall i | k < i < |t| :: t[i] == s[i - 1]
  {
    s[..k] + [x] + s[k..]
  }

  lemma InsertKeepsAscending(texts: seq<Text>, k: nat, c: Text)
    requires Ascending(texts) && IsLowerBound(texts, c, k)
    requires k < |texts| ==> texts[k] != c
    ensures Ascending(InsertAt(texts, k, c))
  {
    var t := InsertAt(texts, k, c);
    forall i, j | 0 <= i < j < |t| ensures Less(t[i], t[j]) {
      if i == k {
        LessTotal(texts[k], c);
        if j - 1 != k {
          LessTransitive(c, texts[k], texts[j - 1]);
        }
      }
    }
  }

  lemma InsertKeepsPrefixFree(texts: seq<Text>, k: nat, c: Text)
    requires PrefixFree(texts) && k <= |texts|
    requires forall e | e in texts :: |c| <= |e| && !Prefix(c, e)
    ensures PrefixFree(InsertAt(texts, k, c))
  {
    var t := InsertAt(texts, k, c);
    forall i, j | 0 <= i < |t| && 0 <= j < |t| && i != j ensures !Prefix(t[i], t[j]) {
      var i', j' := if i < k then i else i - 1, if j < k then j else j - 1;
      if i == k {
        assert t[j] == texts[j'];
      } else if j == k {
        assert t[i] == texts[i'] && |c| <= |texts[i']|;
      } else {
        assert t[i] == texts[i'] && t[j] == texts[j'] && i' != j';
      }
    }
  }

  /** A string placed earlier keeps its place: no later, shorter string comes between it and
      the element it was resolved to. */
  lemma InsertKeepsResolution(texts: seq<Text>, k: nat, c: Text, key: Text, q: nat)
    requires Ascending(texts) && IsLowerBound(texts, c, k)
    requires ResolvesAt(texts, key, q)
    requires |c| <= |key|
    requires !Prefix(c, texts[q])
    ensures ResolvesAt(InsertAt(texts, k, c), key, if q < k then q else q + 1)
  {
    var e := texts[q];
    var t := InsertAt(texts, k, c);
    if q < k {
      assert !Less(c, key) by {
        if Less(c, key) {
          LessTransitive(e, c, key);
        }
      }
      forall i | q <= i < |t| ensures !Less(t[i], key) {
        assert i != k ==> t[i] == texts[if i < k then i else i - 1];
      }
    } else {
      assert Less(c, key) by {
        LessTotal(c, e);
        if !Less(c, key) {
          BetweenIsExtension(key, c, e);
        }
      }
      forall i | 0 <= i < q + 1 ensures Less(t[i], key) {
        assert i != k ==> t[i] == texts[if i < k then i else i - 1];
      }
    }
  }

  lemma ResolutionUnique(texts: seq<Text>, key: Text, k1: nat, k2: nat)
    requires ResolvesAt(texts, key, k1) && ResolvesAt(texts, key, k2)
    ensures k1 == k2
  {
    var at := k => 0 <= k < |texts| && Less(texts[k], key);
    assert !at(k1) && !at(k2);
    assert (forall i | 0 <= i < k1 :: at(i)) && (forall i | 0 <= i < k2 :: at(i));
  }

  // ----- the set's elements are ranges of the shared array -----

  ghost predicate InBounds(chars: Text, tree: seq<Range>) {
    forall k | 0 <= k < |tree| :: tree[k].start + tree[k].length <= |chars|
  }

  ghost function Texts(chars: Text, tree: seq<Range>): (texts: seq<Text>)
    requires InBounds(chars, tree)
    ensures |texts| == |tree|
  {
    seq(|tree|, k requires 0 <= k < |tree| => chars[tree[k].start..tree[k].start + tree[k].length])
  }

  /** Writing behind the placed strings changes none of them. */
  lemma AppendKeeps(chars: Text, more: Text, tree: seq<Range>)
    requires InBounds(chars, tree)
    ensures InBounds(chars + more, tree)
    ensures Texts(chars + more, tree) == Texts(chars, tree)
  {
    forall k | 0 <= k < |tree| ensures Texts(chars + more, tree)[k] == Texts(chars, tree)[k] {
      var r := tree[k];
      assert (chars + more)[r.start..r.start + r.length] == chars[r.start..r.start + r.length];
    }
  }

  /** `std::set::lower_bound` with the comparator that reads `chars`. */
  method LowerBound(chars: array<Char16>, used: nat, tree: seq<Range>, key: Range) returns (k: nat)
    requires used <= chars.Length
    requires InBounds(chars[..used], tree) && Ascending(Texts(chars[..used], tree))
    requires key.start + key.length <= used
    ensures IsLowerBound(Texts(chars[..used], tree), chars[key.start..key.start + key.length], k)
  {
    ghost var texts := Texts(chars[..used], tree);
    ghost var text := chars[key.start..key.start + key.length];
    var lo, hi := 0, |tree|;
    while lo < hi
      invariant 0 <= lo <= hi <= |tree|
      invariant forall i | 0 <= i < lo :: Less(texts[i], text)
      invariant forall i | hi <= i < |tree| :: !Less(texts[i], text)
    {
      var mid := (lo + hi) / 2;
      var m := tree[mid];
      assert chars[m.start..m.start + m.length] == texts[mid] by {
        assert chars[..used][m.start..m.start + m.length] == chars[m.start..m.start + m.length];
      }
      if Less(chars[m.start..m.start + m.length], chars[key.start..key.start + key.length]) {
        forall i | 0 <= i < mid ensures Less(texts[i], text) {
          LessTransitive(texts[i], texts[mid], text);
        }
        lo := mid + 1;
      } else {
        forall i | mid < i < |tree| ensures !Less(texts[i], text) {
          if Less(texts[i], text) {
            LessTransitive(texts[mid], texts[i], text);
          }
        }
        hi := mid;
      }
    }
    k := lo;
  }

  // ----- what the packing promises -----

  /** No other string strictly extends `s`. */
  ghost predicate IsMaximal(strings: seq<Text>, s: Text) {
    && s in strings
    && forall t | t in strings :: Prefix(s, t) ==> s == t
  }

  function Concat(texts: seq<Text>): Text {
    if texts == [] then [] else Concat(texts[..|texts| - 1]) + texts[|texts| - 1]
  }

  function TotalLength(texts: seq<Text>): nat {
    if texts == [] then 0 else TotalLength(texts[..|texts| - 1]) + |texts[|texts| - 1]|
  }

  /** The string `s` can be read back at `start`. */
  predicate ReadsBack(chars: Text, start: nat, s: Text) {
    start + |s| <= |chars| && chars[start..start + |s|] == s
  }

  /** What the finished packing means for the caller: `offsets` places every string, and the
      array is made of `kept`. */
  ghost predicate Shared(strings: seq<Text>, chars: Text, offsets: seq<nat>, kept: seq<Text>) {
    && |offsets| == |strings|
    // every string reads back its own characters
    && (forall i | 0 <= i < |strings| :: ReadsBack(chars, offsets[i], strings[i]))
    // equal strings share one place
    && (forall i, j | 0 <= i < |strings| && 0 <= j < |strings| ::
          strings[i] == strings[j] ==> offsets[i] == offsets[j])
    // the array is made of the maximal strings, each stored once, and nothing else
    && chars == Concat(kept) && Distinct(kept)
    && (forall s :: s in kept <==> IsMaximal(strings, s))
  }

  /** The characters of those among the first `i` strings that strictly prefix another string. */
  ghost function StrictPrefixChars(strings: seq<Text>, i: nat): nat
    requires i <= |strings|
  {
    if i == 0 then 0
    else StrictPrefixChars(strings, i - 1) + if IsMaximal(strings, strings[i - 1]) then 0 else |strings[i - 1]|
  }

  /** Longest first. */
  ghost predicate Descending(sorted: seq<Text>) {
    forall i, j | 0 <= i < j < |sorted| :: |sorted[i]| >= |sorted[j]|
  }

  // ----- the invariant of the packing loop -----

  /** `sorted[..i]` has been processed, string `j` was given `places[j]`, the used part of the
      array is `chars`, and `kept` are the strings whose characters were stored, in that order. */
  ghost predicate Packed(sorted: seq<Text>, i: nat, chars: Text, tree: seq<Range>, places: seq<nat>,
                         kept: seq<Text>)
  {
    && |places| == i <= |sorted|
    && TreeOk(chars, tree)
    && AllShare(sorted, chars, tree, places)
    && AllProcessed(sorted, i, Texts(chars, tree))
    && KeptOk(chars, Texts(chars, tree), kept)
  }

  /** `Packed`, for a loop that only hands the state on. */
  ghost predicate Underway(sorted: seq<Text>, i: nat, chars: Text, tree: seq<Range>, places: seq<nat>,
                           kept: seq<Text>)
  {
    forall n {:trigger Packed(sorted, n, chars, tree, places, kept)} | i <= n <= i ::
      Packed(sorted, n, chars, tree, places, kept)
  }

  ghost predicate TreeOk(chars: Text, tree: seq<Range>) {
    && InBounds(chars, tree)
    && Ascending(Texts(chars, tree)) && PrefixFree(Texts(chars, tree))
  }

  ghost predicate AllShare(sorted: seq<Text>, chars: Text, tree: seq<Range>, places: seq<nat>)
    requires InBounds(chars, tree) && |places| <= |sorted|
  {
    forall j | 0 <= j < |places| :: SharesAt(chars, tree, sorted[j], places[j])
  }

  ghost predicate AllProcessed(sorted: seq<Text>, i: nat, texts: seq<Text>) {
    forall k | 0 <= k < |texts| :: ProcessedBefore(sorted, i, texts[k])
  }

  ghost predicate KeptOk(chars: Text, texts: seq<Text>, kept: seq<Text>) {
    chars == Concat(kept) && Distinct(kept) && Members(kept) == Members(texts)
  }

  /** `key` resolves to an element of the set that starts at `start`. */
  ghost predicate SharesAt(chars: Text, tree: seq<Range>, key: Text, start: nat)
    requires InBounds(chars, tree)
  {
    exists k | 0 <= k < |tree| :: tree[k].start == start && ResolvesAt(Texts(chars, tree), key, k)
  }

  ghost predicate ProcessedBefore(sorted: seq<Text>, i: nat, s: Text) {
    exists j | 0 <= j < i && j < |sorted| :: sorted[j] == s
  }

  lemma MembersInsert(texts: seq<Text>, k: nat, c: Text)
    requires k <= |texts|
    ensures Members(InsertAt(texts, k, c)) == Members(texts) + {c}
    ensures Members(texts + [c]) == Members(texts) + {c}
  {
    var t := InsertAt(texts, k, c);
    forall x | x in texts ensures x in t {
      var m :| 0 <= m < |texts| && texts[m] == x;
      assert t[if m < k then m else m + 1] == x;
    }
  }

  /** The set after keeping `s`: its range is inserted at `k`. */
  lemma TextsInsert(chars: Text, tree: seq<Range>, k: nat, s: Text)
    requires InBounds(chars, tree) && k <= |tree|
    ensures InBounds(chars + s, InsertAt(tree, k, Range(|chars|, |s|)))
    ensures Texts(chars + s, InsertAt(tree, k, Range(|chars|, |s|))) == InsertAt(Texts(chars, tree), k, s)
  {
    AppendKeeps(chars, s, tree);
    assert (chars + s)[|chars|..|chars| + |s|] == s;
  }

  lemma KeepShares(chars: Text, tree: seq<Range>, k: nat, s: Text, key: Text, start: nat)
    requires InBounds(chars, tree) && Ascending(Texts(chars, tree))
    requires IsLowerBound(Texts(chars, tree), s, k)
    requires forall e | e in Texts(chars, tree) :: !Prefix(s, e)
    requires SharesAt(chars, tree, key, start) && |s| <= |key|
    ensures InBounds(chars + s, InsertAt(tree, k, Range(|chars|, |s|)))
    ensures SharesAt(chars + s, InsertAt(tree, k, Range(|chars|, |s|)), key, start)
  {
    var texts := Texts(chars, tree);
    TextsInsert(chars, tree, k, s);
    var q :| 0 <= q < |tree| && tree[q].start == start && ResolvesAt(texts, key, q);
    assert texts[q] in texts;
    InsertKeepsResolution(texts, k, s, key, q);
    assert InsertAt(tree, k, Range(|chars|, |s|))[if q < k then q else q + 1] == tree[q];
  }

  lemma KeptSharesSelf(chars: Text, tree: seq<Range>, k: nat, s: Text)
    requires InBounds(chars, tree) && IsLowerBound(Texts(chars, tree), s, k)
    ensures InBounds(chars + s, InsertAt(tree, k, Range(|chars|, |s|)))
    ensures SharesAt(chars + s, InsertAt(tree, k, Range(|chars|, |s|)), s, |chars|)
  {
    TextsInsert(chars, tree, k, s);
    LessTotal(s, s);
    assert ResolvesAt(InsertAt(Texts(chars, tree), k, s), s, k);
  }

  /** Longest first: the next string is no longer than any string of the set. */
  lemma NextIsShortest(sorted: seq<Text>, i: nat, texts: seq<Text>)
    requires Descending(sorted) && i < |sorted| && AllProcessed(sorted, i, texts)
    ensures forall e | e in texts :: |sorted[i]| <= |e|
  {
    forall e | e in texts ensures |sorted[i]| <= |e| {
      var m :| 0 <= m < |texts| && texts[m] == e;
      assert ProcessedBefore(sorted, i, texts[m]);
    }
  }

  lemma KeepStepShares(sorted: seq<Text>, chars: Text, tree: seq<Range>, places: seq<nat>, k: nat)
    requires Descending(sorted) && |places| < |sorted|
    requires TreeOk(chars, tree) && AllShare(sorted, chars, tree, places)
    requires IsLowerBound(Texts(chars, tree), sorted[|places|], k)
    requires forall e | e in Texts(chars, tree) :: !Prefix(sorted[|places|], e)
    ensures var s := sorted[|places|];
            var tree' := InsertAt(tree, k, Range(|chars|, |s|));
            InBounds(chars + s, tree') && AllShare(sorted, chars + s, tree', places + [|chars|])
  {
    var s := sorted[|places|];
    var tree', places' := InsertAt(tree, k, Range(|chars|, |s|)), places + [|chars|];
    TextsInsert(chars, tree, k, s);
    forall j | 0 <= j < |places'| ensures SharesAt(chars + s, tree', sorted[j], places'[j]) {
      if j == |places| {
        KeptSharesSelf(chars, tree, k, s);
      } else {
        assert SharesAt(chars, tree, sorted[j], places[j]);
        KeepShares(chars, tree, k, s, sorted[j], places[j]);
      }
    }
  }

  lemma KeepStepKept(chars: Text, texts: seq<Text>, kept: seq<Text>, s: Text, k: nat)
    requires KeptOk(chars, texts, kept) && k <= |texts| && s !in texts
    ensures KeptOk(chars + s, InsertAt(texts, k, s), kept + [s])
  {
    assert (kept + [s])[..|kept|] == kept;
    assert s !in kept by {
      assert s !in Members(texts) && Members(kept) == Members(texts);
    }
    DistinctMore(kept, s);
    MembersInsert(texts, k, s);
    MembersInsert(kept, |kept|, s);
    assert s !in Members(texts);
    assert forall i | 0 <= i < |kept| :: kept[i] in Members(kept);
  }

  lemma StepProcessed(sorted: seq<Text>, i: nat, texts: seq<Text>, k: nat)
    requires i < |sorted| && k <= |texts| && AllProcessed(sorted, i, texts)
    ensures AllProcessed(sorted, i + 1, texts)
    ensures AllProcessed(sorted, i + 1, InsertAt(texts, k, sorted[i]))
  {
    forall m | 0 <= m < |texts| ensures ProcessedBefore(sorted, i + 1, texts[m]) {
      assert ProcessedBefore(sorted, i, texts[m]);
    }
    assert ProcessedBefore(sorted, i + 1, sorted[i]);
  }

  /** Keeping the next string: its characters stay behind the others and its range is inserted. */
  lemma KeepStep(sorted: seq<Text>, i: nat, chars: Text, tree: seq<Range>, places: seq<nat>,
                 kept: seq<Text>, k: nat)
    requires Descending(sorted) && i < |sorted| && Packed(sorted, i, chars, tree, places, kept)
    requires IsLowerBound(Texts(chars, tree), sorted[i], k)
    requires !ResolvesAt(Texts(chars, tree), sorted[i], k)
    ensures Packed(sorted, i + 1, chars + sorted[i], InsertAt(tree, k, Range(|chars|, |sorted[i]|)),
                   places + [|chars|], kept + [sorted[i]])
  {
    var s := sorted[i];
    var texts := Texts(chars, tree);
    TextsInsert(chars, tree, k, s);
    LowerBoundFindsExtension(texts, s, k);
    NextIsShortest(sorted, i, texts);
    assert s !in texts by { assert Prefix(s, s); }
    InsertKeepsAscending(texts, k, s);
    InsertKeepsPrefixFree(texts, k, s);
    KeepStepShares(sorted, chars, tree, places, k);
    KeepStepKept(chars, texts, kept, s, k);
    StepProcessed(sorted, i, texts, k);
  }

  /** Dropping the next string: it shares the characters of the lower bound. */
  lemma ShareStep(sorted: seq<Text>, i: nat, chars: Text, tree: seq<Range>, places: seq<nat>,
                  kept: seq<Text>, k: nat)
    requires i < |sorted| && Packed(sorted, i, chars, tree, places, kept)
    requires ResolvesAt(Texts(chars, tree), sorted[i], k)
    ensures Packed(sorted, i + 1, chars, tree, places + [tree[k].start], kept)
  {
    var places' := places + [tree[k].start];
    forall j | 0 <= j < i + 1 ensures SharesAt(chars, tree, sorted[j], places'[j]) {
      if j < i { assert SharesAt(chars, tree, sorted[j], places[j]); }
    }
    StepProcessed(sorted, i, Texts(chars, tree), k);
  }

  // ----- consequences of the invariant -----

  lemma SharedReadsBack(chars: Text, tree: seq<Range>, key: Text, start: nat)
    requires InBounds(chars, tree) && SharesAt(chars, tree, key, start)
    ensures ReadsBack(chars, start, key)
    ensures Covered(Texts(chars, tree), key)
  {
    var texts := Texts(chars, tree);
    var k :| 0 <= k < |tree| && tree[k].start == start && ResolvesAt(texts, key, k);
    assert ResolvesAt(texts, key, k);
    assert texts[k] in texts;
    assert chars[start..start + |key|] == texts[k][..|key|];
  }

  lemma SharedOnce(chars: Text, tree: seq<Range>, key: Text, start1: nat, start2: nat)
    requires InBounds(chars, tree) && SharesAt(chars, tree, key, start1) && SharesAt(chars, tree, key, start2)
    ensures start1 == start2
  {
    var texts := Texts(chars, tree);
    var k1 :| 0 <= k1 < |tree| && tree[k1].start == start1 && ResolvesAt(texts, key, k1);
    var k2 :| 0 <= k2 < |tree| && tree[k2].start == start2 && ResolvesAt(texts, key, k2);
    ResolutionUnique(texts, key, k1, k2);
  }

  /** Some element of `texts` extends `t`. */
  ghost predicate Covered(texts: seq<Text>, t: Text) {
    exists e | e in texts :: Prefix(t, e)
  }

  /** A prefix-free choice of strings that covers all strings consists of the maximal ones. */
  lemma PlacedIsMaximal(strings: seq<Text>, texts: seq<Text>, s: Text)
    requires PrefixFree(texts)
    requires forall i | 0 <= i < |strings| :: Covered(texts, strings[i])
    requires forall k | 0 <= k < |texts| :: texts[k] in strings
    ensures s in texts <==> IsMaximal(strings, s)
  {
    if s in texts {
      var m :| 0 <= m < |texts| && texts[m] == s;
      forall t | t in strings && Prefix(s, t) ensures s == t {
        var i :| 0 <= i < |strings| && strings[i] == t;
        assert Covered(texts, strings[i]);
        var e :| e in texts && Prefix(strings[i], e);
        var k :| 0 <= k < |texts| && texts[k] == e;
        PrefixTransitive(s, t, e);
        assert Prefix(texts[m], texts[k]);
      }
    }
    if IsMaximal(strings, s) {
      var i :| 0 <= i < |strings| && strings[i] == s;
      assert Covered(texts, strings[i]);
      var e :| e in texts && Prefix(strings[i], e);
      assert e in strings;
    }
  }

  lemma PackedIsShared(sorted: seq<Text>, chars: Text, tree: seq<Range>, places: seq<nat>, kept: seq<Text>)
    requires Packed(sorted, |sorted|, chars, tree, places, kept)
    ensures Shared(sorted, chars, places, kept)
  {
    var texts := Texts(chars, tree);
    forall i | 0 <= i < |sorted|
      ensures SharesAt(chars, tree, sorted[i], places[i]) && ReadsBack(chars, places[i], sorted[i])
      ensures Covered(texts, sorted[i])
    {
      SharedReadsBack(chars, tree, sorted[i], places[i]);
    }
    forall i, j | 0 <= i < |sorted| && 0 <= j < |sorted| && sorted[i] == sorted[j]
      ensures places[i] == places[j]
    {
      SharedOnce(chars, tree, sorted[i], places[i], places[j]);
    }
    forall k | 0 <= k < |texts| ensures texts[k] in sorted {
      assert ProcessedBefore(sorted, |sorted|, texts[k]);
    }
    forall s ensures s in kept <==> IsMaximal(sorted, s) {
      PlacedIsMaximal(sorted, texts, s);
      assert s in kept <==> s in Members(kept);
      assert s in texts <==> s in Members(texts);
    }
  }

  lemma LongerIsFound(chars: Text, tree: seq<Range>, s: Text, t: Text, start: nat, k: nat)
    requires TreeOk(chars, tree) && IsLowerBound(Texts(chars, tree), s, k)
    requires SharesAt(chars, tree, t, start) && Prefix(s, t) && s != t
    ensures ResolvesAt(Texts(chars, tree), s, k) && tree[k].length != |s|
  {
    var texts := Texts(chars, tree);
    var q :| 0 <= q < |tree| && ResolvesAt(texts, t, q);
    assert ResolvesAt(texts, t, q);
    PrefixTransitive(s, t, texts[q]);
    assert texts[q] in texts;
    LowerBoundFindsExtension(texts, s, k);
    if texts[k] == s {
      assert k == q;
    }
  }

  /** A string shares with a strictly longer one exactly when it is not maximal. */
  lemma SharesStrictly(sorted: seq<Text>, i: nat, chars: Text, tree: seq<Range>, places: seq<nat>,
                       kept: seq<Text>, k: nat)
    requires Descending(sorted) && i < |sorted| && Packed(sorted, i, chars, tree, places, kept)
    requires IsLowerBound(Texts(chars, tree), sorted[i], k)
    ensures !IsMaximal(sorted, sorted[i]) <==>
            ResolvesAt(Texts(chars, tree), sorted[i], k) && tree[k].length != |sorted[i]|
  {
    var s := sorted[i];
    var texts := Texts(chars, tree);
    assert s in sorted;
    if ResolvesAt(texts, s, k) && tree[k].length != |s| {
      assert ProcessedBefore(sorted, i, texts[k]);
      assert texts[k] in sorted;
    }
    if t :| t in sorted && Prefix(s, t) && s != t {
      StrictlyLongerIsFound(sorted, i, chars, tree, places, kept, k, t);
    }
  }

  lemma StrictlyLongerIsFound(sorted: seq<Text>, i: nat, chars: Text, tree: seq<Range>, places: seq<nat>,
                              kept: seq<Text>, k: nat, t: Text)
    requires Descending(sorted) && i < |sorted| && Packed(sorted, i, chars, tree, places, kept)
    requires IsLowerBound(Texts(chars, tree), sorted[i], k) && t in sorted && Prefix(sorted[i], t) && sorted[i] != t
    ensures ResolvesAt(Texts(chars, tree), sorted[i], k) && tree[k].length != |sorted[i]|
  {
    var j :| 0 <= j < |sorted| && sorted[j] == t;
    assert j < i;
    LongerIsFound(chars, tree, sorted[i], t, places[j], k);
  }

  // ----- sorting: lengths and permutations -----

  lemma {:induction false} ConcatLength(texts: seq<Text>)
    ensures |Concat(texts)| == TotalLength(texts)
  {
    if texts != [] {
      ConcatLength(texts[..|texts| - 1]);
    }
  }

  function RemoveAt<T>(s: seq<T>, j: nat): seq<T>
    requires j < |s|
  {
    s[..j] + s[j + 1..]
  }

  lemma {:induction false} TotalLengthRemove(texts: seq<Text>, j: nat)
    requires j < |texts|
    ensures TotalLength(texts) == TotalLength(RemoveAt(texts, j)) + |texts[j]|
  {
    var n := |texts| - 1;
    if j == n {
      assert RemoveAt(texts, j) == texts[..n];
    } else {
      TotalLengthRemove(texts[..n], j);
      var r := RemoveAt(texts, j);
      assert r[..|r| - 1] == RemoveAt(texts[..n], j);
    }
  }

  lemma {:induction false} TotalLengthPrefix(texts: seq<Text>, i: nat)
    requires i <= |texts|
    ensures TotalLength(texts[..i]) <= TotalLength(texts)
  {
    if i < |texts| {
      TotalLengthPrefix(texts[..|texts| - 1], i);
      assert texts[..|texts| - 1][..i] == texts[..i];
    } else {
      assert texts[..i] == texts;
    }
  }

  /** `order` lists every index below `n` once. */
  ghost predicate IsPermutation(order: seq<nat>, n: nat) {
    && |order| == n
    && (forall i | 0 <= i < n :: order[i] < n)
    && (forall i, j | 0 <= i < j < n :: order[i] != order[j])
  }

  /** The strings in processing order. */
  ghost function Along(strings: seq<Text>, order: seq<nat>): (texts: seq<Text>)
    requires forall i | 0 <= i < |order| :: order[i] < |strings|
    ensures |texts| == |order|
  {
    seq(|order|, j requires 0 <= j < |order| => strings[order[j]])
  }

  /** Any result of the sort by descending length. */
  ghost predicate IsLengthOrder(strings: seq<Text>, order: seq<nat>) {
    IsPermutation(order, |strings|) && Descending(Along(strings, order))
  }

  function Below(n: nat): (r: set<nat>)
    ensures |r| == n && forall m: nat :: m in r <==> m < n
  {
    if n == 0 then {} else Below(n - 1) + {n - 1}
  }

  lemma {:induction false} DistinctWithin(s: seq<nat>, bound: set<nat>)
    requires forall i, j | 0 <= i < j < |s| :: s[i] != s[j]
    requires forall i | 0 <= i < |s| :: s[i] in bound
    ensures |s| <= |bound|
  {
    if s != [] {
      DistinctWithin(s[1..], bound - {s[0]});
    }
  }

  lemma PositionOf(order: seq<nat>, x: nat) returns (j: nat)
    requires IsPermutation(order, |order|) && x < |order|
    ensures j < |order| && order[j] == x
  {
    if forall j | 0 <= j < |order| :: order[j] != x {
      DistinctWithin(order, Below(|order|) - {x});
    }
    j :| 0 <= j < |order| && order[j] == x;
  }

  lemma AlongRemove(strings: seq<Text>, order: seq<nat>, n: nat, j: nat)
    requires IsPermutation(order, n + 1) && j < |order| && order[j] == n && |strings| == n + 1
    ensures IsPermutation(RemoveAt(order, j), n)
    ensures RemoveAt(Along(strings, order), j) == Along(strings[..n], RemoveAt(order, j))
  {
    var rest := RemoveAt(order, j);
    assert forall i | 0 <= i < n :: rest[i] == order[if i < j then i else i + 1] && rest[i] < n;
    forall i | 0 <= i < n ensures RemoveAt(Along(strings, order), j)[i] == Along(strings[..n], rest)[i] {
      assert rest[i] == order[if i < j then i else i + 1];
    }
  }

  /** Sorting does not change the total length. */
  lemma {:induction false} TotalLengthAlong(strings: seq<Text>, order: seq<nat>)
    requires IsPermutation(order, |strings|)
    ensures TotalLength(Along(strings, order)) == TotalLength(strings)
    decreases |strings|
  {
    if strings != [] {
      var n := |strings| - 1;
      var j := PositionOf(order, n);
      AlongRemove(strings, order, n, j);
      TotalLengthRemove(Along(strings, order), j);
      TotalLengthAlong(strings[..n], RemoveAt(order, j));
    } else {
      assert Along(strings, order) == [];
    }
  }

  lemma AlongMembers(strings: seq<Text>, order: seq<nat>, s: Text)
    requires IsPermutation(order, |strings|)
    ensures s in Along(strings, order) <==> s in strings
  {
    if s in strings {
      var x :| 0 <= x < |strings| && strings[x] == s;
      var j := PositionOf(order, x);
      assert Along(strings, order)[j] == s;
    }
  }

  lemma MaximalAlong(strings: seq<Text>, order: seq<nat>, s: Text)
    requires IsPermutation(order, |strings|)
    ensures IsMaximal(Along(strings, order), s) <==> IsMaximal(strings, s)
  {
    AlongMembers(strings, order, s);
    forall t ensures t in Along(strings, order) <==> t in strings {
      AlongMembers(strings, order, t);
    }
  }

  /** A packing of the sorted strings, carried back to the original indices. */
  lemma SharedAlong(strings: seq<Text>, order: seq<nat>, chars: Text, offsets: seq<nat>, places: seq<nat>,
                    kept: seq<Text>)
    requires IsPermutation(order, |strings|) && |offsets| == |strings|
    requires Shared(Along(strings, order), chars, places, kept)
    requires Carries(order, offsets, places)
    ensures Shared(strings, chars, offsets, kept)
  {
    var sorted := Along(strings, order);
    forall i | 0 <= i < |strings| ensures ReadsBack(chars, offsets[i], strings[i]) {
      var j := PositionOf(order, i);
      assert ReadsBack(chars, places[j], sorted[j]);
    }
    forall i, i' | 0 <= i < |strings| && 0 <= i' < |strings| && strings[i] == strings[i']
      ensures offsets[i] == offsets[i']
    {
      var j := PositionOf(order, i);
      var j' := PositionOf(order, i');
      assert sorted[j] == sorted[j'];
    }
    forall s ensures s in kept <==> IsMaximal(strings, s) {
      MaximalAlong(strings, order, s);
    }
  }

  /** Two duplicate-free sequences of the same texts have the same total length. */
  lemma {:induction false} TotalLengthOfSameTexts(a: seq<Text>, b: seq<Text>)
    requires Distinct(a) && Distinct(b)
    requires forall s :: s in a <==> s in b
    ensures TotalLength(a) == TotalLength(b)
    decreases |a|
  {
    assert forall i | 0 <= i < |b| :: b[i] in b;
    if a == [] {
    } else {
      var s := a[0];
      assert s in b;
      var j :| 0 <= j < |b| && b[j] == s;
      var a', b' := RemoveAt(a, 0), RemoveAt(b, j);
      DistinctWithout(a, 0);
      DistinctWithout(b, j);
      forall x ensures x in a' <==> x in b' {
        if x in a' { assert x in a && x != s; assert x in b; }
        if x in b' { assert x in b && x != s; assert x in a; }
      }
      TotalLengthRemove(a, 0);
      TotalLengthRemove(b, j);
      TotalLengthOfSameTexts(a', b');
    }
  }

  /** The size of the packed array does not depend on how the sort ordered equal lengths. */
  lemma PackedSizeIndependentOfSort(strings: seq<Text>, chars1: Text, offsets1: seq<nat>, kept1: seq<Text>,
                                    chars2: Text, offsets2: seq<nat>, kept2: seq<Text>)
    requires Shared(strings, chars1, offsets1, kept1) && Shared(strings, chars2, offsets2, kept2)
    ensures |chars1| == |chars2|
  {
    ConcatLength(kept1);
    ConcatLength(kept2);
    forall s ensures s in kept1 <==> s in kept2 {
      assert s in kept1 <==> IsMaximal(strings, s);
    }
    TotalLengthOfSameTexts(kept1, kept2);
  }

  // ----- the packing method -----

  /** Writes the characters of `s` behind the first `numChars` characters. */
  method AppendChars(combined: array<Char16>, numChars: nat, s: Text)
    requires numChars + |s| <= combined.Length
    modifies combined
    ensures combined[..numChars + |s|] == old(combined[..numChars]) + s
  {
    for j := 0 to |s|
      invariant combined[..numChars + j] == old(combined[..numChars]) + s[..j]
    {
      combined[numChars + j] := s[j];
      assert combined[..numChars + j] == old(combined[..numChars]) + s[..j];
    }
  }

  /** Compares the characters stored at `start` with `s`. */
  method StartsWith(combined: array<Char16>, start: nat, s: Text) returns (isPrefix: bool)
    requires start + |s| <= combined.Length
    ensures isPrefix <==> combined[start..start + |s|] == s
  {
    isPrefix := true;
    for j := 0 to |s|
      invariant isPrefix
      invariant forall m | 0 <= m < j :: combined[start + m] == s[m]
    {
      if combined[start + j] != s[j] {
        assert combined[start..start + |s|][j] != s[j];
        isPrefix := false;
        break;
      }
    }
  }

  /** The search of one iteration: `s` has been appended tentatively behind `chars`. */
  method FindPrefix(combined: array<Char16>, numChars: nat, existing: seq<Range>, s: Text, ghost chars: Text)
    returns (k: nat, isPrefix: bool)
    requires TreeOk(chars, existing)
    requires numChars <= combined.Length && combined[..numChars] == chars + s
    requires forall m | 0 <= m < |existing| :: |s| <= existing[m].length
    ensures IsLowerBound(Texts(chars, existing), s, k)
    ensures isPrefix <==> ResolvesAt(Texts(chars, existing), s, k)
  {
    var newString := Range(numChars - |s|, |s|);
    AppendKeeps(chars, s, existing);
    assert combined[newString.start..newString.start + newString.length] == s by {
      assert combined[..numChars][|chars|..] == s;
    }
    k := LowerBound(combined, numChars, existing, newString);
    if k == |existing| {
      isPrefix := false;
    } else {
      var found := existing[k];
      assert combined[found.start..found.start + |s|] == Texts(chars, existing)[k][..|s|] by {
        assert combined[..numChars][found.start..found.start + |s|] == chars[found.start..found.start + |s|];
        assert Texts(chars, existing)[k][..|s|] == chars[found.start..found.start + |s|];
      }
      isPrefix := StartsWith(combined, found.start, s);
    }
  }

  /** Either outcome of the search leads to a packed state for one more string. */
  lemma PlaceStep(sorted: seq<Text>, i: nat, chars: Text, tree: seq<Range>, places: seq<nat>,
                  kept: seq<Text>, k: nat, isPrefix: bool)
    requires Descending(sorted) && i < |sorted| && Packed(sorted, i, chars, tree, places, kept)
    requires IsLowerBound(Texts(chars, tree), sorted[i], k)
    requires isPrefix <==> ResolvesAt(Texts(chars, tree), sorted[i], k)
    ensures k <= |tree| && (isPrefix ==> k < |tree|)
    ensures isPrefix ==> Packed(sorted, i + 1, chars, tree, places + [tree[k].start], kept)
    ensures isPrefix && tree[k].length != |sorted[i]| <==> !IsMaximal(sorted, sorted[i])
    ensures !isPrefix ==>
              Packed(sorted, i + 1, chars + sorted[i], InsertAt(tree, k, Range(|chars|, |sorted[i]|)),
                     places + [|chars|], kept + [sorted[i]])
  {
    SharesStrictly(sorted, i, chars, tree, places, kept, k);
    if isPrefix {
      ShareStep(sorted, i, chars, tree, places, kept, k);
    } else {
      KeepStep(sorted, i, chars, tree, places, kept, k);
    }
  }

  lemma RangesAreLong(sorted: seq<Text>, i: nat, chars: Text, tree: seq<Range>)
    requires Descending(sorted) && i < |sorted| && InBounds(chars, tree)
    requires AllProcessed(sorted, i, Texts(chars, tree))
    ensures forall m | 0 <= m < |tree| :: |sorted[i]| <= tree[m].length
  {
    var texts := Texts(chars, tree);
    NextIsShortest(sorted, i, texts);
    forall m | 0 <= m < |tree| ensures |sorted[i]| <= tree[m].length {
      assert texts[m] in texts;
    }
  }

  /** Where the tentatively appended string `s` belongs, and what either outcome leaves behind. */
  method FindPlace(ghost sorted: seq<Text>, ghost i: nat, s: Text, combined: array<Char16>, numChars: nat,
                   existing: seq<Range>, ghost places: seq<nat>, ghost kept: seq<Text>, ghost chars: Text)
    returns (k: nat, isPrefix: bool)
    requires Descending(sorted) && i < |sorted| && sorted[i] == s
    requires numChars <= combined.Length && combined[..numChars] == chars + s
    requires Packed(sorted, i, chars, existing, places, kept)
    ensures k <= |existing| && (isPrefix ==> k < |existing|)
    ensures isPrefix ==> Packed(sorted, i + 1, chars, existing, places + [existing[k].start], kept)
    ensures isPrefix && existing[k].length != |s| <==> !IsMaximal(sorted, s)
    ensures !isPrefix ==>
              Packed(sorted, i + 1, chars + s, InsertAt(existing, k, Range(|chars|, |s|)), places + [|chars|], kept + [s])
  {
    RangesAreLong(sorted, i, chars, existing);
    k, isPrefix := FindPrefix(combined, numChars, existing, s, chars);
    PlaceStep(sorted, i, chars, existing, places, kept, k, isPrefix);
  }

  /** One iteration of the packing loop. */
  method PlaceString(ghost sorted: seq<Text>, ghost i: nat, s: Text, combined: array<Char16>, numChars: nat,
                     existing: seq<Range>, ghost places: seq<nat>, ghost kept: seq<Text>)
    returns (numChars': nat, existing': seq<Range>, offset: nat, saved: nat, ghost kept': seq<Text>)
    requires Descending(sorted) && i < |sorted| && sorted[i] == s
    requires numChars + |s| <= combined.Length
    requires Underway(sorted, i, combined[..numChars], existing, places, kept)
    modifies combined
    ensures numChars' <= numChars + |s|
    ensures Underway(sorted, i + 1, combined[..numChars'], existing', places + [offset], kept')
    ensures saved == if IsMaximal(sorted, s) then 0 else |s|
  {
    ghost var chars := combined[..numChars];
    assert Packed(sorted, i, chars, existing, places, kept);
    AppendChars(combined, numChars, s);
    numChars' := numChars + |s|;
    var k, isPrefix := FindPlace(sorted, i, s, combined, numChars', existing, places, kept, chars);
    saved := 0;
    if isPrefix {
      offset, existing', kept' := existing[k].start, existing, kept;
      assert combined[..numChars] == chars by {
        assert combined[..numChars'][..numChars] == chars;
      }
      numChars' := numChars' - |s|;
      if existing[k].length != |s| {
        saved := |s|;
      }
    } else {
      offset := numChars' - |s|;
      assert combined[..numChars'] == chars + s && offset == |chars|;
      existing' := InsertAt(existing, k, Range(offset, |s|));
      kept' := kept + [s];
    }
  }

  lemma {:induction false} CapacityStep(sorted: seq<Text>, i: nat)
    requires i < |sorted|
    ensures TotalLength(sorted[..i + 1]) == TotalLength(sorted[..i]) + |sorted[i]|
    ensures TotalLength(sorted[..i + 1]) <= TotalLength(sorted)
  {
    assert sorted[..i + 1][..i] == sorted[..i];
    TotalLengthPrefix(sorted, i + 1);
  }

  method SumLengths(strings: seq<Text>) returns (totalLength: nat)
    ensures totalLength == TotalLength(strings)
  {
    totalLength := 0;
    for i := 0 to |strings|
      invariant totalLength == TotalLength(strings[..i])
    {
      CapacityStep(strings, i);
      totalLength := totalLength + |strings[i]|;
    }
    assert strings[..|strings|] == strings;
  }

  lemma NothingPacked(sorted: seq<Text>)
    ensures Packed(sorted, 0, [], [], [], [])
  {
  }

  /** `offsets` gives every processed string the place it got. */
  ghost predicate Carries(order: seq<nat>, offsets: seq<nat>, places: seq<nat>) {
    && |places| <= |order|
    && (forall j | 0 <= j < |places| :: order[j] < |offsets| && offsets[order[j]] == places[j])
  }

  lemma CarriesStep(order: seq<nat>, offsets: seq<nat>, places: seq<nat>, offset: nat)
    requires IsPermutation(order, |offsets|) && |places| < |order| && Carries(order, offsets, places)
    ensures Carries(order, offsets[order[|places|] := offset], places + [offset])
  {
  }

  /** Packs all strings; `order` is whatever the sort by descending length produced. */
  method ProcessStrings(strings: seq<Text>, order: seq<nat>)
    returns (packed: Text, offsets: seq<nat>, prefixSavedChars: nat, ghost kept: seq<Text>)
    requires IsLengthOrder(strings, order)
    ensures Shared(strings, packed, offsets, kept)
    ensures prefixSavedChars == StrictPrefixChars(Along(strings, order), |order|)
  {
    ghost var sorted := Along(strings, order);
    var totalLength := SumLengths(strings);
    TotalLengthAlong(strings, order);
    var combined := new Char16[totalLength](_ => 0);
    var numChars: nat := 0;
    var existing: seq<Range> := [];
    ghost var places: seq<nat> := [];
    offsets := seq(|strings|, _ => 0);
    kept, prefixSavedChars := [], 0;
    NothingPacked(sorted);
    assert combined[..0] == [];
    for i := 0 to |order|
      invariant numChars <= combined.Length == TotalLength(sorted)
      invariant numChars <= TotalLength(sorted[..i])
      invariant Underway(sorted, i, combined[..numChars], existing, places, kept)
      invariant |offsets| == |strings| && |places| == i && Carries(order, offsets, places)
      invariant prefixSavedChars == StrictPrefixChars(sorted, i)
    {
      CapacityStep(sorted, i);
      var offset, saved;
      numChars, existing, offset, saved, kept :=
        PlaceString(sorted, i, strings[order[i]], combined, numChars, existing, places, kept);
      CarriesStep(order, offsets, places, offset);
      offsets := offsets[order[i] := offset];
      places := places + [offset];
      prefixSavedChars := prefixSavedChars + saved;
    }
    packed := combined[..numChars];
    AllPacked(strings, order, packed, existing, offsets, places, kept);
  }

  lemma AllPacked(strings: seq<Text>, order: seq<nat>, chars: Text, tree: seq<Range>, offsets: seq<nat>,
                  places: seq<nat>, kept: seq<Text>)
    requires IsPermutation(order, |strings|) && |offsets| == |strings| && Carries(order, offsets, places)
    requires Underway(Along(strings, order), |order|, chars, tree, places, kept)
    ensures Shared(strings, chars, offsets, kept)
  {
    assert Packed(Along(strings, order), |order|, chars, tree, places, kept);
    PackedIsShared(Along(strings, order), chars, tree, places, kept);
    SharedAlong(strings, order, chars, offsets, places, kept);
  }
}
