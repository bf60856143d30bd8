/**
 The hash section of the ELF file ("Hash Table" in chapter 5 of the System V gABI): buckets and
 chains of symbol indices. A lookup follows the chain of one bucket and finds what a linear scan of
 all symbols would find first.
 */
module ElfHash {
  import opened Bytes
  import opened ElfHashFunction

  // ----- buckets -----

  /** The number of buckets for `n` symbols. */
  function BucketCount(n: nat): (count: nat)
    ensures count >= 2
  {
    if n < 8 then 2
    else if n < 32 then 4
    else if n < 256 then 16
    else RoundUp(n / 32, 2)
  }

  function BucketOf(name: Name, buckets: nat): (b: nat)
    requires buckets > 0
    ensures b < buckets
  {
    Hash(name) as nat % buckets
  }

  /** The buckets of all symbols; symbol `k` has index `k + 1`, index 0 is the null symbol. */
  function BucketsOf(names: seq<Name>, buckets: nat): (hs: seq<nat>)
    requires buckets > 0
    ensures |hs| == |names|
    ensures forall k {:trigger hs[k]} | 0 <= k < |names| :: hs[k] == BucketOf(names[k], buckets)
  {
    seq(|names|, k requires 0 <= k < |names| => BucketOf(names[k], buckets))
  }

  method ComputeBucket(name: Name, buckets: nat) returns (b: nat)
    requires buckets > 0
    ensures b == BucketOf(name, buckets)
  {
    var h := ComputeHash(name);
    b := h as nat % buckets;
  }

  /** The bucket of symbol `i`. */
  method ComputeBucketAt(names: seq<Name>, i: nat, buckets: nat, ghost hs: seq<nat>) returns (b: nat)
    requires buckets > 0 && i < |names| && hs == BucketsOf(names, buckets)
    ensures b == hs[i]
  {
    b := ComputeBucket(names[i], buckets);
  }

  // ----- what buckets and chain should hold -----

  /** The least symbol index above `from`, up to `n`, in bucket `b`; 0 if there is none. */
  function NextIn(hs: seq<nat>, b: nat, from: nat, n: nat): (r: nat)
    requires n <= |hs|
    ensures r == 0 || (from < r <= n && hs[r - 1] == b)
    ensures forall j {:trigger hs[j - 1]} | from < j <= n && hs[j - 1] == b :: 0 < r <= j
    decreases n - from
  {
    if from >= n then 0
    else if hs[from] == b then from + 1
    else NextIn(hs, b, from + 1, n)
  }

  /** Each bucket holds its first symbol, each chain cell the next symbol of the same bucket. */
  ghost predicate Linked(hs: seq<nat>, buckets: seq<nat>, chain: seq<nat>, n: nat) {
    && n <= |hs| && |chain| == |hs| + 1
    && (forall k {:trigger hs[k]} | 0 <= k < |hs| :: hs[k] < |buckets|)
    && (forall b {:trigger buckets[b]} | 0 <= b < |buckets| :: buckets[b] == NextIn(hs, b, 0, n))
    && chain[0] == 0
    && (forall j {:trigger chain[j]} | 1 <= j <= |hs| ::
          chain[j] == if j <= n then NextIn(hs, hs[j - 1], j, n) else 0)
  }

  /** Links strictly increase and stay in the bucket. */
  lemma LinksIncrease(hs: seq<nat>, buckets: seq<nat>, chain: seq<nat>, j: nat)
    requires Linked(hs, buckets, chain, |hs|) && 1 <= j <= |hs|
    ensures chain[j] == 0 || (j < chain[j] <= |hs| && hs[chain[j] - 1] == hs[j - 1])
  {
  }

  /** One more symbol changes the answer only where there was none. */
  lemma {:induction false} NextInMore(hs: seq<nat>, b: nat, from: nat, n: nat)
    requires n < |hs|
    ensures NextIn(hs, b, from, n + 1) ==
            if NextIn(hs, b, from, n) != 0 then NextIn(hs, b, from, n)
            else if from <= n && hs[n] == b then n + 1
            else 0
    decreases n - from
  {
    if from < n && hs[from] != b {
      NextInMore(hs, b, from + 1, n);
    }
  }

  /** A new symbol that opens its bucket. */
  lemma OpenBucket(hs: seq<nat>, buckets: seq<nat>, chain: seq<nat>, n: nat)
    requires Linked(hs, buckets, chain, n) && n < |hs| && buckets[hs[n]] == 0
    ensures Linked(hs, buckets[hs[n] := n + 1], chain, n + 1)
  {
    var h := hs[n];
    var more := buckets[h := n + 1];
    forall b | 0 <= b < |more| ensures more[b] == NextIn(hs, b, 0, n + 1) {
      NextInMore(hs, b, 0, n);
    }
    forall j | 1 <= j <= |hs| ensures chain[j] == if j <= n + 1 then NextIn(hs, hs[j - 1], j, n + 1) else 0 {
      if j <= n {
        NextInMore(hs, hs[j - 1], j, n);
        assert hs[j - 1] != h;
      }
    }
  }

  /** A new symbol behind the last one of its bucket. */
  lemma ExtendChain(hs: seq<nat>, buckets: seq<nat>, chain: seq<nat>, n: nat, last: nat)
    requires Linked(hs, buckets, chain, n) && n < |hs|
    requires 1 <= last <= n && hs[last - 1] == hs[n] && chain[last] == 0
    ensures Linked(hs, buckets, chain[last := n + 1], n + 1)
  {
    var h := hs[n];
    var more := chain[last := n + 1];
    forall b | 0 <= b < |buckets| ensures buckets[b] == NextIn(hs, b, 0, n + 1) {
      NextInMore(hs, b, 0, n);
      assert b == h ==> hs[last - 1] == b;
    }
    forall j | 1 <= j <= |hs| ensures more[j] == if j <= n + 1 then NextIn(hs, hs[j - 1], j, n + 1) else 0 {
      if j <= n {
        NextInMore(hs, hs[j - 1], j, n);
        OthersGoOn(hs, h, last, j, n);
      }
    }
  }

  /** Of the symbols of a bucket only the last one has no successor. */
  lemma {:induction false} OthersGoOn(hs: seq<nat>, h: nat, last: nat, j: nat, n: nat)
    requires n < |hs| && 1 <= last <= n && 1 <= j <= n && hs[last - 1] == h && NextIn(hs, h, last, n) == 0
    ensures hs[j - 1] == h && j != last ==> NextIn(hs, h, j, n) != 0
  {
    if hs[j - 1] == h && j < last {
      assert hs[last - 1] == h;
    }
  }

  // ----- every index once -----

  /** The symbol indices 1 to `n`. */
  function Indices(n: nat): multiset<nat> {
    if n == 0 then multiset{} else Indices(n - 1) + multiset{n}
  }

  lemma {:induction false} IndicesOnce(n: nat, j: nat)
    ensures Indices(n)[j] == if 1 <= j <= n then 1 else 0
  {
    if n > 0 {
      IndicesOnce(n - 1, j);
    }
  }

  function ZeroCells(k: nat): multiset<nat> {
    if k == 0 then multiset{} else ZeroCells(k - 1) + multiset{0}
  }

  lemma {:induction false} ZerosOnly(k: nat, j: nat)
    ensures ZeroCells(k)[j] == if j == 0 then k else 0
  {
    if k > 0 {
      ZerosOnly(k - 1, j);
    }
  }

  /** All cells together: the first `n` indices, and zeros elsewhere. */
  ghost predicate Cells(buckets: seq<nat>, chain: seq<nat>, n: nat) {
    n <= |chain| && multiset(buckets) + multiset(chain) == Indices(n) + ZeroCells(|buckets| + |chain| - n)
  }

  lemma {:induction false} ZerosCount(s: seq<nat>)
    requires forall i | 0 <= i < |s| :: s[i] == 0
    ensures multiset(s) == ZeroCells(|s|)
  {
    if s != [] {
      var front := s[..|s| - 1];
      ZerosCount(front);
      assert s == front + [0];
    }
  }

  lemma {:induction false} ZerosSum(a: nat, b: nat)
    ensures ZeroCells(a) + ZeroCells(b) == ZeroCells(a + b)
  {
    if b > 0 {
      ZerosSum(a, b - 1);
    }
  }

  /** A zero cell that gets an index. */
  lemma Filled(s: seq<nat>, i: nat, index: nat)
    requires i < |s| && s[i] == 0
    ensures multiset(s) == multiset(s[i := index]) - multiset{index} + multiset{0 as nat}
    ensures index in multiset(s[i := index])
  {
    assert s[i := index][i] in s[i := index];
  }

  lemma CellsBucket(buckets: seq<nat>, chain: seq<nat>, n: nat, b: nat)
    requires Cells(buckets, chain, n) && n < |chain| && b < |buckets| && buckets[b] == 0
    ensures Cells(buckets[b := n + 1], chain, n + 1)
  {
    CellFilled(buckets, b, multiset(chain), n, |buckets| + |chain| - n);
  }

  lemma CellsChain(buckets: seq<nat>, chain: seq<nat>, n: nat, j: nat)
    requires Cells(buckets, chain, n) && n < |chain| && j < |chain| && chain[j] == 0
    ensures Cells(buckets, chain[j := n + 1], n + 1)
  {
    CellFilled(chain, j, multiset(buckets), n, |buckets| + |chain| - n);
  }

  /** One cell of a sequence goes from zero to the next index. */
  lemma CellFilled(s: seq<nat>, i: nat, other: multiset<nat>, n: nat, zeros: nat)
    requires i < |s| && s[i] == 0 && zeros > 0 && multiset(s) + other == Indices(n) + ZeroCells(zeros)
    ensures multiset(s[i := n + 1]) + other == Indices(n + 1) + ZeroCells(zeros - 1)
  {
    Filled(s, i, n + 1);
    CellsStep(multiset(s), multiset(s[i := n + 1]), other, n, zeros);
  }

  /** A cell goes from zero to the next index. */
  lemma CellsStep(old_: multiset<nat>, new_: multiset<nat>, other: multiset<nat>, n: nat, zeros: nat)
    requires n + 1 in new_ && old_ == new_ - multiset{n + 1} + multiset{0}
    requires zeros > 0 && old_ + other == Indices(n) + ZeroCells(zeros)
    ensures new_ + other == Indices(n + 1) + ZeroCells(zeros - 1)
  {
    assert ZeroCells(zeros) == ZeroCells(zeros - 1) + multiset{0};
    Exchange(old_, new_, other, Indices(n), ZeroCells(zeros - 1), n + 1);
  }

  lemma Exchange(old_: multiset<nat>, new_: multiset<nat>, other: multiset<nat>, indices: multiset<nat>,
                 zeros: multiset<nat>, index: nat)
    requires index in new_ && old_ == new_ - multiset{index} + multiset{0}
    requires old_ + other == indices + (zeros + multiset{0})
    ensures new_ + other == indices + multiset{index} + zeros
  {
    forall x: nat ensures (new_ + other)[x] == (indices + multiset{index} + zeros)[x] {
      assert (old_ + other)[x] == (indices + (zeros + multiset{0}))[x];
    }
  }

  /** Every symbol index is present exactly once, and 0 once more than there are buckets. */
  lemma ExactlyOnce(buckets: seq<nat>, chain: seq<nat>, n: nat, j: nat)
    requires Cells(buckets, chain, n) && |chain| == n + 1
    ensures (multiset(buckets) + multiset(chain))[j] ==
            if j == 0 then |buckets| + 1 else if j <= n then 1 else 0
  {
    IndicesOnce(n, j);
    ZerosOnly(|buckets| + 1, j);
    assert |buckets| + |chain| - n == |buckets| + 1;
  }

  // ----- building -----

  /** The end of the chain that starts at `start`. */
  method ChainEnd(ghost hs: seq<nat>, buckets: seq<nat>, chain: seq<nat>, ghost n: nat, start: nat) returns (last: nat)
    requires Linked(hs, buckets, chain, n) && 1 <= start <= n
    ensures 1 <= last <= n && hs[last - 1] == hs[start - 1] && chain[last] == 0
  {
    last := start;
    while chain[last] != 0
      invariant 1 <= last <= n && hs[last - 1] == hs[start - 1]
      decreases n - last
    {
      last := chain[last];
    }
  }

  /** The table before any symbol. */
  lemma EmptyTable(hs: seq<nat>, buckets: seq<nat>, chain: seq<nat>)
    requires |chain| == |hs| + 1 && forall k {:trigger hs[k]} | 0 <= k < |hs| :: hs[k] < |buckets|
    requires forall b | 0 <= b < |buckets| :: buckets[b] == 0
    requires forall j | 0 <= j < |chain| :: chain[j] == 0
    ensures Linked(hs, buckets, chain, 0) && Cells(buckets, chain, 0)
  {
    ZerosCount(buckets);
    ZerosCount(chain);
    ZerosSum(|buckets|, |chain|);
  }

  /** Enters symbol `i`. */
  method Enter(ghost hs: seq<nat>, buckets: seq<nat>, chain: seq<nat>, i: nat, value: nat)
    returns (newBuckets: seq<nat>, newChain: seq<nat>)
    requires Linked(hs, buckets, chain, i) && Cells(buckets, chain, i) && i < |hs| && value == hs[i]
    ensures |newBuckets| == |buckets| && |newChain| == |chain|
    ensures Linked(hs, newBuckets, newChain, i + 1) && Cells(newBuckets, newChain, i + 1)
  {
    newBuckets, newChain := buckets, chain;
    var index := i + 1;
    if buckets[value] == 0 {
      OpenBucket(hs, buckets, chain, i);
      CellsBucket(buckets, chain, i, value);
      newBuckets := buckets[value := index];
    } else {
      var last := ChainEnd(hs, buckets, chain, i, buckets[value]);
      assert chain[index] == 0;
      ExtendChain(hs, buckets, chain, i, last);
      CellsChain(buckets, chain, i, last);
      newChain := chain[last := index];
    }
  }

  /** `GenerateHashContents`: bucket count, chain length, buckets, chain. */
  method GenerateHashContents(names: seq<Name>) returns (hash: seq<nat>, buckets: seq<nat>, chain: seq<nat>)
    ensures |buckets| == BucketCount(|names|) && |chain| == |names| + 1
    ensures hash == [|buckets|, |chain|] + buckets + chain
    ensures Linked(BucketsOf(names, |buckets|), buckets, chain, |names|)
    ensures Cells(buckets, chain, |names|)
  {
    var count: nat;
    if |names| < 8 {
      count := 2;
    } else if |names| < 32 {
      count := 4;
    } else if |names| < 256 {
      count := 16;
    } else {
      count := RoundUp(|names| / 32, 2);
    }
    buckets, chain := EnterAll(names, count, BucketsOf(names, count));
    hash := [count, |names| + 1] + buckets + chain;
  }

  method EnterAll(names: seq<Name>, count: nat, ghost hs: seq<nat>) returns (buckets: seq<nat>, chain: seq<nat>)
    requires count > 0 && hs == BucketsOf(names, count)
    ensures |buckets| == count && |chain| == |names| + 1
    ensures Linked(hs, buckets, chain, |names|) && Cells(buckets, chain, |names|)
  {
    buckets, chain := seq(count, b => 0), seq(|names| + 1, j => 0);
    EmptyTable(hs, buckets, chain);
    for i := 0 to |names|
      invariant |buckets| == count && |chain| == |names| + 1
      invariant Linked(hs, buckets, chain, i) && Cells(buckets, chain, i)
    {
      var value := ComputeBucketAt(names, i, count, hs);
      buckets, chain := Enter(hs, buckets, chain, i, value);
    }
  }

  // ----- looking up -----

  /** A linear scan: the least index above `from` of a symbol with this name, 0 if there is none. */
  function FirstMatch(names: seq<Name>, name: Name, from: nat): (r: nat)
    ensures r == 0 || (from < r <= |names| && names[r - 1] == name)
    ensures forall j {:trigger names[j - 1]} | from < j <= |names| && names[j - 1] == name :: 0 < r <= j
    decreases |names| - from
  {
    if from >= |names| then 0
    else if names[from] == name then from + 1
    else FirstMatch(names, name, from + 1)
  }

  /** Whoever has the name is in bucket `b`. */
  ghost predicate InBucket(names: seq<Name>, hs: seq<nat>, b: nat, name: Name) {
    |hs| == |names| && forall k {:trigger names[k]} | 0 <= k < |names| && names[k] == name :: hs[k] == b
  }

  /** So the scan can jump along the bucket. */
  lemma {:induction false} JumpsAlongBucket(names: seq<Name>, hs: seq<nat>, b: nat, name: Name, from: nat)
    requires InBucket(names, hs, b, name)
    ensures var next := NextIn(hs, b, from, |names|);
            FirstMatch(names, name, from) ==
            if next == 0 then 0
            else if names[next - 1] == name then next
            else FirstMatch(names, name, next)
    decreases |names| - from
  {
    if from < |names| && hs[from] != b {
      assert names[from] != name;
      JumpsAlongBucket(names, hs, b, name, from + 1);
    }
  }

  /** Follows one chain. */
  method FollowChain(names: seq<Name>, hash: seq<nat>, ghost hs: seq<nat>, ghost buckets: seq<nat>,
                     ghost chain: seq<nat>, b: nat, name: Name) returns (index: nat)
    requires Linked(hs, buckets, chain, |names|) && InBucket(names, hs, b, name) && b < |buckets|
    requires hash == [|buckets|, |chain|] + buckets + chain
    ensures index == FirstMatch(names, name, 0)
  {
    index := hash[2 + b];
    ghost var from: nat := 0;
    while index != 0 && names[index - 1] != name
      invariant index == NextIn(hs, b, from, |names|)
      invariant FirstMatch(names, name, 0) == FirstMatch(names, name, from)
      decreases if index == 0 then 0 else |names| + 1 - index
    {
      JumpsAlongBucket(names, hs, b, name, from);
      from := index;
      index := hash[2 + hash[0] + index];
      assert index == chain[from];
    }
    JumpsAlongBucket(names, hs, b, name, from);
  }

  /** The lookup of the gABI, on the words of the section, terminates and finds what the linear scan
      finds first. */
  method GetSym(names: seq<Name>, hash: seq<nat>, ghost buckets: seq<nat>, ghost chain: seq<nat>, name: Name)
    returns (index: nat)
    requires |buckets| > 0 && Linked(BucketsOf(names, |buckets|), buckets, chain, |names|)
    requires hash == [|buckets|, |chain|] + buckets + chain
    ensures index == FirstMatch(names, name, 0)
  {
    var b := ComputeBucket(name, hash[0]);
    index := FollowChain(names, hash, BucketsOf(names, |buckets|), buckets, chain, b, name);
  }
}
