/** Sequences and what they contain. */
module Sequences {

  ghost function Members<T>(s: seq<T>): set<T> {
    set x | x in s
  }

  ghost predicate Differ<T>(s: seq<T>, i: nat, j: nat)
    requires i < |s| && j < |s|
  {
    s[i] != s[j]
  }

  /** No element occurs twice. */
  ghost predicate Distinct<T(!new)>(s: seq<T>) {
    forall i, j {:trigger Differ(s, i, j)} | 0 <= i < j < |s| :: Differ(s, i, j)
  }

  lemma DistinctIndex<T(!new)>(s: seq<T>, i: nat, j: nat)
    requires Distinct(s) && i < |s| && j < |s| && s[i] == s[j]
    ensures i == j
  {
    assert i < j ==> Differ(s, i, j);
    assert j < i ==> Differ(s, j, i);
  }

  lemma DistinctMore<T(!new)>(s: seq<T>, x: T)
    requires Distinct(s) && x !in s
    ensures Distinct(s + [x])
  {
    forall i, j | 0 <= i < j < |s + [x]| ensures Differ(s + [x], i, j) {
      if j < |s| {
        assert Differ(s, i, j);
      } else {
        assert s[i] in s;
      }
    }
  }

  /** Leaving out one element leaves no copy of it behind. */
  lemma DistinctWithout<T(!new)>(s: seq<T>, k: nat)
    requires Distinct(s) && k < |s|
    ensures Distinct(s[..k] + s[k + 1..]) && s[k] !in s[..k] + s[k + 1..]
  {
    var rest := s[..k] + s[k + 1..];
    forall i, j | 0 <= i < j < |rest| ensures Differ(rest, i, j) {
      assert Differ(s, if i < k then i else i + 1, if j < k then j else j + 1);
    }
    forall i | 0 <= i < |rest| ensures rest[i] != s[k] {
      assert if i < k then Differ(s, i, k) else Differ(s, k, i + 1);
    }
  }
}
