/** The hash function of ELF symbol names. */
module ElfHashFunction {

  type Name = seq<bv8>

  /** Folding the top four bits back in, as the code writes it. */
  function Fold(x: bv32): bv32 {
    (x ^ (x & 0xf000_0000)) ^ ((x & 0xf000_0000) >> 24)
  }

  /** The same, as the gABI writes it. */
  function StandardFold(x: bv32): bv32 {
    if x & 0xf000_0000 != 0 then (x ^ ((x & 0xf000_0000) >> 24)) & !(x & 0xf000_0000)
    else x & !(x & 0xf000_0000)
  }

  lemma NothingToFold(x: bv32)
    requires x & 0xf000_0000 == 0
    ensures (x ^ (x & 0xf000_0000)) ^ ((x & 0xf000_0000) >> 24) == x & !(x & 0xf000_0000)
  {
  }

  lemma FoldNothing(x: bv32)
    requires x & 0xf000_0000 == 0
    ensures Fold(x) == StandardFold(x)
  {
    NothingToFold(x);
  }

  lemma SomethingToFold(x: bv32)
    ensures (x ^ (x & 0xf000_0000)) ^ ((x & 0xf000_0000) >> 24) ==
            (x ^ ((x & 0xf000_0000) >> 24)) & !(x & 0xf000_0000)
  {
    assert x ^ (x & 0xf000_0000) == x & !(x & 0xf000_0000);
  }

  lemma FoldSomething(x: bv32)
    requires x & 0xf000_0000 != 0
    ensures Fold(x) == StandardFold(x)
  {
    SomethingToFold(x);
  }

  /** The two agree, and the top four bits are clear afterwards. */
  lemma FoldIsStandard(x: bv32)
    ensures Fold(x) == StandardFold(x)
    ensures Fold(x) & 0xf000_0000 == 0
  {
    assert ((x ^ (x & 0xf000_0000)) ^ ((x & 0xf000_0000) >> 24)) & 0xf000_0000 == 0;
    if x & 0xf000_0000 == 0 {
      FoldNothing(x);
    } else {
      FoldSomething(x);
    }
  }

  function HashStep(h: bv32, c: bv8): bv32 {
    Fold((h << 4) + c as bv32)
  }

  function StandardStep(h: bv32, c: bv8): bv32 {
    StandardFold((h << 4) + c as bv32)
  }

  function Hash(name: Name): bv32 {
    if name == [] then 0 else HashStep(Hash(name[..|name| - 1]), name[|name| - 1])
  }

  function StandardHash(name: Name): bv32 {
    if name == [] then 0 else StandardStep(StandardHash(name[..|name| - 1]), name[|name| - 1])
  }

  lemma {:induction false} HashIsStandard(name: Name)
    ensures Hash(name) == StandardHash(name)
    ensures Hash(name) & 0xf000_0000 == 0
  {
    if name != [] {
      HashIsStandard(name[..|name| - 1]);
      FoldIsStandard((Hash(name[..|name| - 1]) << 4) + name[|name| - 1] as bv32);
    }
  }

  /** The loop over the characters. */
  method ComputeHash(name: Name) returns (h: bv32)
    ensures h == Hash(name)
  {
    h := 0;
    for i := 0 to |name|
      invariant h == Hash(name[..i])
    {
      assert name[..i + 1][..i] == name[..i];
      h := HashStep(h, name[i]);
    }
    assert name[..|name|] == name;
  }
}
