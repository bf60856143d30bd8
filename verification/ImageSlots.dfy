/**
 The words in which the image writer keeps an object's place: the bin slot, a bin number and an index
 packed into 32 bits, and the lock word that carries it (and later the image offset) as a
 forwarding address.
 */
module ImageSlots {
  import opened Bits
  import opened Bytes

  // ----- bin slots -----

  const BINS: nat := 8
  const SHIFTED: nat := 0x2000_0000 // 1 << kBinShift

  lemma ShiftIsPower()
    ensures Pow2(29) == SHIFTED
  {
    assert Pow2(5) == 32;
    assert Pow2(10) == 1024;
    assert Pow2(15) == 32768;
    assert Pow2(20) == 1048576;
    assert Pow2(25) == 33554432;
  }

  /** `BinSlot(bin, index)`; the index is truncated to 32 bits on the way in. */
  function Pack(bin: nat, index: nat): Word32 {
    Or(index % TWO32, bin * SHIFTED) % TWO32
  }

  function GetBin(slot: Word32): nat {
    slot / SHIFTED
  }

  function GetIndex(slot: Word32): nat {
    slot % SHIFTED
  }

  lemma SumFits(bin: nat, index: nat)
    requires bin < 8 && index < 0x2000_0000
    ensures bin * 0x2000_0000 + index < 0x1_0000_0000
  {
  }

  lemma {:induction false} OrIsSum(bin: nat, index: nat)
    requires index < SHIFTED
    ensures Or(index, bin * SHIFTED) == bin * SHIFTED + index
  {
    ShiftIsPower();
    OrDisjoint(index, bin, 29);
  }

  /** Or-ing the shifted bin into an index of 29 bits is addition. */
  lemma PackIsSum(bin: nat, index: nat)
    requires bin < BINS && index < SHIFTED
    ensures Pack(bin, index) == bin * SHIFTED + index
  {
    var sum := bin * SHIFTED + index;
    assert Or(index % TWO32, bin * SHIFTED) == sum by {
      WordIsItself(index);
      OrIsSum(bin, index);
    }
    assert sum % TWO32 == sum by {
      SumFits(bin, index);
      WordIsItself(sum);
    }
  }

  lemma SumParts(bin: nat, index: nat)
    requires index < SHIFTED
    ensures (bin * SHIFTED + index) / SHIFTED == bin && (bin * SHIFTED + index) % SHIFTED == index
  {
  }

  lemma SlotAligned(bin: nat, index: nat)
    requires index % 8 == 0
    ensures (bin * SHIFTED + index) % 8 == 0
  {
  }

  /** Bin and index survive the packing if and only if the index has 29 bits. */
  lemma SlotRoundTrip(bin: nat, index: nat)
    requires bin < BINS
    ensures GetBin(Pack(bin, index)) == bin && GetIndex(Pack(bin, index)) == index <==> index < SHIFTED
    ensures index < SHIFTED && index % 8 == 0 ==> Pack(bin, index) % 8 == 0
  {
    if index < SHIFTED {
      PackIsSum(bin, index);
      SumParts(bin, index);
      if index % 8 == 0 {
        SlotAligned(bin, index);
      }
    }
  }

  // ----- lock words -----

  datatype LockState = Unlocked | ThinLocked | FatLocked | HashCode | ForwardingAddress

  const STATE: nat := 0x4000_0000 // 1 << kStateShift

  function State(word: Word32): LockState {
    if word == 0 then Unlocked
    else match word / STATE
      case 0 => ThinLocked
      case 2 => HashCode
      case 3 => ForwardingAddress
      case _ => FatLocked
  }

  function HashOf(word: Word32): Word32 {
    word % STATE
  }

  /** A hash code is stored under the state bits, and read back from there. */
  lemma HashRoundTrip(word: Word32)
    ensures State(word) == HashCode <==> 0x8000_0000 <= word < 0xC000_0000
    ensures State(word) == HashCode ==> word == 0x8000_0000 + HashOf(word)
  {
  }

  /** The lock word that forwards to `target`. */
  function Forward(target: Word32): Word32 {
    target / 4 + 3 * STATE
  }

  function Forwarded(word: Word32): Word32 {
    word * 4 % TWO32
  }

  /** The address is read back if and only if it is a multiple of four. */
  lemma ForwardRoundTrip(target: Word32)
    ensures State(Forward(target)) == ForwardingAddress
    ensures Forwarded(Forward(target)) == target <==> target % 4 == 0
  {
    assert Forward(target) * 4 == target / 4 * 4 + 3 * TWO32;
  }

  /** Object addresses are multiples of eight. */
  lemma ForwardObject(target: Word32)
    requires target % 8 == 0
    ensures State(Forward(target)) == ForwardingAddress && Forwarded(Forward(target)) == target
  {
    ForwardRoundTrip(target);
  }
}
