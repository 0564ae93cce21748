/**
 The packed 32-bit word of a Dash bucket: a four-bit count, fourteen member bits, fourteen allocation
 bits.  Every update is written with the bit operations of the original, and no update carries from one
 field into another.
 */
module PackedWord {

  const PAIRS: nat := 14

  /** 1 << i */
  function Flag(i: nat): (m: bv32)
    requires i < PAIRS
    ensures m != 0 && m & (m - 1) == 0 && m < 0x4000
  {
    if i < 7 then
      if i == 0 then 1 else if i == 1 then 2 else if i == 2 then 4 else if i == 3 then 8
      else if i == 4 then 16 else if i == 5 then 32 else 64
    else
      if i == 7 then 128 else if i == 8 then 256 else if i == 9 then 512 else if i == 10 then 1024
      else if i == 11 then 2048 else if i == 12 then 4096 else 8192
  }

  /** GET_BITMAP(w) */
  function AllocBits(w: bv32): bv32 {
    w >> 18
  }

  /** GET_MEMBER(w) */
  function MemberBits(w: bv32): bv32 {
    w >> 4
  }

  predicate Hit(x: bv32, n: bv32) {
    x & n != 0
  }

  predicate Hits(x: bv32, i: nat)
    requires i < PAIRS
  {
    Hit(x, Flag(i))
  }

  predicate Alloc(w: bv32, i: nat)
    requires i < PAIRS
  {
    Hits(AllocBits(w), i)
  }

  predicate Member(w: bv32, i: nat)
    requires i < PAIRS
  {
    Hits(MemberBits(w), i)
  }

  /** mask & (1 << j) */
  predicate Masked(mask: bv32, j: nat)
    requires j < PAIRS
  {
    Hits(mask, j)
  }

  /** GET_COUNT(w) */
  function CountField(w: bv32): bv32 {
    w & 15
  }

  /** The bitmap half of set_hash. */
  function SetBits(w: bv32, m: bv32, probe: bool): bv32 {
    (if probe then w | (m << 18) | (m << 4) else w | (m << 18)) + 1
  }

  /** The bitmap half of unset_hash. */
  function UnsetBits(w: bv32, m: bv32): bv32 {
    (w & !(m << 18) & !(m << 4)) - 1
  }

  /** The bulk clear at the end of Split: k is the number of bits in mask. */
  function ClearBits(w: bv32, mask: bv32, k: bv32): bv32 {
    (w & !(mask << 18) & !(mask << 4)) - k
  }

  lemma FlagsDiffer(i: nat, j: nat)
    requires i < PAIRS && j < PAIRS && i != j
    ensures Flag(i) & Flag(j) == 0
  {
  }

  lemma SetOther(w: bv32, m: bv32, probe: bool, n: bv32)
    requires m < 0x4000 && n < 0x4000 && m & n == 0 && w & 15 < 14
    ensures (SetBits(w, m, probe) >> 18) & n == (w >> 18) & n
    ensures (SetBits(w, m, probe) >> 4) & n == (w >> 4) & n
  {
  }

  lemma SetSame(w: bv32, m: bv32, probe: bool)
    requires m < 0x4000 && w & 15 < 14 && (w >> 4) & m == 0
    ensures (SetBits(w, m, probe) >> 18) & m == m
    ensures (SetBits(w, m, probe) >> 4) & m == if probe then m else 0
    ensures SetBits(w, m, probe) & 15 == (w & 15) + 1
  {
  }

  lemma ClearFields(w: bv32, mask: bv32, k: bv32, n: bv32)
    requires mask < 0x4000 && n < 0x4000 && k <= w & 15
    ensures AllocBits(ClearBits(w, mask, k)) & n == AllocBits(w) & n & !mask
    ensures MemberBits(ClearBits(w, mask, k)) & n == MemberBits(w) & n & !mask
    ensures ClearBits(w, mask, k) & 15 == (w & 15) - k
  {
  }

  lemma AllOrNothing(v: bv32, n: bv32)
    requires n & (n - 1) == 0
    ensures v & n == 0 || v & n == n
  {
  }

  lemma MaskedBit(mask: bv32, n: bv32)
    ensures mask & n == n ==> n & !mask == 0
    ensures mask & n == 0 ==> n & !mask == n
    ensures 0 & !mask == 0
  {
  }

  lemma OneBit(x: bv32, v: bv32, mask: bv32, n: bv32)
    requires n & (n - 1) == 0 && x & n == v & n & !mask
    ensures (x & n != 0) == (v & n != 0 && !(mask & n != 0))
  {
    AllOrNothing(v, n);
    AllOrNothing(mask, n);
    MaskedBit(mask, n);
  }

  // The count field is the population count of the allocation bits

  /** The four-bit encoding of a count. */
  function Nibble(n: nat): (k: bv32)
    requires n <= PAIRS
    ensures k & 15 == k && k <= 14
  {
    if n < 8 then
      if n == 0 then 0 else if n == 1 then 1 else if n == 2 then 2 else if n == 3 then 3
      else if n == 4 then 4 else if n == 5 then 5 else if n == 6 then 6 else 7
    else
      if n == 8 then 8 else if n == 9 then 9 else if n == 10 then 10 else if n == 11 then 11
      else if n == 12 then 12 else if n == 13 then 13 else 14
  }

  lemma NibbleStep(n: nat)
    requires n < PAIRS
    ensures Nibble(n + 1) == Nibble(n) + 1 && Nibble(n) < 14
  {
  }

  lemma NibbleFourteen(n: nat)
    requires n <= PAIRS
    ensures Nibble(n) == 14 <==> n == 14
  {
  }

  lemma NibbleMinus(n: nat, k: nat)
    requires k <= n <= PAIRS
    ensures Nibble(k) <= Nibble(n) && Nibble(n) - Nibble(k) == Nibble(n - k)
    decreases k
  {
    if k > 0 {
      NibbleMinus(n, k - 1);
      NibbleDown(n, k);
    }
  }

  lemma NibbleDown(n: nat, k: nat)
    requires 0 < k <= n <= PAIRS
    requires Nibble(k - 1) <= Nibble(n) && Nibble(n) - Nibble(k - 1) == Nibble(n - k + 1)
    ensures Nibble(k) <= Nibble(n) && Nibble(n) - Nibble(k) == Nibble(n - k)
  {
    hide Nibble;
    NibbleStep(n - k);
    NibbleStep(k - 1);
  }

  /** The number of allocation bits among the first n. */
  function Population(w: bv32, n: nat): (k: nat)
    requires n <= PAIRS
    ensures k <= n
  {
    if n == 0 then 0 else Population(w, n - 1) + if Alloc(w, n - 1) then 1 else 0
  }

  /** The number of bits of a mask among the first n. */
  function MaskSize(mask: bv32, n: nat): (k: nat)
    requires n <= PAIRS
    ensures k <= n
  {
    if n == 0 then 0 else MaskSize(mask, n - 1) + if Masked(mask, n - 1) then 1 else 0
  }

  /** What every update of the word keeps. */
  ghost predicate Balanced(w: bv32) {
    && CountField(w) == Nibble(Population(w, PAIRS))
    && forall i :: 0 <= i < PAIRS && Member(w, i) ==> Alloc(w, i)
  }

  lemma {:induction false} PopulationSet(w: bv32, w': bv32, i: nat, n: nat)
    requires i < PAIRS && n <= PAIRS && !Alloc(w, i)
    requires forall j :: 0 <= j < PAIRS ==> Alloc(w', j) == (j == i || Alloc(w, j))
    ensures Population(w', n) == Population(w, n) + if i < n then 1 else 0
  {
    if n > 0 {
      PopulationSet(w, w', i, n - 1);
    }
  }

  lemma {:induction false} PopulationCleared(w: bv32, w': bv32, mask: bv32, n: nat)
    requires n <= PAIRS
    requires forall j :: 0 <= j < PAIRS ==> Alloc(w', j) == (Alloc(w, j) && !Masked(mask, j))
    requires forall j :: 0 <= j < PAIRS && Masked(mask, j) ==> Alloc(w, j)
    ensures Population(w', n) + MaskSize(mask, n) == Population(w, n)
  {
    if n > 0 {
      PopulationCleared(w, w', mask, n - 1);
    }
  }

  lemma {:induction false} RoomBelow(w: bv32, i: nat, n: nat)
    requires i < n <= PAIRS && !Alloc(w, i)
    ensures Population(w, n) < n
  {
    if i < n - 1 {
      RoomBelow(w, i, n - 1);
    }
  }

  lemma SetHashHere(w: bv32, i: nat, probe: bool)
    requires i < PAIRS && w & 15 < 14 && !Member(w, i)
    ensures Alloc(SetBits(w, Flag(i), probe), i) && Member(SetBits(w, Flag(i), probe), i) == probe
    ensures SetBits(w, Flag(i), probe) & 15 == (w & 15) + 1
  {
    hide Flag, SetBits;
    SetSame(w, Flag(i), probe);
  }

  lemma SetHashThere(w: bv32, i: nat, probe: bool, j: nat)
    requires i < PAIRS && j < PAIRS && w & 15 < 14 && Flag(i) & Flag(j) == 0
    ensures Alloc(SetBits(w, Flag(i), probe), j) == Alloc(w, j)
  {
    hide Flag, SetBits;
    SetOther(w, Flag(i), probe, Flag(j));
  }

  lemma SetMemberThere(w: bv32, i: nat, probe: bool, j: nat)
    requires i < PAIRS && j < PAIRS && w & 15 < 14 && Flag(i) & Flag(j) == 0
    ensures Member(SetBits(w, Flag(i), probe), j) == Member(w, j)
  {
    hide Flag, SetBits;
    SetOther(w, Flag(i), probe, Flag(j));
  }

  /** set_hash on a free index sets that index alone, and the count field follows without a carry. */
  lemma SetHashWord(w: bv32, i: nat, probe: bool)
    requires i < PAIRS && Balanced(w) && !Alloc(w, i)
    ensures var w' := SetBits(w, Flag(i), probe);
      && Balanced(w')
      && (forall j :: 0 <= j < PAIRS ==> Alloc(w', j) == (j == i || Alloc(w, j)))
      && (forall j :: 0 <= j < PAIRS ==> Member(w', j) == if j == i then probe else Member(w, j))
  {
    hide Flag, SetBits, Nibble, Alloc, Member;
    var w' := SetBits(w, Flag(i), probe);
    RoomBelow(w, i, PAIRS);
    NibbleStep(Population(w, PAIRS));
    forall j | 0 <= j < PAIRS
      ensures Alloc(w', j) == (j == i || Alloc(w, j))
      ensures Member(w', j) == if j == i then probe else Member(w, j)
    {
      if j != i {
        FlagsDiffer(i, j);
        SetHashThere(w, i, probe, j);
        SetMemberThere(w, i, probe, j);
      } else {
        SetHashHere(w, i, probe);
      }
    }
    SetHashHere(w, i, probe);
    PopulationSet(w, w', i, PAIRS);
  }

  predicate Single(n: bv32) {
    n & (n - 1) == 0
  }

  /** x is v with the mask taken out, as far as the bits of n go. */
  predicate MaskedOut(x: bv32, v: bv32, mask: bv32, n: bv32) {
    x & n == v & n & !mask
  }

  lemma ClearHit(x: bv32, v: bv32, mask: bv32, n: bv32)
    requires Single(n) && MaskedOut(x, v, mask, n)
    ensures Hit(x, n) == (Hit(v, n) && !Hit(mask, n))
  {
    OneBit(x, v, mask, n);
  }

  lemma FlagSingle(j: nat)
    requires j < PAIRS
    ensures Single(Flag(j))
  {
    hide Flag;
  }

  lemma ClearMaskedOut(w: bv32, mask: bv32, k: bv32, n: bv32)
    requires mask < 0x4000 && k <= w & 15 && n < 0x4000
    ensures MaskedOut(AllocBits(ClearBits(w, mask, k)), AllocBits(w), mask, n)
    ensures MaskedOut(MemberBits(ClearBits(w, mask, k)), MemberBits(w), mask, n)
  {
    hide ClearBits, AllocBits, MemberBits;
    ClearFields(w, mask, k, n);
  }

  lemma ClearOneIndex(w: bv32, mask: bv32, k: bv32, j: nat)
    requires mask < 0x4000 && k <= w & 15 && j < PAIRS
    ensures Alloc(ClearBits(w, mask, k), j) == (Alloc(w, j) && !Masked(mask, j))
    ensures Member(ClearBits(w, mask, k), j) == (Member(w, j) && !Masked(mask, j))
  {
    hide Flag, ClearBits, Hit, Single, MaskedOut, AllocBits, MemberBits;
    var n := Flag(j);
    FlagSingle(j);
    ClearMaskedOut(w, mask, k, n);
    ClearHit(AllocBits(ClearBits(w, mask, k)), AllocBits(w), mask, n);
    ClearHit(MemberBits(ClearBits(w, mask, k)), MemberBits(w), mask, n);
  }

  /** The bulk clear removes exactly the masked indices, and the subtraction does not borrow. */
  lemma ClearWord(w: bv32, mask: bv32)
    requires Balanced(w) && mask < 0x4000
    requires forall j :: 0 <= j < PAIRS && Masked(mask, j) ==> Alloc(w, j)
    ensures var w' := ClearBits(w, mask, Nibble(MaskSize(mask, PAIRS)));
      && Balanced(w')
      && (forall j :: 0 <= j < PAIRS ==> Alloc(w', j) == (Alloc(w, j) && !Masked(mask, j)))
      && (forall j :: 0 <= j < PAIRS ==> Member(w', j) == (Member(w, j) && !Masked(mask, j)))
  {
    hide Flag, ClearBits, Nibble, Alloc, Member, Masked;
    var k := Nibble(MaskSize(mask, PAIRS));
    var w' := ClearBits(w, mask, k);
    MaskWithin(w, mask, PAIRS);
    NibbleMinus(Population(w, PAIRS), MaskSize(mask, PAIRS));
    forall j | 0 <= j < PAIRS
      ensures Alloc(w', j) == (Alloc(w, j) && !Masked(mask, j))
      ensures Member(w', j) == (Member(w, j) && !Masked(mask, j))
    {
      ClearOneIndex(w, mask, k, j);
    }
    ClearFields(w, mask, k, 0);
    PopulationCleared(w, w', mask, PAIRS);
  }

  lemma {:induction false} MaskWithin(w: bv32, mask: bv32, n: nat)
    requires n <= PAIRS
    requires forall j :: 0 <= j < PAIRS && Masked(mask, j) ==> Alloc(w, j)
    ensures MaskSize(mask, n) <= Population(w, n)
  {
    if n > 0 {
      MaskWithin(w, mask, n - 1);
    }
  }

  /** unset_hash is the bulk clear of a single index. */
  lemma UnsetHashWord(w: bv32, i: nat)
    requires i < PAIRS && Balanced(w) && Alloc(w, i)
    ensures var w' := UnsetBits(w, Flag(i));
      && Balanced(w')
      && (forall j :: 0 <= j < PAIRS ==> Alloc(w', j) == (j != i && Alloc(w, j)))
      && (forall j :: 0 <= j < PAIRS ==> Member(w', j) == (j != i && Member(w, j)))
  {
    hide Flag, Alloc, Member, Masked, Nibble;
    SingleMask(i, PAIRS);
    forall j | 0 <= j < PAIRS
      ensures Masked(Flag(i), j) == (j == i)
    {
      SingleFlag(i, j);
    }
    assert Nibble(1) == 1 by { NibbleOne(); }
    ClearWord(w, Flag(i));
  }

  lemma NibbleOne()
    ensures Nibble(1) == 1
  {
  }

  lemma SingleFlag(i: nat, j: nat)
    requires i < PAIRS && j < PAIRS
    ensures Masked(Flag(i), j) == (j == i)
  {
    hide Flag;
    if i != j {
      FlagsDiffer(i, j);
    }
  }

  lemma {:induction false} SingleMask(i: nat, n: nat)
    requires i < PAIRS && n <= PAIRS
    ensures MaskSize(Flag(i), n) == if i < n then 1 else 0
  {
    hide Flag, Masked;
    if n > 0 {
      SingleMask(i, n - 1);
      SingleFlag(i, n - 1);
    }
  }
}
