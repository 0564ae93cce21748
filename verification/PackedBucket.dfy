/**
 struct Bucket of Dash as it lies in memory: a packed word, eighteen fingerprint bytes, four overflow
 bytes and the pairs.  Each method updates the fields with the bit operations of the original and is
 proved against the bucket as a value.
 */
module PackedBucket {
  import opened W = PackedWord
  import M = DashMarks
  import S = DashSegment
  import U = DashUpdates
  import P = DashSplit

  // The overflow bytes

  /** 1 << k in a byte */
  function Bit(k: nat): bv8
    requires k < M.MARKS
  {
    if k == 0 then 1 else if k == 1 then 2 else if k == 2 then 4 else 8
  }

  predicate Has(byte: bv8, k: nat)
    requires k < M.MARKS
  {
    byte & Bit(k) != 0
  }

  /** byte & overflowSet */
  predicate Flagged(byte: bv8) {
    byte & 16 != 0
  }

  function Byte(c: bv8): nat {
    c as nat
  }

  /** (index >> (2 * k)) & 3 */
  function Field(index: bv8, k: nat): bv8
    requires k < M.MARKS
  {
    if k == 0 then index & 3 else if k == 1 then (index >> 2) & 3
    else if k == 2 then (index >> 4) & 3 else (index >> 6) & 3
  }

  /** index & ~(3 << (2 * k)) */
  function Erase(index: bv8, k: nat): bv8
    requires k < M.MARKS
  {
    if k == 0 then index & !3 else if k == 1 then index & !12
    else if k == 2 then index & !48 else index & !192
  }

  /** pos << (2 * k) */
  function Shift(pos: bv8, k: nat): bv8
    requires k < M.MARKS
  {
    if k == 0 then pos else if k == 1 then pos << 2 else if k == 2 then pos << 4 else pos << 6
  }

  function With(byte: bv8, k: nat): bv8
    requires k < M.MARKS
  {
    Bit(k) | byte
  }

  function Without(byte: bv8, k: nat): bv8
    requires k < M.MARKS
  {
    byte & !Bit(k)
  }

  function WithField(index: bv8, k: nat, pos: bv8): bv8
    requires k < M.MARKS
  {
    Erase(index, k) | Shift(pos, k)
  }

  /** byte | overflowSet */
  function Raised(byte: bv8): bv8 {
    byte | 16
  }

  /** byte & ~overflowSet */
  function Lowered(byte: bv8): bv8 {
    byte & !16
  }

  /** (overflowBitmap & overflowBitmapMask & ~overflowMember) == 0 */
  predicate NoneOwn(bitmap: bv8, member: bv8) {
    bitmap & 15 & !member == 0
  }

  /** (overflowBitmap & overflowBitmapMask & overflowMember) == 0 */
  predicate NoneLent(bitmap: bv8, member: bv8) {
    bitmap & 15 & member == 0
  }

  lemma NoneOwnMeans(bitmap: bv8, member: bv8)
    ensures NoneOwn(bitmap, member) <==> forall k :: 0 <= k < M.MARKS && Has(bitmap, k) ==> Has(member, k)
  {
    assert NoneOwn(bitmap, member) <==>
           (Has(bitmap, 0) ==> Has(member, 0)) && (Has(bitmap, 1) ==> Has(member, 1)) &&
           (Has(bitmap, 2) ==> Has(member, 2)) && (Has(bitmap, 3) ==> Has(member, 3));
  }

  lemma NoneLentMeans(bitmap: bv8, member: bv8)
    ensures NoneLent(bitmap, member) <==> forall k :: 0 <= k < M.MARKS && Has(bitmap, k) ==> !Has(member, k)
  {
    assert NoneLent(bitmap, member) <==>
           (Has(bitmap, 0) ==> !Has(member, 0)) && (Has(bitmap, 1) ==> !Has(member, 1)) &&
           (Has(bitmap, 2) ==> !Has(member, 2)) && (Has(bitmap, 3) ==> !Has(member, 3));
  }

  /** ((index >> (2 * k)) & stashMask) == pos */
  predicate Points(index: bv8, k: nat, pos: bv8)
    requires k < M.MARKS
  {
    Field(index, k) & 1 == pos
  }

  lemma PointsMeans(index: bv8, k: nat, pos: bv8)
    requires k < M.MARKS && pos < 2
    ensures Points(index, k, pos) <==> Byte(Field(index, k)) % M.STASHES == Byte(pos)
  {
    var f := Field(index, k);
    assert f == 0 || f == 1 || f == 2 || f == 3;
  }

  function Up(c: bv8): bv8 {
    c + 1
  }

  function Down(c: bv8): bv8 {
    c - 1
  }

  lemma BitsOf(byte: bv8, k: nat, j: nat)
    requires k < M.MARKS && j < M.MARKS
    ensures Has(With(byte, k), j) == (j == k || Has(byte, j))
    ensures Has(Without(byte, k), j) == (j != k && Has(byte, j))
    ensures Flagged(With(byte, k)) == Flagged(byte) && Flagged(Without(byte, k)) == Flagged(byte)
  {
  }

  lemma FlagOf(byte: bv8, j: nat)
    requires j < M.MARKS
    ensures Has(Raised(byte), j) == Has(byte, j) && Has(Lowered(byte), j) == Has(byte, j)
    ensures Flagged(Raised(byte)) && !Flagged(Lowered(byte))
  {
  }

  lemma FieldOf(index: bv8, pos: bv8, k: nat)
    requires k < M.MARKS && pos < 4
    ensures Field(WithField(index, k, pos), k) == pos
  {
  }

  lemma FieldElsewhere(index: bv8, pos: bv8, k: nat, j: nat)
    requires k < M.MARKS && j < M.MARKS && pos < 4 && j != k
    ensures Field(WithField(index, k, pos), j) == Field(index, j) && Field(Erase(index, k), j) == Field(index, j)
  {
  }

  class Bucket {
    var bitmap: bv32
    var finger: seq<nat>
    var overflowBitmap: bv8
    var overflowIndex: bv8
    var overflowMember: bv8
    var overflowCount: bv8
    var slots: seq<M.Pair>

    ghost predicate Sound()
      reads this
    {
      && |finger| == 18 && |slots| == PAIRS && Balanced(bitmap)
      && forall k :: 0 <= k < M.MARKS && Has(overflowMember, k) ==> Has(overflowBitmap, k)
    }

    function CellAt(i: nat): M.Cell
      requires |finger| == 18 && |slots| == PAIRS && i < PAIRS
      reads this
    {
      if Alloc(bitmap, i) then M.Held(finger[i], slots[i], Member(bitmap, i)) else M.Free
    }

    function MarkAt(k: nat): M.Mark
      requires |finger| == 18 && k < M.MARKS
      reads this
    {
      if Has(overflowBitmap, k) then M.On(finger[14 + k], Byte(Field(overflowIndex, k)), Has(overflowMember, k)) else M.Blank
    }

    /** The bucket as a value. */
    function View(): (b: M.Bucket)
      requires |finger| == 18 && |slots| == PAIRS
      reads this
      ensures M.Shaped(b)
    {
      M.Bucket(
        seq(PAIRS, i requires 0 <= i < PAIRS && |finger| == 18 && |slots| == PAIRS reads this => CellAt(i)),
        seq(M.MARKS, k requires 0 <= k < M.MARKS && |finger| == 18 reads this => MarkAt(k)),
        Flagged(overflowBitmap), Byte(overflowCount))
    }

    lemma CountStep(n: nat)
      requires Sound() && 0 < n <= PAIRS
      ensures S.Count(View().cells[..n]) == S.Count(View().cells[..n - 1]) + if Alloc(bitmap, n - 1) then 1 else 0
    {
      var cells := View().cells;
      assert cells[n - 1] == CellAt(n - 1);
      hide Alloc, Member, Balanced, MarkAt, Flagged, View;
      assert cells[..n][..n - 1] == cells[..n - 1];
    }

    lemma CountIsPopulation(n: nat)
      requires Sound() && n <= PAIRS
      ensures S.Count(View().cells[..n]) == Population(bitmap, n)
    {
      if n > 0 {
        CountIsPopulation(n - 1);
        CountStep(n);
      }
    }

    /** GET_COUNT(bitmap) == kNumPairPerBucket exactly when every cell is taken. */
    lemma CountFieldIsFull()
      requires Sound()
      ensures S.Full(View()) <==> CountField(bitmap) == 14
    {
      CountIsPopulation(PAIRS);
      assert View().cells[..PAIRS] == View().cells;
      NibbleFourteen(Population(bitmap, PAIRS));
    }

    method FindEmptySlot() returns (slot: int)
      requires Sound()
      ensures if S.Full(View()) then slot == -1 else slot == S.FirstFree(View().cells) < PAIRS
    {
      CountFieldIsFull();
      U.RoomMeansFree(View().cells);
      if CountField(bitmap) == 14 {
        return -1;
      }
      slot := 0;
      while Alloc(bitmap, slot)
        invariant 0 <= slot <= S.FirstFree(View().cells) < PAIRS
        decreases PAIRS - slot
      {
        assert View().cells[slot] == CellAt(slot);
        slot := slot + 1;
      }
      assert View().cells[slot] == CellAt(slot);
    }

    /** The view after a change that is confined to cell index of what was v before. */
    lemma OneCell(v: M.Bucket, index: nat, c: M.Cell)
      requires index < PAIRS && |finger| == 18 && |slots| == PAIRS && M.Shaped(v)
      requires CellAt(index) == c
      requires forall j :: 0 <= j < PAIRS && j != index ==> CellAt(j) == v.cells[j]
      requires forall k :: 0 <= k < M.MARKS ==> MarkAt(k) == v.marks[k]
      requires Flagged(overflowBitmap) == v.check && Byte(overflowCount) == v.overflow
      ensures View() == S.Place(v, index, c)
    {
      assert View().cells == S.Place(v, index, c).cells;
      assert View().marks == v.marks;
    }

    method SetHash(index: nat, tag: nat, probe: bool)
      requires Sound() && index < PAIRS && !Alloc(bitmap, index)
      modifies this`bitmap, this`finger
      ensures Sound() && View() == S.Place(old(View()), index, M.Held(tag, slots[index], probe))
    {
      hide Alloc, Member, Flag, Nibble, SetBits, Balanced, Has, Field, Flagged, Byte, With, Without, WithField, Raised, Lowered, Up, Down;
      ghost var v := View();
      SetHashWord(bitmap, index, probe);
      finger := finger[index := tag];
      bitmap := SetBits(bitmap, Flag(index), probe);
      OneCell(v, index, M.Held(tag, slots[index], probe));
    }

    method UnsetHash(index: nat)
      requires Sound() && index < PAIRS && Alloc(bitmap, index)
      modifies this`bitmap
      ensures Sound() && View() == S.Place(old(View()), index, M.Free)
    {
      hide Alloc, Member, Flag, Nibble, UnsetBits, Balanced, Has, Field, Flagged, Byte, With, Without, WithField, Raised, Lowered, Up, Down;
      ghost var v := View();
      UnsetHashWord(bitmap, index);
      bitmap := UnsetBits(bitmap, Flag(index));
      OneCell(v, index, M.Free);
    }

    /** -1 when every cell is taken; otherwise the pair goes into the first free one. */
    method Insert(pair: M.Pair, tag: nat, probe: bool) returns (r: int)
      requires Sound()
      modifies this`bitmap, this`finger, this`slots
      ensures Sound()
      ensures if old(S.Full(View())) then r == -1 && View() == old(View())
              else r == 0 && old(S.FirstFree(View().cells)) < PAIRS &&
                   View() == S.Place(old(View()), old(S.FirstFree(View().cells)), M.Held(tag, pair, probe))
    {
      var slot := FindEmptySlot();
      if slot == -1 {
        return -1;
      }
      assert View().cells[slot] == CellAt(slot);
      slots := slots[slot := pair];
      assert View() == old(View()) by {
        assert View().cells == old(View()).cells && View().marks == old(View()).marks;
      }
      SetHash(slot, tag, probe);
      return 0;
    }

    /** The value stored with the key among the pairs whose member bit is as asked, or NONE. */
    method CheckAndGet(tag: nat, key: M.Key, probe: bool) returns (v: M.Value)
      requires Sound()
      ensures v == S.Lookup(View(), tag, key, probe)
    {
      hide Alloc, Member, Flag, Balanced, Flagged, Byte, Has, Field;
      ghost var k := S.FirstHit(View().cells, tag, key, probe);
      for i := 0 to PAIRS
        invariant i <= k
      {
        assert View().cells[i] == CellAt(i);
        if finger[i] == tag && Alloc(bitmap, i) && Member(bitmap, i) == probe && slots[i].key == key {
          return slots[i].value;
        }
      }
      return M.NONE;
    }

    method Delete(key: M.Key, tag: nat, probe: bool) returns (r: int)
      requires Sound()
      modifies this`bitmap
      ensures Sound()
      ensures var k := S.FirstHit(old(View()).cells, tag, key, probe);
        if k < PAIRS then r == 0 && View() == S.Place(old(View()), k, M.Free) else r == -1 && View() == old(View())
    {
      hide Alloc, Member, Flag, Balanced, Flagged, Byte, Has, Field;
      ghost var k := S.FirstHit(View().cells, tag, key, probe);
      for i := 0 to PAIRS
        invariant i <= k && bitmap == old(bitmap)
      {
        assert View().cells[i] == CellAt(i);
        if finger[i] == tag && Alloc(bitmap, i) && Member(bitmap, i) == probe && slots[i].key == key {
          UnsetHash(i);
          return 0;
        }
      }
      return -1;
    }

    /** The first index whose member bit is clear, which is what the code moves out of a full bucket. */
    method FindOrgDisplacement() returns (r: int)
      requires Sound()
      ensures var k := S.FirstMember(View().cells, false); if k < PAIRS then r == k else r == -1
    {
      ghost var k := S.FirstMember(View().cells, false);
      for i := 0 to PAIRS
        invariant i <= k
      {
        assert View().cells[i] == CellAt(i);
        if !Member(bitmap, i) {
          return i;
        }
      }
      return -1;
    }

    /** The first index whose member bit is set. */
    method FindProbeDisplacement() returns (r: int)
      requires Sound()
      ensures var k := S.FirstMember(View().cells, true); if k < PAIRS then r == k else r == -1
    {
      ghost var k := S.FirstMember(View().cells, true);
      for i := 0 to PAIRS
        invariant i <= k
      {
        assert View().cells[i] == CellAt(i);
        if Member(bitmap, i) {
          return i;
        }
      }
      return -1;
    }

    /** The bulk clear after a split. */
    method BulkClear(mask: bv32)
      requires Sound() && mask < 0x4000
      requires forall j :: 0 <= j < PAIRS && Masked(mask, j) ==> Alloc(bitmap, j)
      modifies this`bitmap
      ensures Sound()
      ensures View() == P.Keep(old(View()), set j: nat | j < PAIRS && Masked(mask, j))
    {
      hide Alloc, Member, Flag, Nibble, ClearBits, Masked;
      ClearWord(bitmap, mask);
      bitmap := ClearBits(bitmap, mask, Nibble(MaskSize(mask, PAIRS)));
      ghost var gone := set j: nat | j < PAIRS && Masked(mask, j);
      forall j | 0 <= j < PAIRS
        ensures View().cells[j] == P.Keep(old(View()), gone).cells[j]
      {
        assert View().cells[j] == CellAt(j);
      }
      assert View().cells == P.Keep(old(View()), gone).cells;
      assert View().marks == old(View()).marks;
    }

    /** The first of the four mark slots that is off, or 4. */
    method FirstOff() returns (k: nat)
      requires Sound()
      ensures k == M.FirstBlank(View().marks)
    {
      k := 0;
      while k < M.MARKS && Has(overflowBitmap, k)
        invariant k <= M.FirstBlank(View().marks)
      {
        assert View().marks[k] == MarkAt(k);
        k := k + 1;
      }
      assert k < M.MARKS ==> View().marks[k] == MarkAt(k);
    }
  
    /** The view after a change that is confined to mark k, the flag and the counter of what was v before. */
    lemma OneMark(v: M.Bucket, k: nat, m: M.Mark, check: bool, overflow: nat)
      requires k < M.MARKS && |finger| == 18 && |slots| == PAIRS && M.Shaped(v)
      requires MarkAt(k) == m
      requires forall j :: 0 <= j < M.MARKS && j != k ==> MarkAt(j) == v.marks[j]
      requires forall i :: 0 <= i < PAIRS ==> CellAt(i) == v.cells[i]
      requires Flagged(overflowBitmap) == check && Byte(overflowCount) == overflow
      ensures View() == v.(marks := v.marks[k := m], check := check, overflow := overflow)
    {
      assert View().cells == v.cells;
      assert View().marks == v.marks[k := m];
    }

    /** Fills mark slot k. */
    method WriteMark(k: nat, tag: nat, pos: bv8, member: bool)
      requires Sound() && k < M.MARKS && pos < 4 && !Has(overflowBitmap, k)
      modifies this`finger, this`overflowBitmap, this`overflowMember, this`overflowIndex
      ensures Sound()
      ensures View() == old(View()).(marks := old(View()).marks[k := M.On(tag, Byte(pos), member)])
    {
      hide Alloc, Member, Balanced, Has, Bit, Field, Erase, Shift, Flagged, Byte, With, Without, WithField, Raised, Lowered, Up, Down;
      ghost var v := View();
      finger := finger[14 + k := tag];
      overflowBitmap := With(overflowBitmap, k);
      if member {
        overflowMember := With(overflowMember, k);
      }
      overflowIndex := WithField(overflowIndex, k, pos);
      WroteMark(old(overflowBitmap), k);
      WroteMark(old(overflowMember), k);
      FieldOf(old(overflowIndex), pos, k);
      forall j | 0 <= j < M.MARKS && j != k
        ensures Field(overflowIndex, j) == Field(old(overflowIndex), j)
      {
        FieldElsewhere(old(overflowIndex), pos, k, j);
      }
      OneMark(v, k, M.On(tag, Byte(pos), member), v.check, v.overflow);
    }

    /** Empties mark slot k. */
    method EraseMark(k: nat, member: bool)
      requires Sound() && k < M.MARKS && (Has(overflowMember, k) ==> member)
      modifies this`overflowBitmap, this`overflowMember, this`overflowIndex
      ensures Sound()
      ensures View() == old(View()).(marks := old(View()).marks[k := M.Blank])
    {
      hide Alloc, Member, Balanced, Has, Bit, Field, Erase, Shift, Flagged, Byte, With, Without, WithField, Raised, Lowered, Up, Down;
      ghost var v := View();
      ErasedMark(overflowBitmap, k);
      ErasedMark(overflowMember, k);
      overflowBitmap := Without(overflowBitmap, k);
      if member {
        overflowMember := Without(overflowMember, k);
      }
      overflowIndex := Erase(overflowIndex, k);
      forall j | 0 <= j < M.MARKS && j != k
        ensures Field(overflowIndex, j) == Field(old(overflowIndex), j)
      {
        FieldElsewhere(old(overflowIndex), 0, k, j);
      }
      OneMark(v, k, M.Blank, v.check, v.overflow);
    }

    /** set_indicator */
    method SetIndicator(tag: nat, neighbor: Bucket, pos: bv8)
      requires Sound() && neighbor.Sound() && neighbor != this && pos < 4
      modifies this`finger, this`overflowBitmap, this`overflowMember, this`overflowIndex, this`overflowCount
      modifies neighbor`finger, neighbor`overflowBitmap, neighbor`overflowMember, neighbor`overflowIndex
      ensures Sound() && neighbor.Sound()
      ensures (View(), neighbor.View()) == M.SetIn(old(View()), old(neighbor.View()), tag, Byte(pos))
    {
      hide Alloc, Member, Balanced, Bit, Field, Flagged, Byte, Has;
      var index := FirstOff();
      if index < M.MARKS {
        assert View().marks[index] == MarkAt(index);
        WriteMark(index, tag, pos, false);
      } else {
        index := neighbor.FirstOff();
        if index < M.MARKS {
          assert neighbor.View().marks[index] == neighbor.MarkAt(index);
          neighbor.WriteMark(index, tag, pos, true);
        } else {
          Increment();
        }
      }
      RaiseFlag();
    }

    /** The first mark slot that is on for this tag, side and stash position, or 4. */
    method FindMark(tag: nat, pos: bv8, member: bool) returns (k: nat)
      requires Sound() && pos < 2
      ensures k == M.FirstMatch(View().marks, tag, Byte(pos), member, M.STASHES)
    {
      hide Alloc, Member, Balanced, Has, Bit, Field, Flagged, Byte, Points;
      k := 0;
      while k < M.MARKS
        invariant k <= M.FirstMatch(View().marks, tag, Byte(pos), member, M.STASHES)
      {
        assert View().marks[k] == MarkAt(k);
        PointsMeans(overflowIndex, k, pos);
        if Has(overflowBitmap, k) && finger[14 + k] == tag && Has(overflowMember, k) == member && Points(overflowIndex, k, pos) {
          return k;
        }
        k := k + 1;
      }
    }

    lemma SilentMeans(neighbor: Bucket)
      requires Sound() && neighbor.Sound()
      ensures M.Silent(View(), neighbor.View()) <==>
              NoneOwn(overflowBitmap, overflowMember) && Byte(overflowCount) == 0 &&
              NoneLent(neighbor.overflowBitmap, neighbor.overflowMember)
    {
      hide Alloc, Member, Balanced, Has, Bit, Field, Flagged, Byte, NoneOwn, NoneLent;
      NoneOwnMeans(overflowBitmap, overflowMember);
      NoneLentMeans(neighbor.overflowBitmap, neighbor.overflowMember);
      MarksMean();
      neighbor.MarksMean();
    }

    lemma MarksMean()
      requires Sound()
      ensures forall k :: 0 <= k < M.MARKS ==> View().marks[k].On? == Has(overflowBitmap, k)
      ensures forall k :: 0 <= k < M.MARKS && Has(overflowBitmap, k) ==> View().marks[k].member == Has(overflowMember, k)
    {
      hide Alloc, Member, Balanced, Has, Bit, Field, Flagged, Byte;
      forall k | 0 <= k < M.MARKS
        ensures View().marks[k] == MarkAt(k)
      {
      }
    }

    /** unset_indicator */
    method UnsetIndicator(tag: nat, neighbor: Bucket, pos: bv8)
      requires Sound() && neighbor.Sound() && neighbor != this && pos < 2
      modifies this`overflowBitmap, this`overflowIndex, this`overflowMember, this`overflowCount
      modifies neighbor`overflowBitmap, neighbor`overflowMember, neighbor`overflowIndex
      ensures Sound() && neighbor.Sound()
      ensures (View(), neighbor.View()) == M.UnsetIn(old(View()), old(neighbor.View()), tag, Byte(pos), M.STASHES)
    {
      hide Alloc, Member, Balanced, Has, Bit, Field, Flagged, Byte, NoneOwn, NoneLent;
      var i := FindMark(tag, pos, false);
      if i < M.MARKS {
        assert View().marks[i] == MarkAt(i);
        EraseMark(i, false);
      } else {
        i := neighbor.FindMark(tag, pos, true);
        if i < M.MARKS {
          neighbor.EraseMark(i, true);
        } else {
          Decrement();
        }
      }
      SilentMeans(neighbor);
      if NoneOwn(overflowBitmap, overflowMember) && Byte(overflowCount) == 0 &&
         NoneLent(neighbor.overflowBitmap, neighbor.overflowMember) {
        ClearStashCheck();
      }
    }

    method Increment()
      requires Sound()
      modifies this`overflowCount
      ensures Sound()
      ensures View() == old(View()).(overflow := if old(View()).overflow == 255 then 0 else old(View()).overflow + 1)
    {
      hide Alloc, Member, Balanced, Has, Field, Flagged, Byte, With, Without, WithField, Raised, Lowered, Up, Down;
      ghost var v := View();
      overflowCount := Up(overflowCount);
      ByteStep(old(overflowCount));
      OneMark(v, 0, v.marks[0], v.check, if v.overflow == 255 then 0 else v.overflow + 1);
    }

    method Decrement()
      requires Sound()
      modifies this`overflowCount
      ensures Sound()
      ensures View() == old(View()).(overflow := if old(View()).overflow == 0 then 255 else old(View()).overflow - 1)
    {
      hide Alloc, Member, Balanced, Has, Field, Flagged, Byte, With, Without, WithField, Raised, Lowered, Up, Down;
      ghost var v := View();
      overflowCount := Down(overflowCount);
      ByteStep(old(overflowCount));
      OneMark(v, 0, v.marks[0], v.check, if v.overflow == 0 then 255 else v.overflow - 1);
    }

    method RaiseFlag()
      requires Sound()
      modifies this`overflowBitmap
      ensures Sound() && View() == old(View()).(check := true)
    {
      hide Alloc, Member, Balanced, Has, Field, Flagged, Byte, With, Without, WithField, Raised, Lowered, Up, Down;
      ghost var v := View();
      forall j | 0 <= j < M.MARKS
        ensures Has(Raised(overflowBitmap), j) == Has(overflowBitmap, j)
      {
        FlagOf(overflowBitmap, j);
      }
      FlagOf(overflowBitmap, 0);
      overflowBitmap := Raised(overflowBitmap);
      OneMark(v, 0, v.marks[0], true, v.overflow);
    }

    method ClearStashCheck()
      requires Sound()
      modifies this`overflowBitmap
      ensures Sound() && View() == old(View()).(check := false)
    {
      hide Alloc, Member, Balanced, Has, Field, Flagged, Byte, With, Without, WithField, Raised, Lowered, Up, Down;
      ghost var v := View();
      forall j | 0 <= j < M.MARKS
        ensures Has(Lowered(overflowBitmap), j) == Has(overflowBitmap, j)
      {
        FlagOf(overflowBitmap, j);
      }
      FlagOf(overflowBitmap, 0);
      overflowBitmap := Lowered(overflowBitmap);
      OneMark(v, 0, v.marks[0], false, v.overflow);
    }
  }

  lemma ByteStep(c: bv8)
    ensures Byte(Up(c)) == if Byte(c) == 255 then 0 else Byte(c) + 1
    ensures Byte(Down(c)) == if Byte(c) == 0 then 255 else Byte(c) - 1
  {
  }

  lemma WroteMark(byte: bv8, k: nat)
    requires k < M.MARKS
    ensures forall j :: 0 <= j < M.MARKS ==> Has(With(byte, k), j) == (j == k || Has(byte, j))
    ensures Flagged(With(byte, k)) == Flagged(byte)
  {
    forall j | 0 <= j < M.MARKS
      ensures Has(With(byte, k), j) == (j == k || Has(byte, j))
    {
      BitsOf(byte, k, j);
    }
  }

  lemma ErasedMark(byte: bv8, k: nat)
    requires k < M.MARKS
    ensures forall j :: 0 <= j < M.MARKS ==> Has(Without(byte, k), j) == (j != k && Has(byte, j))
    ensures Flagged(Without(byte, k)) == Flagged(byte)
  {
    forall j | 0 <= j < M.MARKS
      ensures Has(Without(byte, k), j) == (j != k && Has(byte, j))
    {
      BitsOf(byte, k, j);
    }
  }
}
