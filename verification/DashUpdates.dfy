/**
 Insertion and deletion in one Dash segment: balanced insert, displacement to either neighbour, the
 stash, and what each of them does to the contents and to the promises made by the overflow marks.
 */
module DashUpdates {
  import opened Bags
  import opened DashMarks
  import opened DashSegment

  // The operations

  function PlaceAt(t: Segment, y: nat, i: nat, c: Cell): Segment
    requires y < |t.bucket| && i < |t.bucket[y].cells|
  {
    t.(bucket := t.bucket[y := Place(t.bucket[y], i, c)])
  }

  function StashAt(t: Segment, s: nat, i: nat, c: Cell): Segment
    requires s < |t.stash| && i < |t.stash[s].cells|
  {
    t.(stash := t.stash[s := Place(t.stash[s], i, c)])
  }

  predicate Mentions(marks: seq<Mark>, tag: nat, member: bool) {
    exists m :: m in marks && m.On? && m.tag == tag && m.member == member
  }

  /** Whether unique_check and Delete go on to search the stash. */
  predicate Suspects(t: Segment, y: nat, tag: nat)
    requires Ring(t.bucket) && y < BUCKETS
  {
    var b, n := t.bucket[y], t.bucket[Next(y)];
    b.check && (b.overflow != 0 || Mentions(b.marks, tag, false) || Mentions(n.marks, tag, true))
  }

  /** unique_check */
  predicate Duplicate(h: Hasher, t: Segment, key: Key)
    requires Ring(t.bucket) && |t.stash| == STASHES
  {
    var y, tag := Home(h(key)), Tag(h(key));
    || Lookup(t.bucket[y], tag, key, false) != NONE
    || Lookup(t.bucket[Next(y)], tag, key, true) != NONE
    || (Suspects(t, y, tag) &&
        (Lookup(t.stash[0], tag, key, false) != NONE || Lookup(t.stash[1], tag, key, false) != NONE))
  }

  datatype Outcome = Inserted | NoRoom | Exists

  /** The fixed stash buckets, and in linear hashing a chain of overflow buckets behind them. */
  predicate Chained(t: Segment) {
    Ring(t.bucket) && |t.stash| >= STASHES && forall s :: 0 <= s < |t.stash| ==> Shaped(t.stash[s])
  }

  predicate WellShaped(t: Segment) {
    Chained(t) && |t.stash| == STASHES
  }

  /** Positions that a comparison of the given width tells apart. */
  predicate Wide(t: Segment, width: nat) {
    width > CHAIN || (width == STASHES && |t.stash| == STASHES)
  }

  /** Makes room in the right neighbour of home y by moving one of its own pairs one bucket further. */
  function NextDisplace(t: Segment, y: nat, tag: nat, pair: Pair): (r: (Segment, bool))
    requires Chained(t) && y < BUCKETS && Full(t.bucket[Next(y)])
  {
    var z, w := Next(y), Next(Next(y));
    var i, j := FirstMember(t.bucket[z].cells, false), FirstFree(t.bucket[w].cells);
    RoomMeansFree(t.bucket[z].cells);
    if j < PAIRS && i < PAIRS then
      var moved := t.bucket[z].cells[i];
      (PlaceAt(PlaceAt(t, w, j, moved.(probe := true)), z, i, Held(tag, pair, true)), true)
    else (t, false)
  }

  /** Makes room in home y by sending a pair it keeps for its left neighbour back there. */
  function PrevDisplace(t: Segment, y: nat, tag: nat, pair: Pair): (r: (Segment, bool))
    requires Chained(t) && y < BUCKETS
  {
    var w := Prev(y);
    var i, j := FirstMember(t.bucket[y].cells, true), FirstFree(t.bucket[w].cells);
    if j < PAIRS && i < PAIRS then
      var moved := t.bucket[y].cells[i];
      (PlaceAt(PlaceAt(t, w, j, moved.(probe := false)), y, i, Held(tag, pair, false)), true)
    else (t, false)
  }

  /** Puts a pair of home y into stash bucket s and leaves a mark. */
  function StashInto(t: Segment, y: nat, s: nat, tag: nat, pair: Pair): Segment
    requires Chained(t) && y < BUCKETS && s < |t.stash| && FirstFree(t.stash[s].cells) < PAIRS
  {
    var u := StashAt(t, s, FirstFree(t.stash[s].cells), Held(tag, pair, false));
    u.(bucket := SetMark(u.bucket, y, tag, Position(s)))
  }

  function StashInsert(t: Segment, y: nat, tag: nat, pair: Pair): (r: (Segment, bool))
    requires WellShaped(t) && y < BUCKETS
  {
    var s0, s1 := y % 2, (y % 2 + 1) % 2;
    if FirstFree(t.stash[s0].cells) < PAIRS then (StashInto(t, y, s0, tag, pair), true)
    else if FirstFree(t.stash[s1].cells) < PAIRS then (StashInto(t, y, s1, tag, pair), true)
    else (t, false)
  }

  /** A cell of home y or its right neighbour for the pair: the emptier of the two, or one that a displacement frees. */
  function Seat(t: Segment, y: nat, tag: nat, pair: Pair): (r: (Segment, bool))
    requires Chained(t) && y < BUCKETS
  {
    var b, n := t.bucket[y], t.bucket[Next(y)];
    if Full(b) && Full(n) then
      var next := NextDisplace(t, y, tag, pair);
      if next.1 then next else PrevDisplace(t, y, tag, pair)
    else if Count(b.cells) <= Count(n.cells) then
      RoomMeansFree(b.cells);
      (PlaceAt(t, y, FirstFree(b.cells), Held(tag, pair, false)), true)
    else
      RoomMeansFree(n.cells);
      (PlaceAt(t, Next(y), FirstFree(n.cells), Held(tag, pair, true)), true)
  }

  /** Insertion without the uniqueness check, as splitting uses it and as Insert uses it after the check. */
  function Add(t: Segment, y: nat, tag: nat, pair: Pair): (r: (Segment, bool))
    requires WellShaped(t) && y < BUCKETS
  {
    var seat := Seat(t, y, tag, pair);
    if seat.1 then seat else StashInsert(t, y, tag, pair)
  }

  lemma {:induction false} RoomMeansFree(cells: seq<Cell>)
    ensures Count(cells) == |cells| <==> forall c :: c in cells ==> c.Held?
    ensures Count(cells) < |cells| <==> FirstFree(cells) < |cells|
  {
    if cells != [] {
      var n := |cells| - 1;
      RoomMeansFree(cells[..n]);
      assert cells == cells[..n] + [cells[n]];
      var k := FirstFree(cells);
      if k < |cells| {
        assert cells[k] in cells;
      }
    }
  }

  function Insert(h: Hasher, t: Segment, pair: Pair): (r: (Segment, Outcome))
    requires WellShaped(t)
  {
    var y, tag := Home(h(pair.key)), Tag(h(pair.key));
    if Duplicate(h, t, pair.key) then (t, Exists)
    else
      var (u, ok) := Add(t, y, tag, pair);
      (u, if ok then Inserted else NoRoom)
  }

  /** Removes a key from stash bucket s, if it is there, and one mark with it. */
  function StashDelete(t: Segment, y: nat, s: nat, tag: nat, key: Key): (r: (Segment, bool))
    requires WellShaped(t) && y < BUCKETS && s < STASHES
  {
    var k := FirstHit(t.stash[s].cells, tag, key, false);
    if k < PAIRS then
      var u := StashAt(t, s, k, Free);
      (u.(bucket := UnsetMark(u.bucket, y, tag, s, STASHES)), true)
    else (t, false)
  }

  function Delete(h: Hasher, t: Segment, key: Key): (r: (Segment, bool))
    requires WellShaped(t)
  {
    var y, tag := Home(h(key)), Tag(h(key));
    var k, l := FirstHit(t.bucket[y].cells, tag, key, false), FirstHit(t.bucket[Next(y)].cells, tag, key, true);
    if k < PAIRS then (PlaceAt(t, y, k, Free), true)
    else if l < PAIRS then (PlaceAt(t, Next(y), l, Free), true)
    else if Suspects(t, y, tag) then
      var first := StashDelete(t, y, y % 2, tag, key);
      if first.1 then first else StashDelete(t, y, (1 + y % 2) % 2, tag, key)
    else (t, false)
  }

  // One cell changes

  lemma PlacePairs(b: Bucket, i: nat, c: Cell)
    requires i < |b.cells|
    ensures BucketPairs(Place(b, i, c)) + CellPairs(b.cells[i]) == BucketPairs(b) + CellPairs(c)
  {
    SumUpdate(b.cells, i, c, CellPairs);
  }

  lemma PlaceAtContents(t: Segment, y: nat, i: nat, c: Cell)
    requires y < |t.bucket| && i < |t.bucket[y].cells|
    ensures Contents(PlaceAt(t, y, i, c)) + CellPairs(t.bucket[y].cells[i]) == Contents(t) + CellPairs(c)
  {
    var b, b' := t.bucket[y], Place(t.bucket[y], i, c);
    PlacePairs(b, i, c);
    SumUpdate(t.bucket, y, b', BucketPairs);
    Exchange(Sum(t.bucket, BucketPairs), BucketPairs(b), Sum(t.bucket[y := b'], BucketPairs), BucketPairs(b'),
             CellPairs(b.cells[i]), CellPairs(c), Sum(t.stash, BucketPairs));
  }

  lemma StashAtContents(t: Segment, s: nat, i: nat, c: Cell)
    requires s < |t.stash| && i < |t.stash[s].cells|
    ensures Contents(StashAt(t, s, i, c)) + CellPairs(t.stash[s].cells[i]) == Contents(t) + CellPairs(c)
  {
    var b, b' := t.stash[s], Place(t.stash[s], i, c);
    PlacePairs(b, i, c);
    SumUpdate(t.stash, s, b', BucketPairs);
    Exchange(Sum(t.stash, BucketPairs), BucketPairs(b), Sum(t.stash[s := b'], BucketPairs), BucketPairs(b'),
             CellPairs(b.cells[i]), CellPairs(c), Sum(t.bucket, BucketPairs));
    assert forall u: Segment :: Contents(u) == Sum(u.stash, BucketPairs) + Sum(u.bucket, BucketPairs);
  }

  // The invariant across one cell

  /** Promises are about marks and the stash, so changing a bucket's cells leaves them alone. */
  lemma PromiseIgnoresCells(bucket: seq<Bucket>, y: nat, cells: seq<Cell>, z: nat, bag: multiset<(nat, nat)>)
    requires Ring(bucket) && y < BUCKETS && z < BUCKETS && |cells| == PAIRS
    requires Promise(bucket, z, bag)
    ensures Promise(bucket[y := bucket[y].(cells := cells)], z, bag)
  {
    var r := bucket[y := bucket[y].(cells := cells)];
    assert Own(r[z]) == Own(bucket[z]) && Lent(r[Next(z)]) == Lent(bucket[Next(z)]);
  }

  lemma PlaceAtInv(h: Hasher, t: Segment, y: nat, i: nat, c: Cell)
    requires Inv(h, t) && y < BUCKETS && i < PAIRS && CellOk(h, y, c)
    ensures Inv(h, PlaceAt(t, y, i, c))
  {
    var u := PlaceAt(t, y, i, c);
    forall z | 0 <= z < BUCKETS
      ensures BucketOk(h, z, u.bucket[z])
    {
      assert BucketOk(h, z, t.bucket[z]);
    }
    forall z | 0 <= z < BUCKETS
      ensures Promise(u.bucket, z, Stashed(h, u.stash, z))
    {
      PromiseIgnoresCells(t.bucket, y, u.bucket[y].cells, z, Stashed(h, t.stash, z));
    }
  }

  lemma StashedUpdateLast(h: Hasher, stash: seq<Bucket>, b: Bucket, i: nat, c: Cell, z: nat)
    requires i < |b.cells|
    ensures var e := StashedIn(h, z, Position(|stash|));
      Stashed(h, stash + [Place(b, i, c)], z) + e(b.cells[i]) == Stashed(h, stash + [b], z) + e(c)
  {
    hide Stashed, StashedIn;
    var e := StashedIn(h, z, Position(|stash|));
    StashedSnoc(h, stash, b, z);
    StashedSnoc(h, stash, Place(b, i, c), z);
    SumUpdate(b.cells, i, c, e);
    Regroup(Stashed(h, stash, z), Sum(Place(b, i, c).cells, e), e(b.cells[i]), Sum(b.cells, e), e(c));
  }

  lemma StashedUpdateOther(h: Hasher, r: seq<Bucket>, stash: seq<Bucket>, b: Bucket, z: nat,
                           x: multiset<(nat, nat)>, y: multiset<(nat, nat)>)
    requires |r| == |stash| && Stashed(h, r, z) + x == Stashed(h, stash, z) + y
    ensures Stashed(h, r + [b], z) + x == Stashed(h, stash + [b], z) + y
  {
    hide Stashed, StashedIn;
    StashedSnoc(h, r, b, z);
    StashedSnoc(h, stash, b, z);
    Regroup2(Stashed(h, r, z), x, Stashed(h, stash, z), y, Sum(b.cells, StashedIn(h, z, Position(|r|))));
  }

  /** One stash cell changes what is stashed for each home by exactly its own entry. */
  lemma {:induction false} StashedUpdate(h: Hasher, stash: seq<Bucket>, s: nat, i: nat, c: Cell, z: nat)
    requires s < |stash| && i < |stash[s].cells|
    ensures var r, e := stash[s := Place(stash[s], i, c)], StashedIn(h, z, Position(s));
      Stashed(h, r, z) + e(stash[s].cells[i]) == Stashed(h, stash, z) + e(c)
  {
    hide Stashed, StashedIn;
    var n := |stash| - 1;
    var front, last, r := stash[..n], stash[n], stash[s := Place(stash[s], i, c)];
    assert stash == front + [last];
    if s == n {
      assert r == front + [Place(last, i, c)];
      StashedUpdateLast(h, front, last, i, c, z);
    } else {
      StashedUpdate(h, front, s, i, c, z);
      assert r == front[s := Place(stash[s], i, c)] + [last];
      var e := StashedIn(h, z, Position(s));
      StashedUpdateOther(h, front[s := Place(stash[s], i, c)], front, last, z, e(stash[s].cells[i]), e(c));
    }
  }

  lemma StashAtPlaced(h: Hasher, t: Segment, s: nat, i: nat, c: Cell)
    requires Placed(h, t) && s < |t.stash| && i < PAIRS && StashCellOk(h, c)
    requires i < |t.stash[s].cells|
    ensures Placed(h, StashAt(t, s, i, c))
  {
    var u := StashAt(t, s, i, c);
    forall z | 0 <= z < |t.stash|
      ensures StashOk(h, u.stash[z])
    {
      assert StashOk(h, t.stash[z]);
    }
  }

  lemma MarksOnlyPlaced(h: Hasher, t: Segment, bucket: seq<Bucket>)
    requires Placed(h, t) && Ring(bucket) && forall z :: 0 <= z < BUCKETS ==> bucket[z].cells == t.bucket[z].cells
    ensures Placed(h, t.(bucket := bucket)) && Contents(t.(bucket := bucket)) == Contents(t)
  {
    forall z | 0 <= z < BUCKETS
      ensures BucketOk(h, z, bucket[z]) && BucketPairs(bucket[z]) == BucketPairs(t.bucket[z])
    {
      assert BucketOk(h, z, t.bucket[z]);
    }
    SumSame(bucket, t.bucket, BucketPairs);
  }

  lemma StashFreePromised(h: Hasher, t: Segment, s: nat, i: nat, c: Cell, z: nat)
    requires s < |t.stash| && i < |t.stash[s].cells| && t.stash[s].cells[i].Free? && c.Held?
    ensures Stashed(h, StashAt(t, s, i, c).stash, z) ==
            if Home(h(c.pair.key)) == z then Stashed(h, t.stash, z) + multiset{(Tag(h(c.pair.key)), Position(s))}
            else Stashed(h, t.stash, z)
  {
    StashedUpdate(h, t.stash, s, i, c, z);
    AddNothing(Stashed(h, StashAt(t, s, i, c).stash, z), Stashed(h, t.stash, z));
  }

  lemma StashIntoPromise(h: Hasher, t: Segment, s: nat, pair: Pair, z: nat)
    requires Inv(h, t) && Chained(t) && s < |t.stash| && FirstFree(t.stash[s].cells) < PAIRS && z < BUCKETS
    requires var y := Home(h(pair.key)); Markable(t.bucket[y], t.bucket[Next(y)])
    ensures var u := StashInto(t, Home(h(pair.key)), s, Tag(h(pair.key)), pair);
      Promise(u.bucket, z, Stashed(h, u.stash, z))
  {
    var y, tag, i := Home(h(pair.key)), Tag(h(pair.key)), FirstFree(t.stash[s].cells);
    StashFreePromised(h, t, s, i, Held(tag, pair, false), z);
    assert Promise(t.bucket, y, Stashed(h, t.stash, y)) && Promise(t.bucket, z, Stashed(h, t.stash, z));
    SetMarkKeepsPromise(t.bucket, y, tag, Position(s), Stashed(h, t.stash, y));
  }

  lemma PlacedIsChained(h: Hasher, t: Segment)
    requires Placed(h, t)
    ensures Chained(t)
  {
    assert forall y :: 0 <= y < BUCKETS ==> BucketOk(h, y, t.bucket[y]);
    assert forall s :: 0 <= s < |t.stash| ==> StashOk(h, t.stash[s]);
  }

  lemma StashIntoPlaced(h: Hasher, t: Segment, s: nat, pair: Pair)
    requires Inv(h, t) && Chained(t) && s < |t.stash| && FirstFree(t.stash[s].cells) < PAIRS && pair.value != NONE
    requires var y := Home(h(pair.key)); Markable(t.bucket[y], t.bucket[Next(y)])
    ensures var u := StashInto(t, Home(h(pair.key)), s, Tag(h(pair.key)), pair);
      Placed(h, u) && Contents(u) == Contents(t) + multiset{pair}
  {
    var y, tag, i := Home(h(pair.key)), Tag(h(pair.key)), FirstFree(t.stash[s].cells);
    var m := StashAt(t, s, i, Held(tag, pair, false));
    StashAtPlaced(h, t, s, i, Held(tag, pair, false));
    StashAtContents(t, s, i, Held(tag, pair, false));
    AddNothing(Contents(m), Contents(t));
    assert Promise(t.bucket, y, Stashed(h, t.stash, y));
    SetMarkKeepsPromise(t.bucket, y, tag, Position(s), Stashed(h, t.stash, y));
    MarksOnlyPlaced(h, m, SetMark(t.bucket, y, tag, Position(s)));
  }

  /** Stash_insert with room in bucket s: one pair more, one promise more. */
  lemma StashIntoKeeps(h: Hasher, t: Segment, s: nat, pair: Pair)
    requires Inv(h, t) && Chained(t) && s < |t.stash| && FirstFree(t.stash[s].cells) < PAIRS && pair.value != NONE
    requires var y := Home(h(pair.key)); Markable(t.bucket[y], t.bucket[Next(y)])
    ensures var u := StashInto(t, Home(h(pair.key)), s, Tag(h(pair.key)), pair);
      Inv(h, u) && Chained(u) && |u.stash| == |t.stash| && Contents(u) == Contents(t) + multiset{pair}
  {
    var u := StashInto(t, Home(h(pair.key)), s, Tag(h(pair.key)), pair);
    StashIntoPlaced(h, t, s, pair);
    PlacedIsChained(h, u);
    forall z | 0 <= z < BUCKETS
      ensures Promise(u.bucket, z, Stashed(h, u.stash, z))
    {
      StashIntoPromise(h, t, s, pair, z);
    }
  }

  /** Two stash buckets hold too few pairs for the counter to wrap. */
  lemma FixedStashMarkable(h: Hasher, t: Segment, y: nat)
    requires Inv(h, t) && WellShaped(t) && y < BUCKETS
    ensures Markable(t.bucket[y], t.bucket[Next(y)])
  {
    StashedBound(h, t.stash, y);
    assert Promise(t.bucket, y, Stashed(h, t.stash, y));
  }

  // Insertion

  /** One pair joins cell i of bucket y, which was free. */
  lemma PlaceFree(h: Hasher, t: Segment, y: nat, i: nat, c: Cell)
    requires Inv(h, t) && Chained(t) && y < BUCKETS && i < PAIRS && t.bucket[y].cells[i].Free?
    requires c.Held? && CellOk(h, y, c)
    ensures var u := PlaceAt(t, y, i, c);
      Inv(h, u) && Chained(u) && |u.stash| == |t.stash| && Contents(u) == Contents(t) + multiset{c.pair}
  {
    PlaceAtInv(h, t, y, i, c);
    PlaceAtContents(t, y, i, c);
    AddNothing(Contents(PlaceAt(t, y, i, c)), Contents(t));
  }

  /** Two places: a pair moves to a free cell of bucket w and its old cell i of bucket z takes a new pair. */
  lemma Displacement(h: Hasher, t: Segment, w: nat, j: nat, moved: Cell, z: nat, i: nat, c: Cell)
    requires Inv(h, t) && Chained(t) && w < BUCKETS && z < BUCKETS && w != z && i < PAIRS && j < PAIRS
    requires t.bucket[w].cells[j].Free? && t.bucket[z].cells[i].Held? && c.Held? && moved.Held?
    requires moved.pair == t.bucket[z].cells[i].pair
    requires CellOk(h, w, moved) && CellOk(h, z, c)
    ensures var u := PlaceAt(PlaceAt(t, w, j, moved), z, i, c);
      Inv(h, u) && Chained(u) && |u.stash| == |t.stash| && Contents(u) == Contents(t) + multiset{c.pair}
  {
    var m := PlaceAt(t, w, j, moved);
    var u := PlaceAt(m, z, i, c);
    PlaceFree(h, t, w, j, moved);
    PlaceAtInv(h, m, z, i, c);
    PlaceAtContents(m, z, i, c);
    Swap(Contents(t), multiset{moved.pair}, multiset{c.pair});
    CancelAll(Contents(u), Contents(t) + multiset{c.pair}, multiset{moved.pair});
  }

  lemma NextDisplaceKeeps(h: Hasher, t: Segment, pair: Pair)
    requires Inv(h, t) && Chained(t) && pair.value != NONE && Full(t.bucket[Next(Home(h(pair.key)))])
    ensures var (u, ok) := NextDisplace(t, Home(h(pair.key)), Tag(h(pair.key)), pair);
      if ok then Inv(h, u) && Chained(u) && |u.stash| == |t.stash| && Contents(u) == Contents(t) + multiset{pair} else u == t
  {
    var y, tag := Home(h(pair.key)), Tag(h(pair.key));
    var z, w := Next(y), Next(Next(y));
    var i, j := FirstMember(t.bucket[z].cells, false), FirstFree(t.bucket[w].cells);
    RoomMeansFree(t.bucket[z].cells);
    if j < PAIRS && i < PAIRS {
      var moved := t.bucket[z].cells[i];
      assert moved in t.bucket[z].cells && BucketOk(h, z, t.bucket[z]);
      Displacement(h, t, w, j, moved.(probe := true), z, i, Held(tag, pair, true));
    }
  }

  lemma PrevDisplaceKeeps(h: Hasher, t: Segment, pair: Pair)
    requires Inv(h, t) && Chained(t) && pair.value != NONE
    ensures var (u, ok) := PrevDisplace(t, Home(h(pair.key)), Tag(h(pair.key)), pair);
      if ok then Inv(h, u) && Chained(u) && |u.stash| == |t.stash| && Contents(u) == Contents(t) + multiset{pair} else u == t
  {
    var y, tag := Home(h(pair.key)), Tag(h(pair.key));
    var w := Prev(y);
    var i, j := FirstMember(t.bucket[y].cells, true), FirstFree(t.bucket[w].cells);
    if j < PAIRS && i < PAIRS {
      var moved := t.bucket[y].cells[i];
      assert moved in t.bucket[y].cells && BucketOk(h, y, t.bucket[y]);
      Displacement(h, t, w, j, moved.(probe := false), y, i, Held(tag, pair, false));
    }
  }

  /** A seat for the pair adds exactly the pair. */
  lemma SeatKeeps(h: Hasher, t: Segment, pair: Pair)
    requires Inv(h, t) && Chained(t) && pair.value != NONE
    ensures var (u, ok) := Seat(t, Home(h(pair.key)), Tag(h(pair.key)), pair);
      if ok then Inv(h, u) && Chained(u) && |u.stash| == |t.stash| && Contents(u) == Contents(t) + multiset{pair} else u == t
  {
    hide Inv, Contents, NextDisplace, PrevDisplace;
    var y, tag := Home(h(pair.key)), Tag(h(pair.key));
    var b, n := t.bucket[y], t.bucket[Next(y)];
    if Full(b) && Full(n) {
      NextDisplaceKeeps(h, t, pair);
      PrevDisplaceKeeps(h, t, pair);
    } else if Count(b.cells) <= Count(n.cells) {
      RoomMeansFree(b.cells);
      PlaceFree(h, t, y, FirstFree(b.cells), Held(tag, pair, false));
    } else {
      RoomMeansFree(n.cells);
      PlaceFree(h, t, Next(y), FirstFree(n.cells), Held(tag, pair, true));
    }
  }

  /** Every way of adding a pair adds exactly that pair, or changes nothing. */
  lemma AddKeeps(h: Hasher, t: Segment, pair: Pair)
    requires Inv(h, t) && WellShaped(t) && pair.value != NONE
    ensures var (u, ok) := Add(t, Home(h(pair.key)), Tag(h(pair.key)), pair);
      if ok then Inv(h, u) && WellShaped(u) && Contents(u) == Contents(t) + multiset{pair} else u == t
  {
    hide Inv, Contents, Seat, StashInsert;
    SeatKeeps(h, t, pair);
    StashInsertKeeps(h, t, pair);
  }

  lemma StashInsertKeeps(h: Hasher, t: Segment, pair: Pair)
    requires Inv(h, t) && WellShaped(t) && pair.value != NONE
    ensures var (u, ok) := StashInsert(t, Home(h(pair.key)), Tag(h(pair.key)), pair);
      if ok then Inv(h, u) && WellShaped(u) && Contents(u) == Contents(t) + multiset{pair} else u == t
  {
    hide Inv, Contents, StashInto;
    var s0 := Home(h(pair.key)) % 2;
    FixedStashMarkable(h, t, Home(h(pair.key)));
    if FirstFree(t.stash[s0].cells) < PAIRS {
      StashIntoKeeps(h, t, s0, pair);
    } else if FirstFree(t.stash[1 - s0].cells) < PAIRS {
      StashIntoKeeps(h, t, 1 - s0, pair);
    }
  }

  /** unique_check says yes exactly for the keys that are stored. */
  lemma DuplicateIsPresence(h: Hasher, t: Segment, key: Key)
    requires Inv(h, t) && WellShaped(t)
    ensures Duplicate(h, t, key) <==> exists v :: Pair(key, v) in Contents(t)
  {
    var y, tag := Home(h(key)), Tag(h(key));
    if Duplicate(h, t, key) {
      DuplicateSound(h, t, key);
    }
    if v :| Pair(key, v) in Contents(t) {
      DuplicateComplete(h, t, Pair(key, v));
    }
  }

  lemma DuplicateSound(h: Hasher, t: Segment, key: Key)
    requires WellShaped(t) && Duplicate(h, t, key)
    ensures exists v :: Pair(key, v) in Contents(t)
  {
    var y, tag := Home(h(key)), Tag(h(key));
    BucketInSegment(t, y);
    BucketInSegment(t, Next(y));
    BucketInSegment(t, 0);
    BucketInSegment(t, 1);
    LookupSound(t.bucket[y], tag, key, false);
    LookupSound(t.bucket[Next(y)], tag, key, true);
    LookupSound(t.stash[0], tag, key, false);
    LookupSound(t.stash[1], tag, key, false);
    var v :=
      if Lookup(t.bucket[y], tag, key, false) != NONE then Lookup(t.bucket[y], tag, key, false)
      else if Lookup(t.bucket[Next(y)], tag, key, true) != NONE then Lookup(t.bucket[Next(y)], tag, key, true)
      else if Lookup(t.stash[0], tag, key, false) != NONE then Lookup(t.stash[0], tag, key, false)
      else Lookup(t.stash[1], tag, key, false);
    assert Pair(key, v) in Contents(t);
  }

  /** Where a stored pair can be: in one of its two buckets, or in a stash bucket that its home suspects. */
  lemma WhereStored(h: Hasher, t: Segment, p: Pair)
    requires Inv(h, t) && Chained(t) && p in Contents(t)
    ensures var y, tag := Home(h(p.key)), Tag(h(p.key));
      || Lookup(t.bucket[y], tag, p.key, false) != NONE
      || Lookup(t.bucket[Next(y)], tag, p.key, true) != NONE
      || (Suspects(t, y, tag) && exists s :: 0 <= s < |t.stash| && Lookup(t.stash[s], tag, p.key, false) != NONE)
  {
    InSegment(t, p);
    if z :| 0 <= z < BUCKETS && p in BucketPairs(t.bucket[z]) {
      InBucket(t.bucket[z], p);
      var i :| 0 <= i < PAIRS && t.bucket[z].cells[i].Held? && t.bucket[z].cells[i].pair == p;
      BucketPairIsFound(h, t, z, i, p.key);
    } else {
      var s :| 0 <= s < |t.stash| && p in BucketPairs(t.stash[s]);
      InBucket(t.stash[s], p);
      var i :| 0 <= i < PAIRS && t.stash[s].cells[i].Held? && t.stash[s].cells[i].pair == p;
      StashedIsFound(h, t, s, i, p.key);
    }
  }

  lemma DuplicateComplete(h: Hasher, t: Segment, p: Pair)
    requires Inv(h, t) && WellShaped(t) && p in Contents(t)
    ensures Duplicate(h, t, p.key)
  {
    WhereStored(h, t, p);
  }

  /** Insert: 0 adds exactly the new pair, -1 and -3 change nothing, and -3 means the key was there. */
  lemma InsertSpec(h: Hasher, t: Segment, pair: Pair)
    requires Inv(h, t) && WellShaped(t) && Functional(Contents(t)) && pair.value != NONE
    ensures var (u, r) := Insert(h, t, pair);
      && Inv(h, u) && WellShaped(u) && Functional(Contents(u))
      && (r.Exists? <==> exists v :: Pair(pair.key, v) in Contents(t))
      && (if r.Inserted? then Contents(u) == Contents(t) + multiset{pair} else u == t)
  {
    DuplicateIsPresence(h, t, pair.key);
    AddKeeps(h, t, pair);
  }

  // Deletion

  /** One pair leaves cell i of bucket y. */
  lemma PlaceClear(h: Hasher, t: Segment, y: nat, i: nat)
    requires Inv(h, t) && Chained(t) && y < BUCKETS && i < PAIRS && t.bucket[y].cells[i].Held?
    ensures var u := PlaceAt(t, y, i, Free);
      Inv(h, u) && Chained(u) && |u.stash| == |t.stash| && Contents(t) == Contents(u) + multiset{t.bucket[y].cells[i].pair}
  {
    PlaceAtInv(h, t, y, i, Free);
    PlaceAtContents(t, y, i, Free);
    AddNothing(Contents(PlaceAt(t, y, i, Free)), Contents(t));
  }

  /** A stashed pair leaves: what is stashed loses its entry, and only for its own home. */
  lemma StashClearPromised(h: Hasher, t: Segment, s: nat, i: nat, z: nat)
    requires s < |t.stash| && i < |t.stash[s].cells| && t.stash[s].cells[i].Held?
    ensures var hash := h(t.stash[s].cells[i].pair.key);
      Stashed(h, t.stash, z) ==
      if Home(hash) == z then Stashed(h, StashAt(t, s, i, Free).stash, z) + multiset{(Tag(hash), Position(s))}
      else Stashed(h, StashAt(t, s, i, Free).stash, z)
  {
    StashedUpdate(h, t.stash, s, i, Free, z);
    AddNothing(Stashed(h, StashAt(t, s, i, Free).stash, z), Stashed(h, t.stash, z));
  }

  lemma AllNarrow(h: Hasher, t: Segment, y: nat, width: nat)
    requires Inv(h, t) && Wide(t, width) && y < BUCKETS
    ensures Narrow(t.bucket[y], width)
  {
    forall m | m in t.bucket[y].marks && m.On?
      ensures m.pos < width
    {
      MarksAreNarrow(h, t, y, m);
    }
  }

  /** The stash cell is cleared and one mark, or one count, goes with it: every home's promise still stands. */
  lemma StashClearKeepsPromises(h: Hasher, t: Segment, s: nat, i: nat, width: nat, z: nat)
    requires Inv(h, t) && Chained(t) && Wide(t, width) && s < |t.stash| && i < PAIRS && t.stash[s].cells[i].Held? && z < BUCKETS
    ensures var hash := h(t.stash[s].cells[i].pair.key);
      Promise(UnsetMark(t.bucket, Home(hash), Tag(hash), Position(s), width), z, Stashed(h, StashAt(t, s, i, Free).stash, z))
    ensures var hash := h(t.stash[s].cells[i].pair.key);
      OnlyHome(t.bucket, UnsetMark(t.bucket, Home(hash), Tag(hash), Position(s), width), Home(hash))
  {
    var hash := h(t.stash[s].cells[i].pair.key);
    var y, tag := Home(hash), Tag(hash);
    StashClearPromised(h, t, s, i, z);
    StashedHas(h, t.stash, y, s, i);
    AllNarrow(h, t, y, width);
    AllNarrow(h, t, Next(y), width);
    assert Promise(t.bucket, y, Stashed(h, t.stash, y)) && Promise(t.bucket, z, Stashed(h, t.stash, z));
    UnsetOneAmongAll(t.bucket, y, tag, Position(s), width, Stashed(h, t.stash, y), z, Stashed(h, t.stash, z),
                     Stashed(h, StashAt(t, s, i, Free).stash, z));
  }

  /** unset_indicator seen by an arbitrary home z, whose stashed pairs lose the entry only if z is y. */
  lemma UnsetOneAmongAll(bucket: seq<Bucket>, y: nat, tag: nat, pos: nat, width: nat, bag: multiset<(nat, nat)>, z: nat,
                         before: multiset<(nat, nat)>, after: multiset<(nat, nat)>)
    requires Ring(bucket) && y < BUCKETS && z < BUCKETS && pos < width
    requires Promise(bucket, y, bag) && (tag, pos) in bag && Narrow(bucket[y], width) && Narrow(bucket[Next(y)], width)
    requires Promise(bucket, z, before) && (z == y ==> before == bag)
    requires before == if z == y then after + multiset{(tag, pos)} else after
    ensures Promise(UnsetMark(bucket, y, tag, pos, width), z, after)
    ensures OnlyHome(bucket, UnsetMark(bucket, y, tag, pos, width), y)
  {
    hide UnsetMark, Signals, Narrow;
    UnsetMarkKeepsPromise(bucket, y, tag, pos, width, bag);
    if z == y {
      CancelAll(after, bag - multiset{(tag, pos)}, multiset{(tag, pos)});
    }
  }

  /** Clearing stash cell k together with its mark takes exactly its pair out of the segment. */
  lemma StashClearKeeps(h: Hasher, t: Segment, s: nat, k: nat, width: nat)
    requires Inv(h, t) && Chained(t) && Wide(t, width) && s < |t.stash| && k < PAIRS && t.stash[s].cells[k].Held?
    ensures var pair := t.stash[s].cells[k].pair;
      var m := StashAt(t, s, k, Free);
      var u := m.(bucket := UnsetMark(m.bucket, Home(h(pair.key)), Tag(h(pair.key)), Position(s), width));
      Inv(h, u) && Chained(u) && |u.stash| == |t.stash| && Contents(t) == Contents(u) + multiset{pair}
  {
    var pair := t.stash[s].cells[k].pair;
    var m := StashAt(t, s, k, Free);
    var r := UnsetMark(t.bucket, Home(h(pair.key)), Tag(h(pair.key)), Position(s), width);
    StashAtPlaced(h, t, s, k, Free);
    StashAtContents(t, s, k, Free);
    AddNothing(Contents(m), Contents(t));
    StashClearKeepsPromises(h, t, s, k, width, 0);
    MarksOnlyPlaced(h, m, r);
    forall z | 0 <= z < BUCKETS
      ensures Promise(r, z, Stashed(h, m.stash, z))
    {
      StashClearKeepsPromises(h, t, s, k, width, z);
    }
    PlacedIsChained(h, m.(bucket := r));
  }

  lemma StashDeleteKeeps(h: Hasher, t: Segment, s: nat, key: Key)
    requires Inv(h, t) && WellShaped(t) && s < STASHES
    ensures var (u, ok) := StashDelete(t, Home(h(key)), s, Tag(h(key)), key);
      && Inv(h, u) && WellShaped(u)
      && (if ok then exists v :: Contents(t) == Contents(u) + multiset{Pair(key, v)}
          else u == t && FirstHit(t.stash[s].cells, Tag(h(key)), key, false) == PAIRS)
  {
    var k := FirstHit(t.stash[s].cells, Tag(h(key)), key, false);
    if k < PAIRS {
      StashClearKeeps(h, t, s, k, STASHES);
      assert t.stash[s].cells[k].pair == Pair(key, t.stash[s].cells[k].pair.value);
    }
  }

  /** Delete: true removes exactly one pair of that key, false changes nothing and means there was none. */
  lemma DeleteSpec(h: Hasher, t: Segment, key: Key)
    requires Inv(h, t) && WellShaped(t) && Functional(Contents(t))
    ensures var (u, ok) := Delete(h, t, key);
      && Inv(h, u) && WellShaped(u) && Functional(Contents(u))
      && (ok <==> exists v :: Pair(key, v) in Contents(t))
      && (if ok then exists v :: Contents(t) == Contents(u) + multiset{Pair(key, v)} else u == t)
      && (forall v :: Pair(key, v) !in Contents(u))
  {
    var y, tag := Home(h(key)), Tag(h(key));
    var (u, ok) := Delete(h, t, key);
    DeleteKeeps(h, t, key);
    if ok {
      var v :| Contents(t) == Contents(u) + multiset{Pair(key, v)};
      assert Pair(key, v) in Contents(t);
      RemovedOnce(Contents(t), Contents(u), Pair(key, v));
    } else {
      forall v ensures Pair(key, v) !in Contents(t)
      {
        if Pair(key, v) in Contents(t) {
          WhereStored(h, t, Pair(key, v));
        }
      }
    }
  }

  lemma RemovedOnce(before: multiset<Pair>, after: multiset<Pair>, p: Pair)
    requires Functional(before) && before == after + multiset{p}
    ensures Functional(after) && forall v :: Pair(p.key, v) !in after
  {
    forall q | q in after
      ensures q in before && q.key != p.key && after[q] == before[q]
    {
      assert before[q] == after[q] + multiset{p}[q];
      assert p in before;
    }
  }

  /** What Delete does to contents and invariant; when it finds nothing, no lookup that it made would have. */
  lemma DeleteKeeps(h: Hasher, t: Segment, key: Key)
    requires Inv(h, t) && WellShaped(t)
    ensures var (u, ok) := Delete(h, t, key);
      && Inv(h, u) && WellShaped(u)
      && (if ok then exists v :: Contents(t) == Contents(u) + multiset{Pair(key, v)} else u == t)
    ensures var y, tag := Home(h(key)), Tag(h(key));
      !Delete(h, t, key).1 ==>
        && Lookup(t.bucket[y], tag, key, false) == NONE
        && Lookup(t.bucket[Next(y)], tag, key, true) == NONE
        && (Suspects(t, y, tag) ==> Lookup(t.stash[0], tag, key, false) == NONE && Lookup(t.stash[1], tag, key, false) == NONE)
  {
    hide Inv, Contents, UnsetMark, Home, Tag, StashAt, PlaceAt, Mentions;
    var y, tag := Home(h(key)), Tag(h(key));
    var k, l := FirstHit(t.bucket[y].cells, tag, key, false), FirstHit(t.bucket[Next(y)].cells, tag, key, true);
    if k < PAIRS {
      PlaceClear(h, t, y, k);
      assert t.bucket[y].cells[k].pair == Pair(key, t.bucket[y].cells[k].pair.value);
    } else if l < PAIRS {
      PlaceClear(h, t, Next(y), l);
      assert t.bucket[Next(y)].cells[l].pair == Pair(key, t.bucket[Next(y)].cells[l].pair.value);
    } else if Suspects(t, y, tag) {
      StashDeleteKeeps(h, t, y % 2, key);
      StashDeleteKeeps(h, t, (1 + y % 2) % 2, key);
    }
  }
}
