/** Where an insertion finds room, and when there is none: in terms of what the buckets hold. */
module DashPlacing {
  import opened DashMarks
  import opened DashSegment
  import opened DashUpdates
  import opened DashFit

  /** A pair in the bucket whose home it is. */
  ghost predicate HoldsOwn(b: Bucket) {
    exists c :: c in b.cells && c.Held? && !c.probe
  }

  /** A pair whose home is the bucket on the left. */
  ghost predicate HoldsLent(b: Bucket) {
    exists c :: c in b.cells && c.Held? && c.probe
  }

  /**
   Some pair of home or right neighbour can move on: one of the neighbour's own to the bucket after it, or one that the home
   keeps for its left neighbour back there.
   */
  ghost predicate CanDisplace(t: Segment, y: nat)
    requires Chained(t) && y < BUCKETS
  {
    || (HoldsOwn(t.bucket[Next(y)]) && !Full(t.bucket[Next(Next(y))]))
    || (HoldsLent(t.bucket[y]) && !Full(t.bucket[Prev(y)]))
  }

  lemma OwnFound(b: Bucket)
    requires Shaped(b) && Full(b)
    ensures FirstMember(b.cells, false) < PAIRS <==> HoldsOwn(b)
  {
    RoomMeansFree(b.cells);
    var i := FirstMember(b.cells, false);
    if i < PAIRS {
      assert b.cells[i] in b.cells;
    }
  }

  lemma LentFound(b: Bucket)
    requires Shaped(b)
    ensures FirstMember(b.cells, true) < PAIRS <==> HoldsLent(b)
  {
    var i := FirstMember(b.cells, true);
    if i < PAIRS {
      assert b.cells[i] in b.cells;
    }
  }

  lemma NotFull(b: Bucket)
    requires Shaped(b)
    ensures FirstFree(b.cells) < PAIRS <==> !Full(b)
  {
    RoomMeansFree(b.cells);
  }

  /** Home or neighbour takes the pair exactly when one has a free cell or some pair of theirs can move on. */
  lemma SeatFound(t: Segment, y: nat, tag: nat, pair: Pair)
    requires Chained(t) && y < BUCKETS
    ensures Seat(t, y, tag, pair).1 <==> !Full(t.bucket[y]) || !Full(t.bucket[Next(y)]) || CanDisplace(t, y)
  {
    NotFull(t.bucket[Next(Next(y))]);
    NotFull(t.bucket[Prev(y)]);
    LentFound(t.bucket[y]);
    if Full(t.bucket[Next(y)]) {
      OwnFound(t.bucket[Next(y)]);
    }
    hide Full, HoldsOwn, HoldsLent, FirstMember, FirstFree, PlaceAt;
  }

  /** An insertion finds room exactly when home, neighbour or stash has a free cell or some pair can move on. */
  lemma RoomFound(t: Segment, y: nat, tag: nat, pair: Pair)
    requires WellShaped(t) && y < BUCKETS
    ensures Add(t, y, tag, pair).1 <==> !Crammed(t, y) || CanDisplace(t, y)
  {
    SeatFound(t, y, tag, pair);
    NotFull(t.stash[0]);
    NotFull(t.stash[1]);
    hide Seat, Full, CanDisplace, StashInto;
  }

  /**
   With a free cell in home or neighbour the pair goes to the emptier of the two, the home on a tie, and nothing else
   changes; the stash is used only when no pair can move on, the stash bucket of the home's parity first.
   */
  lemma RoomTaken(t: Segment, y: nat, tag: nat, pair: Pair)
    requires WellShaped(t) && y < BUCKETS
    ensures var u, b, n := Add(t, y, tag, pair).0, t.bucket[y], t.bucket[Next(y)];
      var e := if Count(b.cells) <= Count(n.cells) then y else Next(y);
      !Full(b) || !Full(n) ==>
        && |u.bucket| == BUCKETS && u.stash == t.stash && (forall z :: 0 <= z < BUCKETS && z != e ==> u.bucket[z] == t.bucket[z])
        && Count(u.bucket[e].cells) == Count(t.bucket[e].cells) + 1 && Held(tag, pair, e != y) in u.bucket[e].cells
    ensures var u := Add(t, y, tag, pair).0;
      && (CanDisplace(t, y) ==> u.stash == t.stash)
      && (!Full(t.stash[y % 2]) ==> |u.stash| == STASHES && u.stash[1 - y % 2] == t.stash[1 - y % 2])
  {
    var b, n := t.bucket[y], t.bucket[Next(y)];
    SeatFound(t, y, tag, pair);
    NotFull(t.stash[y % 2]);
    SeatKeepsStash(t, y, tag, pair);
    if !Full(b) || !Full(n) {
      Balanced(t, y, tag, pair);
    }
    hide Seat, Full, CanDisplace, Count;
  }

  lemma SeatKeepsStash(t: Segment, y: nat, tag: nat, pair: Pair)
    requires Chained(t) && y < BUCKETS
    ensures Seat(t, y, tag, pair).0.stash == t.stash
  {
    hide Count, FirstMember, FirstFree;
  }

  lemma Balanced(t: Segment, y: nat, tag: nat, pair: Pair)
    requires Chained(t) && y < BUCKETS && (!Full(t.bucket[y]) || !Full(t.bucket[Next(y)]))
    ensures var (u, ok) := Seat(t, y, tag, pair);
      var e := if Count(t.bucket[y].cells) <= Count(t.bucket[Next(y)].cells) then y else Next(y);
      && ok && |u.bucket| == BUCKETS && (forall z :: 0 <= z < BUCKETS && z != e ==> u.bucket[z] == t.bucket[z])
      && Count(u.bucket[e].cells) == Count(t.bucket[e].cells) + 1 && Held(tag, pair, e != y) in u.bucket[e].cells
  {
    var e := if Count(t.bucket[y].cells) <= Count(t.bucket[Next(y)].cells) then y else Next(y);
    var cells, c := t.bucket[e].cells, Held(tag, pair, e != y);
    RoomMeansFree(cells);
    CountPlace(cells, FirstFree(cells), c);
    assert cells[FirstFree(cells) := c][FirstFree(cells)] == c;
    hide Count;
  }
}
