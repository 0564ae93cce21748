/**
 struct Table of Dash extendible hashing, updated in place.  Buckets are values inside the table, as
 they are in the original, and every method says what becomes of the table's contents.
 */
module DashTable {
  import opened Bags
  import opened DashMarks
  import opened DashSegment
  import opened DashUpdates
  import opened DashSplit
  import opened DashFit
  import opened DashPlacing
  import opened DashRebuild
  import opened DashRouting

  /** Which keys belong to the right half once a segment of this pattern and depth splits. */
  function Moves(h: Hasher, depth: nat, pattern: nat): Key -> bool
    requires depth < WORD
  {
    (key: Key) => Prefix(h(key), depth + 1) == 2 * pattern + 1
  }

  /** Every key of the bag has this pattern as its leading bits. */
  ghost predicate Under(h: Hasher, bag: multiset<Pair>, depth: nat, pattern: nat)
    requires depth <= WORD
  {
    forall p :: p in bag ==> Prefix(h(p.key), depth) == pattern
  }

  class Table {
    const h: Hasher
    var bucket: seq<Bucket>
    var stash: seq<Bucket>
    var localDepth: nat
    var pattern: nat
    var number: int

    ghost function View(): Segment
      reads this
    {
      Segment(bucket, stash)
    }

    /** number counts the pairs; the rest is the invariant of the segment. */
    ghost predicate Valid()
      reads this
    {
      Inv(h, View()) && WellShaped(View()) && number == |Contents(View())|
    }

    /** Every stored key has this segment's pattern as its leading bits. */
    ghost predicate Routed(depth: nat)
      reads this
      requires depth <= WORD
    {
      Under(h, Contents(View()), depth, pattern)
    }

    constructor (h: Hasher, depth: nat)
      ensures Valid() && View() == Empty() && Contents(View()) == multiset{} && AllDense(bucket)
      ensures this.h == h && localDepth == depth && pattern == 0
    {
      this.h := h;
      bucket, stash := Empty().bucket, Empty().stash;
      localDepth, pattern, number := depth, 0, 0;
      new;
      EmptyIsEmpty(h);
      assert View() == Empty();
    }

    method NextDisplace(y: nat, tag: nat, pair: Pair) returns (r: int)
      requires Chained(View()) && y < BUCKETS && Full(bucket[Next(y)])
      modifies this`bucket, this`number
      ensures (View(), r == 0) == DashUpdates.NextDisplace(old(View()), y, tag, pair)
      ensures r == 0 || (r == -1 && View() == old(View()))
      ensures number == old(number) + if r == 0 then 1 else 0
    {
      var z, w := Next(y), Next(Next(y));
      var displaceIndex := FirstMember(bucket[z].cells, false);
      if !Full(bucket[w]) && displaceIndex < PAIRS {
        RoomMeansFree(bucket[w].cells);
        RoomMeansFree(bucket[z].cells);
        var moved := bucket[z].cells[displaceIndex];
        bucket := bucket[w := Place(bucket[w], FirstFree(bucket[w].cells), moved.(probe := true))];
        bucket := bucket[z := Place(bucket[z], displaceIndex, Held(tag, pair, true))];
        number := number + 1;
        return 0;
      }
      RoomMeansFree(bucket[w].cells);
      return -1;
    }

    method PrevDisplace(y: nat, tag: nat, pair: Pair) returns (r: int)
      requires Chained(View()) && y < BUCKETS
      modifies this`bucket, this`number
      ensures (View(), r == 0) == DashUpdates.PrevDisplace(old(View()), y, tag, pair)
      ensures r == 0 || (r == -1 && View() == old(View()))
      ensures number == old(number) + if r == 0 then 1 else 0
    {
      var w := Prev(y);
      var displaceIndex := FirstMember(bucket[y].cells, true);
      RoomMeansFree(bucket[w].cells);
      if !Full(bucket[w]) && displaceIndex < PAIRS {
        var moved := bucket[y].cells[displaceIndex];
        bucket := bucket[w := Place(bucket[w], FirstFree(bucket[w].cells), moved.(probe := false))];
        bucket := bucket[y := Place(bucket[y], displaceIndex, Held(tag, pair, false))];
        number := number + 1;
        return 0;
      }
      return -1;
    }

    method StashInsert(y: nat, tag: nat, pair: Pair, stashPos: nat) returns (r: int)
      requires WellShaped(View()) && y < BUCKETS && stashPos == y % 2
      modifies this`bucket, this`stash, this`number
      ensures (View(), r == 0) == DashUpdates.StashInsert(old(View()), y, tag, pair)
      ensures r == 0 || (r == -1 && View() == old(View()))
      ensures number == old(number) + if r == 0 then 1 else 0
    {
      for i := 0 to STASHES
        invariant View() == old(View()) && number == old(number)
        invariant i >= 1 ==> FirstFree(stash[stashPos].cells) == PAIRS
        invariant i == 2 ==> FirstFree(stash[1 - stashPos].cells) == PAIRS
      {
        var s := (stashPos + i) % 2;
        RoomMeansFree(stash[s].cells);
        if !Full(stash[s]) {
          stash := stash[s := Place(stash[s], FirstFree(stash[s].cells), Held(tag, pair, false))];
          bucket := SetMark(bucket, y, tag, s);
          number := number + 1;
          return 0;
        }
      }
      return -1;
    }

    /** The part of Insert that follows the uniqueness check. */
    method Add(y: nat, tag: nat, pair: Pair) returns (r: int)
      requires WellShaped(View()) && y < BUCKETS
      modifies this`bucket, this`stash, this`number
      ensures (View(), r == 0) == DashUpdates.Add(old(View()), y, tag, pair)
      ensures r == 0 || (r == -1 && View() == old(View()))
      ensures number == old(number) + if r == 0 then 1 else 0
    {
      if Full(bucket[y]) && Full(bucket[Next(y)]) {
        r := NextDisplace(y, tag, pair);
        if r == 0 {
          return 0;
        }
        r := PrevDisplace(y, tag, pair);
        if r == 0 {
          return 0;
        }
        r := StashInsert(y, tag, pair, y % 2);
        return r;
      }
      RoomMeansFree(bucket[y].cells);
      RoomMeansFree(bucket[Next(y)].cells);
      if Count(bucket[y].cells) <= Count(bucket[Next(y)].cells) {
        bucket := bucket[y := Place(bucket[y], FirstFree(bucket[y].cells), Held(tag, pair, false))];
      } else {
        bucket := bucket[Next(y) := Place(bucket[Next(y)], FirstFree(bucket[Next(y)].cells), Held(tag, pair, true))];
      }
      number := number + 1;
      return 0;
    }

    /** 0 adds exactly the new pair, -1 (no room) and -3 (key already there) change nothing. */
    method Insert(key: Key, value: Value) returns (r: int)
      requires Valid() && Functional(Contents(View())) && value != NONE
      modifies this`bucket, this`stash, this`number
      ensures Valid() && Functional(Contents(View()))
      ensures r == 0 || r == -1 || r == -3
      ensures r == 0 ==> Contents(View()) == old(Contents(View())) + multiset{Pair(key, value)}
      ensures r != 0 ==> View() == old(View())
      ensures r == -3 <==> exists v :: Pair(key, v) in old(Contents(View()))
      ensures var (t, outcome) := DashUpdates.Insert(h, old(View()), Pair(key, value));
        View() == t && (r == 0 <==> outcome == Inserted) && (r == -1 <==> outcome == NoRoom)
      ensures r == -1 <==>
        (forall v :: Pair(key, v) !in old(Contents(View()))) && Crammed(old(View()), Home(h(key))) &&
        !CanDisplace(old(View()), Home(h(key)))
    {
      hide Inv, Contents, Functional, DashUpdates.Add, Duplicate, Crammed, CanDisplace, Home, Tag;
      InsertSpec(h, View(), Pair(key, value));
      RoomFound(View(), Home(h(key)), Tag(h(key)), Pair(key, value));
      if Duplicate(h, Segment(bucket, stash), key) {
        return -3;
      }
      r := Add(Home(h(key)), Tag(h(key)), Pair(key, value));
    }
  
    /** Returns the value stored under the key, NONE exactly when there is none. */
    method Get(key: Key) returns (v: Value)
      requires Valid() && Functional(Contents(View()))
      ensures v == NONE <==> forall w :: Pair(key, w) !in Contents(View())
      ensures v != NONE ==> Pair(key, v) in Contents(View())
    {
      hide Inv, Contents, Functional, Lookup, MarkScan;
      GetIsLookup(h, View(), key);
      GetSound(h, View(), key);
      var y, tag := Home(h(key)), Tag(h(key));
      v := Lookup(bucket[y], tag, key, false);
      if v != NONE {
        return v;
      }
      v := Lookup(bucket[Next(y)], tag, key, true);
      if v != NONE {
        return v;
      }
      if bucket[y].check {
        if bucket[y].overflow == 0 {
          v := MarkScan(stash, bucket[y].marks, false, tag, key);
          if v != NONE {
            return v;
          }
          v := MarkScan(stash, bucket[Next(y)].marks, true, tag, key);
          return v;
        }
        for i := 0 to STASHES
          invariant v == NONE
          invariant i >= 1 ==> Lookup(stash[y % 2], tag, key, false) == NONE
          invariant i == 2 ==> Lookup(stash[(1 + y % 2) % 2], tag, key, false) == NONE
        {
          v := Lookup(stash[(i + y % 2) % 2], tag, key, false);
          if v != NONE {
            return v;
          }
        }
      }
      return NONE;
    }

    /** One turn of the stash loop of Delete. */
    method StashDelete(y: nat, s: nat, tag: nat, key: Key) returns (ok: bool)
      requires WellShaped(View()) && y < BUCKETS && s < STASHES
      modifies this`bucket, this`stash, this`number
      ensures (View(), ok) == DashUpdates.StashDelete(old(View()), y, s, tag, key)
      ensures !ok ==> View() == old(View())
      ensures number == old(number) - if ok then 1 else 0
    {
      var k := FirstHit(stash[s].cells, tag, key, false);
      if k < PAIRS {
        stash := stash[s := Place(stash[s], k, Free)];
        bucket := UnsetMark(bucket, y, tag, s, STASHES);
        number := number - 1;
        return true;
      }
      return false;
    }

    /** Removes the key if it is there; afterwards it is not. */
    method Delete(key: Key) returns (ok: bool)
      requires Valid() && Functional(Contents(View()))
      modifies this`bucket, this`stash, this`number
      ensures Valid() && Functional(Contents(View()))
      ensures ok <==> exists v :: Pair(key, v) in old(Contents(View()))
      ensures ok ==> exists v :: old(Contents(View())) == Contents(View()) + multiset{Pair(key, v)}
      ensures !ok ==> View() == old(View())
      ensures forall v :: Pair(key, v) !in Contents(View())
    {
      hide Inv, Contents, Functional, Suspects, DashUpdates.StashDelete, FirstHit, Home, Tag;
      DeleteSpec(h, View(), key);
      var y, tag := Home(h(key)), Tag(h(key));
      var k := FirstHit(bucket[y].cells, tag, key, false);
      if k < PAIRS {
        bucket := bucket[y := Place(bucket[y], k, Free)];
        number := number - 1;
        return true;
      }
      k := FirstHit(bucket[Next(y)].cells, tag, key, true);
      if k < PAIRS {
        bucket := bucket[Next(y) := Place(bucket[Next(y)], k, Free)];
        number := number - 1;
        return true;
      }
      if Suspects(Segment(bucket, stash), y, tag) {
        for i := 0 to STASHES
          invariant View() == old(View()) && number == old(number)
          invariant i >= 1 ==> !DashUpdates.StashDelete(View(), y, y % 2, tag, key).1
          invariant i == 2 ==> !DashUpdates.StashDelete(View(), y, (1 + y % 2) % 2, tag, key).1
        {
          ok := StashDelete(y, (i + y % 2) % 2, tag, key);
          if ok {
            return true;
          }
        }
      }
      return false;
    }
  
    /**
     Adds a pair to a table under construction, writing at the index that the allocation count gives.  The
     original drops the pair when the stash is full and says nothing; ok is that missing answer.
     */
    method Insert4split(pair: Pair, keyHash: nat, tag: nat) returns (ok: bool)
      requires Valid() && AllDense(bucket) && pair.value != NONE
      requires keyHash == h(pair.key) && tag == Tag(keyHash)
      modifies this`bucket, this`stash, this`number
      ensures Valid() && AllDense(bucket)
      ensures (View(), ok) == DashUpdates.Add(old(View()), Home(keyHash), tag, pair)
      ensures ok ==> Contents(View()) == old(Contents(View())) + multiset{pair}
      ensures ok <==> !Crammed(old(View()), Home(keyHash)) || CanDisplace(old(View()), Home(keyHash))
      ensures !ok ==> View() == old(View()) && Crammed(View(), Home(keyHash))
    {
      hide Inv, Contents, DashUpdates.NextDisplace, DashUpdates.PrevDisplace, DashUpdates.StashInsert;
      hide Home, Crammed, CanDisplace;
      var y := Home(keyHash);
      RoomMeansFree(bucket[y].cells);
      RoomMeansFree(bucket[Next(y)].cells);
      RoomFound(View(), y, tag, pair);
      AddKeeps(h, View(), pair);
      AddKeepsDense(View(), y, tag, pair);
      DenseCount(bucket[y].cells);
      DenseCount(bucket[Next(y)].cells);
      var probe := !(Count(bucket[y].cells) <= Count(bucket[Next(y)].cells));
      var t := if probe then Next(y) else y;
      if Count(bucket[t].cells) < PAIRS {
        bucket := bucket[t := Place(bucket[t], Count(bucket[t].cells), Held(tag, pair, probe))];
        number := number + 1;
        return true;
      }
      var r := NextDisplace(y, tag, pair);
      if r == 0 {
        return true;
      }
      r := PrevDisplace(y, tag, pair);
      if r == 0 {
        return true;
      }
      r := StashInsert(y, tag, pair, y % 2);
      ok := r == 0;
    }
  
    /**
     The state of a split between two of its steps; see Splitting.  gone are the pairs that were met so far and
     move, in the order of the walk.
     */
    ghost predicate Progress(moves: Key -> bool, masks: seq<set<nat>>, next: Table, gone: seq<Pair>, lost: multiset<Pair>,
                             before: multiset<Pair>)
      reads this, next
    {
      && next != this && next.h == h && next.Valid() && AllDense(next.bucket) && WellShaped(View())
      && Splitting(h, moves, View(), masks, Contents(next.View()), lost, before)
      && number == |Contents(Cleared(View(), masks))|
      && (next.View(), lost) == Rebuild(h, gone)
    }

    /** One turn of CopyBucket that finds a pair that moves. */
    method MoveBucketCell(i: nat, j: nat, keyHash: nat, ghost masks: seq<set<nat>>, ghost mask: set<nat>, next: Table,
                          ghost gone: seq<Pair>, ghost lost: multiset<Pair>, ghost before: multiset<Pair>)
        returns (ghost lost': multiset<Pair>)
      requires i == |masks| < BUCKETS && j < PAIRS && localDepth < WORD
      requires Progress(Moves(h, localDepth, pattern), masks + [mask], next, gone, lost, before)
      requires Visited(Moves(h, localDepth, pattern), View(), i, mask, j)
      requires var c := bucket[i].cells[j];
        c.Held? && keyHash == h(c.pair.key) && Moves(h, localDepth, pattern)(c.pair.key)
      modifies this`number, next`bucket, next`stash, next`number
      ensures var moves := Moves(h, localDepth, pattern);
        Progress(moves, masks + [mask + {j}], next, gone + [bucket[i].cells[j].pair], lost', before)
    {
      hide Inv, Contents, Cleared, Tag, Home, Splitting, Rebuild, Crammed, Moves, DashUpdates.Add;
      ghost var moves := Moves(h, localDepth, pattern);
      var c := bucket[i].cells[j];
      HeldIsPlaced(h, moves, View(), masks + [mask], i, j, Contents(next.View()), lost, before);
      ghost var was := Contents(next.View());
      RebuildNext(h, gone, c.pair);
      var ok := next.Insert4split(c.pair, keyHash, c.tag);
      lost' := if ok then lost else lost + multiset{c.pair};
      MoveFromBucket(h, moves, View(), masks, mask, j, was, lost, Contents(next.View()), lost', before);
      number := number - 1;
    }

    /** Copies what moves out of bucket i, which is bucket number |masks|. */
    method CopyBucket(i: nat, ghost masks: seq<set<nat>>, next: Table, ghost gone: seq<Pair>, ghost lost: multiset<Pair>,
                      ghost before: multiset<Pair>)
        returns (mask: set<nat>, ghost lost': multiset<Pair>)
      requires i == |masks| < BUCKETS && localDepth < WORD
      requires Progress(Moves(h, localDepth, pattern), masks, next, gone, lost, before)
      modifies this`number, next`bucket, next`stash, next`number
      ensures var moves := Moves(h, localDepth, pattern);
        Progress(moves, masks + [mask], next, gone + MovedIn(moves, bucket[i].cells), lost', before)
      ensures Visited(Moves(h, localDepth, pattern), View(), i, mask, PAIRS)
    {
      hide Inv, Contents, Cleared, Tag, Home, Splitting, Rebuild, MovedIn, AllDense;
      ghost var moves := Moves(h, localDepth, pattern);
      mask, lost' := {}, lost;
      SplittingPad(h, moves, View(), masks, Contents(next.View()), lost, before);
      NoneMoved(moves, bucket[i].cells, gone);
      for j := 0 to PAIRS
        invariant Progress(moves, masks + [mask], next, gone + MovedIn(moves, bucket[i].cells[..j]), lost', before)
        invariant Visited(moves, View(), i, mask, j)
      {
        var c := bucket[i].cells[j];
        MovedNext(moves, bucket[i].cells, j, gone);
        if c.Held? {
          var keyHash := h(c.pair.key);
          if Prefix(keyHash, localDepth + 1) == 2 * pattern + 1 {
            lost' := MoveBucketCell(i, j, keyHash, masks, mask, next, gone + MovedIn(moves, bucket[i].cells[..j]), lost', before);
            mask := mask + {j};
          }
        }
      }
      assert bucket[i].cells[..PAIRS] == bucket[i].cells;
    }

    /** One turn of CopyStash that finds a pair that moves. */
    method MoveStashCell(s: nat, j: nat, keyHash: nat, ghost masks: seq<set<nat>>, ghost mask: set<nat>, next: Table,
                         ghost gone: seq<Pair>, ghost lost: multiset<Pair>, ghost before: multiset<Pair>)
        returns (ghost lost': multiset<Pair>)
      requires BUCKETS + s == |masks| && s < STASHES && j < PAIRS && localDepth < WORD
      requires Progress(Moves(h, localDepth, pattern), masks + [mask], next, gone, lost, before)
      requires Visited(Moves(h, localDepth, pattern), View(), BUCKETS + s, mask, j)
      requires var c := stash[s].cells[j];
        c.Held? && keyHash == h(c.pair.key) && Moves(h, localDepth, pattern)(c.pair.key)
      modifies this`number, this`bucket, next`bucket, next`stash, next`number
      ensures var moves := Moves(h, localDepth, pattern);
        Progress(moves, masks + [mask + {j}], next, gone + [stash[s].cells[j].pair], lost', before)
      ensures |bucket| == BUCKETS && forall y :: 0 <= y < BUCKETS ==> bucket[y].cells == old(bucket)[y].cells
    {
      hide Inv, Contents, Cleared, Tag, Home, Splitting, Rebuild, Crammed, Moves, UnsetMark, DashUpdates.Add;
      ghost var moves := Moves(h, localDepth, pattern);
      var c := stash[s].cells[j];
      HeldIsPlaced(h, moves, View(), masks + [mask], BUCKETS + s, j, Contents(next.View()), lost, before);
      ghost var was := Contents(next.View());
      RebuildNext(h, gone, c.pair);
      var ok := next.Insert4split(c.pair, keyHash, c.tag);
      lost' := if ok then lost else lost + multiset{c.pair};
      MoveFromStash(h, moves, View(), masks, mask, j, STASHES, was, lost, Contents(next.View()), lost', before);
      UnsetMarkCells(bucket, Home(keyHash), c.tag, s, STASHES);
      bucket := UnsetMark(bucket, Home(keyHash), c.tag, s, STASHES);
      number := number - 1;
    }

    /** Copies what moves out of stash bucket s and takes back its marks. */
    method CopyStash(s: nat, ghost masks: seq<set<nat>>, next: Table, ghost gone: seq<Pair>, ghost lost: multiset<Pair>,
                     ghost before: multiset<Pair>)
        returns (mask: set<nat>, ghost lost': multiset<Pair>)
      requires BUCKETS + s == |masks| && s < STASHES && localDepth < WORD
      requires Progress(Moves(h, localDepth, pattern), masks, next, gone, lost, before)
      modifies this`number, this`bucket, next`bucket, next`stash, next`number
      ensures var moves := Moves(h, localDepth, pattern);
        Progress(moves, masks + [mask], next, gone + MovedIn(moves, stash[s].cells), lost', before)
      ensures Visited(Moves(h, localDepth, pattern), View(), BUCKETS + s, mask, PAIRS)
      ensures forall y :: 0 <= y < BUCKETS ==> bucket[y].cells == old(bucket)[y].cells
    {
      hide Inv, Contents, Cleared, Tag, Home, Splitting, Rebuild, MovedIn, AllDense;
      ghost var moves := Moves(h, localDepth, pattern);
      mask, lost' := {}, lost;
      SplittingPad(h, moves, View(), masks, Contents(next.View()), lost, before);
      NoneMoved(moves, stash[s].cells, gone);
      for j := 0 to PAIRS
        invariant Progress(moves, masks + [mask], next, gone + MovedIn(moves, stash[s].cells[..j]), lost', before)
        invariant Visited(moves, View(), BUCKETS + s, mask, j)
        invariant forall y :: 0 <= y < BUCKETS ==> bucket[y].cells == old(bucket)[y].cells
      {
        var c := stash[s].cells[j];
        MovedNext(moves, stash[s].cells, j, gone);
        if c.Held? {
          var keyHash := h(c.pair.key);
          if Prefix(keyHash, localDepth + 1) == 2 * pattern + 1 {
            lost' := MoveStashCell(s, j, keyHash, masks, mask, next, gone + MovedIn(moves, stash[s].cells[..j]), lost', before);
            mask := mask + {j};
          }
        }
      }
      assert stash[s].cells[..PAIRS] == stash[s].cells;
    }

    /** The pairs that the next split moves, in the order in which it meets them. */
    ghost function Leaving(): seq<Pair>
      reads this
      requires localDepth < WORD
    {
      MovedFrom(Moves(h, localDepth, pattern), bucket + stash)
    }

    /** Walks over buckets and stash; masks says what has been copied. */
    method CopyAll(next: Table, ghost before: multiset<Pair>) returns (masks: seq<set<nat>>, ghost lost: multiset<Pair>)
      requires localDepth < WORD && Progress(Moves(h, localDepth, pattern), [], next, [], multiset{}, before)
      modifies this`number, this`bucket, next`bucket, next`stash, next`number
      ensures |masks| == BUCKETS + STASHES
      ensures var moves := Moves(h, localDepth, pattern);
        && Progress(moves, masks, next, old(Leaving()), lost, before)
        && forall k :: 0 <= k < BUCKETS + STASHES ==> Visited(moves, View(), k, masks[k], PAIRS)
    {
      hide Inv, Contents, Cleared, Moves, Visited, Splitting, Functional, Rebuild, MovedFrom, MovedIn, AllDense;
      ghost var moves, walk := Moves(h, localDepth, pattern), bucket + stash;
      lost, masks := multiset{}, [];
      NoBucketMoved(moves, walk);
      for i := 0 to BUCKETS
        invariant |masks| == i && View() == old(View())
        invariant Progress(moves, masks, next, MovedFrom(moves, walk[..i]), lost, before)
        invariant forall k :: 0 <= k < i ==> Visited(moves, View(), k, masks[k], PAIRS)
      {
        MovedNextBucket(moves, walk, i);
        var mask;
        mask, lost := CopyBucket(i, masks, next, MovedFrom(moves, walk[..i]), lost, before);
        masks := masks + [mask];
      }
      for s := 0 to STASHES
        invariant |masks| == BUCKETS + s && stash == old(stash)
        invariant Progress(moves, masks, next, MovedFrom(moves, walk[..BUCKETS + s]), lost, before)
        invariant forall k :: 0 <= k < BUCKETS + s ==> Visited(moves, View(), k, masks[k], PAIRS)
      {
        MovedNextBucket(moves, walk, BUCKETS + s);
        ghost var was := View();
        var mask;
        mask, lost := CopyStash(s, masks, next, MovedFrom(moves, walk[..BUCKETS + s]), lost, before);
        masks := masks + [mask];
        forall k | 0 <= k < BUCKETS + s
          ensures Visited(moves, View(), k, masks[k], PAIRS)
        {
          VisitedCells(moves, was, View(), k, masks[k]);
        }
      }
      assert walk[..BUCKETS + STASHES] == walk;
    }

    /**
     Copies every pair whose next hash bit is one to a new table, unmarks the stashed ones, and clears what was
     copied.  lost is what the new table had no room for; the original forgets those pairs.
     */
    method Split() returns (next: Table, ghost lost: multiset<Pair>)
      requires Valid() && localDepth < WORD
      modifies this`bucket, this`stash, this`pattern, this`number
      ensures fresh(next) && next.h == h && next.localDepth == localDepth + 1
      ensures Valid() && next.Valid()
      ensures Contents(View()) + (Contents(next.View()) + lost) == old(Contents(View()))
      ensures forall p :: p in Contents(next.View()) + lost ==> Moves(h, localDepth, old(pattern))(p.key)
      ensures forall p :: p in Contents(View()) ==> !Moves(h, localDepth, old(pattern))(p.key)
      ensures |lost| == FitAll(HomesOf(h, old(Leaving()))).1
      ensures lost != multiset{} ==> Full(next.stash[0]) && Full(next.stash[1])
      ensures old(number) <= 4 * PAIRS || |old(Leaving())| <= 4 * PAIRS || Spread(HomesOf(h, old(Leaving()))) ==>
        lost == multiset{}
      ensures pattern == 2 * old(pattern) && next.pattern == 2 * old(pattern) + 1
      ensures next.Routed(localDepth + 1) && (old(Routed(localDepth)) ==> Routed(localDepth + 1))
      ensures old(Functional(Contents(View()))) ==> Functional(Contents(View())) && Functional(Contents(next.View()))
    {
      hide Inv, Contents, Cleared, Moves, Visited, Splitting, Functional, Rebuild, FitAll, HomesOf, Spread, Full, AllDense;
      hide MovedFrom, LoadsOf, Under;
      ghost var depth, half, gone := localDepth, pattern, Leaving();
      var newPattern, oldPattern := 2 * pattern + 1, 2 * pattern;
      ghost var before, moves := Contents(View()), Moves(h, localDepth, pattern);
      LeavingIsStored(moves, View());
      next := new Table(h, localDepth + 1);
      SplittingStart(h, moves, View());
      ClearedNone(View(), []);
      NothingRebuilt(h);
      var masks;
      masks, lost := CopyAll(next, before);
      next.pattern := newPattern;
      pattern := oldPattern;
      HalvesParted(h, View(), masks, Contents(next.View()), lost, before, depth, half);
      bucket, stash := BulkClear(Segment(bucket, stash), masks);
      SplitLoses(h, gone);
    }
  }

  /** What the masks leave and what was copied are the two halves of what was there. */
  lemma HalvesParted(h: Hasher, t: Segment, masks: seq<set<nat>>, next: multiset<Pair>, lost: multiset<Pair>,
                     before: multiset<Pair>, depth: nat, pattern: nat)
    requires depth < WORD && |masks| == BUCKETS + STASHES && WellShaped(t)
    requires Splitting(h, Moves(h, depth, pattern), t, masks, next, lost, before)
    requires forall i :: 0 <= i < BUCKETS + STASHES ==> Visited(Moves(h, depth, pattern), t, i, masks[i], PAIRS)
    ensures var u, moves := Cleared(t, masks), Moves(h, depth, pattern);
      && Inv(h, u) && WellShaped(u) && Contents(u) + (next + lost) == before
      && (forall p :: p in next + lost ==> moves(p.key)) && (forall p :: p in Contents(u) ==> !moves(p.key))
      && Under(h, next, depth + 1, 2 * pattern + 1)
      && (Under(h, before, depth, pattern) ==> Under(h, Contents(u), depth + 1, 2 * pattern))
      && (Functional(before) ==> Functional(Contents(u)) && Functional(next))
  {
    hide Inv, Contents, Cleared, Moves, Visited, Splitting, Functional;
    SplittingEnd(h, Moves(h, depth, pattern), t, masks, next, lost, before);
    HalvesRouted(h, Contents(Cleared(t, masks)), next, lost, before, depth, pattern);
  }

  /** What stays has the pattern with a zero appended, what goes with a one; neither half repeats a key. */
  lemma HalvesRouted(h: Hasher, stay: multiset<Pair>, go: multiset<Pair>, lost: multiset<Pair>, before: multiset<Pair>,
                     depth: nat, pattern: nat)
    requires depth < WORD && stay + (go + lost) == before
    requires forall p :: p in go + lost ==> Moves(h, depth, pattern)(p.key)
    requires forall p :: p in stay ==> !Moves(h, depth, pattern)(p.key)
    ensures forall p :: p in go ==> Prefix(h(p.key), depth + 1) == 2 * pattern + 1
    ensures (forall p :: p in before ==> Prefix(h(p.key), depth) == pattern) ==>
      forall p :: p in stay ==> Prefix(h(p.key), depth + 1) == 2 * pattern
    ensures Functional(before) ==> Functional(stay) && Functional(go)
  {
    forall p | p in stay && Prefix(h(p.key), depth) == pattern
      ensures Prefix(h(p.key), depth + 1) == 2 * pattern
    {
      PrefixHalves(h(p.key), depth);
    }
    assert forall p :: p in stay || p in go ==> p in before;
    forall p
      ensures before[p] == stay[p] + go[p] + lost[p]
    {
      assert (stay + (go + lost))[p] == before[p];
    }
  }
}
