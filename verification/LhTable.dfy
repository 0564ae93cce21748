/**
 struct Table of Dash linear hashing, updated in place: inserting into a stash that overflows into a chain, and
 the split that sends half of a table's keys to a new one and takes keys back from the chain.
 */
module LhTable {
  import opened Bags
  import opened Powers
  import opened DashMarks
  import opened DashSegment
  import opened DashUpdates
  import opened DashSplit
  import opened DashFit
  import opened DashPlacing
  import opened DashRebuild
  import opened LhExpansion
  import opened LhSegment
  import opened LhRebuild

  /** Aborted: the assertion that the overflow counter does not wrap has failed. */
  datatype Reply = Done | NoRoom | Aborted

  class Table {
    const hash: Hasher
    var bucket: seq<Bucket>
    var stash: seq<Bucket>

    ghost function View(): Segment
      reads this
    {
      Segment(bucket, stash)
    }

    ghost predicate Valid()
      reads this
    {
      Inv(Placing(hash), View()) && Chained(View())
    }

    constructor (hash: Hasher)
      ensures Valid() && View() == Empty() && Contents(View()) == multiset{} && AllDense(bucket)
      ensures this.hash == hash
    {
      this.hash := hash;
      bucket, stash := Empty().bucket, Empty().stash;
      new;
      EmptyIsEmpty(Placing(hash));
      assert View() == Empty();
    }

    /** Insert into stash or overflow bucket s, with the mark for it. */
    method PutInStash(s: nat, keyHash: nat, tag: nat, pair: Pair) returns (r: Reply)
      requires Valid() && s < |stash| && FirstFree(stash[s].cells) < PAIRS && pair.value != NONE
      requires keyHash == Placing(hash)(pair.key) && tag == Tag(keyHash)
      modifies this`bucket, this`stash
      ensures r == if Markable(old(bucket)[Home(keyHash)], old(bucket)[Next(Home(keyHash))]) then Done else Aborted
      ensures r.Done? ==> Valid() && View() == StashInto(old(View()), Home(keyHash), s, tag, pair)
      ensures r.Done? ==> Contents(View()) == old(Contents(View())) + multiset{pair}
      ensures r.Done? ==> forall z :: 0 <= z < BUCKETS ==> bucket[z].cells == old(bucket)[z].cells
    {
      hide Inv, Contents, Home, Tag, SetIn, Markable;
      var y := Home(keyHash);
      SetMarkCells(bucket, y, tag, Position(s));
      if Markable(bucket[y], bucket[Next(y)]) {
        StashIntoKeeps(Placing(hash), View(), s, pair);
      }
      stash := stash[s := Place(stash[s], FirstFree(stash[s].cells), Held(tag, pair, false))];
      if !Markable(bucket[y], bucket[Next(y)]) {
        return Aborted;
      }
      bucket := SetMark(bucket, y, tag, Position(s));
      return Done;
    }

    /** The first overflow bucket with room, or the length of the chain. */
    method ChainSlot() returns (s: nat)
      requires Chained(View())
      ensures s == ChainRoom(stash, STASHES)
    {
      s := STASHES;
      while s < |stash|
        invariant STASHES <= s <= |stash| && ChainRoom(stash, STASHES) == ChainRoom(stash, s)
      {
        RoomMeansFree(stash[s].cells);
        if !Full(stash[s]) {
          return s;
        }
        s := s + 1;
      }
    }

    /** Allocates a new overflow bucket and links it at the end of the chain. */
    method Extend()
      requires Valid()
      modifies this`stash
      ensures Valid() && View() == Extended(old(View())) && Contents(View()) == old(Contents(View()))
      ensures FirstFree(stash[|stash| - 1].cells) == 0
    {
      hide Inv, Contents;
      ExtendedKeeps(Placing(hash), View());
      BlankedIsEmpty(Placing(hash), 0, 0);
      stash := stash + [Blanked()];
      assert View() == Extended(old(View()));
    }

    /** Stash_insert: a fixed stash bucket, else the first overflow bucket with room, else a new one. */
    method StashInsert(keyHash: nat, tag: nat, pair: Pair) returns (r: Reply)
      requires Valid() && pair.value != NONE
      requires keyHash == Placing(hash)(pair.key) && tag == Tag(keyHash)
      modifies this`bucket, this`stash
      ensures r == if Markable(old(bucket)[Home(keyHash)], old(bucket)[Next(Home(keyHash))]) then Done else Aborted
      ensures r.Done? ==> Valid() && View() == StashLong(old(View()), Home(keyHash), tag, pair)
      ensures r.Done? ==> Contents(View()) == old(Contents(View())) + multiset{pair}
    {
      hide Inv, Contents, Home, Tag, SetIn, Markable, Placing, StashInto, ChainRoom, Position;
      var stashPos := Home(keyHash) % 2;
      for i := 0 to STASHES
        invariant View() == old(View())
        invariant i >= 1 ==> FirstFree(stash[stashPos].cells) == PAIRS
        invariant i == 2 ==> FirstFree(stash[1 - stashPos].cells) == PAIRS
      {
        var s := (stashPos + i) % 2;
        RoomMeansFree(stash[s].cells);
        if !Full(stash[s]) {
          assert s == StashRoom(View(), Home(keyHash));
          r := PutInStash(s, keyHash, tag, pair);
          return r;
        }
      }
      var s := ChainSlot();
      assert s == StashRoom(View(), Home(keyHash));
      if s == |stash| {
        Extend();
      }
      r := PutInStash(s, keyHash, tag, pair);
    }

    /** Insert4split: into a new table, writing at the index that the allocation count gives. */
    method Insert4split(pair: Pair, keyHash: nat, tag: nat) returns (r: Reply)
      requires Valid() && AllDense(bucket) && pair.value != NONE
      requires keyHash == Placing(hash)(pair.key) && tag == Tag(keyHash)
      modifies this`bucket, this`stash
      ensures r == if AddLong(old(View()), Home(keyHash), tag, pair).1 then Done else Aborted
      ensures r.Aborted? <==>
        var b, n := old(bucket)[Home(keyHash)], old(bucket)[Next(Home(keyHash))];
        Full(b) && Full(n) && !CanDisplace(old(View()), Home(keyHash)) && !Markable(b, n)
      ensures r.Done? ==> Valid() && AllDense(bucket) && View() == AddLong(old(View()), Home(keyHash), tag, pair).0
      ensures r.Done? ==> Contents(View()) == old(Contents(View())) + multiset{pair}
    {
      hide Inv, Contents, NextDisplace, PrevDisplace, Tag, Home, Placing, Markable, StashLong, CanDisplace;
      var y := Home(keyHash);
      AddLongKeeps(Placing(hash), View(), pair);
      SeatFound(View(), y, tag, pair);
      SeatKeepsStash(View(), y, tag, pair);
      DenseCount(bucket[y].cells);
      DenseCount(bucket[Next(y)].cells);
      var probe := !(Count(bucket[y].cells) <= Count(bucket[Next(y)].cells));
      var t := if probe then Next(y) else y;
      if Count(bucket[t].cells) < PAIRS {
        bucket := bucket[t := Place(bucket[t], Count(bucket[t].cells), Held(tag, pair, probe))];
        return Done;
      }
      var next := NextDisplace(Segment(bucket, stash), y, tag, pair);
      if next.1 {
        bucket, stash := next.0.bucket, next.0.stash;
        return Done;
      }
      var prev := PrevDisplace(Segment(bucket, stash), y, tag, pair);
      if prev.1 {
        bucket, stash := prev.0.bucket, prev.0.stash;
        return Done;
      }
      r := StashInsert(keyHash, tag, pair);
    }

    /** The part of Insert2Org for which home and neighbour are full. */
    method Insert2Stash(pair: Pair, keyHash: nat, tag: nat) returns (r: Reply)
      requires Valid() && pair.value != NONE && keyHash == Placing(hash)(pair.key) && tag == Tag(keyHash)
      modifies this`bucket, this`stash
      ensures r.NoRoom? <==> Full(old(stash)[0]) && Full(old(stash)[1])
      ensures r.Aborted? ==> !Markable(old(bucket)[Home(keyHash)], old(bucket)[Next(Home(keyHash))])
      ensures r.Done? ==> Markable(old(bucket)[Home(keyHash)], old(bucket)[Next(Home(keyHash))])
      ensures r.Done? ==> Valid() && Contents(View()) == old(Contents(View())) + multiset{pair}
      ensures r.Done? ==> |stash| == |old(stash)| && stash[STASHES..] == old(stash)[STASHES..] && FullStays(old(View()), View())
      ensures r.NoRoom? ==> View() == old(View())
    {
      hide Inv, Contents, Home, Tag, SetIn, Markable, Placing;
      var stashPos := Home(keyHash) % 2;
      for i := 0 to STASHES
        invariant View() == old(View())
        invariant i >= 1 ==> Full(stash[stashPos])
        invariant i == 2 ==> Full(stash[1 - stashPos])
      {
        var s := (i + stashPos) % 2;
        RoomMeansFree(stash[s].cells);
        if !Full(stash[s]) {
          r := PutInStash(s, keyHash, tag, pair);
          return r;
        }
      }
      return Reply.NoRoom;
    }

    /**
     Insert2Org: back into the source table, but not into its chain.  There is no room exactly when home, neighbour and
     fixed stash are full, and what is full stays full.
     */
    method Insert2Org(pair: Pair, keyHash: nat) returns (r: Reply)
      requires Valid() && pair.value != NONE && keyHash == Placing(hash)(pair.key)
      modifies this`bucket, this`stash
      ensures r.NoRoom? <==> Crammed(old(View()), Home(keyHash))
      ensures r.Aborted? <==>
        var b, n := old(bucket)[Home(keyHash)], old(bucket)[Next(Home(keyHash))];
        Full(b) && Full(n) && !r.NoRoom? && !Markable(b, n)
      ensures r.Done? ==> Valid() && Contents(View()) == old(Contents(View())) + multiset{pair}
      ensures r.Done? ==> |stash| == |old(stash)| && stash[STASHES..] == old(stash)[STASHES..] && FullStays(old(View()), View())
      ensures r.NoRoom? ==> View() == old(View())
    {
      hide Inv, Contents, Home, Tag, SetIn, Markable, Placing;
      var y, tag := Home(keyHash), Tag(keyHash);
      if Full(bucket[y]) && Full(bucket[Next(y)]) {
        r := Insert2Stash(pair, keyHash, tag);
        return r;
      }
      RoomMeansFree(bucket[y].cells);
      RoomMeansFree(bucket[Next(y)].cells);
      var probe := !(Count(bucket[y].cells) <= Count(bucket[Next(y)].cells));
      var t := if probe then Next(y) else y;
      TakesCell(hash, View(), t, FirstFree(bucket[t].cells), Held(tag, pair, probe));
      bucket := bucket[t := Place(bucket[t], FirstFree(bucket[t].cells), Held(tag, pair, probe))];
      return Done;
    }

    /** The part of Get that searches the fixed stash, the bucket of the home's parity first, and then the whole chain. */
    method StashGet(first: nat, tag: nat, key: Key) returns (v: Value)
      requires Chained(View()) && first < STASHES
      ensures v != NONE ==> exists s :: 0 <= s < |stash| && Lookup(stash[s], tag, key, false) == v
      ensures v == NONE ==> forall s :: 0 <= s < |stash| ==> Lookup(stash[s], tag, key, false) == NONE
    {
      hide Lookup;
      for i := 0 to STASHES
        invariant i >= 1 ==> Lookup(stash[first], tag, key, false) == NONE
        invariant i == 2 ==> Lookup(stash[1 - first], tag, key, false) == NONE
      {
        v := Lookup(stash[(i + first) % 2], tag, key, false);
        if v != NONE {
          return v;
        }
      }
      var s := STASHES;
      while s < |stash|
        invariant STASHES <= s <= |stash|
        invariant forall k :: 0 <= k < s ==> Lookup(stash[k], tag, key, false) == NONE
      {
        v := Lookup(stash[s], tag, key, false);
        if v != NONE {
          return v;
        }
        s := s + 1;
      }
      return NONE;
    }

    /** Linear::Get in one table: home, right neighbour, and if home suspects it the stash and the whole chain. */
    method Get(key: Key) returns (v: Value)
      requires Valid()
      ensures v != NONE ==> Pair(key, v) in Contents(View())
      ensures v == NONE <==> forall w :: Pair(key, w) !in Contents(View())
    {
      hide Inv, Contents, Lookup, Suspects, Home, Tag;
      ghost var t := View();
      var y, tag := Home(Placing(hash)(key)), Tag(Placing(hash)(key));
      FoundIsStored(Placing(hash), t, key);
      v := Lookup(bucket[y], tag, key, false);
      if v != NONE {
        return v;
      }
      v := Lookup(bucket[Next(y)], tag, key, true);
      if v != NONE {
        return v;
      }
      if Suspects(Segment(bucket, stash), y, tag) {
        v := StashGet(y % 2, tag, key);
        return v;
      }
      return NONE;
    }

    // Splitting: this is the new table, org the one that is split

    /**
     The state while the buckets and the fixed stash are copied; see Splitting.  gone are the pairs that were met so far
     and move, in the order of the walk.
     */
    ghost predicate Copying(org: Table, n: nat, masks: seq<set<nat>>, gone: seq<Pair>, before: multiset<Pair>)
      reads this, org
    {
      && org != this && org.hash == hash && Valid() && AllDense(bucket)
      && Splitting(Placing(hash), Moves(hash, n), org.View(), masks, Contents(View()), multiset{}, before)
      && (View(), true) == LongRebuild(Placing(hash), gone)
    }

    /** Whether the pairs met up to now fit into a new table; if not, some home has 255 pairs before the split. */
    ghost predicate Verdict(r: Reply, gone: seq<Pair>, before: multiset<Pair>) {
      r == (if LongRebuild(Placing(hash), gone).1 then Done else Aborted) && (r.Aborted? ==> !FewPerHome(Placing(hash), before))
    }

    /** Adds a pair that moves; the assertion fails only if some home has 255 pairs. */
    method Receive(pair: Pair, keyHash: nat, tag: nat, ghost gone: seq<Pair>, ghost before: multiset<Pair>) returns (r: Reply)
      requires Valid() && AllDense(bucket) && pair.value != NONE && keyHash == Placing(hash)(pair.key) && tag == Tag(keyHash)
      requires (View(), true) == LongRebuild(Placing(hash), gone) && Contents(View()) <= before
      modifies this`bucket, this`stash
      ensures Verdict(r, gone + [pair], before)
      ensures r.Done? ==> Valid() && AllDense(bucket) && Contents(View()) == old(Contents(View())) + multiset{pair}
      ensures r.Done? ==> (View(), true) == LongRebuild(Placing(hash), gone + [pair])
    {
      hide Inv, Contents, Tag, Home, Placing, AddLong, LongRebuild, AllDense, Markable, FewPerHome;
      LongNext(Placing(hash), gone, pair);
      if FewPerHome(Placing(hash), before) {
        FewIsMarkable(Placing(hash), View(), before, Home(keyHash));
      }
      r := Insert4split(pair, keyHash, tag);
    }

    /** Copies cell j of bucket i, whose key moves. */
    method CopyBucketCell(org: Table, n: nat, i: nat, j: nat, ghost masks: seq<set<nat>>, ghost mask: set<nat>,
                          ghost gone: seq<Pair>, ghost before: multiset<Pair>)
        returns (r: Reply)
      requires i == |masks| < BUCKETS && j < PAIRS && j !in mask
      requires Copying(org, n, masks + [mask], gone, before) && Chained(org.View())
      requires org.bucket[i].cells[j].Held? && Moves(hash, n)(org.bucket[i].cells[j].pair.key)
      modifies this`bucket, this`stash
      ensures Verdict(r, gone + [org.bucket[i].cells[j].pair], before)
      ensures r.Done? ==> Copying(org, n, masks + [mask + {j}], gone + [org.bucket[i].cells[j].pair], before)
    {
      hide Inv, Contents, Cleared, Tag, Home, Splitting, Moves, Verdict, LongRebuild, AllDense;
      ghost var moves := Moves(hash, n);
      var c := org.bucket[i].cells[j];
      HeldIsPlaced(Placing(hash), moves, org.View(), masks + [mask], i, j, Contents(View()), multiset{}, before);
      SplittingHolds(Placing(hash), moves, org.View(), masks + [mask], Contents(View()), before);
      ghost var was := Contents(View());
      r := Receive(c.pair, Word(hash(c.pair.key)), c.tag, gone, before);
      if r.Done? {
        MoveFromBucket(Placing(hash), moves, org.View(), masks, mask, j, was, multiset{}, Contents(View()), multiset{}, before);
      }
    }

    /** Copies what moves out of bucket i, which is bucket number |masks|. */
    method CopyBucket(org: Table, n: nat, i: nat, ghost masks: seq<set<nat>>, ghost gone: seq<Pair>, ghost before: multiset<Pair>)
        returns (r: Reply, mask: set<nat>)
      requires i == |masks| < BUCKETS && Copying(org, n, masks, gone, before) && Chained(org.View())
      modifies this`bucket, this`stash
      ensures Verdict(r, gone + MovedIn(Moves(hash, n), org.bucket[i].cells), before)
      ensures r.Done? ==> Copying(org, n, masks + [mask], gone + MovedIn(Moves(hash, n), org.bucket[i].cells), before)
      ensures r.Done? ==> Visited(Moves(hash, n), org.View(), i, mask, PAIRS)
    {
      hide Inv, Contents, Cleared, Splitting, Pow2, LongRebuild, MovedIn, AllDense, Moves, Placing;
      ghost var moves, cells := Moves(hash, n), org.bucket[i].cells;
      mask := {};
      SplittingPad(Placing(hash), moves, org.View(), masks, Contents(View()), multiset{}, before);
      NoneMoved(moves, cells, gone);
      for j := 0 to PAIRS
        invariant Copying(org, n, masks + [mask], gone + MovedIn(moves, cells[..j]), before)
        invariant Visited(moves, org.View(), i, mask, j)
      {
        var c := org.bucket[i].cells[j];
        MovedNext(moves, cells, j, gone);
        MovesTest(hash, n, c);
        if c.Held? && hash(c.pair.key) % (2 * Pow2(n)) >= Pow2(n) {
          r := CopyBucketCell(org, n, i, j, masks, mask, gone + MovedIn(moves, cells[..j]), before);
          if r.Aborted? {
            StopsBucket(Placing(hash), moves, cells, j + 1, gone);
            return;
          }
          mask := mask + {j};
        }
      }
      assert cells[..PAIRS] == cells;
      r := Done;
    }

    /** Copies cell j of fixed stash bucket s, whose key moves, and takes back its mark. */
    method CopyStashCell(org: Table, n: nat, s: nat, j: nat, ghost masks: seq<set<nat>>, ghost mask: set<nat>,
                         ghost gone: seq<Pair>, ghost before: multiset<Pair>)
        returns (r: Reply)
      requires BUCKETS + s == |masks| && s < STASHES && j < PAIRS && j !in mask
      requires Copying(org, n, masks + [mask], gone, before) && Chained(org.View())
      requires org.stash[s].cells[j].Held? && Moves(hash, n)(org.stash[s].cells[j].pair.key)
      modifies this`bucket, this`stash, org`bucket
      ensures Verdict(r, gone + [org.stash[s].cells[j].pair], before)
      ensures r.Done? ==> Copying(org, n, masks + [mask + {j}], gone + [org.stash[s].cells[j].pair], before)
      ensures r.Done? ==> Chained(org.View()) && forall y :: 0 <= y < BUCKETS ==> org.bucket[y].cells == old(org.bucket)[y].cells
    {
      hide Inv, Contents, Cleared, Tag, Home, UnsetMark, Splitting, AllDense, Moves, Verdict, LongRebuild;
      ghost var moves := Moves(hash, n);
      var c := org.stash[s].cells[j];
      var keyHash := Word(hash(c.pair.key));
      HeldIsPlaced(Placing(hash), moves, org.View(), masks + [mask], BUCKETS + s, j, Contents(View()), multiset{}, before);
      SplittingHolds(Placing(hash), moves, org.View(), masks + [mask], Contents(View()), before);
      ghost var was := Contents(View());
      r := Receive(c.pair, keyHash, c.tag, gone, before);
      if r.Done? {
        MoveFromStash(Placing(hash), moves, org.View(), masks, mask, j, WIDTH, was, multiset{}, Contents(View()), multiset{}, before);
        UnsetMarkCells(org.bucket, Home(keyHash), c.tag, s, WIDTH);
        org.bucket := UnsetMark(org.bucket, Home(keyHash), c.tag, s, WIDTH);
      }
    }

    /** Copies what moves out of fixed stash bucket s and takes back its marks. */
    method CopyStash(org: Table, n: nat, s: nat, ghost masks: seq<set<nat>>, ghost gone: seq<Pair>, ghost before: multiset<Pair>)
        returns (r: Reply, mask: set<nat>)
      requires BUCKETS + s == |masks| && s < STASHES && Copying(org, n, masks, gone, before) && Chained(org.View())
      modifies this`bucket, this`stash, org`bucket
      ensures Verdict(r, gone + MovedIn(Moves(hash, n), org.stash[s].cells), before)
      ensures r.Done? ==> Copying(org, n, masks + [mask], gone + MovedIn(Moves(hash, n), org.stash[s].cells), before)
      ensures r.Done? ==> Chained(org.View()) && Visited(Moves(hash, n), org.View(), BUCKETS + s, mask, PAIRS)
      ensures r.Done? ==> forall y :: 0 <= y < BUCKETS ==> org.bucket[y].cells == old(org.bucket)[y].cells
    {
      hide Inv, Contents, Cleared, Splitting, AllDense, Pow2, LongRebuild, MovedIn, Moves, Placing;
      ghost var moves, cells := Moves(hash, n), org.stash[s].cells;
      mask := {};
      SplittingPad(Placing(hash), moves, org.View(), masks, Contents(View()), multiset{}, before);
      NoneMoved(moves, cells, gone);
      for j := 0 to PAIRS
        invariant Copying(org, n, masks + [mask], gone + MovedIn(moves, cells[..j]), before) && Chained(org.View())
        invariant Visited(moves, org.View(), BUCKETS + s, mask, j)
        invariant forall y :: 0 <= y < BUCKETS ==> org.bucket[y].cells == old(org.bucket)[y].cells
      {
        var c := org.stash[s].cells[j];
        MovedNext(moves, cells, j, gone);
        MovesTest(hash, n, c);
        if c.Held? && hash(c.pair.key) % (2 * Pow2(n)) >= Pow2(n) {
          r := CopyStashCell(org, n, s, j, masks, mask, gone + MovedIn(moves, cells[..j]), before);
          if r.Aborted? {
            StopsBucket(Placing(hash), moves, cells, j + 1, gone);
            return;
          }
          mask := mask + {j};
        }
      }
      assert cells[..PAIRS] == cells;
      r := Done;
    }

    /** The state while the chain is drained: outside it nothing that moves is left. */
    ghost predicate Draining(org: Table, n: nat, gone: seq<Pair>, before: multiset<Pair>)
      reads this, org
    {
      && org != this && org.hash == hash && Valid() && AllDense(bucket) && org.Valid()
      && Contents(org.View()) + Contents(View()) == before
      && (forall p :: p in Contents(View()) ==> Moves(hash, n)(p.key))
      && (forall p :: p in Front(org.View()) ==> !Moves(hash, n)(p.key))
      && (View(), true) == LongRebuild(Placing(hash), gone)
    }

    /** unset_indicator and unset_hash for cell i of overflow bucket c. */
    method Unlink(c: nat, i: nat)
      requires Valid() && STASHES <= c < |stash| && i < PAIRS && stash[c].cells[i].Held?
      modifies this`bucket, this`stash
      ensures Valid() && stash == old(stash)[c := Place(old(stash)[c], i, Free)]
      ensures old(Contents(View())) == Contents(View()) + multiset{old(stash)[c].cells[i].pair}
      ensures Front(View()) == Front(old(View())) && FullStays(old(View()), View())
    {
      hide Inv, Contents, Home, Tag, UnsetMark;
      var cell := stash[c].cells[i];
      var keyHash := Placing(hash)(cell.pair.key);
      StashClearKeeps(Placing(hash), View(), c, i, WIDTH);
      StashTag(Placing(hash), View(), c, i);
      UnsetMarkCells(bucket, Home(keyHash), cell.tag, CHAIN, WIDTH);
      ghost var was := View();
      bucket := UnsetMark(bucket, Home(keyHash), cell.tag, CHAIN, WIDTH);
      stash := stash[c := Place(stash[c], i, Free)];
      assert stash[..STASHES] == was.stash[..STASHES];
      FrontSame(was, View());
    }

    /** A cell of the chain whose key moves goes to the new table. */
    method SendOn(org: Table, n: nat, c: nat, i: nat, ghost gone: seq<Pair>, ghost before: multiset<Pair>) returns (r: Reply)
      requires Draining(org, n, gone, before) && STASHES <= c < |org.stash| && i < PAIRS && org.stash[c].cells[i].Held?
      requires Moves(hash, n)(org.stash[c].cells[i].pair.key)
      modifies this`bucket, this`stash, org`bucket, org`stash
      ensures Verdict(r, gone + [old(org.stash)[c].cells[i].pair], before)
      ensures r.Done? ==> Draining(org, n, gone + [old(org.stash)[c].cells[i].pair], before)
      ensures r.Done? ==> CellDrained(hash, n, old(org.View()), org.View(), c, i)
    {
      hide Inv, Contents, Front, Home, Tag, AllDense, Moves, Verdict, LongRebuild, FullStays;
      var cell := org.stash[c].cells[i];
      StashTag(Placing(hash), org.View(), c, i);
      ghost var was, mine := Contents(View()), Contents(org.View());
      r := Receive(cell.pair, Word(hash(cell.pair.key)), cell.tag, gone, before);
      if r.Done? {
        org.Unlink(c, i);
        TakeFromBefore(mine, Contents(org.View()), was, cell.pair);
      }
    }

    /** A cell of the chain whose key stays goes back to the front, unless there is no room. */
    method GiveBack(org: Table, n: nat, c: nat, i: nat, ghost gone: seq<Pair>, ghost before: multiset<Pair>) returns (r: Reply)
      requires Draining(org, n, gone, before) && STASHES <= c < |org.stash| && i < PAIRS && org.stash[c].cells[i].Held?
      requires !Moves(hash, n)(org.stash[c].cells[i].pair.key)
      modifies org`bucket, org`stash
      ensures r.Aborted? ==> !FewPerHome(Placing(hash), before)
      ensures r.Done? ==> Draining(org, n, gone, before) && org.stash[STASHES..] == old(org.stash)[c := Place(old(org.stash)[c], i, Free)][STASHES..]
      ensures r.Done? ==> |org.stash| == |old(org.stash)| && FullStays(old(org.View()), org.View())
      ensures r.NoRoom? <==> Crammed(old(org.View()), Home(Placing(hash)(old(org.stash)[c].cells[i].pair.key)))
      ensures r.NoRoom? ==> org.View() == old(org.View())
    {
      hide Inv, Contents, Front, Home, Tag, AllDense, Moves, LongRebuild, Full, Markable, FewPerHome, FullStays, Crammed;
      var cell := org.stash[c].cells[i];
      StashTag(Placing(hash), org.View(), c, i);
      ghost var was := org.View();
      if FewPerHome(Placing(hash), before) {
        FewIsMarkable(Placing(hash), org.View(), before, Home(Word(hash(cell.pair.key))));
      }
      r := org.Insert2Org(cell.pair, Word(hash(cell.pair.key)));
      if r.Done? {
        FrontAdds(was, org.View(), cell.pair);
        TailIndex(org.stash, was.stash, STASHES);
        ghost var mid := org.View();
        org.Unlink(c, i);
        FullChain(was, mid, org.View());
        CancelAll(Contents(org.View()), Contents(was), multiset{cell.pair});
      }
    }

    /** The same for the walk: a cell that cannot be given back has settled. */
    method TakeBack(org: Table, n: nat, c: nat, i: nat, ghost gone: seq<Pair>, ghost before: multiset<Pair>) returns (r: Reply)
      requires Draining(org, n, gone, before) && STASHES <= c < |org.stash| && i < PAIRS && org.stash[c].cells[i].Held?
      requires !Moves(hash, n)(org.stash[c].cells[i].pair.key)
      modifies org`bucket, org`stash
      ensures !r.NoRoom? && (r.Aborted? ==> !FewPerHome(Placing(hash), before))
      ensures r.Done? ==> Draining(org, n, gone, before) && CellDrained(hash, n, old(org.View()), org.View(), c, i)
    {
      hide Inv, Contents, Front, Home, Tag, AllDense, Moves, LongRebuild, Crammed, FewPerHome, FullStays, Placing;
      FullSame(org.View());
      ghost var was := org.View();
      r := GiveBack(org, n, c, i, gone, before);
      if r.Done? {
        TailIndex(org.stash, was.stash[c := Place(was.stash[c], i, Free)], STASHES);
      } else if r.NoRoom? {
        return Done;
      }
    }

    /** One cell of the chain: to the new table, or back to the front, or, where there is no room, left where it is. */
    method DrainCell(org: Table, n: nat, c: nat, i: nat, ghost gone: seq<Pair>, ghost before: multiset<Pair>) returns (r: Reply)
      requires Draining(org, n, gone, before) && STASHES <= c < |org.stash| && i < PAIRS && org.stash[c].cells[i].Held?
      modifies this`bucket, this`stash, org`bucket, org`stash
      ensures !r.NoRoom? && (r.Aborted? ==> !FewPerHome(Placing(hash), before))
      ensures r.Done? ==>
        var p := old(org.stash)[c].cells[i].pair;
        Draining(org, n, if Moves(hash, n)(p.key) then gone + [p] else gone, before)
      ensures r.Done? ==> CellDrained(hash, n, old(org.View()), org.View(), c, i)
    {
      var keyHash := hash(org.stash[c].cells[i].pair.key);
      assert Moves(hash, n)(org.stash[c].cells[i].pair.key) <==> keyHash % (2 * Pow2(n)) >= Pow2(n);
      hide Moves, Pow2, LongRebuild, Crammed, CellDrained, Home, Placing, Inv, AllDense, FewPerHome, Contents, Front;
      if keyHash % (2 * Pow2(n)) >= Pow2(n) {
        r := SendOn(org, n, c, i, gone, before);
      } else {
        r := TakeBack(org, n, c, i, gone, before);
      }
    }

    /** One overflow bucket of the chain. */
    method DrainBucket(org: Table, n: nat, c: nat, ghost gone: seq<Pair>, ghost before: multiset<Pair>) returns (r: Reply)
      requires Draining(org, n, gone, before) && STASHES <= c < |org.stash|
      modifies this`bucket, this`stash, org`bucket, org`stash
      ensures !r.NoRoom? && (r.Aborted? ==> !FewPerHome(Placing(hash), before))
      ensures r.Done? ==> Draining(org, n, gone + MovedIn(Moves(hash, n), old(org.stash)[c].cells), before)
      ensures r.Done? ==> |org.stash| == |old(org.stash)| && FullStays(old(org.View()), org.View())
      ensures r.Done? ==> forall k :: STASHES <= k < |org.stash| && k != c ==> org.stash[k] == old(org.stash)[k]
      ensures r.Done? ==> Drained(hash, n, org.View(), org.stash[c], PAIRS)
    {
      hide Inv, Contents, Front, AllDense, Moves, LongRebuild, FullStays, Drained, MovedIn, Settled, FewPerHome;
      hide CellDrained, PartDrained;
      r := Done;
      ghost var t, moves, cells := org.View(), Moves(hash, n), org.stash[c].cells;
      NoneMoved(moves, cells, gone);
      PartNone(hash, n, t, c);
      for i := 0 to PAIRS
        invariant r.Done? && Draining(org, n, gone + MovedIn(moves, cells[..i]), before)
        invariant PartDrained(hash, n, t, org.View(), c, i)
      {
        PartNow(hash, n, t, org.View(), c, i);
        MovedNext(moves, cells, i, gone);
        ghost var u := org.View();
        if org.stash[c].cells[i].Held? {
          r := DrainCell(org, n, c, i, gone + MovedIn(moves, cells[..i]), before);
          if r.Aborted? {
            return;
          }
        } else {
          FreeDrained(hash, n, u, c, i);
        }
        PartNext(hash, n, t, u, org.View(), c, i);
      }
      PartAll(hash, n, t, org.View(), c);
      assert cells[..PAIRS] == cells;
    }

    /** Unlinks an empty overflow bucket. */
    method Shorten(c: nat)
      requires Valid() && STASHES <= c < |stash| && Count(stash[c].cells) == 0
      modifies this`stash
      ensures Valid() && View() == Shortened(old(View()), c)
      ensures Contents(View()) == old(Contents(View())) && Front(View()) == Front(old(View()))
    {
      hide Inv, Contents, Front;
      ShortenedKeeps(Placing(hash), View(), c);
      FrontSame(View(), Shortened(View(), c));
      stash := stash[..c] + stash[c + 1..];
    }

    /** One step of the walk along the chain: an overflow bucket that has become empty is unlinked. */
    method DrainStep(org: Table, n: nat, c: nat, ghost chain: seq<Bucket>, ghost d: nat, ghost gone: seq<Pair>, ghost before: multiset<Pair>)
        returns (r: Reply, c': nat)
      requires STASHES <= c < |org.stash| && d < |chain| && org.stash[c..] == chain[d..]
      requires Draining(org, n, gone + MovedFrom(Moves(hash, n), chain[..d]), before) && AllSettled(hash, n, org.View(), c)
      modifies this`bucket, this`stash, org`bucket, org`stash
      ensures !r.NoRoom? && (r.Aborted? ==> !FewPerHome(Placing(hash), before))
      ensures r.Done? ==> STASHES <= c' <= |org.stash| && |org.stash| - c' == |old(org.stash)| - c - 1
      ensures r.Done? ==> org.stash[c'..] == chain[d + 1..]
      ensures r.Done? ==> Draining(org, n, gone + MovedFrom(Moves(hash, n), chain[..d + 1]), before)
      ensures r.Done? ==> AllSettled(hash, n, org.View(), c')
    {
      hide Inv, Contents, Front, AllDense, Moves, LongRebuild, FullStays, Drained, MovedIn, MovedFrom, FewPerHome, AllSettled;
      ghost var moves, u := Moves(hash, n), org.View();
      ChainNext(moves, org.stash, chain, c, d, gone);
      r := DrainBucket(org, n, c, gone + MovedFrom(moves, chain[..d]), before);
      c' := c;
      if r.Done? {
        TailMore(org.stash, u.stash, chain, c, d);
        SettledStays(hash, n, u, org.View(), c);
        if Count(org.stash[c].cells) == 0 {
          SettledShortened(hash, n, org.View(), c);
          org.Shorten(c);
        } else {
          SettledNext(hash, n, org.View(), c);
          c' := c + 1;
        }
      }
    }

    /** The walk along the chain. */
    method DrainChain(org: Table, n: nat, ghost gone: seq<Pair>, ghost before: multiset<Pair>) returns (r: Reply)
      requires Draining(org, n, gone, before)
      modifies this`bucket, this`stash, org`bucket, org`stash
      ensures !r.NoRoom? && (r.Aborted? ==> !FewPerHome(Placing(hash), before))
      ensures r.Done? ==> Draining(org, n, gone + MovedFrom(Moves(hash, n), old(org.stash)[STASHES..]), before)
      ensures r.Done? ==> AllSettled(hash, n, org.View(), |org.stash|)
    {
      hide Inv, Contents, Front, AllDense, Moves, LongRebuild, FullStays, Drained, MovedIn, MovedFrom, FewPerHome, AllSettled;
      ghost var moves, chain, d := Moves(hash, n), org.stash[STASHES..], 0;
      var c := STASHES;
      NoBucketMoved(moves, chain);
      assert gone + MovedFrom(moves, chain[..0]) == gone;
      NoneSettled(hash, n, org.View());
      while c < |org.stash|
        invariant STASHES <= c <= |org.stash| && d + (|org.stash| - c) == |chain| && org.stash[c..] == chain[d..]
        invariant Draining(org, n, gone + MovedFrom(moves, chain[..d]), before) && AllSettled(hash, n, org.View(), c)
        decreases |org.stash| - c
      {
        r, c := DrainStep(org, n, c, chain, d, gone, before);
        if r.Aborted? {
          return;
        }
        d := d + 1;
      }
      assert chain[..d] == chain;
      r := Done;
    }

    /** The pairs that the split at level n moves, in the order in which it meets them. */
    ghost function Leaving(n: nat): seq<Pair>
      reads this
    {
      MovedFrom(Moves(hash, n), bucket + stash)
    }

    /** Walks over buckets and fixed stash; masks says what has been copied. */
    method CopyAll(org: Table, n: nat, ghost before: multiset<Pair>) returns (r: Reply, masks: seq<set<nat>>)
      requires Copying(org, n, [], [], before) && Chained(org.View())
      modifies this`bucket, this`stash, org`bucket
      ensures Verdict(r, MovedFrom(Moves(hash, n), old(org.bucket + org.stash)[..BUCKETS + STASHES]), before)
      ensures r.Done? ==> |masks| == BUCKETS + STASHES && Chained(org.View())
      ensures r.Done? ==>
        Copying(org, n, masks, MovedFrom(Moves(hash, n), old(org.bucket + org.stash)[..BUCKETS + STASHES]), before)
      ensures r.Done? ==> forall k :: 0 <= k < BUCKETS + STASHES ==> Visited(Moves(hash, n), org.View(), k, masks[k], PAIRS)
    {
      hide Inv, Contents, Cleared, Moves, Visited, Splitting, AllDense, Pow2, LongRebuild, MovedFrom, MovedIn, FewPerHome;
      ghost var moves, walk := Moves(hash, n), org.bucket + org.stash;
      masks := [];
      NoBucketMoved(moves, walk);
      for i := 0 to BUCKETS
        invariant |masks| == i && org.View() == old(org.View())
        invariant Copying(org, n, masks, MovedFrom(moves, walk[..i]), before)
        invariant forall k :: 0 <= k < i ==> Visited(moves, org.View(), k, masks[k], PAIRS)
      {
        MovedNextBucket(moves, walk, i);
        var mask;
        r, mask := CopyBucket(org, n, i, masks, MovedFrom(moves, walk[..i]), before);
        if r.Aborted? {
          assert walk[..BUCKETS + STASHES][..i + 1] == walk[..i + 1];
          StopsWalk(Placing(hash), moves, walk[..BUCKETS + STASHES], i + 1);
          return;
        }
        masks := masks + [mask];
      }
      for s := 0 to STASHES
        invariant |masks| == BUCKETS + s && org.stash == old(org.stash) && Chained(org.View())
        invariant Copying(org, n, masks, MovedFrom(moves, walk[..BUCKETS + s]), before)
        invariant forall k :: 0 <= k < BUCKETS + s ==> Visited(moves, org.View(), k, masks[k], PAIRS)
      {
        MovedNextBucket(moves, walk, BUCKETS + s);
        ghost var was := org.View();
        var mask;
        r, mask := CopyStash(org, n, s, masks, MovedFrom(moves, walk[..BUCKETS + s]), before);
        if r.Aborted? {
          assert walk[..BUCKETS + STASHES][..BUCKETS + s + 1] == walk[..BUCKETS + s + 1];
          StopsWalk(Placing(hash), moves, walk[..BUCKETS + STASHES], BUCKETS + s + 1);
          return;
        }
        masks := masks + [mask];
        forall k | 0 <= k < BUCKETS + s
          ensures Visited(moves, org.View(), k, masks[k], PAIRS)
        {
          VisitedCells(moves, was, org.View(), k, masks[k]);
        }
      }
      r := Done;
    }

    /**
     Split: no pair of org is lost or duplicated; this table ends with exactly the pairs whose hash addresses the table
     one doubling further on, placed as adding them in the order of the walk places them; org keeps the rest, in its
     chain only what found no room in front of it.  While no home has 255 pairs, the counter assertion cannot fail.
     */
    method Split(org: Table, n: nat, ghost orgIdx: nat) returns (r: Reply)
      requires org != this && org.hash == hash && org.Valid() && View() == Empty()
      requires Addressed(hash, Contents(org.View()), n, orgIdx)
      modifies this`bucket, this`stash, org`bucket, org`stash
      ensures !r.NoRoom? && (FewPerHome(Placing(hash), old(Contents(org.View()))) ==> r.Done?)
      ensures r.Done? ==> (View(), true) == LongRebuild(Placing(hash), old(org.Leaving(n)))
      ensures r.Done? ==> Valid() && org.Valid()
      ensures r.Done? ==> Contents(org.View()) + Contents(View()) == old(Contents(org.View()))
      ensures r.Done? ==> Addressed(hash, Contents(org.View()), n + 1, orgIdx)
      ensures r.Done? ==> Addressed(hash, Contents(View()), n + 1, orgIdx + Pow2(n))
      ensures r.Done? ==> AllSettled(hash, n, org.View(), |org.stash|)
    {
      hide Inv, Contents, Cleared, Moves, Visited, Splitting, Front, AllDense, Drained, Addressed, Pow2, LongRebuild, MovedFrom;
      assert |org.bucket| == BUCKETS && |org.stash| >= STASHES;
      hide FewPerHome, Chained;
      ghost var before, moves, walk := Contents(org.View()), Moves(hash, n), org.bucket + org.stash;
      EmptyIsEmpty(Placing(hash));
      SplittingStart(Placing(hash), moves, org.View());
      NothingLong(Placing(hash));
      var masks;
      r, masks := CopyAll(org, n, before);
      if r.Aborted? {
        return;
      }
      SplittingEnd(Placing(hash), moves, org.View(), masks, Contents(View()), multiset{}, before);
      ClearedChain(org.View(), masks);
      org.bucket, org.stash := BulkClear(Segment(org.bucket, org.stash), masks);
      WalkParts(moves, old(org.bucket), old(org.stash));
      r := DrainChain(org, n, MovedFrom(moves, walk[..BUCKETS + STASHES]), before);
      if r.Done? {
        DrainedAddresses(hash, org.View(), Contents(View()), n, orgIdx);
      }
    }
  }

  lemma ChainNext(moves: Key -> bool, stash: seq<Bucket>, chain: seq<Bucket>, c: nat, d: nat, gone: seq<Pair>)
    requires c < |stash| && d < |chain| && stash[c..] == chain[d..]
    ensures gone + MovedFrom(moves, chain[..d + 1]) == gone + MovedFrom(moves, chain[..d]) + MovedIn(moves, stash[c].cells)
  {
    hide MovedIn, MovedFrom;
    MovedNextBucket(moves, chain, d);
    assert stash[c] == stash[c..][0] == chain[d];
  }

  lemma TailMore(now: seq<Bucket>, was: seq<Bucket>, chain: seq<Bucket>, c: nat, d: nat)
    requires c < |was| == |now| && d < |chain| && was[c..] == chain[d..] && forall k :: c < k < |now| ==> now[k] == was[k]
    ensures now[c + 1..] == chain[d + 1..]
  {
    assert chain[d + 1..] == chain[d..][1..] && was[c + 1..] == was[c..][1..];
  }

  lemma TailIndex<T>(a: seq<T>, b: seq<T>, n: nat)
    requires |a| == |b| && n <= |a| && a[n..] == b[n..]
    ensures forall k :: n <= k < |a| ==> a[k] == b[k]
  {
    assert forall k :: n <= k < |a| ==> a[k] == a[n..][k - n] && b[k] == b[n..][k - n];
  }

  /** What a lookup of the buckets returns is stored, and a stored key is in one of the places that are searched. */
  lemma FoundIsStored(h: Hasher, t: Segment, key: Key)
    requires Inv(h, t) && Chained(t)
    ensures var y, tag := Home(h(key)), Tag(h(key));
      && (forall z, probe :: 0 <= z < BUCKETS && Lookup(t.bucket[z], tag, key, probe) != NONE ==>
            Pair(key, Lookup(t.bucket[z], tag, key, probe)) in Contents(t))
      && (forall s :: 0 <= s < |t.stash| && Lookup(t.stash[s], tag, key, false) != NONE ==>
            Pair(key, Lookup(t.stash[s], tag, key, false)) in Contents(t))
      && (forall w :: Pair(key, w) in Contents(t) ==>
            || Lookup(t.bucket[y], tag, key, false) != NONE
            || Lookup(t.bucket[Next(y)], tag, key, true) != NONE
            || (Suspects(t, y, tag) && exists s :: 0 <= s < |t.stash| && Lookup(t.stash[s], tag, key, false) != NONE))
  {
    hide Lookup, Suspects, Inv, Contents;
    var y, tag := Home(h(key)), Tag(h(key));
    forall z, probe | 0 <= z < BUCKETS && Lookup(t.bucket[z], tag, key, probe) != NONE
      ensures Pair(key, Lookup(t.bucket[z], tag, key, probe)) in Contents(t)
    {
      BucketInSegment(t, z);
      LookupSound(t.bucket[z], tag, key, probe);
    }
    forall s | 0 <= s < |t.stash| && Lookup(t.stash[s], tag, key, false) != NONE
      ensures Pair(key, Lookup(t.stash[s], tag, key, false)) in Contents(t)
    {
      BucketInSegment(t, s);
      LookupSound(t.stash[s], tag, key, false);
    }
    forall w | Pair(key, w) in Contents(t)
      ensures || Lookup(t.bucket[y], tag, key, false) != NONE
              || Lookup(t.bucket[Next(y)], tag, key, true) != NONE
              || (Suspects(t, y, tag) && exists s :: 0 <= s < |t.stash| && Lookup(t.stash[s], tag, key, false) != NONE)
    {
      WhereStored(h, t, Pair(key, w));
    }
  }

  lemma SplittingChained(h: Hasher, moves: Key -> bool, t: Segment, masks: seq<set<nat>>, next: multiset<Pair>, before: multiset<Pair>)
    requires Splitting(h, moves, t, masks, next, multiset{}, before)
    ensures Chained(t)
  {
  }

  lemma SplittingHolds(h: Hasher, moves: Key -> bool, t: Segment, masks: seq<set<nat>>, next: multiset<Pair>, before: multiset<Pair>)
    requires Splitting(h, moves, t, masks, next, multiset{}, before)
    ensures next <= before
  {
    hide Inv, Contents, Cleared;
    assert before == Contents(Cleared(t, masks)) + (next + multiset{});
  }

  lemma StashTag(h: Hasher, t: Segment, s: nat, i: nat)
    requires Inv(h, t) && Chained(t) && s < |t.stash| && i < PAIRS && t.stash[s].cells[i].Held?
    ensures var c := t.stash[s].cells[i]; c.tag == Tag(h(c.pair.key)) && c.pair.value != NONE
  {
    assert StashOk(h, t.stash[s]) && t.stash[s].cells[i] in t.stash[s].cells;
  }

  lemma SetMarkCells(bucket: seq<Bucket>, y: nat, tag: nat, pos: nat)
    requires Ring(bucket) && y < BUCKETS
    ensures forall z :: 0 <= z < BUCKETS ==> SetMark(bucket, y, tag, pos)[z].cells == bucket[z].cells
  {
  }

  /** A free cell of home or right neighbour takes a pair. */
  lemma TakesCell(hash: Hasher, t: Segment, y: nat, i: nat, c: Cell)
    requires Inv(Placing(hash), t) && Chained(t) && y < BUCKETS && i < PAIRS && t.bucket[y].cells[i].Free?
    requires c.Held? && CellOk(Placing(hash), y, c)
    ensures var u := PlaceAt(t, y, i, c);
      Inv(Placing(hash), u) && Chained(u) && Contents(u) == Contents(t) + multiset{c.pair}
    ensures AllDense(t.bucket) && i == FirstFree(t.bucket[y].cells) ==> AllDense(PlaceAt(t, y, i, c).bucket)
  {
    PlaceFree(Placing(hash), t, y, i, c);
  }
}
