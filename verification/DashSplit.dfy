/**
 Splitting copies pairs out of a segment first and clears their allocation bits in bulk at the end.
 The lemmas here compare that with clearing each pair as soon as it is copied.
 */
module DashSplit {
  import opened Bags
  import opened DashMarks
  import opened DashSegment
  import opened DashUpdates

  /** The bulk clear of one bucket: bitmap & ~(mask << 18) & ~(mask << 4), and the count with it. */
  function Keep(b: Bucket, mask: set<nat>): (r: Bucket)
    ensures |r.cells| == |b.cells| && r.marks == b.marks
  {
    b.(cells := seq(|b.cells|, j requires 0 <= j < |b.cells| => if j in mask then Free else b.cells[j]))
  }

  /** The mask recorded for bucket i so far; stash bucket s has number BUCKETS + s. */
  function MaskOf(masks: seq<set<nat>>, i: nat): set<nat> {
    if i < |masks| then masks[i] else {}
  }

  /** What the segment would be if everything recorded in the masks were cleared now. */
  ghost function Cleared(t: Segment, masks: seq<set<nat>>): Segment {
    Segment(
      seq(|t.bucket|, i requires 0 <= i < |t.bucket| => Keep(t.bucket[i], MaskOf(masks, i))),
      seq(|t.stash|, s requires 0 <= s < |t.stash| => Keep(t.stash[s], MaskOf(masks, BUCKETS + s))))
  }

  lemma KeepOneMore(b: Bucket, mask: set<nat>, j: nat)
    requires j < |b.cells|
    ensures Keep(b, mask + {j}) == Place(Keep(b, mask), j, Free)
  {
    assert Keep(b, mask + {j}).cells == Place(Keep(b, mask), j, Free).cells;
  }

  lemma KeepNothing(b: Bucket)
    ensures Keep(b, {}) == b
  {
    assert Keep(b, {}).cells == b.cells;
  }

  lemma ClearBucketCell(t: Segment, masks: seq<set<nat>>, mask: set<nat>, j: nat)
    requires Chained(t) && |masks| < BUCKETS && j < PAIRS
    ensures Cleared(t, masks + [mask + {j}]) == PlaceAt(Cleared(t, masks + [mask]), |masks|, j, Free)
  {
    var i := |masks|;
    KeepOneMore(t.bucket[i], mask, j);
    assert Cleared(t, masks + [mask + {j}]).bucket == PlaceAt(Cleared(t, masks + [mask]), i, j, Free).bucket;
    assert Cleared(t, masks + [mask + {j}]).stash == Cleared(t, masks + [mask]).stash;
  }

  lemma ClearStashCell(t: Segment, masks: seq<set<nat>>, mask: set<nat>, j: nat)
    requires Chained(t) && BUCKETS <= |masks| < BUCKETS + STASHES && j < PAIRS
    ensures Cleared(t, masks + [mask + {j}]) == StashAt(Cleared(t, masks + [mask]), |masks| - BUCKETS, j, Free)
  {
    var s := |masks| - BUCKETS;
    KeepOneMore(t.stash[s], mask, j);
    assert Cleared(t, masks + [mask + {j}]).stash == StashAt(Cleared(t, masks + [mask]), s, j, Free).stash;
    assert Cleared(t, masks + [mask + {j}]).bucket == Cleared(t, masks + [mask]).bucket;
  }

  /** Marks and cells do not interfere: unsetting a mark commutes with clearing. */
  lemma ClearedMarks(t: Segment, masks: seq<set<nat>>, y: nat, tag: nat, pos: nat, width: nat)
    requires Chained(t) && y < BUCKETS && width > 0
    ensures Ring(Cleared(t, masks).bucket)
    ensures Cleared(t.(bucket := UnsetMark(t.bucket, y, tag, pos, width)), masks) ==
            Cleared(t, masks).(bucket := UnsetMark(Cleared(t, masks).bucket, y, tag, pos, width))
  {
    var v := t.(bucket := UnsetMark(t.bucket, y, tag, pos, width));
    var c := Cleared(t, masks);
    assert Cleared(v, masks).stash == c.stash;
    var r := UnsetMark(c.bucket, y, tag, pos, width);
    forall i | 0 <= i < BUCKETS
      ensures Cleared(v, masks).bucket[i] == r[i]
    {
      var b, n := t.bucket[y], t.bucket[Next(y)];
      assert Keep(UnsetIn(b, n, tag, pos, width).0, MaskOf(masks, y)) ==
             UnsetIn(Keep(b, MaskOf(masks, y)), Keep(n, MaskOf(masks, Next(y))), tag, pos, width).0;
      assert Keep(UnsetIn(b, n, tag, pos, width).1, MaskOf(masks, Next(y))) ==
             UnsetIn(Keep(b, MaskOf(masks, y)), Keep(n, MaskOf(masks, Next(y))), tag, pos, width).1;
    }
    assert Cleared(v, masks).bucket == r;
  }

  lemma ClearedNone(t: Segment, masks: seq<set<nat>>)
    requires forall i :: 0 <= i < |masks| ==> masks[i] == {}
    ensures Cleared(t, masks) == t
  {
    forall b: Bucket ensures Keep(b, {}) == b { KeepNothing(b); }
    assert Cleared(t, masks).bucket == t.bucket;
    assert Cleared(t, masks).stash == t.stash;
  }

  /** Starting the next mask changes nothing yet. */
  lemma ClearedPad(t: Segment, masks: seq<set<nat>>)
    ensures Cleared(t, masks + [{}]) == Cleared(t, masks)
  {
    assert forall i: nat :: MaskOf(masks + [{}], i) == MaskOf(masks, i);
  }

  /** The bulk clear that ends a split: every recorded allocation bit goes, the chain stays. */
  method BulkClear(t: Segment, masks: seq<set<nat>>) returns (bucket: seq<Bucket>, stash: seq<Bucket>)
    requires Chained(t) && |masks| == BUCKETS + STASHES
    ensures Segment(bucket, stash) == Cleared(t, masks)
  {
    bucket, stash := t.bucket, t.stash;
    for i := 0 to BUCKETS
      invariant |bucket| == BUCKETS
      invariant forall k :: 0 <= k < BUCKETS ==> bucket[k] == if k < i then Keep(t.bucket[k], masks[k]) else t.bucket[k]
    {
      bucket := bucket[i := Keep(bucket[i], masks[i])];
    }
    for s := 0 to STASHES
      invariant |stash| == |t.stash|
      invariant forall k :: 0 <= k < |stash| ==>
        stash[k] == if k < s then Keep(t.stash[k], masks[BUCKETS + k]) else t.stash[k]
    {
      stash := stash[s := Keep(stash[s], masks[BUCKETS + s])];
    }
    forall k | STASHES <= k < |stash|
      ensures stash[k] == Keep(t.stash[k], {})
    {
      KeepNothing(t.stash[k]);
    }
    assert bucket == Cleared(t, masks).bucket && stash == Cleared(t, masks).stash;
  }

  // Dense buckets

  /** The allocated cells form a prefix, so the allocation count is the index of the first free cell. */
  ghost predicate Dense(b: Bucket) {
    forall i, j :: 0 <= i < j < |b.cells| && b.cells[j].Held? ==> b.cells[i].Held?
  }

  ghost predicate AllDense(bucket: seq<Bucket>) {
    forall y :: 0 <= y < |bucket| ==> Dense(bucket[y])
  }

  lemma {:induction false} DenseCount(cells: seq<Cell>)
    requires forall i, j :: 0 <= i < j < |cells| && cells[j].Held? ==> cells[i].Held?
    ensures Count(cells) == FirstFree(cells)
  {
    if cells != [] {
      var n := |cells| - 1;
      DenseCount(cells[..n]);
      assert forall i :: 0 <= i < n ==> cells[..n][i] == cells[i];
      var k := FirstFree(cells[..n]);
      if k < n {
        assert !cells[n].Held?;
        assert cells[k].Free?;
      }
    }
  }

  /** Every way of adding a pair fills the first free cell or swaps a filled one, so prefixes stay prefixes. */
  lemma SeatDense(t: Segment, y: nat, tag: nat, pair: Pair)
    requires Chained(t) && y < BUCKETS && AllDense(t.bucket)
    ensures AllDense(Seat(t, y, tag, pair).0.bucket)
  {
    var b, n := t.bucket[y], t.bucket[Next(y)];
    RoomMeansFree(b.cells);
    RoomMeansFree(n.cells);
    if Full(b) && Full(n) {
      NextDisplaceDense(t, y, tag, pair);
      PrevDisplaceDense(t, y, tag, pair);
    }
  }

  lemma AddKeepsDense(t: Segment, y: nat, tag: nat, pair: Pair)
    requires WellShaped(t) && y < BUCKETS && AllDense(t.bucket)
    ensures AllDense(Add(t, y, tag, pair).0.bucket)
  {
    hide Seat, StashInsert;
    SeatDense(t, y, tag, pair);
    StashInsertDense(t, y, tag, pair);
  }

  lemma NextDisplaceDense(t: Segment, y: nat, tag: nat, pair: Pair)
    requires Chained(t) && y < BUCKETS && AllDense(t.bucket) && Full(t.bucket[Next(y)])
    ensures AllDense(NextDisplace(t, y, tag, pair).0.bucket)
  {
    RoomMeansFree(t.bucket[Next(y)].cells);
  }

  lemma PrevDisplaceDense(t: Segment, y: nat, tag: nat, pair: Pair)
    requires Chained(t) && y < BUCKETS && AllDense(t.bucket)
    ensures AllDense(PrevDisplace(t, y, tag, pair).0.bucket)
  {
  }

  lemma StashInsertDense(t: Segment, y: nat, tag: nat, pair: Pair)
    requires WellShaped(t) && y < BUCKETS && AllDense(t.bucket)
    ensures AllDense(StashInsert(t, y, tag, pair).0.bucket)
  {
    var r := StashInsert(t, y, tag, pair).0.bucket;
    forall z | 0 <= z < BUCKETS
      ensures r[z].cells == t.bucket[z].cells
    {
    }
  }

  /** An empty segment, as allocation with zeroed buckets leaves it. */
  function Empty(): (t: Segment)
    ensures WellShaped(t)
  {
    var b := Bucket(seq(PAIRS, _ => Free), seq(MARKS, _ => Blank), false, 0);
    Segment(seq(BUCKETS, _ => b), seq(STASHES, _ => b))
  }

  lemma {:induction false} NothingStashed(h: Hasher, stash: seq<Bucket>, y: nat)
    requires forall s, i :: 0 <= s < |stash| && 0 <= i < |stash[s].cells| ==> stash[s].cells[i].Free?
    ensures Stashed(h, stash, y) == multiset{}
  {
    if stash != [] {
      var s := |stash| - 1;
      NothingStashed(h, stash[..s], y);
      SumEmpty(stash[s].cells, StashedIn(h, y, Position(s)));
    }
  }

  lemma BlankBucket(b: Bucket)
    requires forall i :: 0 <= i < |b.cells| ==> b.cells[i].Free?
    requires forall k :: 0 <= k < |b.marks| ==> b.marks[k].Blank?
    ensures BucketPairs(b) == multiset{} && Own(b) == multiset{} && Lent(b) == multiset{}
  {
    SumEmpty(b.cells, CellPairs);
    SumEmpty(b.marks, OwnMark);
    SumEmpty(b.marks, MemberMark);
  }

  lemma EmptyPromise(h: Hasher, y: nat)
    requires y < BUCKETS
    ensures Promise(Empty().bucket, y, Stashed(h, Empty().stash, y))
  {
    hide Stashed;
    NothingStashed(h, Empty().stash, y);
    BlankBucket(Empty().bucket[y]);
    BlankBucket(Empty().bucket[Next(y)]);
  }

  lemma EmptyIsEmpty(h: Hasher)
    ensures Inv(h, Empty()) && Contents(Empty()) == multiset{} && AllDense(Empty().bucket)
  {
    hide Stashed, Promise;
    var t := Empty();
    BlankBucket(t.bucket[0]);
    SumEmpty(t.bucket, BucketPairs);
    SumEmpty(t.stash, BucketPairs);
    forall y | 0 <= y < BUCKETS
      ensures Promise(t.bucket, y, Stashed(h, t.stash, y))
    {
      EmptyPromise(h, y);
    }
  }

  // The state of a split in progress

  /**
   Between the segment with everything recorded so far cleared, the new table and the pairs it could not take,
   every original pair is in exactly one place, and only pairs that move have left.
   */
  ghost predicate Splitting(h: Hasher, moves: Key -> bool, t: Segment, masks: seq<set<nat>>,
                            next: multiset<Pair>, lost: multiset<Pair>, before: multiset<Pair>)
  {
    && Chained(t) && Inv(h, Cleared(t, masks)) && Chained(Cleared(t, masks))
    && Contents(Cleared(t, masks)) + (next + lost) == before
    && (forall p :: p in next + lost ==> moves(p.key))
  }

  lemma SplittingStart(h: Hasher, moves: Key -> bool, t: Segment)
    requires Inv(h, t)
    ensures Splitting(h, moves, t, [], multiset{}, multiset{}, Contents(t))
  {
    ClearedNone(t, []);
    PlacedIsChained(h, t);
  }

  lemma SplittingPad(h: Hasher, moves: Key -> bool, t: Segment, masks: seq<set<nat>>,
                     next: multiset<Pair>, lost: multiset<Pair>, before: multiset<Pair>)
    requires Splitting(h, moves, t, masks, next, lost, before)
    ensures Splitting(h, moves, t, masks + [{}], next, lost, before)
    ensures Cleared(t, masks + [{}]) == Cleared(t, masks)
  {
    ClearedPad(t, masks);
  }

  function CellAt(t: Segment, i: nat, j: nat): Cell
    requires Chained(t) && i < BUCKETS + STASHES && j < PAIRS
  {
    if i < BUCKETS then t.bucket[i].cells[j] else t.stash[i - BUCKETS].cells[j]
  }

  /** The first n cells of bucket i that hold a pair that moves are all in the mask, and nothing later is. */
  ghost predicate Visited(moves: Key -> bool, t: Segment, i: nat, mask: set<nat>, n: nat)
    requires Chained(t) && i < BUCKETS + STASHES && n <= PAIRS
  {
    && (forall j :: 0 <= j < n && CellAt(t, i, j).Held? && moves(CellAt(t, i, j).pair.key) ==> j in mask)
    && (forall j :: j in mask ==> j < n)
  }

  lemma MoveFromBucket(h: Hasher, moves: Key -> bool, t: Segment, masks: seq<set<nat>>, mask: set<nat>, j: nat,
                       next: multiset<Pair>, lost: multiset<Pair>, next': multiset<Pair>, lost': multiset<Pair>,
                       before: multiset<Pair>)
    requires Splitting(h, moves, t, masks + [mask], next, lost, before)
    requires |masks| < BUCKETS && j < PAIRS && j !in mask
    requires t.bucket[|masks|].cells[j].Held?
    requires var p := t.bucket[|masks|].cells[j].pair;
      moves(p.key) && next' + lost' == next + lost + multiset{p}
    ensures Splitting(h, moves, t, masks + [mask + {j}], next', lost', before)
    ensures |Contents(Cleared(t, masks + [mask + {j}]))| == |Contents(Cleared(t, masks + [mask]))| - 1
  {
    var v, p := Cleared(t, masks + [mask]), t.bucket[|masks|].cells[j].pair;
    ClearBucketCell(t, masks, mask, j);
    assert v.bucket[|masks|].cells[j] == t.bucket[|masks|].cells[j];
    PlaceClear(h, v, |masks|, j);
    TakeFromBefore(Contents(v), Contents(Cleared(t, masks + [mask + {j}])), next + lost, p);
  }

  lemma MoveFromStash(h: Hasher, moves: Key -> bool, t: Segment, masks: seq<set<nat>>, mask: set<nat>, j: nat, width: nat,
                      next: multiset<Pair>, lost: multiset<Pair>, next': multiset<Pair>, lost': multiset<Pair>,
                      before: multiset<Pair>)
    requires Splitting(h, moves, t, masks + [mask], next, lost, before) && Wide(t, width)
    requires BUCKETS <= |masks| < BUCKETS + STASHES && j < PAIRS && j !in mask
    requires t.stash[|masks| - BUCKETS].cells[j].Held?
    requires var p := t.stash[|masks| - BUCKETS].cells[j].pair;
      moves(p.key) && next' + lost' == next + lost + multiset{p}
    ensures var s := |masks| - BUCKETS;
      var p := t.stash[s].cells[j].pair;
      var t' := t.(bucket := UnsetMark(t.bucket, Home(h(p.key)), Tag(h(p.key)), s, width));
      && Splitting(h, moves, t', masks + [mask + {j}], next', lost', before)
      && |Contents(Cleared(t', masks + [mask + {j}]))| == |Contents(Cleared(t, masks + [mask]))| - 1
  {
    hide Inv, Contents, UnsetMark, Home, Tag;
    var s := |masks| - BUCKETS;
    var v, p := Cleared(t, masks + [mask]), t.stash[s].cells[j].pair;
    var y, tag := Home(h(p.key)), Tag(h(p.key));
    ClearStashCell(t, masks, mask, j);
    ClearedMarks(t, masks + [mask + {j}], y, tag, s, width);
    assert v.stash[s].cells[j] == t.stash[s].cells[j];
    StashClearKeeps(h, v, s, j, width);
    var t' := t.(bucket := UnsetMark(t.bucket, y, tag, s, width));
    TakeFromBefore(Contents(v), Contents(Cleared(t', masks + [mask + {j}])), next + lost, p);
  }

  lemma VisitedCell(moves: Key -> bool, t: Segment, masks: seq<set<nat>>, i: nat, j: nat)
    requires Chained(t) && Chained(Cleared(t, masks)) && i < |masks| == BUCKETS + STASHES && j < PAIRS
    requires Visited(moves, t, i, masks[i], PAIRS)
    ensures var c := CellAt(Cleared(t, masks), i, j); c.Held? ==> !moves(c.pair.key)
  {
    var c := CellAt(Cleared(t, masks), i, j);
    assert c.Held? ==> CellAt(t, i, j) == c && j !in masks[i];
  }

  /** The pairs outside the overflow chain. */
  ghost function Front(t: Segment): multiset<Pair>
    requires |t.stash| >= STASHES
  {
    Contents(Segment(t.bucket, t.stash[..STASHES]))
  }

  /** When every cell has been visited, nothing that moves is left behind. */
  lemma VisitedAll(h: Hasher, moves: Key -> bool, t: Segment, masks: seq<set<nat>>, p: Pair)
    requires Chained(t) && Chained(Cleared(t, masks)) && |masks| == BUCKETS + STASHES
    requires forall i :: 0 <= i < BUCKETS + STASHES ==> Visited(moves, t, i, masks[i], PAIRS)
    requires p in Front(Cleared(t, masks))
    ensures !moves(p.key)
  {
    hide Visited, Cleared, BucketPairs;
    var u := Cleared(t, masks);
    var v := Segment(u.bucket, u.stash[..STASHES]);
    InSegment(v, p);
    if i :| 0 <= i < BUCKETS && p in BucketPairs(v.bucket[i]) {
      InBucket(v.bucket[i], p);
      var j :| 0 <= j < PAIRS && v.bucket[i].cells[j].Held? && v.bucket[i].cells[j].pair == p;
      VisitedCell(moves, t, masks, i, j);
    } else {
      var s :| 0 <= s < STASHES && p in BucketPairs(v.stash[s]);
      InBucket(v.stash[s], p);
      var j :| 0 <= j < PAIRS && v.stash[s].cells[j].Held? && v.stash[s].cells[j].pair == p;
      VisitedCell(moves, t, masks, BUCKETS + s, j);
    }
  }

  /** When every cell has been visited, clearing leaves a sound segment of pairs that stay, but for the chain. */
  lemma SplittingEnd(h: Hasher, moves: Key -> bool, t: Segment, masks: seq<set<nat>>,
                     next: multiset<Pair>, lost: multiset<Pair>, before: multiset<Pair>)
    requires Splitting(h, moves, t, masks, next, lost, before) && |masks| == BUCKETS + STASHES
    requires forall i :: 0 <= i < BUCKETS + STASHES ==> Visited(moves, t, i, masks[i], PAIRS)
    ensures var u := Cleared(t, masks);
      && Inv(h, u) && Chained(u) && |u.stash| == |t.stash| && Contents(u) + (next + lost) == before
      && (forall p :: p in Front(u) ==> !moves(p.key)) && (forall p :: p in next + lost ==> moves(p.key))
      && (|u.stash| == STASHES ==> Front(u) == Contents(u))
  {
    var u := Cleared(t, masks);
    forall p | p in Front(u)
      ensures !moves(p.key)
    {
      VisitedAll(h, moves, t, masks, p);
    }
    assert |u.stash| == STASHES ==> u.stash[..STASHES] == u.stash;
  }

  /** A pair that has not been cleared yet still sits where its tag says. */
  lemma HeldIsPlaced(h: Hasher, moves: Key -> bool, t: Segment, masks: seq<set<nat>>, i: nat, j: nat,
                     next: multiset<Pair>, lost: multiset<Pair>, before: multiset<Pair>)
    requires Splitting(h, moves, t, masks, next, lost, before) && i < BUCKETS + STASHES && j < PAIRS
    requires CellAt(t, i, j).Held? && j !in MaskOf(masks, i)
    ensures var c := CellAt(t, i, j); c.tag == Tag(h(c.pair.key)) && c.pair.value != NONE
  {
    var v, c := Cleared(t, masks), CellAt(t, i, j);
    if i < BUCKETS {
      assert BucketOk(h, i, v.bucket[i]) && v.bucket[i].cells[j] == c;
      assert c in v.bucket[i].cells;
    } else {
      assert StashOk(h, v.stash[i - BUCKETS]) && v.stash[i - BUCKETS].cells[j] == c;
      assert c in v.stash[i - BUCKETS].cells;
    }
  }

  lemma UnsetMarkCells(bucket: seq<Bucket>, y: nat, tag: nat, pos: nat, width: nat)
    requires Ring(bucket) && y < BUCKETS && width > 0
    ensures forall z :: 0 <= z < BUCKETS ==> UnsetMark(bucket, y, tag, pos, width)[z].cells == bucket[z].cells
  {
  }

  lemma VisitedCells(moves: Key -> bool, t: Segment, u: Segment, i: nat, mask: set<nat>)
    requires Chained(t) && Chained(u) && i < BUCKETS + STASHES && t.stash == u.stash
    requires forall y :: 0 <= y < BUCKETS ==> u.bucket[y].cells == t.bucket[y].cells
    requires Visited(moves, t, i, mask, PAIRS)
    ensures Visited(moves, u, i, mask, PAIRS)
  {
    assert forall j :: 0 <= j < PAIRS ==> CellAt(u, i, j) == CellAt(t, i, j);
  }
}
