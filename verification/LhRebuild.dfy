/**
 Adding a pair to a table of Dash linear hashing as a function: a seat in the row, else the stash with its chain, and
 the one thing that can go wrong, an overflow counter that would wrap.  A split fills its new table with nothing else.
 */
module LhRebuild {
  import opened Bags
  import opened DashMarks
  import opened DashSegment
  import opened DashUpdates
  import opened DashSplit
  import opened DashFit
  import opened DashRebuild
  import opened DashRows
  import opened LhSegment

  // Where a stash insertion goes

  function ChainRoom(stash: seq<Bucket>, i: nat): (k: nat)
    requires i <= |stash|
    ensures i <= k <= |stash|
    ensures forall j :: i <= j < k ==> FirstFree(stash[j].cells) == |stash[j].cells|
    ensures k < |stash| ==> FirstFree(stash[k].cells) < |stash[k].cells|
    decreases |stash| - i
  {
    if i == |stash| || FirstFree(stash[i].cells) < |stash[i].cells| then i else ChainRoom(stash, i + 1)
  }

  /** The fixed stash buckets, the one of the home's parity first, then the chain, then a new overflow bucket. */
  function StashRoom(t: Segment, y: nat): (s: nat)
    requires Chained(t)
    ensures s <= |t.stash| && (s < |t.stash| ==> FirstFree(t.stash[s].cells) < PAIRS)
  {
    if FirstFree(t.stash[y % 2].cells) < PAIRS then y % 2
    else if FirstFree(t.stash[1 - y % 2].cells) < PAIRS then 1 - y % 2
    else ChainRoom(t.stash, STASHES)
  }

  function StashLong(t: Segment, y: nat, tag: nat, pair: Pair): Segment
    requires Chained(t) && y < BUCKETS
  {
    var s := StashRoom(t, y);
    BlankedIsEmpty(k => 0, 0, 0);
    StashInto(if s < |t.stash| then t else Extended(t), y, s, tag, pair)
  }

  /** Stash bucket s has room, and those that are asked before it have none. */
  ghost predicate Preferred(t: Segment, parity: nat, s: nat)
    requires Chained(t) && s < |t.stash| && parity < STASHES
  {
    && !Full(t.stash[s])
    && (s == 1 - parity ==> Full(t.stash[parity]))
    && (s >= STASHES ==> Full(t.stash[0]) && Full(t.stash[1]) && forall r :: STASHES <= r < s ==> Full(t.stash[r]))
  }

  /**
   The pair goes to the stash bucket of the home's parity, else to the other one, else to the first overflow bucket with
   room; a new one is allocated exactly when every bucket of stash and chain is full.
   */
  lemma StashPlace(t: Segment, y: nat, tag: nat, pair: Pair)
    requires Chained(t) && y < BUCKETS
    ensures var u, full := StashLong(t, y, tag, pair), forall s :: 0 <= s < |t.stash| ==> Full(t.stash[s]);
      && |u.stash| == (if full then |t.stash| + 1 else |t.stash|)
      && (forall s :: 0 <= s < |t.stash| && u.stash[s] != t.stash[s] ==> Preferred(t, y % 2, s))
      && (exists s :: 0 <= s < |u.stash| && Held(tag, pair, false) in u.stash[s].cells)
      && |u.bucket| == BUCKETS && forall z :: 0 <= z < BUCKETS ==> u.bucket[z].cells == t.bucket[z].cells
  {
    StashRoomIs(t, y);
    BlankedIsEmpty(k => 0, 0, 0);
    var s := StashRoom(t, y);
    hide FirstFree, Full, StashRoom, Preferred, StashInto;
    StashIntoHolds(if s < |t.stash| then t else Extended(t), y, s, tag, pair);
  }

  lemma StashRoomIs(t: Segment, y: nat)
    requires Chained(t)
    ensures StashRoom(t, y) == |t.stash| <==> forall s :: 0 <= s < |t.stash| ==> Full(t.stash[s])
    ensures StashRoom(t, y) < |t.stash| ==> Preferred(t, y % 2, StashRoom(t, y))
  {
    forall r | 0 <= r < |t.stash|
      ensures FirstFree(t.stash[r].cells) < PAIRS <==> !Full(t.stash[r])
    {
      RoomMeansFree(t.stash[r].cells);
    }
    hide FirstFree, Full;
  }

  lemma StashIntoHolds(t: Segment, y: nat, s: nat, tag: nat, pair: Pair)
    requires Chained(t) && y < BUCKETS && s < |t.stash| && FirstFree(t.stash[s].cells) < PAIRS
    ensures var u := StashInto(t, y, s, tag, pair);
      && |u.stash| == |t.stash| && Held(tag, pair, false) in u.stash[s].cells
      && (forall r :: 0 <= r < |t.stash| && r != s ==> u.stash[r] == t.stash[r])
      && |u.bucket| == BUCKETS && forall z :: 0 <= z < BUCKETS ==> u.bucket[z].cells == t.bucket[z].cells
  {
    var i, c := FirstFree(t.stash[s].cells), Held(tag, pair, false);
    assert t.stash[s].cells[i := c][i] == c;
  }

  /** Insert4split; false when the assertion on the counter fails. */
  function AddLong(t: Segment, y: nat, tag: nat, pair: Pair): (r: (Segment, bool))
    requires Chained(t) && y < BUCKETS
  {
    var seat := Seat(t, y, tag, pair);
    if seat.1 then seat
    else if Markable(t.bucket[y], t.bucket[Next(y)]) then (StashLong(t, y, tag, pair), true)
    else (t, false)
  }

  lemma StashLongKeeps(h: Hasher, t: Segment, pair: Pair)
    requires Inv(h, t) && Chained(t) && pair.value != NONE
    requires var y := Home(h(pair.key)); Markable(t.bucket[y], t.bucket[Next(y)])
    ensures var u := StashLong(t, Home(h(pair.key)), Tag(h(pair.key)), pair);
      Inv(h, u) && Chained(u) && Contents(u) == Contents(t) + multiset{pair}
  {
    hide Inv, Contents, StashInto, Markable;
    var s := StashRoom(t, Home(h(pair.key)));
    BlankedIsEmpty(k => 0, 0, 0);
    if s < |t.stash| {
      StashIntoKeeps(h, t, s, pair);
    } else {
      ExtendedKeeps(h, t);
      StashIntoKeeps(h, Extended(t), s, pair);
    }
  }

  lemma StashLongCells(t: Segment, y: nat, tag: nat, pair: Pair)
    requires Chained(t) && y < BUCKETS
    ensures var u := StashLong(t, y, tag, pair);
      |u.bucket| == BUCKETS && forall z :: 0 <= z < BUCKETS ==> u.bucket[z].cells == t.bucket[z].cells
  {
  }

  /** Adds exactly the pair and keeps allocated cells a prefix, or changes nothing. */
  lemma AddLongKeeps(h: Hasher, t: Segment, pair: Pair)
    requires Inv(h, t) && Chained(t) && AllDense(t.bucket) && pair.value != NONE
    ensures var (u, ok) := AddLong(t, Home(h(pair.key)), Tag(h(pair.key)), pair);
      if ok then Inv(h, u) && Chained(u) && AllDense(u.bucket) && Contents(u) == Contents(t) + multiset{pair} else u == t
  {
    hide Inv, Contents, Seat, StashLong, Markable;
    var y, tag := Home(h(pair.key)), Tag(h(pair.key));
    SeatKeeps(h, t, pair);
    SeatDense(t, y, tag, pair);
    if Markable(t.bucket[y], t.bucket[Next(y)]) {
      StashLongKeeps(h, t, pair);
      StashLongCells(t, y, tag, pair);
    }
  }

  // When the counter cannot wrap

  ghost predicate OfHome(h: Hasher, part: multiset<Pair>, y: nat) {
    forall p :: p in part ==> Home(h(p.key)) == y
  }

  /** Fewer than 255 pairs share a home bucket. */
  ghost predicate FewPerHome(h: Hasher, bag: multiset<Pair>) {
    forall part: multiset<Pair>, y: nat :: part <= bag && OfHome(h, part, y) ==> |part| < 255
  }

  lemma FewInAll(h: Hasher, bag: multiset<Pair>)
    requires |bag| < 255
    ensures FewPerHome(h, bag)
  {
    forall part: multiset<Pair>, y: nat | part <= bag && OfHome(h, part, y)
      ensures |part| < 255
    {
      assert bag == part + (bag - part);
    }
  }

  ghost function PairOf(h: Hasher, y: nat): Cell -> multiset<Pair> {
    (c: Cell) => if c.Held? && Home(h(c.pair.key)) == y then multiset{c.pair} else multiset{}
  }

  ghost function PairsOf(h: Hasher, y: nat): Bucket -> multiset<Pair> {
    (b: Bucket) => Sum(b.cells, PairOf(h, y))
  }

  lemma CellOfHome(h: Hasher, c: Cell, y: nat, pos: nat)
    ensures |PairOf(h, y)(c)| == |StashedIn(h, y, pos)(c)|
    ensures PairOf(h, y)(c) <= CellPairs(c) && OfHome(h, PairOf(h, y)(c), y)
  {
    hide Home, Tag;
  }

  lemma OfHomeBoth(h: Hasher, a: multiset<Pair>, b: multiset<Pair>, y: nat)
    requires OfHome(h, a, y) && OfHome(h, b, y)
    ensures OfHome(h, a + b, y)
  {
    hide Home;
  }

  lemma {:induction false} CellsOfHome(h: Hasher, cells: seq<Cell>, y: nat, pos: nat)
    ensures |Sum(cells, PairOf(h, y))| == |Sum(cells, StashedIn(h, y, pos))|
    ensures Sum(cells, PairOf(h, y)) <= Sum(cells, CellPairs) && OfHome(h, Sum(cells, PairOf(h, y)), y)
  {
    if cells != [] {
      var n := |cells| - 1;
      hide PairOf, StashedIn, CellPairs, OfHome;
      CellsOfHome(h, cells[..n], y, pos);
      CellOfHome(h, cells[n], y, pos);
      OfHomeBoth(h, Sum(cells[..n], PairOf(h, y)), PairOf(h, y)(cells[n]), y);
    }
  }

  /** The stashed pairs of a home are as many as its entries in the promise. */
  lemma {:induction false} StashOfHome(h: Hasher, stash: seq<Bucket>, y: nat)
    ensures |Sum(stash, PairsOf(h, y))| == |Stashed(h, stash, y)|
    ensures Sum(stash, PairsOf(h, y)) <= Sum(stash, BucketPairs) && OfHome(h, Sum(stash, PairsOf(h, y)), y)
  {
    hide Home, Tag;
    if stash != [] {
      var s := |stash| - 1;
      StashOfHome(h, stash[..s], y);
      CellsOfHome(h, stash[s].cells, y, Position(s));
    }
  }

  /** The assertion on the counter can only fail for a home with at least 255 stashed pairs. */
  lemma FewStashed(h: Hasher, t: Segment, y: nat)
    requires Inv(h, t) && y < BUCKETS && |Stashed(h, t.stash, y)| < 255
    ensures Markable(t.bucket[y], t.bucket[Next(y)])
  {
    hide Stashed;
    assert BucketOk(h, y, t.bucket[y]) && BucketOk(h, Next(y), t.bucket[Next(y)]);
    assert Promise(t.bucket, y, Stashed(h, t.stash, y));
  }

  lemma FewIsMarkable(h: Hasher, t: Segment, bag: multiset<Pair>, y: nat)
    requires Inv(h, t) && Chained(t) && y < BUCKETS && Contents(t) <= bag && FewPerHome(h, bag)
    ensures Markable(t.bucket[y], t.bucket[Next(y)])
  {
    hide Inv, Home, Tag, Stashed, Markable;
    StashOfHome(h, t.stash, y);
    var part := Sum(t.stash, PairsOf(h, y));
    assert part <= bag && OfHome(h, part, y);
    FewStashed(h, t, y);
  }

  // The table that adding pairs in order builds

  /** false once the assertion has failed. */
  ghost function LongRebuild(h: Hasher, pairs: seq<Pair>): (r: (Segment, bool))
    ensures Chained(r.0)
  {
    if pairs == [] then (Empty(), true)
    else
      var p := pairs[|pairs| - 1];
      var (t, ok) := LongRebuild(h, pairs[..|pairs| - 1]);
      if !ok then (t, false)
      else
        AddLongChained(t, Home(h(p.key)), Tag(h(p.key)), p);
        AddLong(t, Home(h(p.key)), Tag(h(p.key)), p)
  }

  lemma AddLongChained(t: Segment, y: nat, tag: nat, pair: Pair)
    requires Chained(t) && y < BUCKETS
    ensures Chained(AddLong(t, y, tag, pair).0)
  {
    hide Seat, StashInto;
    SeatFits(t, y, tag, pair);
    var s := StashRoom(t, y);
    BlankedIsEmpty(k => 0, 0, 0);
    StashIntoChained(if s < |t.stash| then t else Extended(t), y, s, tag, pair);
  }

  lemma StashIntoChained(t: Segment, y: nat, s: nat, tag: nat, pair: Pair)
    requires Chained(t) && y < BUCKETS && s < |t.stash| && FirstFree(t.stash[s].cells) < PAIRS
    ensures Chained(StashInto(t, y, s, tag, pair))
  {
  }

  lemma LongNext(h: Hasher, pairs: seq<Pair>, p: Pair)
    ensures var (t, ok) := LongRebuild(h, pairs);
      LongRebuild(h, pairs + [p]) == if ok then AddLong(t, Home(h(p.key)), Tag(h(p.key)), p) else (t, false)
  {
    assert (pairs + [p])[..|pairs|] == pairs;
  }

  /** A failed assertion stays failed. */
  lemma {:induction false} LongStops(h: Hasher, pairs: seq<Pair>, more: seq<Pair>)
    requires !LongRebuild(h, pairs).1
    ensures !LongRebuild(h, pairs + more).1
  {
    hide AddLong;
    if more == [] {
      assert pairs + more == pairs;
    } else {
      var n := |more| - 1;
      LongStops(h, pairs, more[..n]);
      assert pairs + more == (pairs + more[..n]) + [more[n]];
      LongNext(h, pairs + more[..n], more[n]);
    }
  }

  /** Stopping inside a bucket is stopping before its end. */
  lemma StopsBucket(h: Hasher, moves: Key -> bool, cells: seq<Cell>, j: nat, gone: seq<Pair>)
    requires j <= |cells| && !LongRebuild(h, gone + MovedIn(moves, cells[..j])).1
    ensures !LongRebuild(h, gone + MovedIn(moves, cells)).1
  {
    hide LongRebuild;
    MovedAppend(moves, cells[..j], cells[j..]);
    assert cells == cells[..j] + cells[j..];
    LongStops(h, gone + MovedIn(moves, cells[..j]), MovedIn(moves, cells[j..]));
    assert gone + MovedIn(moves, cells) == gone + MovedIn(moves, cells[..j]) + MovedIn(moves, cells[j..]);
  }

  lemma NothingLong(h: Hasher)
    ensures LongRebuild(h, []) == (Empty(), true)
  {
  }

  lemma StopsWalk(h: Hasher, moves: Key -> bool, walk: seq<Bucket>, i: nat)
    requires i <= |walk| && !LongRebuild(h, MovedFrom(moves, walk[..i])).1
    ensures !LongRebuild(h, MovedFrom(moves, walk)).1
  {
    hide LongRebuild, MovedFrom;
    MovedFromAppend(moves, walk[..i], walk[i..]);
    assert walk == walk[..i] + walk[i..];
    LongStops(h, MovedFrom(moves, walk[..i]), MovedFrom(moves, walk[i..]));
  }

  /** Copying and the bulk clear leave the chain alone. */
  lemma ClearedChain(t: Segment, masks: seq<set<nat>>)
    requires Chained(t) && |masks| == BUCKETS + STASHES
    ensures Cleared(t, masks).stash[STASHES..] == t.stash[STASHES..]
  {
    forall k | STASHES <= k < |t.stash|
      ensures Cleared(t, masks).stash[k] == t.stash[k]
    {
      KeepNothing(t.stash[k]);
    }
  }

  /** The walk over buckets and fixed stash, and then the chain. */
  lemma WalkParts(moves: Key -> bool, bucket: seq<Bucket>, stash: seq<Bucket>)
    requires |bucket| == BUCKETS && |stash| >= STASHES
    ensures MovedFrom(moves, bucket + stash) ==
      MovedFrom(moves, (bucket + stash)[..BUCKETS + STASHES]) + MovedFrom(moves, stash[STASHES..])
  {
    var walk := bucket + stash;
    assert walk == walk[..BUCKETS + STASHES] + stash[STASHES..];
    MovedFromAppend(moves, walk[..BUCKETS + STASHES], stash[STASHES..]);
  }

  // How much fits

  lemma {:induction false} CellsTotal(cells: seq<Cell>)
    ensures |Sum(cells, CellPairs)| == Count(cells)
  {
    if cells != [] {
      CellsTotal(cells[..|cells| - 1]);
    }
  }

  lemma {:induction false} BucketsTotal(bs: seq<Bucket>)
    ensures |Sum(bs, BucketPairs)| == TotalCount(bs)
  {
    if bs != [] {
      BucketsTotal(bs[..|bs| - 1]);
      CellsTotal(bs[|bs| - 1].cells);
    }
  }

  lemma {:induction false} RowIsTotal(bs: seq<Bucket>, row: seq<Load>)
    requires |row| == |bs| && forall y :: 0 <= y < |bs| ==> row[y] == LoadOf(bs[y])
    ensures RowTotal(row) == TotalCount(bs)
  {
    hide LoadOf, Count;
    if bs != [] {
      RowIsTotal(bs[..|bs| - 1], row[..|row| - 1]);
      LoadIsCount(bs[|bs| - 1]);
    }
  }

  lemma LoadIsCount(b: Bucket)
    ensures LoadOf(b).Total() == Count(b.cells)
  {
    CountLoads(b.cells);
  }

  lemma {:induction false} StashedCells(h: Hasher, cells: seq<Cell>, y: nat, pos: nat)
    ensures |Sum(cells, StashedIn(h, y, pos))| <= Count(cells)
    ensures (forall c :: c in cells && c.Held? ==> Home(h(c.pair.key)) == y) ==> |Sum(cells, StashedIn(h, y, pos))| == Count(cells)
  {
    hide Home, Tag;
    if cells != [] {
      var front := cells[..|cells| - 1];
      StashedCells(h, front, y, pos);
      assert forall c :: c in front ==> c in cells;
      assert cells[|cells| - 1] in cells;
    }
  }

  /** Every stashed pair has this home. */
  ghost predicate StashOnly(h: Hasher, stash: seq<Bucket>, y: nat) {
    forall s, c :: 0 <= s < |stash| && c in stash[s].cells && c.Held? ==> Home(h(c.pair.key)) == y
  }

  lemma {:induction false} StashedTotal(h: Hasher, stash: seq<Bucket>, y: nat)
    ensures |Stashed(h, stash, y)| <= TotalCount(stash)
    ensures StashOnly(h, stash, y) ==> |Stashed(h, stash, y)| == TotalCount(stash)
  {
    hide Home, Count;
    if stash != [] {
      var s := |stash| - 1;
      StashedTotal(h, stash[..s], y);
      StashedCells(h, stash[s].cells, y, Position(s));
      assert StashOnly(h, stash, y) ==> StashOnly(h, stash[..s], y);
    }
  }

  /** A table holds what its row holds and what its stash holds. */
  lemma ContentsTotal(t: Segment)
    requires Chained(t)
    ensures |Contents(t)| == RowTotal(RowOf(t.bucket)) + TotalCount(t.stash)
  {
    hide LoadOf, TotalCount, RowTotal;
    BucketsTotal(t.bucket);
    BucketsTotal(t.stash);
    RowIsTotal(t.bucket, RowOf(t.bucket));
  }

  /** Every counter fits its byte. */
  ghost predicate Bytes(bucket: seq<Bucket>) {
    forall y :: 0 <= y < |bucket| ==> bucket[y].overflow <= 255
  }

  lemma SeatBytes(t: Segment, y: nat, tag: nat, pair: Pair)
    requires Chained(t) && y < BUCKETS && Bytes(t.bucket)
    ensures Bytes(Seat(t, y, tag, pair).0.bucket)
  {
    RoomMeansFree(t.bucket[y].cells);
    RoomMeansFree(t.bucket[Next(y)].cells);
  }

  lemma StashLongBytes(t: Segment, y: nat, tag: nat, pair: Pair)
    requires Chained(t) && y < BUCKETS && Bytes(t.bucket) && Markable(t.bucket[y], t.bucket[Next(y)])
    ensures Bytes(StashLong(t, y, tag, pair).bucket)
  {
  }

  lemma {:induction false} LongKeeps(h: Hasher, pairs: seq<Pair>)
    requires forall p :: p in pairs ==> p.value != NONE
    ensures var (t, ok) := LongRebuild(h, pairs);
      ok ==> Inv(h, t) && AllDense(t.bucket) && Contents(t) == multiset(pairs) && Bytes(t.bucket)
  {
    hide Inv, Contents, Seat, StashLong, LongRebuild, Home, Tag, AllDense, Markable;
    if pairs == [] {
      NothingLong(h);
      EmptyIsEmpty(h);
    } else {
      var front, p := pairs[..|pairs| - 1], pairs[|pairs| - 1];
      assert pairs == front + [p];
      LongKeeps(h, front);
      LongNext(h, front, p);
      var (t, ok) := LongRebuild(h, front);
      if ok {
        AddLongKeeps(h, t, p);
        SeatBytes(t, Home(h(p.key)), Tag(h(p.key)), p);
        if Markable(t.bucket[Home(h(p.key))], t.bucket[Next(Home(h(p.key)))]) {
          StashLongBytes(t, Home(h(p.key)), Tag(h(p.key)), p);
        }
      }
      assert multiset(pairs) == multiset(front) + multiset{p};
    }
  }

  /** Eight marks and a byte: no home has more than 263 stashed pairs. */
  lemma StashedAtMost(h: Hasher, t: Segment, y: nat)
    requires Inv(h, t) && Bytes(t.bucket) && y < BUCKETS
    ensures |Stashed(h, t.stash, y)| <= 255 + 2 * MARKS
  {
    hide Stashed;
    assert BucketOk(h, y, t.bucket[y]) && BucketOk(h, Next(y), t.bucket[Next(y)]);
    assert Promise(t.bucket, y, Stashed(h, t.stash, y));
    MarkSum(t.bucket[y].marks, OwnMark);
    MarkSum(t.bucket[Next(y)].marks, MemberMark);
  }

  lemma {:induction false} MarkSum(marks: seq<Mark>, f: Mark -> multiset<(nat, nat)>)
    requires forall m :: |f(m)| <= 1
    ensures |Sum(marks, f)| <= |marks|
  {
    if marks != [] {
      MarkSum(marks[..|marks| - 1], f);
    }
  }

  /** The row after pairs of these homes, and how many pairs of homes other than y found no seat. */
  function RowAll(homes: seq<nat>, y: nat): (r: (seq<Load>, nat))
    requires InRing(homes)
    ensures |r.0| == BUCKETS
  {
    if homes == [] then (NoLoads().row, 0)
    else
      var x := homes[|homes| - 1];
      var (row, others) := RowAll(homes[..|homes| - 1], y);
      var (next, ok) := RowFit(row, x);
      (next, if ok || x == y then others else others + 1)
  }

  lemma RowAllNext(homes: seq<nat>, y: nat, x: nat)
    requires InRing(homes) && x < BUCKETS
    ensures InRing(homes + [x])
    ensures var (row, others) := RowAll(homes, y);
      var (next, ok) := RowFit(row, x);
      RowAll(homes + [x], y) == (next, if ok || x == y then others else others + 1)
  {
    hide RowFit;
    assert (homes + [x])[..|homes|] == homes;
  }

  lemma {:induction false} RowAllMany(homes: seq<nat>, y: nat, x: nat, n: nat)
    requires InRing(homes) && x < BUCKETS
    ensures InRing(homes + Rep(n, x))
    ensures var (row, others) := RowAll(homes, y);
      RowAll(homes + Rep(n, x), y) == (RowMany(row, x, n).0, if x == y then others else others + RowMany(row, x, n).1)
  {
    hide RowFit, RowAll;
    if n == 0 {
      assert homes + Rep(n, x) == homes;
    } else {
      RowAllMany(homes, y, x, n - 1);
      assert homes + Rep(n, x) == (homes + Rep(n - 1, x)) + [x];
      RowAllNext(homes + Rep(n - 1, x), y, x);
    }
  }

  /** A pair of home y that goes to the stash leaves only pairs of home y there. */
  lemma StashLongOnly(h: Hasher, t: Segment, pair: Pair, y: nat)
    requires Chained(t) && y == Home(h(pair.key)) && StashOnly(h, t.stash, y)
    ensures StashOnly(h, StashLong(t, y, Tag(h(pair.key)), pair).stash, y)
  {
    hide Home, Tag, SetMark, Position;
    var s := StashRoom(t, y);
    BlankedIsEmpty(k => 0, 0, 0);
    var u := if s < |t.stash| then t else Extended(t);
    assert StashOnly(h, u.stash, y);
    var i := FirstFree(u.stash[s].cells);
    var c := Held(Tag(h(pair.key)), pair, false);
    var v := StashLong(t, y, Tag(h(pair.key)), pair);
    assert v.stash == u.stash[s := Place(u.stash[s], i, c)];
    forall z, d | 0 <= z < |v.stash| && d in v.stash[z].cells && d.Held?
      ensures Home(h(d.pair.key)) == y
    {
      assert d in u.stash[z].cells || d == c;
    }
  }

  /** What AddLong does to the row and to whose pairs are stashed. */
  lemma AddLongRow(h: Hasher, t: Segment, p: Pair, y: nat)
    requires Chained(t) && AddLong(t, Home(h(p.key)), Tag(h(p.key)), p).1
    ensures var u, x := AddLong(t, Home(h(p.key)), Tag(h(p.key)), p).0, Home(h(p.key));
      && Chained(u) && RowOf(u.bucket) == RowFit(RowOf(t.bucket), x).0
      && (StashOnly(h, t.stash, y) && (x == y || RowFit(RowOf(t.bucket), x).1) ==> StashOnly(h, u.stash, y))
  {
    hide Seat, StashLong, RowOf, RowFit, Home, Tag, StashOnly, Markable, Full;
    var x, tag := Home(h(p.key)), Tag(h(p.key));
    SeatFits(t, x, tag, p);
    if !Seat(t, x, tag, p).1 {
      AddLongChained(t, x, tag, p);
      StashLongRow(t, x, tag, p);
      if x == y && StashOnly(h, t.stash, y) {
        StashLongOnly(h, t, p, y);
      }
    }
  }

  /** The row is what the homes say, and if only pairs of home y missed a seat, only they are stashed. */
  lemma {:induction false} LongRow(h: Hasher, pairs: seq<Pair>, y: nat)
    requires LongRebuild(h, pairs).1
    ensures var t := LongRebuild(h, pairs).0;
      var (row, others) := RowAll(HomesOf(h, pairs), y);
      RowOf(t.bucket) == row && (others == 0 ==> StashOnly(h, t.stash, y))
  {
    if pairs == [] {
      EmptyRowLoads();
      assert LongRebuild(h, pairs).0 == Empty() && RowAll(HomesOf(h, pairs), y) == (NoLoads().row, 0);
    } else {
      hide LongRebuild, AddLong, RowAll, RowOf, RowFit, Home, Tag, HomesOf, StashOnly;
      var front, p := pairs[..|pairs| - 1], pairs[|pairs| - 1];
      assert pairs == front + [p];
      LongNext(h, front, p);
      LongRow(h, front, y);
      HomesSnoc(h, front, p);
      RowAllNext(HomesOf(h, front), y, Home(h(p.key)));
      AddLongRow(h, LongRebuild(h, front).0, p, y);
    }
  }

  lemma StashLongRow(t: Segment, y: nat, tag: nat, pair: Pair)
    requires Chained(t) && y < BUCKETS
    ensures Ring(StashLong(t, y, tag, pair).bucket) && RowOf(StashLong(t, y, tag, pair).bucket) == RowOf(t.bucket)
  {
    hide StashLong;
    AddLongChainedStash(t, y, tag, pair);
    StashLongCells(t, y, tag, pair);
    var u := StashLong(t, y, tag, pair);
    assert forall z :: 0 <= z < BUCKETS ==> LoadOf(u.bucket[z]) == LoadOf(t.bucket[z]);
  }

  lemma AddLongChainedStash(t: Segment, y: nat, tag: nat, pair: Pair)
    requires Chained(t) && y < BUCKETS
    ensures Chained(StashLong(t, y, tag, pair))
  {
    hide StashInto;
    var s := StashRoom(t, y);
    BlankedIsEmpty(k => 0, 0, 0);
    StashIntoChained(if s < |t.stash| then t else Extended(t), y, s, tag, pair);
  }

  lemma EmptyRowLoads()
    ensures Ring(Empty().bucket) && RowOf(Empty().bucket) == NoLoads().row
  {
    EmptyLoads();
  }

  /** Up to 282 pairs always fit: whoever misses a seat finds 28 in the row, so at most 253 are stashed. */
  lemma {:induction false} LongFits(h: Hasher, pairs: seq<Pair>)
    requires (forall p :: p in pairs ==> p.value != NONE) && |pairs| <= 254 + 2 * PAIRS
    ensures LongRebuild(h, pairs).1
  {
    hide LongRebuild, Inv, Contents, Seat, StashLong, RowFit, RowOf, Home, Tag, Markable, RowTotal, TotalCount, Full;
    if pairs == [] {
      NothingLong(h);
    } else {
      var front, p := pairs[..|pairs| - 1], pairs[|pairs| - 1];
      var y, tag := Home(h(p.key)), Tag(h(p.key));
      assert pairs == front + [p];
      LongFits(h, front);
      LongKeeps(h, front);
      LongNext(h, front, p);
      var t := LongRebuild(h, front).0;
      SeatFits(t, y, tag, p);
      if !Seat(t, y, tag, p).1 {
        RowFitHolds(RowOf(t.bucket), y);
        ContentsTotal(t);
        StashedTotal(h, t.stash, y);
        FewStashed(h, t, y);
      }
    }
  }
}
