/**
 The order in which a Dash split meets the pairs that move, what the new table becomes when they are added in that
 order, and when one of them is lost.
 */
module DashRebuild {
  import opened Bags
  import opened DashMarks
  import opened DashSegment
  import opened DashUpdates
  import opened DashSplit
  import opened DashFit

  // The walk

  /** The pairs of one bucket that move, in ascending order of cells. */
  function MovedIn(moves: Key -> bool, cells: seq<Cell>): seq<Pair> {
    if cells == [] then []
    else
      var c := cells[|cells| - 1];
      MovedIn(moves, cells[..|cells| - 1]) + if c.Held? && moves(c.pair.key) then [c.pair] else []
  }

  /** The pairs that move, bucket by bucket. */
  function MovedFrom(moves: Key -> bool, bs: seq<Bucket>): seq<Pair> {
    if bs == [] then [] else MovedFrom(moves, bs[..|bs| - 1]) + MovedIn(moves, bs[|bs| - 1].cells)
  }

  lemma NoneMoved(moves: Key -> bool, cells: seq<Cell>, gone: seq<Pair>)
    ensures gone + MovedIn(moves, cells[..0]) == gone
  {
  }

  /** What has been met after one more cell. */
  lemma MovedNext(moves: Key -> bool, cells: seq<Cell>, j: nat, gone: seq<Pair>)
    requires j < |cells|
    ensures gone + MovedIn(moves, cells[..j + 1]) ==
      if cells[j].Held? && moves(cells[j].pair.key) then gone + MovedIn(moves, cells[..j]) + [cells[j].pair]
      else gone + MovedIn(moves, cells[..j])
  {
    assert cells[..j + 1][..j] == cells[..j];
  }

  lemma {:induction false} MovedAppend(moves: Key -> bool, a: seq<Cell>, b: seq<Cell>)
    ensures MovedIn(moves, a + b) == MovedIn(moves, a) + MovedIn(moves, b)
  {
    if b == [] {
      assert a + b == a;
    } else {
      assert (a + b)[..|a + b| - 1] == a + b[..|b| - 1];
      MovedAppend(moves, a, b[..|b| - 1]);
    }
  }

  lemma {:induction false} MovedFromAppend(moves: Key -> bool, a: seq<Bucket>, b: seq<Bucket>)
    ensures MovedFrom(moves, a + b) == MovedFrom(moves, a) + MovedFrom(moves, b)
  {
    hide MovedIn;
    if b == [] {
      assert a + b == a;
    } else {
      assert (a + b)[..|a + b| - 1] == a + b[..|b| - 1];
      MovedFromAppend(moves, a, b[..|b| - 1]);
    }
  }

  lemma NoBucketMoved(moves: Key -> bool, bs: seq<Bucket>)
    ensures MovedFrom(moves, bs[..0]) == []
  {
  }

  lemma MovedNextBucket(moves: Key -> bool, bs: seq<Bucket>, i: nat)
    requires i < |bs|
    ensures MovedFrom(moves, bs[..i + 1]) == MovedFrom(moves, bs[..i]) + MovedIn(moves, bs[i].cells)
  {
    assert bs[..i + 1][..i] == bs[..i];
  }

  lemma {:induction false} MovedInBag(moves: Key -> bool, cells: seq<Cell>)
    ensures multiset(MovedIn(moves, cells)) <= Sum(cells, CellPairs)
  {
    if cells != [] {
      MovedInBag(moves, cells[..|cells| - 1]);
    }
  }

  lemma {:induction false} MovedFromBag(moves: Key -> bool, bs: seq<Bucket>)
    ensures multiset(MovedFrom(moves, bs)) <= Sum(bs, BucketPairs)
  {
    if bs != [] {
      MovedFromBag(moves, bs[..|bs| - 1]);
      MovedInBag(moves, bs[|bs| - 1].cells);
    }
  }

  /** What moves is stored, so it is no more than the table holds. */
  lemma LeavingIsStored(moves: Key -> bool, t: Segment)
    ensures var leaving := MovedFrom(moves, t.bucket + t.stash);
      multiset(leaving) <= Contents(t) && |leaving| <= |Contents(t)|
  {
    var leaving := MovedFrom(moves, t.bucket + t.stash);
    MovedFromBag(moves, t.bucket + t.stash);
    SumAppend(t.bucket, t.stash, BucketPairs);
    assert Contents(t) == multiset(leaving) + (Contents(t) - multiset(leaving));
  }

  // The new table

  /** The table that adding the pairs in order builds, and the pairs that found no room. */
  ghost function Rebuild(h: Hasher, pairs: seq<Pair>): (r: (Segment, multiset<Pair>))
    ensures WellShaped(r.0)
  {
    if pairs == [] then (Empty(), multiset{})
    else
      var p := pairs[|pairs| - 1];
      var (t, lost) := Rebuild(h, pairs[..|pairs| - 1]);
      AddFits(t, Home(h(p.key)), Tag(h(p.key)), p);
      var (u, ok) := Add(t, Home(h(p.key)), Tag(h(p.key)), p);
      (u, if ok then lost else lost + multiset{p})
  }

  lemma NothingRebuilt(h: Hasher)
    ensures Rebuild(h, []) == (Empty(), multiset{})
  {
  }

  lemma RebuildNext(h: Hasher, pairs: seq<Pair>, p: Pair)
    ensures var (t, lost) := Rebuild(h, pairs);
      var (u, ok) := Add(t, Home(h(p.key)), Tag(h(p.key)), p);
      Rebuild(h, pairs + [p]) == (u, if ok then lost else lost + multiset{p})
  {
    assert (pairs + [p])[..|pairs|] == pairs;
  }

  /** The counts of an empty table. */
  function NoLoads(): (l: Loads)
    ensures l.Shaped()
  {
    Loads(seq(BUCKETS, _ => Load(0, 0)), seq(STASHES, _ => 0))
  }

  predicate InRing(homes: seq<nat>) {
    forall j :: 0 <= j < |homes| ==> homes[j] < BUCKETS
  }

  /** The counts after pairs of these homes, in order, and how many of them found no room. */
  function FitAll(homes: seq<nat>): (r: (Loads, nat))
    requires InRing(homes)
    ensures r.0.Shaped() && r.1 <= |homes|
  {
    if homes == [] then (NoLoads(), 0)
    else
      var (l, lost) := FitAll(homes[..|homes| - 1]);
      var (m, ok) := Fit(l, homes[|homes| - 1]);
      (m, if ok then lost else lost + 1)
  }

  lemma FitAllNext(homes: seq<nat>, y: nat)
    requires InRing(homes) && y < BUCKETS
    ensures InRing(homes + [y])
    ensures var (l, lost) := FitAll(homes);
      var (m, ok) := Fit(l, y);
      FitAll(homes + [y]) == (m, if ok then lost else lost + 1)
  {
    hide Fit;
    assert (homes + [y])[..|homes|] == homes;
  }

  function HomesOf(h: Hasher, pairs: seq<Pair>): (r: seq<nat>)
    ensures |r| == |pairs| && InRing(r)
  {
    if pairs == [] then [] else HomesOf(h, pairs[..|pairs| - 1]) + [Home(h(pairs[|pairs| - 1].key))]
  }

  lemma EmptyLoads()
    ensures LoadsOf(Empty()) == NoLoads()
  {
    var t := Empty();
    TallyZero(t.bucket[0].cells, IsOwn);
    TallyZero(t.bucket[0].cells, IsLent);
    CountLoads(t.bucket[0].cells);
  }

  /** One pair more, on the table and on the counts. */
  lemma RebuildStep(h: Hasher, front: seq<Pair>, p: Pair)
    requires var (t, lost) := Rebuild(h, front); (LoadsOf(t), |lost|) == FitAll(HomesOf(h, front))
    ensures var (t, lost) := Rebuild(h, front + [p]);
      (LoadsOf(t), |lost|) == FitAll(HomesOf(h, front) + [Home(h(p.key))])
    ensures InRing(HomesOf(h, front) + [Home(h(p.key))])
  {
    hide LoadsOf, Fit, Add, Rebuild, FitAll, Home, Tag, Crammed, HomesOf, WellShaped;
    AddFits(Rebuild(h, front).0, Home(h(p.key)), Tag(h(p.key)), p);
    RebuildNext(h, front, p);
    FitAllNext(HomesOf(h, front), Home(h(p.key)));
  }

  /** The homes of the pairs, in the order of the walk, decide how many are lost. */
  lemma {:induction false} RebuildFits(h: Hasher, pairs: seq<Pair>)
    ensures var (t, lost) := Rebuild(h, pairs); (LoadsOf(t), |lost|) == FitAll(HomesOf(h, pairs))
  {
    if pairs == [] {
      EmptyLoads();
    } else {
      hide LoadsOf, Rebuild, FitAll, Home, WellShaped, InRing;
      var front, p := pairs[..|pairs| - 1], pairs[|pairs| - 1];
      RebuildFits(h, front);
      assert pairs == front + [p];
      RebuildStep(h, front, p);
    }
  }

  lemma LostStep(h: Hasher, front: seq<Pair>, p: Pair)
    requires var (t, lost) := Rebuild(h, front); lost != multiset{} ==> Full(t.stash[0]) && Full(t.stash[1])
    ensures var (t, lost) := Rebuild(h, front + [p]); lost != multiset{} ==> Full(t.stash[0]) && Full(t.stash[1])
  {
    hide LoadsOf, Fit, Add, Rebuild, Home, Tag, Full;
    var t := Rebuild(h, front).0;
    RebuildNext(h, front, p);
    if Full(t.stash[0]) && Full(t.stash[1]) {
      StashStaysFull(t, Home(h(p.key)), Tag(h(p.key)), p);
    } else {
      AddFits(t, Home(h(p.key)), Tag(h(p.key)), p);
    }
  }

  lemma {:induction false} LostIsCrammed(h: Hasher, pairs: seq<Pair>)
    ensures var (t, lost) := Rebuild(h, pairs); lost != multiset{} ==> Full(t.stash[0]) && Full(t.stash[1])
  {
    hide Rebuild, Full;
    if pairs != [] {
      var front, p := pairs[..|pairs| - 1], pairs[|pairs| - 1];
      LostIsCrammed(h, front);
      assert pairs == front + [p];
      LostStep(h, front, p);
    } else {
      NothingRebuilt(h);
    }
  }

  /** A full stash stays as it is. */
  lemma StashStaysFull(t: Segment, y: nat, tag: nat, pair: Pair)
    requires WellShaped(t) && y < BUCKETS && Full(t.stash[0]) && Full(t.stash[1])
    ensures var u := Add(t, y, tag, pair).0; WellShaped(u) && u.stash == t.stash
  {
    hide Seat, StashInsert, Full, LoadsOf, RowFit, RowOf;
    SeatFits(t, y, tag, pair);
    StashInsertFits(t, y, tag, pair);
  }

  // When nothing is lost

  function RowTotal(row: seq<Load>): nat {
    if row == [] then 0 else RowTotal(row[..|row| - 1]) + row[|row| - 1].Total()
  }

  lemma {:induction false} RowUpdate(row: seq<Load>, y: nat, x: Load)
    requires y < |row|
    ensures RowTotal(row[y := x]) == RowTotal(row) + x.Total() - row[y].Total()
  {
    var n, r := |row| - 1, row[y := x];
    if y == n {
      assert r[..n] == row[..n];
    } else {
      assert r[..n] == row[..n][y := x];
      RowUpdate(row[..n], y, x);
    }
  }

  /** Two buckets hold no more than all of them. */
  lemma RowTwo(row: seq<Load>, y: nat, z: nat)
    requires y < |row| && z < |row| && y != z
    ensures row[y].Total() + row[z].Total() <= RowTotal(row)
  {
    var zero := Load(0, 0);
    RowUpdate(row, y, zero);
    RowUpdate(row[y := zero], z, zero);
  }

  function HeldIn(l: Loads): nat
    requires l.Shaped()
  {
    RowTotal(l.row) + l.stash[0] + l.stash[1]
  }

  /** Both updates of a displacement at once. */
  lemma RowTwoUpdates(row: seq<Load>, w: nat, a: Load, z: nat, c: Load)
    requires w < |row| && z < |row| && w != z
    ensures RowTotal(row[w := a][z := c]) == RowTotal(row) + a.Total() - row[w].Total() + c.Total() - row[z].Total()
  {
    RowUpdate(row, w, a);
    RowUpdate(row[w := a], z, c);
  }

  predicate StashFits(l: Loads) {
    |l.stash| == STASHES && forall s :: 0 <= s < STASHES ==> l.stash[s] <= PAIRS
  }

  lemma RowFitRoom(row: seq<Load>, y: nat)
    requires |row| == BUCKETS && y < BUCKETS && !(row[y].Total() == PAIRS && row[Next(y)].Total() == PAIRS)
    ensures RowFit(row, y).1 && RowTotal(RowFit(row, y).0) == RowTotal(row) + 1
  {
    hide RowTotal;
    var b, n := row[y], row[Next(y)];
    if b.Total() <= n.Total() {
      RowUpdate(row, y, Load(b.own + 1, b.lent));
    } else {
      RowUpdate(row, Next(y), Load(n.own, n.lent + 1));
    }
  }

  lemma RowFitNext(row: seq<Load>, y: nat)
    requires |row| == BUCKETS && y < BUCKETS && row[y].Total() == PAIRS && row[Next(y)].Total() == PAIRS
    requires row[Next(y)].own > 0 && row[Next(Next(y))].Total() < PAIRS
    ensures RowFit(row, y).1 && RowTotal(RowFit(row, y).0) == RowTotal(row) + 1
  {
    hide RowTotal;
    var z, w := Next(y), Next(Next(y));
    RowTwoUpdates(row, w, Load(row[w].own, row[w].lent + 1), z, Load(row[z].own - 1, row[z].lent + 1));
  }

  predicate GoesBack(row: seq<Load>, y: nat)
    requires |row| == BUCKETS && y < BUCKETS
  {
    && row[y].Total() == PAIRS && row[Next(y)].Total() == PAIRS
    && !(row[Next(y)].own > 0 && row[Next(Next(y))].Total() < PAIRS) && row[y].lent > 0 && row[Prev(y)].Total() < PAIRS
  }

  lemma RowFitBack(row: seq<Load>, y: nat)
    requires |row| == BUCKETS && y < BUCKETS && GoesBack(row, y)
    ensures var v := Prev(y);
      RowFit(row, y) == (row[v := Load(row[v].own + 1, row[v].lent)][y := Load(row[y].own + 1, row[y].lent - 1)], true)
  {
  }

  lemma RowFitPrev(row: seq<Load>, y: nat)
    requires |row| == BUCKETS && y < BUCKETS && GoesBack(row, y)
    ensures RowFit(row, y).1 && RowTotal(RowFit(row, y).0) == RowTotal(row) + 1
  {
    var v := Prev(y);
    RowFitBack(row, y);
    hide RowTotal, RowFit;
    RowTwoUpdates(row, v, Load(row[v].own + 1, row[v].lent), y, Load(row[y].own + 1, row[y].lent - 1));
  }

  /** A seat is one pair more; where there is none, home and neighbour hold 28. */
  lemma RowFitHolds(row: seq<Load>, y: nat)
    requires |row| == BUCKETS && y < BUCKETS
    ensures var (r, ok) := RowFit(row, y);
      if ok then RowTotal(r) == RowTotal(row) + 1 else r == row && RowTotal(row) >= 2 * PAIRS
  {
    if !(row[y].Total() == PAIRS && row[Next(y)].Total() == PAIRS) {
      RowFitRoom(row, y);
    } else if row[Next(y)].own > 0 && row[Next(Next(y))].Total() < PAIRS {
      RowFitNext(row, y);
    } else if row[y].lent > 0 && row[Prev(y)].Total() < PAIRS {
      RowFitPrev(row, y);
    } else {
      hide RowTotal;
      RowTwo(row, y, Next(y));
    }
  }

  /** Every pair that finds room is held from then on; one that does not finds 56 others in its way. */
  lemma FitHolds(l: Loads, y: nat)
    requires l.Shaped() && y < BUCKETS && StashFits(l)
    ensures var (m, ok) := Fit(l, y);
      StashFits(m) && (if ok then HeldIn(m) == HeldIn(l) + 1 else m == l && HeldIn(l) >= 4 * PAIRS)
  {
    hide RowTotal, RowFit;
    RowFitHolds(l.row, y);
  }

  lemma {:induction false} FitAllHolds(homes: seq<nat>)
    requires InRing(homes)
    ensures var (l, lost) := FitAll(homes);
      StashFits(l) && HeldIn(l) + lost == |homes| && (|homes| <= 4 * PAIRS ==> lost == 0)
  {
    if homes == [] {
      EmptyRow(NoLoads().row);
    } else {
      hide HeldIn, Fit;
      FitAllHolds(homes[..|homes| - 1]);
      FitHolds(FitAll(homes[..|homes| - 1]).0, homes[|homes| - 1]);
    }
  }

  lemma {:induction false} EmptyRow(row: seq<Load>)
    requires forall y :: 0 <= y < |row| ==> row[y] == Load(0, 0)
    ensures RowTotal(row) == 0
  {
    if row != [] {
      EmptyRow(row[..|row| - 1]);
    }
  }

  function CountOf(homes: seq<nat>, y: nat): nat {
    if homes == [] then 0 else CountOf(homes[..|homes| - 1], y) + if homes[|homes| - 1] == y then 1 else 0
  }

  /** No three consecutive buckets are home to more pairs than two buckets hold. */
  predicate Spread(homes: seq<nat>) {
    forall y: nat :: y < BUCKETS ==> CountOf(homes, Prev(y)) + CountOf(homes, y) + CountOf(homes, Next(y)) <= 2 * PAIRS
  }

  predicate Owes(l: Loads, homes: seq<nat>, x: nat)
    requires l.Shaped() && x < BUCKETS
  {
    l.row[x].own + l.row[Next(x)].lent <= CountOf(homes, x)
  }

  /** What the buckets hold for a home came from that home. */
  ghost predicate Ledger(l: Loads, homes: seq<nat>)
    requires l.Shaped()
  {
    forall x: nat :: x < BUCKETS ==> Owes(l, homes, x)
  }

  lemma CountNext(homes: seq<nat>, y: nat, x: nat)
    ensures CountOf(homes + [y], x) == CountOf(homes, x) + if x == y then 1 else 0
  {
    assert (homes + [y])[..|homes|] == homes;
  }

  /** Balanced insertion, which is all that happens while home or neighbour has room. */
  lemma FitLedger(l: Loads, homes: seq<nat>, y: nat, x: nat)
    requires l.Shaped() && y < BUCKETS && x < BUCKETS && Owes(l, homes, x)
    requires !(l.row[y].Total() == PAIRS && l.row[Next(y)].Total() == PAIRS)
    ensures Owes(Fit(l, y).0, homes + [y], x) && Fit(l, y).1 && Fit(l, y).0.stash == l.stash
  {
    CountNext(homes, y, x);
    hide CountOf;
    assert Next(x) == Next(y) <==> x == y;
  }

  /** Home and neighbour cannot both be full of pairs of three homes that have at most 28 pairs with the new one. */
  lemma SpreadHasRoom(l: Loads, homes: seq<nat>, y: nat)
    requires l.Shaped() && y < BUCKETS && Ledger(l, homes) && Spread(homes + [y])
    ensures !(l.row[y].Total() == PAIRS && l.row[Next(y)].Total() == PAIRS)
  {
    CountNext(homes, y, Prev(y));
    CountNext(homes, y, y);
    CountNext(homes, y, Next(y));
    assert Owes(l, homes, Prev(y)) && Owes(l, homes, y) && Owes(l, homes, Next(y));
    hide CountOf;
  }

  lemma SpreadFront(homes: seq<nat>, y: nat)
    requires Spread(homes + [y])
    ensures Spread(homes)
  {
    forall x: nat | x < BUCKETS
      ensures CountOf(homes, Prev(x)) + CountOf(homes, x) + CountOf(homes, Next(x)) <= 2 * PAIRS
    {
      CountNext(homes, y, Prev(x));
      CountNext(homes, y, x);
      CountNext(homes, y, Next(x));
    }
  }

  /** Such a sequence never even touches the stash. */
  lemma {:induction false} SpreadFits(homes: seq<nat>)
    requires InRing(homes) && Spread(homes)
    ensures var (l, lost) := FitAll(homes); lost == 0 && l.stash == NoLoads().stash && Ledger(l, homes)
  {
    if homes != [] {
      hide Fit, Spread, CountOf, FitAll, Owes;
      var front, y := homes[..|homes| - 1], homes[|homes| - 1];
      assert homes == front + [y];
      SpreadFront(front, y);
      SpreadFits(front);
      FitAllNext(front, y);
      var l := FitAll(front).0;
      SpreadHasRoom(l, front, y);
      forall x: nat | x < BUCKETS
        ensures Owes(Fit(l, y).0, homes, x) && Fit(l, y).1 && Fit(l, y).0.stash == l.stash
      {
        FitLedger(l, front, y, x);
      }
      assert Owes(Fit(l, y).0, homes, y);
    }
  }

  /**
   What a split loses, by the homes of the pairs in the order of the walk: the number is exact, nothing is lost while
   the stash has room, and none of up to 56 pairs, nor of any number spread over the homes, is lost.
   */
  lemma SplitLoses(h: Hasher, pairs: seq<Pair>)
    ensures var (t, lost) := Rebuild(h, pairs);
      && |lost| == FitAll(HomesOf(h, pairs)).1
      && (lost != multiset{} ==> Full(t.stash[0]) && Full(t.stash[1]))
      && (|pairs| <= 4 * PAIRS || Spread(HomesOf(h, pairs)) ==> lost == multiset{})
  {
    hide Rebuild, FitAll, HomesOf, LoadsOf, Spread, Full;
    RebuildFits(h, pairs);
    LostIsCrammed(h, pairs);
    FitAllHolds(HomesOf(h, pairs));
    if Spread(HomesOf(h, pairs)) {
      SpreadFits(HomesOf(h, pairs));
    }
  }
}
