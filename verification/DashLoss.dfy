/**
 A table that a split makes lose a pair: it is built by adding 72 pairs, all of which find room, and all of them
 move; met in the order of the walk, the last of them finds both of its buckets and the whole stash taken.
 */
module DashLoss {
  import opened Bags
  import opened Powers
  import opened DashMarks
  import opened DashSegment
  import opened DashUpdates
  import opened DashSplit
  import opened DashFit
  import opened DashRebuild
  import opened DashRouting
  import opened DashRows
  import opened DashTable

  // The pairs

  /** 56 keys of home 2, 14 of home 1 and then those of home 0. */
  function HomeFor(k: Key): (y: nat)
    ensures y <= 2
  {
    if k < 56 then 2 else if k < 70 then 1 else 0
  }

  /** The first bit of every hash is one, so every pair moves when a segment of depth 0 splits. */
  function SkewedHash(k: Key): nat {
    Pow2(63) + HomeFor(k) * 256
  }

  lemma Powers63()
    ensures Pow2(63) == Pow2(49) * 64 * 256 && Pow2(63) >= 1024
  {
    assert Pow2(4) == 16;
    assert Pow2(8) == 256;
    assert Pow2(6) == 64;
    assert Pow2(10) == 1024;
    hide Pow2;
    Pow2Add(55, 8);
    Pow2Add(49, 6);
    Pow2Monotone(10, 63);
  }

  lemma SkewedHome(k: Key)
    ensures Home(SkewedHash(k)) == HomeFor(k)
  {
    var q, y := Pow2(49), HomeFor(k);
    Powers63();
    hide Pow2;
    Distribute(q * 64, y, 256);
    DivMul(q * 64 + y, 256, 0);
    DivMul(q, 64, y);
  }

  lemma SkewedHashes(k: Key)
    ensures Home(SkewedHash(k)) == HomeFor(k) && Moves(SkewedHash, 0, 0)(k)
  {
    SkewedHome(k);
    Powers63();
    hide Pow2, Home;
    DivMul(1, Pow2(63), HomeFor(k) * 256);
    assert Prefix(SkewedHash(k), 1) == SkewedHash(k) / Pow2(63);
  }

  // Adding many pairs of one home

  /** As long as they find seats, the stash does not change. */
  lemma {:induction false} FitSeats(homes: seq<nat>, row: seq<Load>, stash: seq<nat>, y: nat, n: nat, m: seq<Load>)
    requires InRing(homes) && y < BUCKETS && |row| == BUCKETS && FitAll(homes) == (Loads(row, stash), 0) && Seats(row, y, n, m)
    ensures InRing(homes + Rep(n, y)) && FitAll(homes + Rep(n, y)) == (Loads(m, stash), 0)
  {
    hide RowFit, FitAll;
    if n == 0 {
      assert homes + Rep(n, y) == homes;
    } else {
      var k := RowMany(row, y, n - 1).0;
      FitSeats(homes, row, stash, y, n - 1, k);
      assert homes + Rep(n, y) == (homes + Rep(n - 1, y)) + [y];
      FitAllNext(homes + Rep(n - 1, y), y);
    }
  }

  /** Without a seat: stash bucket s, the one of the home's parity first. */
  lemma {:induction false} FitStash(homes: seq<nat>, row: seq<Load>, stash: seq<nat>, y: nat, s: nat, n: nat)
    requires InRing(homes) && y < BUCKETS && |row| == BUCKETS && |stash| == STASHES && FitAll(homes) == (Loads(row, stash), 0)
    requires RowFit(row, y) == (row, false) && s < STASHES && (s != y % 2 ==> stash[y % 2] == PAIRS) && stash[s] + n <= PAIRS
    ensures InRing(homes + Rep(n, y)) && FitAll(homes + Rep(n, y)) == (Loads(row, stash[s := stash[s] + n]), 0)
  {
    hide RowFit, FitAll;
    if n == 0 {
      assert homes + Rep(n, y) == homes && stash[s := stash[s] + n] == stash;
    } else {
      FitStash(homes, row, stash, y, s, n - 1);
      assert homes + Rep(n, y) == (homes + Rep(n - 1, y)) + [y];
      FitAllNext(homes + Rep(n - 1, y), y);
      assert stash[s := stash[s] + n - 1][s := stash[s] + n] == stash[s := stash[s] + n];
    }
  }

  lemma FitLost(homes: seq<nat>, row: seq<Load>, y: nat)
    requires InRing(homes) && y < BUCKETS && |row| == BUCKETS && FitAll(homes) == (Loads(row, [PAIRS, PAIRS]), 0)
    requires RowFit(row, y) == (row, false)
    ensures InRing(homes + [y]) && FitAll(homes + [y]).1 == 1
  {
    hide RowFit, FitAll;
    FitAllNext(homes, y);
  }

  lemma StartsEmpty(b: Few)
    requires b == Few(ZERO, ZERO, ZERO, ZERO, ZERO)
    ensures FitAll([]) == (Loads(b.Row(), [0, 0]), 0)
  {
    assert NoLoads().row == b.Row() && NoLoads().stash == [0, 0];
  }

  // Building the table

  /** 56 pairs of home 2 fill buckets 2 and 3 and the stash, then 14 fill bucket 1 and two go to bucket 0. */
  const BUILT := Few(Load(2, 0), Load(PAIRS, 0), Load(PAIRS, 0), Load(0, PAIRS), ZERO)

  lemma {:induction false} HomesOfKeys(n: nat)
    requires n <= 72
    ensures HomesOf(SkewedHash, Keys(n)) == seq<nat>(n, k => HomeFor(k))
  {
    if n > 0 {
      hide SkewedHash;
      HomesOfKeys(n - 1);
      KeysNext(n - 1);
      SkewedHashes(n - 1);
    }
  }

  /** The stash takes 28 pairs of a home that finds no seat. */
  lemma FillStash(homes: seq<nat>, row: seq<Load>, y: nat)
    requires InRing(homes) && y < BUCKETS && y % 2 == 0 && |row| == BUCKETS && FitAll(homes) == (Loads(row, [0, 0]), 0)
    requires RowFit(row, y) == (row, false)
    ensures InRing(homes + Rep(28, y)) && FitAll(homes + Rep(28, y)) == (Loads(row, [PAIRS, PAIRS]), 0)
  {
    hide RowFit, FitAll;
    FitStash(homes, row, [0, 0], y, 0, PAIRS);
    assert [0, 0][0 := PAIRS] == [PAIRS, 0];
    FitStash(homes + Rep(PAIRS, y), row, [PAIRS, 0], y, 1, PAIRS);
    assert [PAIRS, 0][1 := PAIRS] == [PAIRS, PAIRS];
    assert homes + Rep(28, y) == (homes + Rep(PAIRS, y)) + Rep(PAIRS, y);
  }

  lemma BuildFirst(b: Few, c: Few, homes: seq<nat>)
    requires b == Few(ZERO, ZERO, ZERO, ZERO, ZERO) && c == b.(b2 := Load(PAIRS, 0), b3 := Load(0, PAIRS))
    requires homes == ([] + Rep(28, 2)) + Rep(28, 2) && InRing(homes)
    ensures FitAll(homes) == (Loads(c.Row(), [PAIRS, PAIRS]), 0)
  {
    hide RowFit, FitAll, Few.Row, RowMany, Seats;
    StartsEmpty(b);
    FillBoth(b, 2, PAIRS);
    FitSeats([], b.Row(), [0, 0], 2, 28, c.Row());
    NoSeat(c, 2);
    FillStash([] + Rep(28, 2), c.Row(), 2);
  }

  lemma BuildNext(c: Few, d: Few, y: nat, n: nat, stash: seq<nat>, homes: seq<nat>)
    requires InRing(homes) && FitAll(homes) == (Loads(c.Row(), stash), 0)
    requires y <= 1 && c.At(y) == ZERO && c.At(y + 1).Total() == PAIRS && n <= PAIRS && d == c.Set(y, Load(n, 0))
    ensures InRing(homes + Rep(n, y)) && FitAll(homes + Rep(n, y)) == (Loads(d.Row(), stash), 0)
  {
    hide RowFit, FitAll, Few.Row, RowMany, Seats;
    assert Seats(c.Row(), y, n, d.Row()) by { FillNew(c, d, y, n); }
    hide Few.At, Few.Set;
    FitSeats(homes, c.Row(), stash, y, n, d.Row());
  }

  lemma KeysInOrder()
    ensures HomesOf(SkewedHash, Keys(56)) == ([] + Rep(28, 2)) + Rep(28, 2)
    ensures HomesOf(SkewedHash, Keys(72)) == ([] + Rep(28, 2)) + Rep(28, 2) + Rep(14, 1) + Rep(2, 0)
  {
    hide SkewedHash, HomesOf;
    HomesOfKeys(56);
    HomesOfKeys(72);
  }

  lemma BuildLoads()
    ensures FitAll(HomesOf(SkewedHash, Keys(56))).0.stash == [PAIRS, PAIRS]
    ensures FitAll(HomesOf(SkewedHash, Keys(72))) == (Loads(BUILT.Row(), [PAIRS, PAIRS]), 0)
  {
    hide FitAll, HomesOf, SkewedHash, Keys, Few.Row;
    var b, c := Few(ZERO, ZERO, ZERO, ZERO, ZERO), BUILT.(b0 := ZERO, b1 := ZERO);
    var first := HomesOf(SkewedHash, Keys(56));
    KeysInOrder();
    BuildFirst(b, c, first);
    BuildNext(c, BUILT.(b0 := ZERO), 1, 14, [PAIRS, PAIRS], first);
    BuildNext(BUILT.(b0 := ZERO), BUILT, 0, 2, [PAIRS, PAIRS], first + Rep(14, 1));
  }

  // The walk over the built table

  lemma WalkZero(b: Few, c: Few, homes: seq<nat>)
    requires b == Few(ZERO, ZERO, ZERO, ZERO, ZERO) && c == b.(b0 := Load(1, 0), b1 := Load(0, 1))
    requires homes == [] + Rep(2, 0) && InRing(homes)
    ensures FitAll(homes) == (Loads(c.Row(), [0, 0]), 0)
  {
    hide RowFit, FitAll, Few.Row, RowMany, Seats;
    StartsEmpty(b);
    FillBoth(b, 0, 1);
    FitSeats([], b.Row(), [0, 0], 0, 2, c.Row());
  }

  /** One lent, twelve in turn, one at home. */
  lemma WalkOne(b: Few, e: Few)
    requires b == Few(Load(1, 0), Load(0, 1), ZERO, ZERO, ZERO) && e == Few(Load(1, 0), Load(7, 1), Load(0, 7), ZERO, ZERO)
    ensures Seats(b.Row(), 1, 14, e.Row())
  {
    hide RowMany, Seats, Few.Row;
    var c, d := b.(b2 := Load(0, 1)), e.(b1 := Load(6, 1));
    FillNext(b, 1, 1);
    FillBoth(c, 1, 6);
    Then(b.Row(), 1, 1, c.Row(), 12, d.Row());
    FillHome(d, 1, 1);
    Then(b.Row(), 1, 13, d.Row(), 1, e.Row());
  }

  /** Seven lent, 14 in turn, six displaced to the left, and no seat after that. */
  lemma WalkTwo(b: Few, e: Few)
    requires b == Few(Load(1, 0), Load(7, 1), Load(0, 7), ZERO, ZERO)
    requires e == Few(Load(1, 0), Load(13, 1), Load(13, 1), Load(0, PAIRS), ZERO)
    ensures Seats(b.Row(), 2, 27, e.Row()) && RowFit(e.Row(), 2) == (e.Row(), false)
  {
    hide RowMany, Seats, Few.Row;
    var c, d := b.(b3 := Load(0, 7)), b.(b2 := Load(7, 7), b3 := Load(0, PAIRS));
    FillNext(b, 2, 7);
    FillBoth(c, 2, 7);
    Then(b.Row(), 2, 7, c.Row(), 14, d.Row());
    FillPrev(d, 2, 6);
    Then(b.Row(), 2, 21, d.Row(), 6, e.Row());
    NoSeat(e, 2);
  }

  /** Pairs of homes 0 and 1 come first, and only then those of home 2. */
  lemma WalkLoads(first: seq<nat>, homes: seq<nat>)
    requires first == [] + Rep(2, 0) && InRing(first) && InRing(homes)
    requires homes == (((first + Rep(14, 1)) + Rep(27, 2)) + Rep(28, 2)) + [2]
    ensures FitAll(homes).1 == 1
  {
    hide RowFit, Few.Row, RowMany, Seats, FitAll, InRing, Rep;
    var a, b := Few(ZERO, ZERO, ZERO, ZERO, ZERO), Few(Load(1, 0), Load(0, 1), ZERO, ZERO, ZERO);
    var c, e := b.(b1 := Load(7, 1), b2 := Load(0, 7)), Few(Load(1, 0), Load(13, 1), Load(13, 1), Load(0, PAIRS), ZERO);
    WalkZero(a, b, first);
    WalkOne(b, c);
    FitSeats(first, b.Row(), [0, 0], 1, 14, c.Row());
    WalkTwo(c, e);
    FitSeats(first + Rep(14, 1), c.Row(), [0, 0], 2, 27, e.Row());
    FillStash((first + Rep(14, 1)) + Rep(27, 2), e.Row(), 2);
    FitLost(((first + Rep(14, 1)) + Rep(27, 2)) + Rep(28, 2), e.Row(), 2);
  }

  // The table itself

  /** Adding pairs whose stash marks cannot run out keeps the invariant and loses no track of a pair. */
  lemma {:induction false} RebuildKeeps(h: Hasher, pairs: seq<Pair>)
    requires forall p :: p in pairs ==> p.value != NONE
    ensures var (t, lost) := Rebuild(h, pairs); Inv(h, t) && Contents(t) + lost == multiset(pairs)
  {
    hide Inv, Contents, Add, Rebuild, Home, Tag;
    if pairs == [] {
      NothingRebuilt(h);
      EmptyIsEmpty(h);
    } else {
      var front, p := pairs[..|pairs| - 1], pairs[|pairs| - 1];
      assert pairs == front + [p];
      RebuildKeeps(h, front);
      RebuildNext(h, front, p);
      AddKeeps(h, Rebuild(h, front).0, p);
      assert multiset(pairs) == multiset(front) + multiset{p};
    }
  }

  /** A full stash is left alone by whatever is added later. */
  lemma {:induction false} StashIsLeft(h: Hasher, pairs: seq<Pair>, more: seq<Pair>)
    requires Full(Rebuild(h, pairs).0.stash[0]) && Full(Rebuild(h, pairs).0.stash[1])
    ensures Rebuild(h, pairs + more).0.stash == Rebuild(h, pairs).0.stash
  {
    hide Add, Rebuild, Home, Tag, Full;
    if more == [] {
      assert pairs + more == pairs;
    } else {
      var front, p := more[..|more| - 1], more[|more| - 1];
      assert pairs + more == pairs + front + [p];
      StashIsLeft(h, pairs, front);
      RebuildNext(h, pairs + front, p);
      StashStaysFull(Rebuild(h, pairs + front).0, Home(h(p.key)), Tag(h(p.key)), p);
    }
  }

  function AllMove(): Key -> bool {
    Moves(SkewedHash, 0, 0)
  }

  lemma AllKeysMove()
    ensures forall k :: AllMove()(k)
  {
    forall k ensures AllMove()(k) { SkewedHashes(k); }
  }

  /** The stash was filled while only pairs of home 2 were added. */
  lemma StashHomes(s: nat)
    requires s < STASHES
    ensures AllOf(SkewedHash, AllMove(), Rebuild(SkewedHash, Keys(72)).0.stash[s].cells, 2)
  {
    hide Rebuild, SkewedHash, Inv, Contents, FitAll, HomesOf, AllMove, Home;
    var t := Rebuild(SkewedHash, Keys(56)).0;
    BuildLoads();
    RebuildFits(SkewedHash, Keys(56));
    StashCounts(t, 0);
    StashCounts(t, 1);
    assert Keys(72) == Keys(56) + Keys(72)[56..];
    StashIsLeft(SkewedHash, Keys(56), Keys(72)[56..]);
    RebuildKeeps(SkewedHash, Keys(56));
    BucketInSegment(t, s);
    AllKeysMove();
    forall c | c in t.stash[s].cells && c.Held?
      ensures Home(SkewedHash(c.pair.key)) == 2
    {
      InBucket(t.stash[s], c.pair);
      assert c.pair in multiset(Keys(56));
      SkewedHashes(c.pair.key);
    }
  }

  ghost predicate Holds(b: Bucket, y: nat, n: nat) {
    Contributes(SkewedHash, AllMove(), b, y, n)
  }

  ghost predicate Built(bs: seq<Bucket>) {
    && |bs| == BUCKETS + STASHES && Holds(bs[0], 0, 2) && Holds(bs[1], 1, 14) && Holds(bs[2], 2, 14) && Holds(bs[3], 2, 14)
    && (forall j :: 4 <= j < BUCKETS ==> Holds(bs[j], 2, 0)) && Holds(bs[BUCKETS], 2, 14) && Holds(bs[BUCKETS + 1], 2, 14)
  }

  lemma WalkBuilt(bs: seq<Bucket>)
    requires Built(bs)
    ensures HomesOf(SkewedHash, MovedFrom(AllMove(), bs)) == ((([] + Rep(2, 0)) + Rep(14, 1)) + Rep(27, 2)) + Rep(28, 2) + [2]
  {
    hide SkewedHash, AllMove, HomesOf, MovedFrom, AllOf, Count;
    NoBucketMoved(AllMove(), bs);
    NoHomes(SkewedHash);
    WalkNext(SkewedHash, AllMove(), bs, 0, 0, []);
    WalkNext(SkewedHash, AllMove(), bs, 1, 1, [] + Rep(2, 0));
    var homes := ([] + Rep(2, 0)) + Rep(14, 1);
    WalkNext(SkewedHash, AllMove(), bs, 2, 2, homes);
    WalkNext(SkewedHash, AllMove(), bs, 3, 2, homes + Rep(14, 2));
    homes := homes + Rep(14, 2) + Rep(14, 2);
    NoTotal(bs[4..BUCKETS]);
    WalkSame(SkewedHash, AllMove(), bs, 4, BUCKETS, 2, homes);
    assert homes + Rep(0, 2) == homes;
    WalkNext(SkewedHash, AllMove(), bs, BUCKETS, 2, homes);
    WalkNext(SkewedHash, AllMove(), bs, BUCKETS + 1, 2, homes + Rep(14, 2));
    assert bs[..BUCKETS + 2] == bs;
  }

  lemma RowIsBuilt(t: Segment, b: Few, y: nat)
    requires Inv(SkewedHash, t) && WellShaped(t) && b == BUILT && RowOf(t.bucket) == b.Row() && y < BUCKETS
    ensures Holds(t.bucket[y], if y >= 3 then 2 else y, if y == 0 then 2 else if y <= 3 then 14 else 0)
  {
    hide SkewedHash, AllMove, Inv, Contributes, LoadOf, Few.Row, RowOf;
    LoadOfFew(t, b, y);
    AllKeysMove();
    RowContributes(SkewedHash, AllMove(), t, y, if y <= 4 then b.At(y) else ZERO, if y >= 3 then 2 else y);
  }

  lemma TableIsBuilt()
    ensures var t := Rebuild(SkewedHash, Keys(72)).0; Built(t.bucket + t.stash)
  {
    hide Rebuild, SkewedHash, Inv, Contents, FitAll, HomesOf, AllOf, Holds, Few.Row, RowOf, AllMove;
    var t := Rebuild(SkewedHash, Keys(72)).0;
    BuildLoads();
    RebuildFits(SkewedHash, Keys(72));
    RebuildKeeps(SkewedHash, Keys(72));
    forall y: nat | y < BUCKETS
      ensures Holds(t.bucket[y], if y >= 3 then 2 else y, if y == 0 then 2 else if y <= 3 then 14 else 0)
    {
      RowIsBuilt(t, BUILT, y);
    }
    forall s: nat | s < STASHES
      ensures Holds(t.stash[s], 2, 14)
    {
      StashHomes(s);
      StashHolds(t, s);
    }
  }

  lemma StashHolds(t: Segment, s: nat)
    requires WellShaped(t) && LoadsOf(t).stash == [PAIRS, PAIRS] && s < STASHES && AllOf(SkewedHash, AllMove(), t.stash[s].cells, 2)
    ensures Holds(t.stash[s], 2, 14)
  {
    hide Count, AllOf;
    assert LoadsOf(t).stash[s] == Count(t.stash[s].cells);
  }

  /** All 72 pairs have been added, all of them move, and the split loses one. */
  lemma SplitCanLose()
    ensures var (t, refused) := Rebuild(SkewedHash, Keys(72));
      && refused == multiset{} && Inv(SkewedHash, t) && Contents(t) == multiset(Keys(72))
      && FitAll(HomesOf(SkewedHash, MovedFrom(AllMove(), t.bucket + t.stash))).1 == 1
  {
    hide Rebuild, SkewedHash, Inv, Contents, FitAll, HomesOf, MovedFrom, AllMove, Built, Rep;
    var (t, refused) := Rebuild(SkewedHash, Keys(72));
    BuildLoads();
    RebuildFits(SkewedHash, Keys(72));
    RebuildKeeps(SkewedHash, Keys(72));
    TableIsBuilt();
    WalkBuilt(t.bucket + t.stash);
    WalkLoads([] + Rep(2, 0), HomesOf(SkewedHash, MovedFrom(AllMove(), t.bucket + t.stash)));
  }

  // The same as a run

  lemma NewKey(h: Hasher, t: Segment, k: nat)
    requires Inv(h, t) && WellShaped(t) && Contents(t) == multiset(Keys(k))
    ensures Functional(Contents(t)) && !Duplicate(h, t, k)
    ensures multiset(Keys(k)) + multiset{Pair(k, 1)} == multiset(Keys(k + 1)) && Keys(k + 1) == Keys(k) + [Pair(k, 1)]
  {
    hide Inv, Contents, Duplicate;
    KeysNext(k);
    DuplicateIsPresence(h, t, k);
    KeysDistinct(k);
    assert forall p :: p in multiset(Keys(k)) <==> p in Keys(k);
  }

  /** While nothing has been refused in the end, nothing was refused on the way. */
  lemma {:induction false} RefusedGrows(h: Hasher, k: nat, n: nat)
    requires k <= n && Rebuild(h, Keys(n)).1 == multiset{}
    ensures Rebuild(h, Keys(k)).1 == multiset{}
  {
    hide Rebuild, Add;
    if k < n {
      KeysNext(n - 1);
      RebuildNext(h, Keys(n - 1), Pair(n - 1, 1));
      RefusedGrows(h, k, n - 1);
    }
  }

  /** 72 insertions into a new table of depth 0, each accepted; the split that follows loses a pair. */
  method LosingRun() returns (ghost lost: multiset<Pair>)
    ensures |lost| == 1
  {
    hide Rebuild, SkewedHash, Inv, Contents, FitAll, HomesOf, MovedFrom, Moves, Duplicate, DashUpdates.Add, Functional, Spread;
    SplitCanLose();
    var table := new Table(SkewedHash, 0);
    NothingRebuilt(SkewedHash);
    for k := 0 to 72
      invariant fresh(table) && table.Valid() && table.h == SkewedHash && table.localDepth == 0 && table.pattern == 0
      invariant table.View() == Rebuild(SkewedHash, Keys(k)).0 && Contents(table.View()) == multiset(Keys(k))
    {
      NewKey(SkewedHash, table.View(), k);
      RefusedGrows(SkewedHash, k + 1, 72);
      RebuildNext(SkewedHash, Keys(k), Pair(k, 1));
      DuplicateIsPresence(SkewedHash, table.View(), k);
      var r := table.Insert(k, 1);
      assert r == 0;
    }
    var next;
    next, lost := table.Split();
  }
}
