/**
 A table of Dash linear hashing whose split runs into the assertion on the overflow counter.  It holds 282 pairs of one
 home and 42 of the three homes before it; the walk meets those first, they take seats that the 282 had, and one pair
 more than a counter and eight marks can account for is left for the stash.
 */
module LhAbort {
  import opened Bags
  import opened Powers
  import opened DashMarks
  import opened DashSegment
  import opened DashUpdates
  import opened DashSplit
  import opened DashFit
  import opened DashRebuild
  import opened DashRows
  import opened LhExpansion
  import opened LhSegment
  import opened LhRebuild
  import opened LhTable

  // The pairs

  function HomeFor(k: Key): (y: nat)
    ensures y <= 3
  {
    if k < 282 then 3 else if k < 296 then 2 else if k < 310 then 1 else 0
  }

  /** Every hash addresses table 64 at level 7 and table 0 at level 6, so every pair of table 0 moves. */
  function CrowdHash(k: Key): nat {
    HomeFor(k) * Pow2(50) + 64
  }

  function CrowdPlacing(): Hasher {
    Placing(CrowdHash)
  }

  lemma Powers50()
    ensures Pow2(6) == 64 && Pow2(7) == 128 && Pow2(50) == Pow2(43) * 128 && Pow2(50) >= 128
  {
    assert Pow2(3) == 8;
    assert Pow2(6) == 64;
    assert Pow2(7) == 128;
    hide Pow2;
    Pow2Add(43, 7);
    Pow2Monotone(7, 50);
  }

  lemma CrowdHome(k: Key)
    ensures Home(CrowdPlacing()(k)) == HomeFor(k)
  {
    Powers50();
    WordFields(CrowdHash(k));
    hide Pow2, Home, Word;
    DivMul(HomeFor(k), Pow2(50), 64);
  }

  lemma CrowdMoves(k: Key)
    ensures Moves(CrowdHash, 6)(k) && Idx(CrowdHash(k), 6) == 0
  {
    var q := HomeFor(k) * Pow2(43);
    Powers50();
    MulOrder(HomeFor(k), Pow2(43));
    hide Pow2;
    assert CrowdHash(k) == q * 128 + 64 == (2 * q + 1) * 64 + 0;
    DivMul(q, 128, 64);
    DivMul(2 * q + 1, 64, 0);
  }

  lemma CrowdHashes(k: Key)
    ensures Home(CrowdPlacing()(k)) == HomeFor(k) && Moves(CrowdHash, 6)(k) && Idx(CrowdHash(k), 6) == 0
  {
    hide CrowdPlacing, CrowdHash, Home, Moves, Idx;
    CrowdHome(k);
    CrowdMoves(k);
  }

  lemma MulOrder(y: nat, q: nat)
    ensures y * (q * 128) == (y * q) * 128
  {
  }

  function AllMove(): Key -> bool {
    Moves(CrowdHash, 6)
  }

  lemma AllKeysMove()
    ensures forall k :: AllMove()(k)
  {
    forall k ensures AllMove()(k) { CrowdHashes(k); }
  }

  // Building the table

  const BUILT := Few(Load(PAIRS, 0), Load(PAIRS, 0), Load(PAIRS, 0), Load(PAIRS, 0), Load(0, PAIRS))

  lemma {:induction false} HomesOfKeys(n: nat)
    ensures HomesOf(CrowdPlacing(), Keys(n)) == seq<nat>(n, k => HomeFor(k))
  {
    hide CrowdPlacing, Home;
    if n > 0 {
      HomesOfKeys(n - 1);
      KeysNext(n - 1);
      CrowdHashes(n - 1);
    }
  }

  lemma StartsEmpty(b: Few)
    requires b == Few(ZERO, ZERO, ZERO, ZERO, ZERO)
    ensures RowAll([], 3) == (b.Row(), 0)
  {
    assert NoLoads().row == b.Row();
  }

  /** n more pairs of a home x, all of which find seats. */
  lemma SeatMany(homes: seq<nat>, row: seq<Load>, x: nat, n: nat, m: seq<Load>)
    requires InRing(homes) && x < BUCKETS && |row| == BUCKETS && RowAll(homes, 3) == (row, 0) && Seats(row, x, n, m)
    ensures InRing(homes + Rep(n, x)) && RowAll(homes + Rep(n, x), 3) == (m, 0)
  {
    hide RowAll;
    RowAllMany(homes, 3, x, n);
  }

  /** n more pairs of home 3, none of which finds a seat. */
  lemma MissMany(homes: seq<nat>, row: seq<Load>, n: nat)
    requires InRing(homes) && |row| == BUCKETS && RowAll(homes, 3) == (row, 0) && RowFit(row, 3) == (row, false)
    ensures InRing(homes + Rep(n, 3)) && RowAll(homes + Rep(n, 3), 3) == (row, 0)
  {
    hide RowAll;
    Unseated(row, 3, n);
    RowAllMany(homes, 3, 3, n);
  }

  lemma BuildFirst(b: Few, c: Few)
    requires b == Few(ZERO, ZERO, ZERO, ZERO, ZERO) && c == b.(b3 := Load(PAIRS, 0), b4 := Load(0, PAIRS))
    ensures var homes := ([] + Rep(28, 3)) + Rep(254, 3); InRing(homes) && RowAll(homes, 3) == (c.Row(), 0)
  {
    hide RowAll, RowFit, Few.Row, RowMany, Seats;
    StartsEmpty(b);
    FillBoth(b, 3, PAIRS);
    SeatMany([], b.Row(), 3, 28, c.Row());
    NoSeat(c, 3);
    MissMany([] + Rep(28, 3), c.Row(), 254);
  }

  lemma BuildNext(c: Few, d: Few, y: nat, n: nat, homes: seq<nat>)
    requires InRing(homes) && RowAll(homes, 3) == (c.Row(), 0)
    requires y <= 2 && c.At(y) == ZERO && c.At(y + 1).Total() == PAIRS && n <= PAIRS && d == c.Set(y, Load(n, 0))
    ensures InRing(homes + Rep(n, y)) && RowAll(homes + Rep(n, y), 3) == (d.Row(), 0)
  {
    hide RowAll, RowFit, Few.Row, RowMany, Seats;
    assert Seats(c.Row(), y, n, d.Row()) by { FillNew(c, d, y, n); }
    hide Few.At, Few.Set;
    SeatMany(homes, c.Row(), y, n, d.Row());
  }

  lemma KeysInOrder()
    ensures HomesOf(CrowdPlacing(), Keys(324)) == ([] + Rep(28, 3)) + Rep(254, 3) + Rep(14, 2) + Rep(14, 1) + Rep(14, 0)
  {
    hide CrowdPlacing, HomesOf;
    HomesOfKeys(324);
  }

  lemma BuildRow()
    ensures RowAll(HomesOf(CrowdPlacing(), Keys(324)), 3) == (BUILT.Row(), 0)
  {
    hide RowAll, HomesOf, CrowdPlacing, Keys, Few.Row, Rep;
    var b, c := Few(ZERO, ZERO, ZERO, ZERO, ZERO), BUILT.(b0 := ZERO, b1 := ZERO, b2 := ZERO);
    var homes := ([] + Rep(28, 3)) + Rep(254, 3);
    KeysInOrder();
    BuildFirst(b, c);
    BuildNext(c, BUILT.(b0 := ZERO, b1 := ZERO), 2, 14, homes);
    BuildNext(BUILT.(b0 := ZERO, b1 := ZERO), BUILT.(b0 := ZERO), 1, 14, homes + Rep(14, 2));
    BuildNext(BUILT.(b0 := ZERO), BUILT, 0, 14, homes + Rep(14, 2) + Rep(14, 1));
  }

  /** Where only home 3 misses seats in the end, only home 3 missed any on the way. */
  lemma {:induction false} OthersGrow(k: nat, n: nat)
    requires k <= n && RowAll(HomesOf(CrowdPlacing(), Keys(n)), 3).1 == 0
    ensures RowAll(HomesOf(CrowdPlacing(), Keys(k)), 3).1 == 0
  {
    hide RowAll, CrowdPlacing, Home, HomesOf, RowFit;
    if k < n {
      KeysNext(n - 1);
      HomesSnoc(CrowdPlacing(), Keys(n - 1), Pair(n - 1, 1));
      RowAllNext(HomesOf(CrowdPlacing(), Keys(n - 1)), 3, Home(CrowdPlacing()(n - 1)));
      OthersGrow(k, n - 1);
    }
  }

  /** Every one of the 324 pairs is taken. */
  lemma {:induction false} BuildFits(n: nat)
    requires n <= 324
    ensures LongRebuild(CrowdPlacing(), Keys(n)).1
  {
    hide RowAll, CrowdPlacing, Home, HomesOf, RowFit, LongRebuild, Seat, StashLong, Markable, RowOf, Tag, Full;
    if n <= 282 {
      LongFits(CrowdPlacing(), Keys(n));
    } else {
      BuildFits(n - 1);
      BuildRow();
      OthersGrow(n, 324);
      CrowdHashes(n - 1);
      KeysNext(n - 1);
      HomesSnoc(CrowdPlacing(), Keys(n - 1), Pair(n - 1, 1));
      RowAllNext(HomesOf(CrowdPlacing(), Keys(n - 1)), 3, Home(CrowdPlacing()(n - 1)));
      LongRow(CrowdPlacing(), Keys(n - 1), 3);
      LongNext(CrowdPlacing(), Keys(n - 1), Pair(n - 1, 1));
      var t := LongRebuild(CrowdPlacing(), Keys(n - 1)).0;
      SeatFits(t, Home(CrowdPlacing()(n - 1)), Tag(CrowdPlacing()(n - 1)), Pair(n - 1, 1));
    }
  }

  // The walk over the built table

  ghost predicate Holds(b: Bucket, y: nat, n: nat) {
    Contributes(CrowdPlacing(), AllMove(), b, y, n)
  }

  lemma RowIsBuilt(t: Segment, b: Few, y: nat)
    requires Inv(CrowdPlacing(), t) && Chained(t) && b == BUILT && y < BUCKETS
    requires LoadOf(t.bucket[y]) == if y <= 4 then b.At(y) else ZERO
    ensures Holds(t.bucket[y], if y >= 3 then 3 else y, if y <= 4 then 14 else 0)
  {
    hide CrowdPlacing, AllMove, Inv, Contributes, LoadOf;
    AllKeysMove();
    RowContributes(CrowdPlacing(), AllMove(), t, y, if y <= 4 then b.At(y) else ZERO, if y >= 3 then 3 else y);
  }

  lemma FewTotal(b: Few)
    ensures RowTotal(b.Row()) == b.b0.Total() + b.b1.Total() + b.b2.Total() + b.b3.Total() + b.b4.Total()
  {
    FewRest(b);
    RowTotalFrom(b.Row(), 5);
    hide Few.Row, RowTotal;
    assert b.At(0) == b.b0 && b.At(1) == b.b1 && b.At(2) == b.b2 && b.At(3) == b.b3 && b.At(4) == b.b4;
    hide Few.At;
    FirstFive(b.Row());
  }

  lemma FirstFive(row: seq<Load>)
    requires |row| >= 5
    ensures RowTotal(row[..5]) == row[0].Total() + row[1].Total() + row[2].Total() + row[3].Total() + row[4].Total()
  {
    FirstThree(row);
    hide RowTotal, Load.Total;
    RowTotalStep(row, 3);
    RowTotalStep(row, 4);
  }

  lemma FirstThree(row: seq<Load>)
    requires |row| >= 3
    ensures RowTotal(row[..3]) == row[0].Total() + row[1].Total() + row[2].Total()
  {
    hide RowTotal, Load.Total;
    RowTotalNone(row);
    RowTotalStep(row, 0);
    RowTotalStep(row, 1);
    RowTotalStep(row, 2);
  }

  lemma FewRest(b: Few)
    ensures forall z :: 5 <= z < BUCKETS ==> b.Row()[z] == ZERO
  {
  }

  lemma RowTotalNone(row: seq<Load>)
    ensures RowTotal(row[..0]) == 0
  {
  }

  lemma RowTotalStep(row: seq<Load>, y: nat)
    requires y < |row|
    ensures RowTotal(row[..y + 1]) == RowTotal(row[..y]) + row[y].Total()
  {
    assert row[..y + 1][..y] == row[..y];
  }

  lemma {:induction false} RowTotalFrom(row: seq<Load>, y: nat)
    requires y <= |row| && forall z :: y <= z < |row| ==> row[z] == ZERO
    ensures RowTotal(row) == RowTotal(row[..y])
  {
    if y < |row| {
      RowTotalFrom(row[..|row| - 1], y);
      assert row[..|row| - 1][..y] == row[..y];
    } else {
      assert row[..y] == row;
    }
  }

  ghost predicate Built(bs: seq<Bucket>) {
    && |bs| >= BUCKETS && Holds(bs[0], 0, 14) && Holds(bs[1], 1, 14) && Holds(bs[2], 2, 14) && Holds(bs[3], 3, 14)
    && Holds(bs[4], 3, 14) && (forall j :: 5 <= j < BUCKETS ==> Holds(bs[j], 3, 0))
    && (forall j :: BUCKETS <= j < |bs| ==> AllOf(CrowdPlacing(), AllMove(), bs[j].cells, 3)) && TotalCount(bs[BUCKETS..]) == 254
  }

  lemma WalkRow(bs: seq<Bucket>)
    requires Built(bs)
    ensures HomesOf(CrowdPlacing(), MovedFrom(AllMove(), bs[..5])) == [] + Rep(14, 0) + Rep(14, 1) + Rep(14, 2) + Rep(14, 3) + Rep(14, 3)
  {
    hide CrowdPlacing, AllMove, HomesOf, MovedFrom, AllOf, Count, Rep;
    NoBucketMoved(AllMove(), bs);
    NoHomes(CrowdPlacing());
    var h0, h1 := [] + Rep(14, 0), [] + Rep(14, 0) + Rep(14, 1);
    WalkNext(CrowdPlacing(), AllMove(), bs, 0, 0, []);
    WalkNext(CrowdPlacing(), AllMove(), bs, 1, 1, h0);
    WalkNext(CrowdPlacing(), AllMove(), bs, 2, 2, h1);
    WalkNext(CrowdPlacing(), AllMove(), bs, 3, 3, h1 + Rep(14, 2));
    WalkNext(CrowdPlacing(), AllMove(), bs, 4, 3, h1 + Rep(14, 2) + Rep(14, 3));
  }

  lemma WalkBuilt(bs: seq<Bucket>)
    requires Built(bs)
    ensures HomesOf(CrowdPlacing(), MovedFrom(AllMove(), bs)) ==
      ((([] + Rep(14, 0)) + Rep(14, 1)) + Rep(14, 2)) + Rep(18, 3) + Rep(264, 3)
  {
    hide CrowdPlacing, AllMove, HomesOf, MovedFrom, AllOf, Count;
    WalkRow(bs);
    var homes := [] + Rep(14, 0) + Rep(14, 1) + Rep(14, 2) + Rep(14, 3) + Rep(14, 3);
    NoTotal(bs[5..BUCKETS]);
    WalkSame(CrowdPlacing(), AllMove(), bs, 5, BUCKETS, 3, homes);
    assert homes + Rep(0, 3) == homes;
    WalkSame(CrowdPlacing(), AllMove(), bs, BUCKETS, |bs|, 3, homes);
    assert bs[..|bs|] == bs && bs[BUCKETS..|bs|] == bs[BUCKETS..];
  }

  lemma StashIsBuilt(t: Segment)
    requires Chained(t) && StashOnly(CrowdPlacing(), t.stash, 3)
    ensures forall s :: 0 <= s < |t.stash| ==> AllOf(CrowdPlacing(), AllMove(), t.stash[s].cells, 3)
  {
    hide CrowdPlacing, AllMove, Home;
    AllKeysMove();
  }

  lemma TableIsBuilt()
    ensures var t := LongRebuild(CrowdPlacing(), Keys(324)).0; Built(t.bucket + t.stash)
  {
    hide LongRebuild, CrowdPlacing, Inv, Contents, RowAll, HomesOf, AllOf, Holds, Few.Row, RowOf, AllMove, RowTotal, TotalCount, StashOnly;
    var t := LongRebuild(CrowdPlacing(), Keys(324)).0;
    BuildFits(324);
    BuildRow();
    LongRow(CrowdPlacing(), Keys(324), 3);
    LongKeeps(CrowdPlacing(), Keys(324));
    ContentsTotal(t);
    FewTotal(BUILT);
    StashIsBuilt(t);
    forall y: nat | y < BUCKETS
      ensures Holds(t.bucket[y], if y >= 3 then 3 else y, if y <= 4 then 14 else 0)
    {
      LoadOfFew(t, BUILT, y);
      RowIsBuilt(t, BUILT, y);
    }
    assert (t.bucket + t.stash)[BUCKETS..] == t.stash;
  }

  // What the walk does to a new table

  /** Home 0: seven each; home 1: seven lent, six in turn, one; home 2: ten lent, four in turn. */
  lemma WalkSeats(b: Few, c: Few, d: Few, e: Few)
    requires b == Few(ZERO, ZERO, ZERO, ZERO, ZERO) && c == Few(Load(7, 0), Load(0, 7), ZERO, ZERO, ZERO)
    requires d == Few(Load(7, 0), Load(4, 7), Load(0, 10), ZERO, ZERO)
    requires e == Few(Load(7, 0), Load(4, 7), Load(2, 10), Load(0, 12), ZERO)
    ensures Seats(b.Row(), 0, 14, c.Row()) && Seats(c.Row(), 1, 14, d.Row()) && Seats(d.Row(), 2, 14, e.Row())
  {
    hide RowMany, Seats, Few.Row;
    FillBoth(b, 0, 7);
    SeatOne(c, d);
    FillNext(d, 2, 10);
    FillBoth(d.(b3 := Load(0, 10)), 2, 2);
    Then(d.Row(), 2, 10, d.(b3 := Load(0, 10)).Row(), 4, e.Row());
  }

  lemma SeatOne(c: Few, d: Few)
    requires c == Few(Load(7, 0), Load(0, 7), ZERO, ZERO, ZERO) && d == Few(Load(7, 0), Load(4, 7), Load(0, 10), ZERO, ZERO)
    ensures Seats(c.Row(), 1, 14, d.Row())
  {
    hide RowMany, Seats, Few.Row;
    var x, z := c.(b2 := Load(0, 7)), d.(b1 := Load(3, 7));
    FillNext(c, 1, 7);
    FillBoth(x, 1, 3);
    Then(c.Row(), 1, 7, x.Row(), 6, z.Row());
    FillHome(z, 1, 1);
    Then(c.Row(), 1, 13, z.Row(), 1, d.Row());
  }

  /** Home 3: twelve lent, four in turn, two displaced to the left, and no seat after that. */
  lemma WalkLast(e: Few, f: Few)
    requires e == Few(Load(7, 0), Load(4, 7), Load(2, 10), Load(0, 12), ZERO)
    requires f == Few(Load(7, 0), Load(4, 7), Load(4, 10), Load(4, 10), Load(0, PAIRS))
    ensures Seats(e.Row(), 3, 18, f.Row()) && RowFit(f.Row(), 3) == (f.Row(), false)
  {
    hide RowMany, Seats, Few.Row;
    var x, z := e.(b4 := Load(0, 12)), e.(b3 := Load(2, 12), b4 := Load(0, PAIRS));
    FillNext(e, 3, 12);
    FillBoth(x, 3, 2);
    Then(e.Row(), 3, 12, x.Row(), 4, z.Row());
    FillPrev(z, 3, 2);
    Then(e.Row(), 3, 16, z.Row(), 2, f.Row());
    NoSeat(f, 3);
  }

  /** 60 seats are taken in the end, and only pairs of home 3 go without. */
  lemma WalkRows(f: Few, homes: seq<nat>)
    requires f == Few(Load(7, 0), Load(4, 7), Load(4, 10), Load(4, 10), Load(0, PAIRS))
    requires homes == ((([] + Rep(14, 0)) + Rep(14, 1)) + Rep(14, 2)) + Rep(18, 3) + Rep(264, 3) && InRing(homes)
    ensures RowAll(homes, 3) == (f.Row(), 0)
  {
    hide RowAll, RowFit, Few.Row, RowMany, Seats, Rep;
    var b, c := Few(ZERO, ZERO, ZERO, ZERO, ZERO), Few(Load(7, 0), Load(0, 7), ZERO, ZERO, ZERO);
    var d, e := Few(Load(7, 0), Load(4, 7), Load(0, 10), ZERO, ZERO), Few(Load(7, 0), Load(4, 7), Load(2, 10), Load(0, 12), ZERO);
    StartsEmpty(b);
    WalkSeats(b, c, d, e);
    WalkLast(e, f);
    SeatMany([], b.Row(), 0, 14, c.Row());
    SeatMany([] + Rep(14, 0), c.Row(), 1, 14, d.Row());
    SeatMany(([] + Rep(14, 0)) + Rep(14, 1), d.Row(), 2, 14, e.Row());
    SeatMany((([] + Rep(14, 0)) + Rep(14, 1)) + Rep(14, 2), e.Row(), 3, 18, f.Row());
    MissMany((([] + Rep(14, 0)) + Rep(14, 1)) + Rep(14, 2) + Rep(18, 3), f.Row(), 264);
  }

  /** A table that had taken all these pairs would have stashed 264 of home 3, one too many. */
  lemma WalkStops(pairs: seq<Pair>)
    requires forall p :: p in pairs ==> p.value != NONE
    requires HomesOf(CrowdPlacing(), pairs) == ((([] + Rep(14, 0)) + Rep(14, 1)) + Rep(14, 2)) + Rep(18, 3) + Rep(264, 3)
    ensures !LongRebuild(CrowdPlacing(), pairs).1
  {
    hide LongRebuild, CrowdPlacing, Inv, Contents, RowAll, HomesOf, Few.Row, RowOf, RowTotal, TotalCount, StashOnly, Stashed;
    var f := Few(Load(7, 0), Load(4, 7), Load(4, 10), Load(4, 10), Load(0, PAIRS));
    WalkRows(f, HomesOf(CrowdPlacing(), pairs));
    FewTotal(f);
    LongKeeps(CrowdPlacing(), pairs);
    if LongRebuild(CrowdPlacing(), pairs).1 {
      var t := LongRebuild(CrowdPlacing(), pairs).0;
      LongRow(CrowdPlacing(), pairs, 3);
      ContentsTotal(t);
      StashedTotal(CrowdPlacing(), t.stash, 3);
      StashedAtMost(CrowdPlacing(), t, 3);
    }
  }

  lemma LeavingValues(t: Segment, n: nat)
    requires Contents(t) == multiset(Keys(n))
    ensures forall p :: p in MovedFrom(AllMove(), t.bucket + t.stash) ==> p.value != NONE
  {
    hide AllMove;
    LeavingIsStored(AllMove(), t);
    forall p | p in MovedFrom(AllMove(), t.bucket + t.stash)
      ensures p.value != NONE
    {
      assert p in multiset(MovedFrom(AllMove(), t.bucket + t.stash));
      assert p in multiset(Keys(n));
    }
  }

  /** All 324 pairs have been added, table 0 at level 6 is addressed by all of them, and its split cannot be completed. */
  lemma SplitCanAbort()
    ensures var (t, ok) := LongRebuild(CrowdPlacing(), Keys(324));
      && ok && Inv(CrowdPlacing(), t) && Contents(t) == multiset(Keys(324)) && Addressed(CrowdHash, Contents(t), 6, 0)
      && !LongRebuild(CrowdPlacing(), MovedFrom(Moves(CrowdHash, 6), t.bucket + t.stash)).1
  {
    hide LongRebuild, CrowdPlacing, Inv, Contents, HomesOf, MovedFrom, Moves, Built, CrowdHash, Idx;
    var t := LongRebuild(CrowdPlacing(), Keys(324)).0;
    BuildFits(324);
    LongKeeps(CrowdPlacing(), Keys(324));
    TableIsBuilt();
    WalkBuilt(t.bucket + t.stash);
    LeavingValues(t, 324);
    WalkStops(MovedFrom(AllMove(), t.bucket + t.stash));
    forall p | p in Contents(t)
      ensures Idx(CrowdHash(p.key), 6) == 0
    {
      CrowdHashes(p.key);
    }
  }

  /** 324 pairs go into a new table, all answered Done; the split that follows answers Aborted. */
  method AbortingRun() returns (r: Reply)
    ensures r.Aborted?
  {
    hide LongRebuild, CrowdHash, Inv, Contents, MovedFrom, Moves, AddLong, Addressed, AllSettled, Placing, FewPerHome;
    SplitCanAbort();
    var org := new Table(CrowdHash);
    NothingLong(CrowdPlacing());
    for k := 0 to 324
      invariant fresh(org) && org.Valid() && AllDense(org.bucket) && org.hash == CrowdHash
      invariant (org.View(), true) == LongRebuild(CrowdPlacing(), Keys(k))
    {
      KeysNext(k);
      BuildFits(k + 1);
      LongNext(CrowdPlacing(), Keys(k), Pair(k, 1));
      var keyHash := Placing(CrowdHash)(k);
      var added := org.Insert4split(Pair(k, 1), keyHash, Tag(keyHash));
      assert added.Done?;
    }
    var next := new Table(CrowdHash);
    r := next.Split(org, 6, 0);
  }
}
