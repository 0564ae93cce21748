/**
 How runs of pairs that share a home spread over a row of Dash buckets, on the counts of DashFit: the phases from which
 concrete tables are put together, and the walk that a split takes over them.
 */
module DashRows {
  import opened Bags
  import opened DashMarks
  import opened DashSegment
  import opened DashUpdates
  import opened DashSplit
  import opened DashFit
  import opened DashRebuild

  const ZERO := Load(0, 0)

  function Rep(n: nat, y: nat): (s: seq<nat>)
    ensures |s| == n && (y < BUCKETS ==> InRing(s))
  {
    seq<nat>(n, _ => y)
  }

  /** The counts after n more pairs of home y, and how many of them found no seat. */
  function RowMany(row: seq<Load>, y: nat, n: nat): (r: (seq<Load>, nat))
    requires |row| == BUCKETS && y < BUCKETS
    ensures |r.0| == BUCKETS
  {
    if n == 0 then (row, 0)
    else
      var (m, unseated) := RowMany(row, y, n - 1);
      var (k, ok) := RowFit(m, y);
      (k, if ok then unseated else unseated + 1)
  }

  /** n more pairs of home y all find a seat and lead to row m. */
  ghost predicate Seats(row: seq<Load>, y: nat, n: nat, m: seq<Load>)
    requires |row| == BUCKETS && y < BUCKETS
  {
    RowMany(row, y, n) == (m, 0)
  }

  lemma {:induction false} RowManyMore(row: seq<Load>, y: nat, n: nat, m: nat)
    requires |row| == BUCKETS && y < BUCKETS
    ensures var (r, f) := RowMany(row, y, n);
      RowMany(row, y, n + m) == (RowMany(r, y, m).0, f + RowMany(r, y, m).1)
  {
    hide RowFit;
    if m > 0 {
      RowManyMore(row, y, n, m - 1);
      assert n + m - 1 == n + (m - 1);
    }
  }

  lemma Then(row: seq<Load>, y: nat, n: nat, m: seq<Load>, k: nat, r: seq<Load>)
    requires |row| == |m| == BUCKETS && y < BUCKETS && Seats(row, y, n, m) && Seats(m, y, k, r)
    ensures Seats(row, y, n + k, r)
  {
    RowManyMore(row, y, n, k);
  }

  lemma NoMore(row: seq<Load>, y: nat)
    requires |row| == BUCKETS && y < BUCKETS
    ensures Seats(row, y, 0, row)
  {
  }

  /** Once a pair finds no seat, no further pair of its home does. */
  lemma {:induction false} Unseated(row: seq<Load>, y: nat, n: nat)
    requires |row| == BUCKETS && y < BUCKETS && RowFit(row, y) == (row, false)
    ensures RowMany(row, y, n) == (row, n)
  {
    hide RowFit;
    if n > 0 {
      Unseated(row, y, n - 1);
    }
  }

  /** Counts of a row in which only buckets 0 to 4 hold pairs. */
  datatype Few = Few(b0: Load, b1: Load, b2: Load, b3: Load, b4: Load) {
    function At(y: nat): Load {
      if y == 0 then b0 else if y == 1 then b1 else if y == 2 then b2 else if y == 3 then b3 else b4
    }

    function Set(y: nat, x: Load): Few {
      if y == 0 then this.(b0 := x) else if y == 1 then this.(b1 := x) else if y == 2 then this.(b2 := x)
      else if y == 3 then this.(b3 := x) else this.(b4 := x)
    }

    function Row(): (row: seq<Load>)
      ensures |row| == BUCKETS && forall y :: 0 <= y <= 4 ==> row[y] == At(y)
    {
      [b0, b1, b2, b3, b4] + seq(BUCKETS - 5, _ => ZERO)
    }
  }

  lemma SetRow(b: Few, y: nat, x: Load)
    requires y <= 4
    ensures b.Row()[y := x] == b.Set(y, x).Row()
  {
  }

  lemma RowOfFew(b: Few, y: nat)
    requires y < BUCKETS
    ensures b.Row()[y] == if y <= 4 then b.At(y) else ZERO
  {
  }

  lemma HomeStep(b: Few, y: nat)
    requires y <= 3 && b.At(y).Total() <= b.At(y + 1).Total() && b.At(y).Total() < PAIRS
    ensures RowFit(b.Row(), y) == (b.Set(y, Load(b.At(y).own + 1, b.At(y).lent)).Row(), true)
  {
    SetRow(b, y, Load(b.At(y).own + 1, b.At(y).lent));
  }

  lemma NextStep(b: Few, y: nat)
    requires y <= 3 && b.At(y + 1).Total() < b.At(y).Total() <= PAIRS
    ensures RowFit(b.Row(), y) == (b.Set(y + 1, Load(b.At(y + 1).own, b.At(y + 1).lent + 1)).Row(), true)
  {
    SetRow(b, y + 1, Load(b.At(y + 1).own, b.At(y + 1).lent + 1));
  }

  /** Home first: as long as it holds no more than its neighbour. */
  lemma {:induction false} FillHome(b: Few, y: nat, n: nat)
    requires y <= 3 && (n > 0 ==> b.At(y).Total() + n - 1 <= b.At(y + 1).Total() && b.At(y).Total() + n - 1 < PAIRS)
    ensures Seats(b.Row(), y, n, b.Set(y, Load(b.At(y).own + n, b.At(y).lent)).Row())
    decreases n
  {
    hide RowFit, Few.Row;
    if n > 0 {
      FillHome(b, y, n - 1);
      HomeStep(b.Set(y, Load(b.At(y).own + n - 1, b.At(y).lent)), y);
    }
  }

  /** An empty bucket before a full one. */
  lemma FillNew(c: Few, d: Few, y: nat, n: nat)
    requires y <= 2 && c.At(y) == ZERO && c.At(y + 1).Total() == PAIRS && n <= PAIRS && d == c.Set(y, Load(n, 0))
    ensures Seats(c.Row(), y, n, d.Row())
  {
    hide RowFit, Few.Row, RowMany, Seats;
    FillHome(c, y, n);
  }

  /** The neighbour, as long as home holds more. */
  lemma {:induction false} FillNext(b: Few, y: nat, n: nat)
    requires y <= 3 && b.At(y + 1).Total() + n <= b.At(y).Total() <= PAIRS
    ensures Seats(b.Row(), y, n, b.Set(y + 1, Load(b.At(y + 1).own, b.At(y + 1).lent + n)).Row())
    decreases n
  {
    hide RowFit, Few.Row;
    if n > 0 {
      FillNext(b, y, n - 1);
      NextStep(b.Set(y + 1, Load(b.At(y + 1).own, b.At(y + 1).lent + n - 1)), y);
    }
  }

  function Both(b: Few, y: nat, n: nat): Few {
    b.Set(y, Load(b.At(y).own + n, b.At(y).lent)).Set(y + 1, Load(b.At(y + 1).own, b.At(y + 1).lent + n))
  }

  /** Home and neighbour in turn, from equal counts on. */
  lemma {:induction false} FillBoth(b: Few, y: nat, n: nat)
    requires y <= 3 && b.At(y).Total() == b.At(y + 1).Total() && b.At(y).Total() + n <= PAIRS
    ensures Seats(b.Row(), y, 2 * n, Both(b, y, n).Row())
    decreases n
  {
    hide RowMany, Seats, Few.Row;
    if n > 0 {
      var c := Both(b, y, n - 1);
      var e := c.Set(y, Load(c.At(y).own + 1, c.At(y).lent));
      FillBoth(b, y, n - 1);
      FillHome(c, y, 1);
      FillNext(e, y, 1);
      Then(c.Row(), y, 1, e.Row(), 1, Both(b, y, n).Row());
      Then(b.Row(), y, 2 * n - 2, c.Row(), 2, Both(b, y, n).Row());
    } else {
      NoMore(b.Row(), y);
    }
  }

  predicate Stuck(b: Few, y: nat) {
    1 <= y <= 3 && b.At(y).Total() == PAIRS && b.At(y + 1).Total() == PAIRS && b.At(y + 1).own == 0
  }

  function Sent(b: Few, y: nat, n: nat): Few
    requires y > 0 && b.At(y).lent >= n
  {
    b.Set(y - 1, Load(b.At(y - 1).own + n, b.At(y - 1).lent)).Set(y, Load(b.At(y).own + n, b.At(y).lent - n))
  }

  lemma PrevStep(b: Few, y: nat)
    requires Stuck(b, y) && b.At(y).lent > 0 && b.At(y - 1).Total() < PAIRS
    ensures RowFit(b.Row(), y) == (Sent(b, y, 1).Row(), true)
  {
    var e := b.Set(y - 1, Load(b.At(y - 1).own + 1, b.At(y - 1).lent));
    SetRow(b, y - 1, e.At(y - 1));
    SetRow(e, y, Load(b.At(y).own + 1, b.At(y).lent - 1));
  }

  /** Displacement to the left, as long as there is room. */
  lemma {:induction false} FillPrev(b: Few, y: nat, n: nat)
    requires Stuck(b, y) && b.At(y).lent >= n && b.At(y - 1).Total() + n <= PAIRS
    ensures Seats(b.Row(), y, n, Sent(b, y, n).Row())
    decreases n
  {
    hide RowFit, Few.Row;
    if n > 0 {
      FillPrev(b, y, n - 1);
      PrevStep(Sent(b, y, n - 1), y);
    }
  }

  /** Home and neighbour full, and no displacement helps. */
  predicate Seatless(row: seq<Load>, y: nat)
    requires |row| == BUCKETS && y < BUCKETS
  {
    && row[y].Total() == PAIRS && row[Next(y)].Total() == PAIRS
    && row[Next(y)].own == 0 && (row[y].lent == 0 || row[Prev(y)].Total() == PAIRS)
  }

  lemma NoSeatRow(row: seq<Load>, y: nat)
    requires |row| == BUCKETS && y < BUCKETS && Seatless(row, y)
    ensures RowFit(row, y) == (row, false)
  {
  }

  lemma SeatlessFew(b: Few, row: seq<Load>, y: nat)
    requires 1 <= y <= 3 && Stuck(b, y) && (b.At(y).lent == 0 || b.At(y - 1).Total() == PAIRS)
    requires |row| == BUCKETS && row[y] == b.At(y) && row[y + 1] == b.At(y + 1) && row[y - 1] == b.At(y - 1)
    ensures Seatless(row, y)
  {
    hide Few.At;
  }

  lemma NoSeat(b: Few, y: nat)
    requires 1 <= y <= 3 && Stuck(b, y) && (b.At(y).lent == 0 || b.At(y - 1).Total() == PAIRS)
    ensures RowFit(b.Row(), y) == (b.Row(), false)
  {
    hide Few.Row, Few.At, RowFit, Seatless, Stuck, Load.Total;
    SeatlessFew(b, b.Row(), y);
    NoSeatRow(b.Row(), y);
  }

  // The walk

  ghost predicate AllOf(h: Hasher, moves: Key -> bool, cells: seq<Cell>, y: nat) {
    forall c :: c in cells && c.Held? ==> Home(h(c.pair.key)) == y && moves(c.pair.key)
  }

  /** A bucket whose pairs share a home and move contributes that home as often as it holds pairs. */
  lemma {:induction false} WalkBucket(h: Hasher, moves: Key -> bool, cells: seq<Cell>, y: nat)
    requires AllOf(h, moves, cells, y)
    ensures HomesOf(h, MovedIn(moves, cells)) == Rep(Count(cells), y)
  {
    hide HomesOf, Home;
    if cells != [] {
      var front, c := cells[..|cells| - 1], cells[|cells| - 1];
      assert forall d :: d in front ==> d in cells;
      WalkBucket(h, moves, front, y);
      if c.Held? {
        assert c in cells;
        HomesSnoc(h, MovedIn(moves, front), c.pair);
        assert Rep(Count(cells), y) == Rep(Count(front), y) + [y];
      } else {
        assert MovedIn(moves, cells) == MovedIn(moves, front);
      }
    } else {
      NoHomes(h);
    }
  }

  lemma NoHomes(h: Hasher)
    ensures HomesOf(h, []) == []
  {
  }

  lemma HomesSnoc(h: Hasher, pairs: seq<Pair>, p: Pair)
    ensures HomesOf(h, pairs + [p]) == HomesOf(h, pairs) + [Home(h(p.key))]
  {
    assert (pairs + [p])[..|pairs|] == pairs;
  }

  lemma {:induction false} HomesAppend(h: Hasher, a: seq<Pair>, b: seq<Pair>)
    ensures HomesOf(h, a + b) == HomesOf(h, a) + HomesOf(h, b)
  {
    if b == [] {
      assert a + b == a;
    } else {
      assert (a + b)[..|a + b| - 1] == a + b[..|b| - 1];
      HomesAppend(h, a, b[..|b| - 1]);
    }
  }

  /** One more bucket of the walk. */
  lemma WalkNext(h: Hasher, moves: Key -> bool, bs: seq<Bucket>, i: nat, y: nat, homes: seq<nat>)
    requires i < |bs| && AllOf(h, moves, bs[i].cells, y) && HomesOf(h, MovedFrom(moves, bs[..i])) == homes
    ensures HomesOf(h, MovedFrom(moves, bs[..i + 1])) == homes + Rep(Count(bs[i].cells), y)
  {
    hide HomesOf, MovedFrom, MovedIn, Rep, Count;
    WalkBucket(h, moves, bs[i].cells, y);
    MovedNextBucket(moves, bs, i);
    HomesAppend(h, MovedFrom(moves, bs[..i]), MovedIn(moves, bs[i].cells));
  }

  /** How many pairs the buckets hold. */
  function TotalCount(bs: seq<Bucket>): nat {
    if bs == [] then 0 else TotalCount(bs[..|bs| - 1]) + Count(bs[|bs| - 1].cells)
  }

  lemma {:induction false} NoTotal(bs: seq<Bucket>)
    requires forall j :: 0 <= j < |bs| ==> Count(bs[j].cells) == 0
    ensures TotalCount(bs) == 0
  {
    if bs != [] {
      NoTotal(bs[..|bs| - 1]);
    }
  }

  /** Buckets from the i-th on whose pairs share a home. */
  lemma {:induction false} WalkSame(h: Hasher, moves: Key -> bool, bs: seq<Bucket>, i: nat, j: nat, y: nat, homes: seq<nat>)
    requires i <= j <= |bs| && HomesOf(h, MovedFrom(moves, bs[..i])) == homes
    requires forall k :: i <= k < j ==> AllOf(h, moves, bs[k].cells, y)
    ensures HomesOf(h, MovedFrom(moves, bs[..j])) == homes + Rep(TotalCount(bs[i..j]), y)
    decreases j
  {
    hide HomesOf, MovedFrom, AllOf, Count;
    if i < j {
      WalkSame(h, moves, bs, i, j - 1, y, homes);
      WalkNext(h, moves, bs, j - 1, y, homes + Rep(TotalCount(bs[i..j - 1]), y));
      assert bs[i..j][..j - 1 - i] == bs[i..j - 1];
      assert Rep(TotalCount(bs[i..j]), y) == Rep(TotalCount(bs[i..j - 1]), y) + Rep(Count(bs[j - 1].cells), y);
    } else {
      assert bs[i..j] == [];
    }
  }

  /** In a bucket that holds only one kind of pair, all have the same home. */
  lemma RowHomes(h: Hasher, moves: Key -> bool, t: Segment, y: nat)
    requires Inv(h, t) && Chained(t) && y < BUCKETS && forall k :: moves(k)
    ensures LoadOf(t.bucket[y]).lent == 0 ==> AllOf(h, moves, t.bucket[y].cells, y)
    ensures LoadOf(t.bucket[y]).own == 0 ==> AllOf(h, moves, t.bucket[y].cells, Prev(y))
  {
    hide Promised, Home, Tag;
    var cells := t.bucket[y].cells;
    TallyZero(cells, IsLent);
    TallyZero(cells, IsOwn);
    assert BucketOk(h, y, t.bucket[y]);
    forall i | 0 <= i < |cells| && cells[i].Held?
      ensures if cells[i].probe then Next(Home(h(cells[i].pair.key))) == y else Home(h(cells[i].pair.key)) == y
    {
      assert CellOk(h, y, cells[i]);
    }
  }

  lemma NoneHeld(h: Hasher, moves: Key -> bool, cells: seq<Cell>)
    requires Count(cells) == 0
    ensures forall y :: AllOf(h, moves, cells, y)
  {
    CountLoads(cells);
    TallyZero(cells, IsOwn);
    TallyZero(cells, IsLent);
    assert forall i :: 0 <= i < |cells| ==> !IsOwn(cells[i]) && !IsLent(cells[i]);
  }

  ghost predicate Contributes(h: Hasher, moves: Key -> bool, b: Bucket, y: nat, n: nat) {
    AllOf(h, moves, b.cells, y) && Count(b.cells) == n
  }

  /** A bucket of these counts contributes this home. */
  lemma RowContributes(h: Hasher, moves: Key -> bool, t: Segment, y: nat, l: Load, home: nat)
    requires Inv(h, t) && Chained(t) && y < BUCKETS && LoadOf(t.bucket[y]) == l && forall k :: moves(k)
    requires (l.lent == 0 && home == y) || (l.own == 0 && home == Prev(y)) || l.Total() == 0
    ensures Contributes(h, moves, t.bucket[y], home, l.Total())
  {
    hide Inv, AllOf, LoadOf, Count;
    FullLoads(t.bucket[y]);
    RowHomes(h, moves, t, y);
    if l.Total() == 0 {
      NoneHeld(h, moves, t.bucket[y].cells);
    }
  }

  /** The counts of one bucket of a table whose row is known. */
  lemma LoadOfFew(t: Segment, b: Few, y: nat)
    requires Chained(t) && RowOf(t.bucket) == b.Row() && y < BUCKETS
    ensures LoadOf(t.bucket[y]) == if y <= 4 then b.At(y) else ZERO
  {
    hide LoadOf, Few.Row, Few.At;
    RowOfFew(b, y);
    assert RowOf(t.bucket)[y] == LoadOf(t.bucket[y]);
  }

  // Keys whose homes are given

  function Keys(n: nat): (s: seq<Pair>)
    ensures |s| == n
  {
    seq(n, k => Pair(k, 1))
  }

  lemma KeysNext(n: nat)
    ensures Keys(n + 1) == Keys(n) + [Pair(n, 1)] && Keys(n + 1)[..n] == Keys(n)
  {
  }

  /** The pairs of Keys are new keys each. */
  lemma {:induction false} KeysDistinct(n: nat)
    ensures forall p :: p in Keys(n) ==> multiset(Keys(n))[p] == 1
  {
    if n > 0 {
      KeysDistinct(n - 1);
      assert Keys(n) == Keys(n - 1) + [Pair(n - 1, 1)];
    }
  }
}
