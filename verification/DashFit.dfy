/**
 Which pairs a Dash split can place. A new table is filled by adding the pairs that move one after the other, and
 whether one of them finds room depends on nothing but how many pairs each bucket holds for itself and for its left
 neighbour, and how many each stash bucket holds. This module keeps just those counts.
 */
module DashFit {
  import opened Bags
  import opened DashMarks
  import opened DashSegment
  import opened DashUpdates
  import opened DashSplit

  predicate IsOwn(c: Cell) {
    c.Held? && !c.probe
  }

  predicate IsLent(c: Cell) {
    c.Held? && c.probe
  }

  /** How many pairs a bucket holds as their home, and how many for its left neighbour. */
  datatype Load = Load(own: nat, lent: nat) {
    function Total(): nat {
      own + lent
    }
  }

  datatype Loads = Loads(row: seq<Load>, stash: seq<nat>) {
    predicate Shaped() {
      |row| == BUCKETS && |stash| == STASHES
    }
  }

  function LoadOf(b: Bucket): Load {
    Load(Tally(b.cells, IsOwn), Tally(b.cells, IsLent))
  }

  function RowOf(bucket: seq<Bucket>): (row: seq<Load>)
    requires Ring(bucket)
    ensures |row| == BUCKETS
  {
    seq(BUCKETS, y requires 0 <= y < BUCKETS => LoadOf(bucket[y]))
  }

  function LoadsOf(t: Segment): (l: Loads)
    requires WellShaped(t)
    ensures l.Shaped()
  {
    Loads(RowOf(t.bucket), seq(STASHES, s requires 0 <= s < STASHES => Count(t.stash[s].cells)))
  }

  /** What Seat does to the counts of the buckets for home y, and whether it finds a cell. */
  function RowFit(row: seq<Load>, y: nat): (r: (seq<Load>, bool))
    requires |row| == BUCKETS && y < BUCKETS
    ensures |r.0| == BUCKETS && (!r.1 ==> r.0 == row && row[y].Total() == PAIRS && row[Next(y)].Total() == PAIRS)
  {
    var z, w, v := Next(y), Next(Next(y)), Prev(y);
    var b, n := row[y], row[z];
    if b.Total() == PAIRS && n.Total() == PAIRS then
      if n.own > 0 && row[w].Total() < PAIRS then
        (row[w := Load(row[w].own, row[w].lent + 1)][z := Load(n.own - 1, n.lent + 1)], true)
      else if b.lent > 0 && row[v].Total() < PAIRS then
        (row[v := Load(row[v].own + 1, row[v].lent)][y := Load(b.own + 1, b.lent - 1)], true)
      else (row, false)
    else if b.Total() <= n.Total() then (row[y := Load(b.own + 1, b.lent)], true)
    else (row[z := Load(n.own, n.lent + 1)], true)
  }

  /** What Add does to the counts for home y, and whether it finds room. */
  function Fit(l: Loads, y: nat): (r: (Loads, bool))
    requires l.Shaped() && y < BUCKETS
    ensures r.0.Shaped()
  {
    var (row, seated) := RowFit(l.row, y);
    if seated then (Loads(row, l.stash), true)
    else if l.stash[y % 2] < PAIRS then (l.(stash := l.stash[y % 2 := l.stash[y % 2] + 1]), true)
    else if l.stash[1 - y % 2] < PAIRS then (l.(stash := l.stash[1 - y % 2 := l.stash[1 - y % 2] + 1]), true)
    else (l, false)
  }

  /** No room: home, right neighbour and both stash buckets are full. */
  predicate Crammed(t: Segment, y: nat)
    requires Chained(t) && y < BUCKETS
  {
    Full(t.bucket[y]) && Full(t.bucket[Next(y)]) && Full(t.stash[0]) && Full(t.stash[1])
  }

  // Counting cells

  lemma {:induction false} CountLoads(cells: seq<Cell>)
    ensures Count(cells) == Tally(cells, IsOwn) + Tally(cells, IsLent)
  {
    if cells != [] {
      CountLoads(cells[..|cells| - 1]);
    }
  }

  /** A displaceable pair exists exactly when the count of its kind is positive. */
  lemma MemberLoads(cells: seq<Cell>)
    ensures FirstMember(cells, true) < |cells| <==> Tally(cells, IsLent) > 0
    ensures Count(cells) == |cells| ==> (FirstMember(cells, false) < |cells| <==> Tally(cells, IsOwn) > 0)
  {
    TallyZero(cells, IsLent);
    TallyZero(cells, IsOwn);
    RoomMeansFree(cells);
    assert forall i :: 0 <= i < |cells| ==> cells[i] in cells;
  }

  lemma PlaceLoad(b: Bucket, i: nat, c: Cell)
    requires i < |b.cells|
    ensures LoadOf(Place(b, i, c)).own == LoadOf(b).own + (if IsOwn(c) then 1 else 0) - (if IsOwn(b.cells[i]) then 1 else 0)
    ensures LoadOf(Place(b, i, c)).lent == LoadOf(b).lent + (if IsLent(c) then 1 else 0) - (if IsLent(b.cells[i]) then 1 else 0)
  {
    TallyUpdate(b.cells, i, c, IsOwn);
    TallyUpdate(b.cells, i, c, IsLent);
  }

  lemma {:induction false} CountPlace(cells: seq<Cell>, i: nat, c: Cell)
    requires i < |cells|
    ensures Count(cells[i := c]) == Count(cells) + (if c.Held? then 1 else 0) - (if cells[i].Held? then 1 else 0)
  {
    CountLoads(cells);
    CountLoads(cells[i := c]);
    TallyUpdate(cells, i, c, IsOwn);
    TallyUpdate(cells, i, c, IsLent);
  }

  lemma PlaceAtLoads(t: Segment, y: nat, i: nat, c: Cell)
    requires Chained(t) && y < BUCKETS && i < PAIRS
    ensures var u := PlaceAt(t, y, i, c); Chained(u) && RowOf(u.bucket) == RowOf(t.bucket)[y := LoadOf(Place(t.bucket[y], i, c))]
  {
  }

  /** Whether Count says full and whether the counts add up to PAIRS is the same. */
  lemma FullLoads(b: Bucket)
    requires Shaped(b)
    ensures LoadOf(b).Total() == Count(b.cells) <= PAIRS
    ensures Full(b) <==> LoadOf(b).Total() == PAIRS
    ensures FirstFree(b.cells) < PAIRS <==> !Full(b)
  {
    CountLoads(b.cells);
    RoomMeansFree(b.cells);
  }

  lemma StashIntoLoads(t: Segment, y: nat, s: nat, tag: nat, pair: Pair)
    requires WellShaped(t) && y < BUCKETS && s < STASHES && FirstFree(t.stash[s].cells) < PAIRS
    ensures var u := StashInto(t, y, s, tag, pair);
      WellShaped(u) && LoadsOf(u) == LoadsOf(t).(stash := LoadsOf(t).stash[s := LoadsOf(t).stash[s] + 1])
  {
    var i := FirstFree(t.stash[s].cells);
    var c := Held(tag, pair, false);
    CountPlace(t.stash[s].cells, i, c);
    var u := StashInto(t, y, s, tag, pair);
    SetMarkLoads(t.bucket, y, tag, Position(s));
    assert u.stash == t.stash[s := Place(t.stash[s], i, c)];
    assert RowOf(u.bucket) == RowOf(t.bucket);
  }

  lemma SetMarkLoads(bucket: seq<Bucket>, y: nat, tag: nat, pos: nat)
    requires Ring(bucket) && y < BUCKETS
    ensures forall z :: 0 <= z < BUCKETS ==> LoadOf(SetMark(bucket, y, tag, pos)[z]) == LoadOf(bucket[z])
  {
    forall z | 0 <= z < BUCKETS
      ensures LoadOf(SetMark(bucket, y, tag, pos)[z]) == LoadOf(bucket[z])
    {
      assert SetMark(bucket, y, tag, pos)[z].cells == bucket[z].cells;
    }
  }

  // Adding a pair

  /** Two cells of two buckets change: the counts of just these buckets change. */
  lemma TwoLoads(t: Segment, w: nat, j: nat, c: Cell, z: nat, i: nat, d: Cell)
    requires Chained(t) && w < BUCKETS && z < BUCKETS && w != z && i < PAIRS && j < PAIRS
    ensures var u := PlaceAt(PlaceAt(t, w, j, c), z, i, d);
      && Chained(u) && u.stash == t.stash
      && RowOf(u.bucket) == RowOf(t.bucket)[w := LoadOf(Place(t.bucket[w], j, c))][z := LoadOf(Place(t.bucket[z], i, d))]
  {
    hide LoadOf;
    PlaceAtLoads(t, w, j, c);
    PlaceAtLoads(PlaceAt(t, w, j, c), z, i, d);
  }

  /** A full bucket's own pair i moves to cell j of bucket w, and a lent pair takes its place. */
  lemma NextLoads(t: Segment, w: nat, j: nat, z: nat, i: nat, tag: nat, pair: Pair)
    requires Chained(t) && w < BUCKETS && z < BUCKETS && w != z && i < PAIRS && j < PAIRS
    requires t.bucket[w].cells[j].Free? && IsOwn(t.bucket[z].cells[i])
    ensures var row := RowOf(t.bucket);
      var u := PlaceAt(PlaceAt(t, w, j, t.bucket[z].cells[i].(probe := true)), z, i, Held(tag, pair, true));
      && Chained(u) && u.stash == t.stash && row[z].own > 0
      && RowOf(u.bucket) == row[w := Load(row[w].own, row[w].lent + 1)][z := Load(row[z].own - 1, row[z].lent + 1)]
  {
    var moved := t.bucket[z].cells[i].(probe := true);
    PlaceLoad(t.bucket[w], j, moved);
    PlaceLoad(t.bucket[z], i, Held(tag, pair, true));
    hide LoadOf, Place, PlaceAt;
    TwoLoads(t, w, j, moved, z, i, Held(tag, pair, true));
  }

  lemma NextDisplaceFits(t: Segment, y: nat, tag: nat, pair: Pair)
    requires Chained(t) && y < BUCKETS && Full(t.bucket[Next(y)])
    ensures var row, z, w := RowOf(t.bucket), Next(y), Next(Next(y));
      var (u, ok) := NextDisplace(t, y, tag, pair);
      && Chained(u) && u.stash == t.stash && (ok <==> row[z].own > 0 && row[w].Total() < PAIRS)
      && (if ok then RowOf(u.bucket) == row[w := Load(row[w].own, row[w].lent + 1)][z := Load(row[z].own - 1, row[z].lent + 1)]
          else u == t)
  {
    var z, w := Next(y), Next(Next(y));
    var i, j := FirstMember(t.bucket[z].cells, false), FirstFree(t.bucket[w].cells);
    NextGuard(t.bucket[z]);
    FullLoads(t.bucket[w]);
    hide LoadOf, Count, PlaceAt, FirstMember, FirstFree, Full;
    if j < PAIRS && i < PAIRS {
      NextLoads(t, w, j, z, i, tag, pair);
    }
  }

  lemma NextGuard(b: Bucket)
    requires Shaped(b) && Full(b)
    ensures var i := FirstMember(b.cells, false);
      (i < PAIRS <==> LoadOf(b).own > 0) && (i < PAIRS ==> IsOwn(b.cells[i]))
  {
    var i := FirstMember(b.cells, false);
    MemberLoads(b.cells);
    RoomMeansFree(b.cells);
    assert i < PAIRS ==> b.cells[i] in b.cells;
  }

  /** Lent pair i of bucket z goes home to cell j of bucket v, and a new pair of z's own takes its place. */
  lemma PrevLoads(t: Segment, v: nat, j: nat, z: nat, i: nat, tag: nat, pair: Pair)
    requires Chained(t) && v < BUCKETS && z < BUCKETS && v != z && i < PAIRS && j < PAIRS
    requires t.bucket[v].cells[j].Free? && IsLent(t.bucket[z].cells[i])
    ensures var row := RowOf(t.bucket);
      var u := PlaceAt(PlaceAt(t, v, j, t.bucket[z].cells[i].(probe := false)), z, i, Held(tag, pair, false));
      && Chained(u) && u.stash == t.stash && row[z].lent > 0
      && RowOf(u.bucket) == row[v := Load(row[v].own + 1, row[v].lent)][z := Load(row[z].own + 1, row[z].lent - 1)]
  {
    var moved := t.bucket[z].cells[i].(probe := false);
    PlaceLoad(t.bucket[v], j, moved);
    PlaceLoad(t.bucket[z], i, Held(tag, pair, false));
    hide LoadOf, Place, PlaceAt;
    TwoLoads(t, v, j, moved, z, i, Held(tag, pair, false));
  }

  lemma PrevGuard(b: Bucket)
    requires Shaped(b)
    ensures var i := FirstMember(b.cells, true);
      (i < PAIRS <==> LoadOf(b).lent > 0) && (i < PAIRS ==> IsLent(b.cells[i]))
  {
    MemberLoads(b.cells);
  }

  lemma PrevDisplaceFits(t: Segment, y: nat, tag: nat, pair: Pair)
    requires Chained(t) && y < BUCKETS
    ensures var row, v := RowOf(t.bucket), Prev(y);
      var (u, ok) := PrevDisplace(t, y, tag, pair);
      && Chained(u) && u.stash == t.stash && (ok <==> row[y].lent > 0 && row[v].Total() < PAIRS)
      && (if ok then RowOf(u.bucket) == row[v := Load(row[v].own + 1, row[v].lent)][y := Load(row[y].own + 1, row[y].lent - 1)]
          else u == t)
  {
    var v := Prev(y);
    var i, j := FirstMember(t.bucket[y].cells, true), FirstFree(t.bucket[v].cells);
    PrevGuard(t.bucket[y]);
    FullLoads(t.bucket[v]);
    hide LoadOf, Count, PlaceAt, FirstMember, FirstFree, Full;
    if j < PAIRS && i < PAIRS {
      PrevLoads(t, v, j, y, i, tag, pair);
    }
  }

  /** Home and neighbour full: a displacement, or nothing. */
  lemma DisplaceFits(t: Segment, y: nat, tag: nat, pair: Pair)
    requires Chained(t) && y < BUCKETS && Full(t.bucket[y]) && Full(t.bucket[Next(y)])
    ensures var (u, ok) := Seat(t, y, tag, pair);
      && Chained(u) && u.stash == t.stash && (RowOf(u.bucket), ok) == RowFit(RowOf(t.bucket), y) && (!ok ==> u == t)
  {
    FullLoads(t.bucket[y]);
    FullLoads(t.bucket[Next(y)]);
    NextDisplaceFits(t, y, tag, pair);
    PrevDisplaceFits(t, y, tag, pair);
    hide NextDisplace, PrevDisplace, LoadOf, Count, Full, Chained;
    assert RowOf(t.bucket)[y] == LoadOf(t.bucket[y]) && RowOf(t.bucket)[Next(y)] == LoadOf(t.bucket[Next(y)]);
    hide RowOf;
  }

  /** Room in one of them: a pair in the emptier one. */
  lemma BalancedFits(t: Segment, y: nat, tag: nat, pair: Pair)
    requires Chained(t) && y < BUCKETS && !(Full(t.bucket[y]) && Full(t.bucket[Next(y)]))
    ensures var (u, ok) := Seat(t, y, tag, pair);
      Chained(u) && u.stash == t.stash && (RowOf(u.bucket), ok) == RowFit(RowOf(t.bucket), y) && ok
  {
    var b, n := t.bucket[y], t.bucket[Next(y)];
    FullLoads(b);
    FullLoads(n);
    RoomMeansFree(b.cells);
    RoomMeansFree(n.cells);
    hide LoadOf, Count;
    if Count(b.cells) <= Count(n.cells) {
      PlaceLoad(b, FirstFree(b.cells), Held(tag, pair, false));
      PlaceAtLoads(t, y, FirstFree(b.cells), Held(tag, pair, false));
    } else {
      PlaceLoad(n, FirstFree(n.cells), Held(tag, pair, true));
      PlaceAtLoads(t, Next(y), FirstFree(n.cells), Held(tag, pair, true));
    }
  }

  /** Seat acts on the counts as RowFit does, leaves the stash alone, and fails only when home and neighbour are full. */
  lemma SeatFits(t: Segment, y: nat, tag: nat, pair: Pair)
    requires Chained(t) && y < BUCKETS
    ensures var (u, ok) := Seat(t, y, tag, pair);
      && Chained(u) && u.stash == t.stash && (RowOf(u.bucket), ok) == RowFit(RowOf(t.bucket), y)
      && (!ok ==> u == t && Full(t.bucket[y]) && Full(t.bucket[Next(y)]))
  {
    hide Seat, RowFit, RowOf, Full;
    if Full(t.bucket[y]) && Full(t.bucket[Next(y)]) {
      DisplaceFits(t, y, tag, pair);
    } else {
      BalancedFits(t, y, tag, pair);
    }
  }

  lemma StashInsertFits(t: Segment, y: nat, tag: nat, pair: Pair)
    requires WellShaped(t) && y < BUCKETS
    ensures var l := LoadsOf(t);
      var (u, ok) := StashInsert(t, y, tag, pair);
      && WellShaped(u) && (ok <==> !Full(t.stash[0]) || !Full(t.stash[1]))
      && (ok <==> l.stash[y % 2] < PAIRS || l.stash[1 - y % 2] < PAIRS)
      && (if !ok then u == t
          else if l.stash[y % 2] < PAIRS then LoadsOf(u) == l.(stash := l.stash[y % 2 := l.stash[y % 2] + 1])
          else LoadsOf(u) == l.(stash := l.stash[1 - y % 2 := l.stash[1 - y % 2] + 1]))
  {
    hide StashInto, LoadOf, Count, LoadsOf;
    var s := y % 2;
    StashCounts(t, 0);
    StashCounts(t, 1);
    if FirstFree(t.stash[s].cells) < PAIRS {
      StashIntoLoads(t, y, s, tag, pair);
    } else if FirstFree(t.stash[1 - s].cells) < PAIRS {
      StashIntoLoads(t, y, 1 - s, tag, pair);
    }
  }

  lemma StashCounts(t: Segment, s: nat)
    requires WellShaped(t) && s < STASHES
    ensures LoadsOf(t).stash[s] < PAIRS <==> !Full(t.stash[s])
    ensures FirstFree(t.stash[s].cells) < PAIRS <==> !Full(t.stash[s])
  {
    FullLoads(t.stash[s]);
  }

  lemma SameStashCounts(t: Segment, u: Segment)
    requires WellShaped(t) && WellShaped(u) && u.stash == t.stash
    ensures LoadsOf(u).stash == LoadsOf(t).stash
  {
  }

  /** Add acts on the counts as Fit does, and fails only when home, neighbour and stash are full. */
  lemma AddFits(t: Segment, y: nat, tag: nat, pair: Pair)
    requires WellShaped(t) && y < BUCKETS
    ensures var (u, ok) := Add(t, y, tag, pair);
      WellShaped(u) && (LoadsOf(u), ok) == Fit(LoadsOf(t), y) && (!ok ==> u == t && Crammed(t, y))
  {
    hide Seat, RowFit, StashInsert, Count;
    SeatFits(t, y, tag, pair);
    StashInsertFits(t, y, tag, pair);
    var seat := Seat(t, y, tag, pair);
    if seat.1 {
      SameStashCounts(t, seat.0);
    }
  }
}
