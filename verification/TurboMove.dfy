/** The new bucket that a TurboHash rehash fills, cell by cell from the lowest place up. */
module TurboMove {
  import opened Bags
  import opened TurboCell
  import opened TurboProbe
  import opened TurboRehash

  function EmptyCell(s: nat): Cell {
    Cell(seq(s, _ => EMPTY), 0)
  }

  /** Each new cell holds vec[c] live records in its lowest places and nothing else. */
  ghost predicate Filling(cells: seq<Cell>, vec: seq<nat>, s: nat, h: Hasher, limit: nat) {
    && Inv(cells, s, h, limit)
    && |vec| == |cells|
    && forall c :: 0 <= c < |cells| ==> Dense(cells[c], vec[c])
  }

  ghost predicate Dense(c: Cell, v: nat) {
    && Occupancy(c) == v
    && (forall i :: 0 <= i < |c.places| ==> !c.places[i].deleted)
    && (forall i :: 0 <= i < |c.places| ==> (c.places[i].occupied <==> i < v))
  }

  /** Some record lies farther out than a lookup goes. */
  predicate OutOfReach(cells: seq<Cell>, h: Hasher)
    requires |cells| > 0
  {
    exists c, i :: 0 <= c < |cells| && 0 <= i < |cells[c].places| && TooFar(cells, h, c, i)
  }

  predicate TooFar(cells: seq<Cell>, h: Hasher, c: nat, i: nat)
    requires c < |cells| && i < |cells[c].places|
  {
    cells[c].places[i].Live() && Hops(|cells|, Home(h, cells[c].places[i].h1, |cells|), c) >= MAX_PROBE_LEN
  }

  lemma EmptyFilling(cells: seq<Cell>, vec: seq<nat>, s: nat, h: Hasher, limit: nat)
    requires |cells| > 0 && s >= 2 && |vec| == |cells|
    requires forall c :: 0 <= c < |cells| ==> cells[c] == EmptyCell(s) && vec[c] == 0
    ensures Filling(cells, vec, s, h, limit) && Contents(cells) == multiset{} && !OutOfReach(cells, h)
  {
    TallyZero(EmptyCell(s).places, Occupied);
    SumEmpty(EmptyCell(s).places, PlaceBag);
    SumEmpty(cells, CellBag);
  }

  /** The new bucket after one more record. */
  function MoveTo(cells: seq<Cell>, vec: seq<nat>, c: nat, p: Place): seq<Cell>
    requires c < |cells| == |vec| && vec[c] < |cells[c].places|
  {
    cells[c := Cell(cells[c].places[vec[c] := p], cells[c].seqNo)]
  }

  /** moveSlot at the place findNextSlotInRehash chose keeps the filling, adds the record and nothing else. */
  lemma MoveKeeps(cells: seq<Cell>, vec: seq<nat>, p: Place, s: nat, h: Hasher)
    requires Filling(cells, vec, s, h, MAX_PROBE_LEN + 1) && NewRecord(p, h)
    requires Land(vec, s, Home(h, p.h1, |vec|), 0).Landed?
    ensures var l := Land(vec, s, Home(h, p.h1, |vec|), 0); vec[l.cell] < |cells[l.cell].places|
    ensures var l := Land(vec, s, Home(h, p.h1, |vec|), 0);
      var after := MoveTo(cells, vec, l.cell, p);
      && Filling(after, vec[l.cell := vec[l.cell] + 1], s, h, MAX_PROBE_LEN + 1)
      && Contents(after) == Contents(cells) + multiset{(p.key, p.value)}
      && (OutOfReach(after, h) <==> OutOfReach(cells, h) || l.hops >= MAX_PROBE_LEN)
  {
    var home := Home(h, p.h1, |vec|);
    LandSound(vec, s, home, home, 0);
    var l := Land(vec, s, home, 0);
    var c, i := l.cell, vec[l.cell];
    hide Land, Contents, OutOfReach, Home;
    assert Dense(cells[c], vec[c]);
    assert forall e :: 0 <= e < |cells| ==> Dense(cells[e], vec[e]) && (vec[e] >= s - 1 ==> Full(cells[e]));
    assert Reachable(cells, home, c, MAX_PROBE_LEN + 1);
    PlaceUpdate(cells, c, i, p, cells[c].seqNo);
    FilledSpec(cells, c, i, p, cells[c].seqNo, s, h, MAX_PROBE_LEN + 1);
    MoveReach(cells, c, i, p, cells[c].seqNo, h);
  }

  /** Filling a place that holds no live record hides nothing and brings nothing back. */
  lemma MoveReach(cells: seq<Cell>, c: nat, i: nat, p: Place, seqNo: nat, h: Hasher)
    requires c < |cells| && i < |cells[c].places| && !cells[c].places[i].Live() && p.Live()
    ensures var after := cells[c := Cell(cells[c].places[i := p], seqNo)];
      OutOfReach(after, h) <==> OutOfReach(cells, h) || Hops(|cells|, Home(h, p.h1, |cells|), c) >= MAX_PROBE_LEN
  {
    hide Home, Hops;
    var after := cells[c := Cell(cells[c].places[i := p], seqNo)];
    if OutOfReach(cells, h) {
      var e, j :| 0 <= e < |cells| && 0 <= j < |cells[e].places| && TooFar(cells, h, e, j);
      assert TooFar(after, h, e, j);
    }
    if OutOfReach(after, h) {
      var e, j :| 0 <= e < |cells| && 0 <= j < |after[e].places| && TooFar(after, h, e, j);
      assert (e, j) != (c, i) ==> TooFar(cells, h, e, j);
    }
    assert Hops(|cells|, Home(h, p.h1, |cells|), c) >= MAX_PROBE_LEN ==> TooFar(after, h, c, i);
  }

  /** An insertion goes within reach, so it leaves the bucket as searchable as it was. */
  lemma PutReach(cells: seq<Cell>, s: nat, h: Hasher, k: Key, v: Value, t: Target)
    requires Inv(cells, s, h, MAX_PROBE_LEN + 1) && TargetOk(cells, h, k, t) && t.Fresh?
    requires Inv(Put(cells, h, k, v, t), s, h, MAX_PROBE_LEN + 1)
    ensures Inv(Put(cells, h, k, v, t), s, h, MAX_PROBE_LEN) <==> Inv(cells, s, h, MAX_PROBE_LEN)
  {
    assert Probed(cells, h, k, t.cell) && !cells[t.cell].places[t.slot].Live();
    var p := Place(true, false, h.tag(k), h.h1(k), k, v);
    MoveReach(cells, t.cell, t.slot, p, cells[t.cell].seqNo + 1, h);
    hide Inv, OutOfReach, TargetOk;
    ReachSplits(cells, s, h);
    ReachSplits(Put(cells, h, k, v, t), s, h);
  }

  /** Being out of reach is exactly what the tighter invariant forbids. */
  lemma ReachSplits(cells: seq<Cell>, s: nat, h: Hasher)
    requires Inv(cells, s, h, MAX_PROBE_LEN + 1)
    ensures Inv(cells, s, h, MAX_PROBE_LEN) <==> !OutOfReach(cells, h)
  {
    hide Home, Hops, Full;
    if !OutOfReach(cells, h) {
      forall c, i | 0 <= c < |cells| && 0 <= i < |cells[c].places| && cells[c].places[i].Live()
        ensures Reachable(cells, Home(h, cells[c].places[i].h1, |cells|), c, MAX_PROBE_LEN)
      {
        assert !TooFar(cells, h, c, i);
        assert Reachable(cells, Home(h, cells[c].places[i].h1, |cells|), c, MAX_PROBE_LEN + 1);
      }
    } else {
      var c, i :| 0 <= c < |cells| && 0 <= i < |cells[c].places| && TooFar(cells, h, c, i);
      assert !Reachable(cells, Home(h, cells[c].places[i].h1, |cells|), c, MAX_PROBE_LEN);
    }
  }

  // The walk over the old bucket

  /** The live places met before place k of cell c. */
  function Walked(cells: seq<Cell>, c: nat, k: nat): seq<Place>
    requires c <= |cells| && (if c < |cells| then k <= |cells[c].places| else k == 0)
  {
    if c < |cells| then LivePlaces(cells[..c]) + LiveIn(cells[c].places[..k]) else LivePlaces(cells)
  }

  lemma WalkedStep(cells: seq<Cell>, c: nat, k: nat)
    requires c < |cells| && k < |cells[c].places|
    ensures var p := cells[c].places[k];
      Walked(cells, c, k + 1) == if p.Live() then Walked(cells, c, k) + [p] else Walked(cells, c, k)
  {
    var places := cells[c].places;
    assert places[..k + 1][..k] == places[..k];
  }

  lemma WalkedCell(cells: seq<Cell>, c: nat)
    requires c < |cells|
    ensures Walked(cells, c, |cells[c].places|) == Walked(cells, c + 1, 0)
  {
    assert cells[c].places[..|cells[c].places|] == cells[c].places;
    assert cells[..c + 1][..c] == cells[..c];
    if c + 1 == |cells| {
      assert cells[..c + 1] == cells;
    }
  }

  lemma {:induction false} LiveInPrefix(places: seq<Place>, k: nat)
    requires k <= |places|
    ensures LiveIn(places[..k]) <= LiveIn(places)
  {
    if k < |places| {
      LiveInPrefix(places[..|places| - 1], k);
      assert places[..|places| - 1][..k] == places[..k];
    } else {
      assert places[..k] == places;
    }
  }

  /** What has been walked is a prefix of the whole walk. */
  lemma {:induction false} WalkedPrefix(cells: seq<Cell>, c: nat, k: nat)
    requires c < |cells| && k <= |cells[c].places|
    ensures Walked(cells, c, k) <= LivePlaces(cells)
  {
    var last := |cells| - 1;
    if c == last {
      LiveInPrefix(cells[c].places, k);
    } else {
      WalkedPrefix(cells[..last], c, k);
      assert cells[..last][..c] == cells[..c];
    }
  }

  lemma {:induction false} LiveInBag(places: seq<Place>)
    ensures Sum(LiveIn(places), PlaceBag) == Sum(places, PlaceBag)
  {
    if places != [] {
      var k := |places| - 1;
      LiveInBag(places[..k]);
      SumAppend(LiveIn(places[..k]), if places[k].Live() then [places[k]] else [], PlaceBag);
    }
  }

  /** The walk meets every live record of the bucket once. */
  lemma {:induction false} WalkIsComplete(cells: seq<Cell>)
    ensures Sum(LivePlaces(cells), PlaceBag) == Contents(cells)
  {
    if cells != [] {
      var k := |cells| - 1;
      WalkIsComplete(cells[..k]);
      LiveInBag(cells[k].places);
      SumAppend(LivePlaces(cells[..k]), LiveIn(cells[k].places), PlaceBag);
    }
  }

  /** Giving up on a prefix is giving up. */
  lemma {:induction false} SettlePrefix(n: nat, s: nat, homes: seq<nat>, k: nat)
    requires n > 0 && s > 0 && (forall j :: 0 <= j < |homes| ==> homes[j] < n) && k <= |homes|
    ensures Settle(n, s, homes[..k]).GaveUp? ==> Settle(n, s, homes).GaveUp?
  {
    if k < |homes| {
      SettlePrefix(n, s, homes[..|homes| - 1], k);
      assert homes[..|homes| - 1][..k] == homes[..k];
    } else {
      assert homes[..k] == homes;
    }
  }

  // What the rehash loop keeps

  /** The new cells hold exactly the walked records, where settling them in order puts them. */
  ghost predicate Transferred(walked: seq<Place>, cells: seq<Cell>, vec: seq<nat>, s: nat, h: Hasher) {
    && Filling(cells, vec, s, h, MAX_PROBE_LEN + 1)
    && Contents(cells) == Sum(walked, PlaceBag)
    && SettledAs(walked, vec, OutOfReach(cells, h), s, h)
  }

  /** Settling the records in order gives these counts, and takes one out of reach just when `far` says so. */
  ghost predicate SettledAs(walked: seq<Place>, vec: seq<nat>, far: bool, s: nat, h: Hasher) {
    && |vec| > 0 && s > 0
    && var r := Settle(|vec|, s, Homes(h, walked, |vec|));
      r.Settled? && r.vec == vec && (far <==> Overreaches(r))
  }

  ghost predicate GivesUp(walked: seq<Place>, n: nat, s: nat, h: Hasher) {
    n > 0 && s > 0 && Settle(n, s, Homes(h, walked, n)).GaveUp?
  }

  lemma SettleNext(n: nat, s: nat, h: Hasher, walked: seq<Place>, p: Place)
    requires n > 0 && s > 0
    ensures Settle(n, s, Homes(h, walked + [p], n)) ==
      SettleOne(Settle(n, s, Homes(h, walked, n)), s, Home(h, p.h1, n))
  {
    var homes := Homes(h, walked + [p], n);
    assert homes[..|homes| - 1] == Homes(h, walked, n);
  }

  lemma OverreachStep(r: Settling, s: nat, home: nat)
    requires r.Settled? && s > 0 && home < |r.vec|
    ensures var l := Land(r.vec, s, home, 0);
      Overreaches(SettleOne(r, s, home)) <==> l.Landed? && (Overreaches(r) || l.hops >= MAX_PROBE_LEN)
  {
    var t := SettleOne(r, s, home);
    if t.Settled? {
      assert t.hops[..|r.hops|] == r.hops;
      assert forall j :: 0 <= j < |r.hops| ==> t.hops[j] == r.hops[j];
      var l := Land(r.vec, s, home, 0);
      if l.hops >= MAX_PROBE_LEN {
        assert t.hops[|r.hops|] >= MAX_PROBE_LEN;
      }
    }
  }

  lemma TransferRange(walked: seq<Place>, home: nat, cells: seq<Cell>, vec: seq<nat>, s: nat, h: Hasher)
    requires Transferred(walked, cells, vec, s, h) && home < |vec|
    ensures |vec| == |cells| && s > 0
    ensures var l := Land(vec, s, home, 0); l.Landed? ==> vec[l.cell] < |cells[l.cell].places|
  {
    hide Contents, Settle, OutOfReach, Overreaches, Homes;
    LandSound(vec, s, home, home, 0);
    hide Land;
  }

  lemma SomeCells(walked: seq<Place>, cells: seq<Cell>, vec: seq<nat>, s: nat, h: Hasher)
    requires Transferred(walked, cells, vec, s, h)
    ensures |vec| == |cells| > 0
  {
    hide Contents, Settle, OutOfReach, Overreaches, Homes;
  }

  lemma PlacesPerCell(cells: seq<Cell>, s: nat, h: Hasher, limit: nat)
    requires Inv(cells, s, h, limit)
    ensures |cells| > 0 && s >= 2 && forall c :: 0 <= c < |cells| ==> |cells[c].places| == s
    ensures forall c, i :: 0 <= c < |cells| && 0 <= i < s && cells[c].places[i].Live() ==> NewRecord(cells[c].places[i], h)
  {
    assert forall c :: 0 <= c < |cells| ==> CellOk(cells[c], s, h);
  }

  lemma SettledStep(walked: seq<Place>, p: Place, vec: seq<nat>, far: bool, s: nat, h: Hasher)
    requires SettledAs(walked, vec, far, s, h)
    ensures var l := Land(vec, s, Home(h, p.h1, |vec|), 0);
      if l.NoRoom? then GivesUp(walked + [p], |vec|, s, h)
      else SettledAs(walked + [p], vec[l.cell := vec[l.cell] + 1], far || l.hops >= MAX_PROBE_LEN, s, h)
  {
    hide Overreaches, Settle, Land, Homes, Home;
    SettleNext(|vec|, s, h, walked, p);
    OverreachStep(Settle(|vec|, s, Homes(h, walked, |vec|)), s, Home(h, p.h1, |vec|));
  }

  lemma TransferStep(walked: seq<Place>, p: Place, cells: seq<Cell>, vec: seq<nat>, s: nat, h: Hasher)
    requires Transferred(walked, cells, vec, s, h) && NewRecord(p, h)
    requires var l := Land(vec, s, Home(h, p.h1, |vec|), 0); l.Landed? ==> vec[l.cell] < |cells[l.cell].places|
    ensures var l := Land(vec, s, Home(h, p.h1, |vec|), 0);
      if l.NoRoom? then GivesUp(walked + [p], |cells|, s, h)
      else Transferred(walked + [p], MoveTo(cells, vec, l.cell, p), vec[l.cell := vec[l.cell] + 1], s, h)
  {
    assert |vec| == |cells| > 0;
    hide Filling, Contents, OutOfReach, SettledAs, Land, Home, MoveTo, Inv, GivesUp;
    SettledStep(walked, p, vec, OutOfReach(cells, h), s, h);
    var l := Land(vec, s, Home(h, p.h1, |vec|), 0);
    if l.Landed? {
      MoveKeeps(cells, vec, p, s, h);
      assert (walked + [p])[..|walked|] == walked;
    }
  }

  lemma TransferVec(cells: seq<Cell>, des: seq<Cell>, vec: seq<nat>, s: nat, h: Hasher)
    requires |des| > 0 && s > 0 && Transferred(LivePlaces(cells), des, vec, s, h)
    ensures Rehash(cells, h, s, |des|).Settled? && Rehash(cells, h, s, |des|).vec == vec
  {
    hide Settle, Homes, Overreaches;
  }

  lemma TransferDone(cells: seq<Cell>, des: seq<Cell>, s: nat, h: Hasher)
    requires |des| > 0 && s > 0 && Rehash(cells, h, s, |des|).Settled?
    requires Transferred(LivePlaces(cells), des, Rehash(cells, h, s, |des|).vec, s, h)
    ensures Contents(des) == Contents(cells) && Inv(des, s, h, MAX_PROBE_LEN + 1)
    ensures var r := Rehash(cells, h, s, |des|);
      && (forall c :: 0 <= c < |des| ==> Dense(des[c], r.vec[c]))
      && (Inv(des, s, h, MAX_PROBE_LEN) <==> !Overreaches(r))
  {
    WalkIsComplete(cells);
    ReachSplits(des, s, h);
  }

  lemma TransferStart(cells: seq<Cell>, des: seq<Cell>, vec: seq<nat>, s: nat, h: Hasher)
    requires |des| > 0 && s >= 2 && |vec| == |des| && |cells| > 0
    requires forall c :: 0 <= c < |des| ==> des[c] == EmptyCell(s) && vec[c] == 0
    ensures Transferred(Walked(cells, 0, 0), des, vec, s, h)
  {
    EmptyFilling(des, vec, s, h, MAX_PROBE_LEN + 1);
    assert Walked(cells, 0, 0) == [];
    assert vec == seq(|vec|, _ => 0);
  }

  lemma TransferFails(cells: seq<Cell>, c: nat, k: nat, n: nat, s: nat, h: Hasher)
    requires c < |cells| && k <= |cells[c].places| && n > 0 && s > 0
    requires GivesUp(Walked(cells, c, k), n, s, h)
    ensures Rehash(cells, h, s, n).GaveUp?
  {
    WalkedPrefix(cells, c, k);
    var w, homes := Walked(cells, c, k), Homes(h, LivePlaces(cells), n);
    assert Homes(h, w, n) == homes[..|w|];
    SettlePrefix(n, s, homes, |w|);
  }
}
