/**
 A TurboHash bucket: a ring of cells, each with an occupancy bit, a deleted bit, a tag and a slot per place.
 The bit maps of a cell are modelled one bit per place.
 */
module TurboCell {
  import opened Bags

  type Key = int
  type Value = int

  /** What the key is hashed to: the word kept in the slot, the tag kept in the cell, and the mixing of the former. */
  datatype Hasher = Hasher(h1: Key -> nat, tag: Key -> nat, mix: nat -> nat)

  const MAX_PROBE_LEN: nat := 15

  datatype Place = Place(occupied: bool, deleted: bool, tag: nat, h1: nat, key: Key, value: Value) {
    predicate Live() {
      occupied && !deleted
    }

    /** The tag and hash word belong to the key. */
    predicate TaggedBy(h: Hasher) {
      tag == h.tag(key) && h1 == h.h1(key)
    }

    predicate Matches(h: Hasher, k: Key) {
      Live() && tag == h.tag(k) && h1 == h.h1(k) && key == k
    }
  }

  const EMPTY: Place := Place(false, false, 0, 0, 0, 0)

  datatype Cell = Cell(places: seq<Place>, seqNo: nat)

  predicate Occupied(p: Place) {
    p.occupied
  }

  predicate Free(p: Place) {
    !p.occupied
  }

  predicate Erased(p: Place) {
    p.deleted
  }

  function Occupancy(c: Cell): nat {
    Tally(c.places, Occupied)
  }

  /** All but one place occupied. */
  predicate Full(c: Cell) {
    Occupancy(c) == |c.places| - 1
  }

  ghost function PlaceBag(p: Place): multiset<(Key, Value)> {
    if p.Live() then multiset{(p.key, p.value)} else multiset{}
  }

  ghost function CellBag(c: Cell): multiset<(Key, Value)> {
    Sum(c.places, PlaceBag)
  }

  /** Every live record of the bucket, with multiplicity. */
  ghost function Contents(cells: seq<Cell>): multiset<(Key, Value)> {
    Sum(cells, CellBag)
  }

  /** The bag holds every binding of the map once and nothing else. */
  ghost predicate Represents(bag: multiset<(Key, Value)>, m: map<Key, Value>) {
    forall e :: bag[e] == if e.0 in m && m[e.0] == e.1 then 1 else 0
  }

  // The ring

  function Home(h: Hasher, h1: nat, n: nat): (c: nat)
    requires n > 0
    ensures c < n
  {
    h.mix(h1) % n
  }

  function Next(n: nat, c: nat): nat {
    if c + 1 == n then 0 else c + 1
  }

  /** How many probe steps lead from home to cell c. */
  function Hops(n: nat, home: nat, c: nat): (d: nat)
    requires home < n && c < n
    ensures d < n
  {
    if c >= home then c - home else c + n - home
  }

  // The invariant

  /** Deleted places are occupied, one place is spare, and live places carry their key's tag and hash word. */
  ghost predicate CellOk(c: Cell, s: nat, h: Hasher) {
    && |c.places| == s
    && Occupancy(c) < s
    && (forall i :: 0 <= i < s && c.places[i].deleted ==> c.places[i].occupied)
    && (forall i :: 0 <= i < s && c.places[i].Live() ==> c.places[i].TaggedBy(h))
  }

  /** A record in cell c can be reached from home: only Full cells before it, and fewer than limit steps. */
  ghost predicate Reachable(cells: seq<Cell>, home: nat, c: nat, limit: nat)
    requires home < |cells| && c < |cells|
  {
    && Hops(|cells|, home, c) < limit
    && forall e :: 0 <= e < |cells| && Hops(|cells|, home, e) < Hops(|cells|, home, c) ==> Full(cells[e])
  }

  ghost predicate AllReachable(cells: seq<Cell>, h: Hasher, limit: nat)
    requires |cells| > 0
  {
    forall c, i :: 0 <= c < |cells| && 0 <= i < |cells[c].places| && cells[c].places[i].Live() ==>
      Reachable(cells, Home(h, cells[c].places[i].h1, |cells|), c, limit)
  }

  ghost predicate Inv(cells: seq<Cell>, s: nat, h: Hasher, limit: nat) {
    && |cells| > 0 && s >= 2
    && (forall c :: 0 <= c < |cells| ==> CellOk(cells[c], s, h))
    && AllReachable(cells, h, limit)
  }

  // From bags to places

  predicate Holds(c: Cell, i: nat, e: (Key, Value)) {
    i < |c.places| && c.places[i].Live() && (c.places[i].key, c.places[i].value) == e
  }

  lemma CellHas(c: Cell, e: (Key, Value))
    ensures e in CellBag(c) <==> exists i :: Holds(c, i, e)
  {
    SumHas(c.places, PlaceBag, e);
    assert forall i: nat :: Holds(c, i, e) <==> i < |c.places| && e in PlaceBag(c.places[i]);
  }

  /** A record is in the bucket exactly when a live place of some cell holds it. */
  lemma ContentsHas(cells: seq<Cell>, e: (Key, Value))
    ensures e in Contents(cells) <==> exists c, i :: 0 <= c < |cells| && Holds(cells[c], i, e)
  {
    SumHas(cells, CellBag, e);
    forall c | 0 <= c < |cells|
      ensures e in CellBag(cells[c]) <==> exists i :: Holds(cells[c], i, e)
    {
      CellHas(cells[c], e);
    }
  }

  lemma LiveIsIn(cells: seq<Cell>, c: nat, i: nat)
    requires c < |cells| && i < |cells[c].places| && cells[c].places[i].Live()
    ensures (cells[c].places[i].key, cells[c].places[i].value) in Contents(cells)
  {
    var e := (cells[c].places[i].key, cells[c].places[i].value);
    ContentsHas(cells, e);
    assert Holds(cells[c], i, e);
  }

  // Replacing one cell

  /** Exchanging a cell for one at least as occupied keeps every other record reachable. */
  lemma ReplaceKeepsReachable(cells: seq<Cell>, c: nat, x: Cell, s: nat, h: Hasher, limit: nat)
    requires Inv(cells, s, h, limit) && c < |cells| && CellOk(x, s, h)
    requires Occupancy(x) >= Occupancy(cells[c])
    requires forall i :: 0 <= i < s && x.places[i].Live() && x.places[i] != cells[c].places[i] ==>
      Reachable(cells, Home(h, x.places[i].h1, |cells|), c, limit)
    ensures Inv(cells[c := x], s, h, limit)
  {
    hide Occupancy, Home, Hops;
    var after := cells[c := x];
    assert forall e :: 0 <= e < |cells| && Full(cells[e]) ==> Full(after[e]);
    forall e, i | 0 <= e < |after| && 0 <= i < s && after[e].places[i].Live()
      ensures Reachable(after, Home(h, after[e].places[i].h1, |after|), e, limit)
    {
      assert Reachable(cells, Home(h, after[e].places[i].h1, |cells|), e, limit);
    }
  }

  /** Exchanging one place of one cell exchanges that place's record in the bucket. */
  lemma PlaceUpdate(cells: seq<Cell>, c: nat, i: nat, p: Place, seqNo: nat)
    requires c < |cells| && i < |cells[c].places|
    ensures var x, q := Cell(cells[c].places[i := p], seqNo), cells[c].places[i];
      && Contents(cells[c := x]) + PlaceBag(q) == Contents(cells) + PlaceBag(p)
      && Occupancy(x) == Occupancy(cells[c]) + (if p.occupied then 1 else 0) - (if q.occupied then 1 else 0)
  {
    var x, q := Cell(cells[c].places[i := p], seqNo), cells[c].places[i];
    SumUpdate(cells[c].places, i, p, PlaceBag);
    TallyUpdate(cells[c].places, i, p, Occupied);
    SumUpdate(cells, c, x, CellBag);
    Trade(Contents(cells[c := x]), Contents(cells), CellBag(cells[c]), CellBag(x), PlaceBag(q), PlaceBag(p));
  }

  // The three ways a write changes a cell

  /** insertToSlotAndGC, insertion: a free or deleted place takes the record. */
  function Filled(c: Cell, i: nat, p: Place): Cell
    requires i < |c.places|
  {
    Cell(c.places[i := p], c.seqNo + 1)
  }

  /** insertToSlotAndGC, update: the new place is set and the old place's occupancy bit toggled. */
  function Moved(c: Cell, i: nat, was: nat, p: Place): Cell
    requires i < |c.places| && was < |c.places|
  {
    var places := c.places[i := p];
    Cell(places[was := places[was].(occupied := !places[was].occupied)], c.seqNo + 1)
  }

  /** deleteSlot: the place is only marked. */
  function Marked(c: Cell, i: nat): Cell
    requires i < |c.places|
  {
    Cell(c.places[i := c.places[i].(deleted := true)], c.seqNo + 1)
  }

  predicate NewRecord(p: Place, h: Hasher) {
    p.occupied && !p.deleted && p.TaggedBy(h)
  }

  lemma FilledSpec(cells: seq<Cell>, c: nat, i: nat, p: Place, seqNo: nat, s: nat, h: Hasher, limit: nat)
    requires Inv(cells, s, h, limit) && c < |cells| && i < s && NewRecord(p, h)
    requires var q := cells[c].places[i]; q.deleted || (!q.occupied && !Full(cells[c]))
    requires Reachable(cells, Home(h, p.h1, |cells|), c, limit)
    ensures var after := cells[c := Cell(cells[c].places[i := p], seqNo)];
      && Inv(after, s, h, limit)
      && Contents(after) == Contents(cells) + multiset{(p.key, p.value)}
  {
    var x := Cell(cells[c].places[i := p], seqNo);
    PlaceUpdate(cells, c, i, p, seqNo);
    hide Occupancy, Reachable, Home, CellBag, Contents;
    ReplaceKeepsReachable(cells, c, x, s, h, limit);
  }

  /** An update leaves the occupancy alone and exchanges the two records. */
  lemma MovedParts(cells: seq<Cell>, c: nat, i: nat, was: nat, p: Place)
    requires c < |cells| && i < |cells[c].places| && was < |cells[c].places| && p.Live()
    requires !cells[c].places[i].occupied && cells[c].places[was].Live()
    ensures var x, q := Moved(cells[c], i, was, p), cells[c].places[was];
      && Occupancy(x) == Occupancy(cells[c])
      && Contents(cells[c := x]) + multiset{(q.key, q.value)} == Contents(cells) + multiset{(p.key, p.value)}
  {
    var y, x := Filled(cells[c], i, p), Moved(cells[c], i, was, p);
    PlaceUpdate(cells, c, i, p, y.seqNo);
    PlaceUpdate(cells[c := y], c, was, x.places[was], x.seqNo);
    assert cells[c := y][c := x] == cells[c := x];
  }

  lemma MovedSpec(cells: seq<Cell>, c: nat, i: nat, was: nat, p: Place, s: nat, h: Hasher, limit: nat)
    requires Inv(cells, s, h, limit) && c < |cells| && i < s && was < s && NewRecord(p, h)
    requires !cells[c].places[i].occupied && cells[c].places[was].Matches(h, p.key)
    ensures var after := cells[c := Moved(cells[c], i, was, p)];
      && Inv(after, s, h, limit)
      && Contents(after) + multiset{(p.key, cells[c].places[was].value)} == Contents(cells) + multiset{(p.key, p.value)}
  {
    MovedParts(cells, c, i, was, p);
    assert Reachable(cells, Home(h, cells[c].places[was].h1, |cells|), c, limit);
    hide Occupancy, Reachable, Home, CellBag, Contents;
    ReplaceKeepsReachable(cells, c, Moved(cells[c], i, was, p), s, h, limit);
  }

  lemma MarkedSpec(cells: seq<Cell>, c: nat, i: nat, s: nat, h: Hasher, limit: nat)
    requires Inv(cells, s, h, limit) && c < |cells| && i < s && cells[c].places[i].Live()
    ensures var after, p := cells[c := Marked(cells[c], i)], cells[c].places[i];
      && Inv(after, s, h, limit)
      && Contents(after) + multiset{(p.key, p.value)} == Contents(cells)
  {
    var x := Marked(cells[c], i);
    PlaceUpdate(cells, c, i, x.places[i], x.seqNo);
    hide Occupancy, Reachable, Home, CellBag, Contents;
    ReplaceKeepsReachable(cells, c, x, s, h, limit);
  }

  // What the map sees

  lemma RepresentsPut(bag: multiset<(Key, Value)>, after: multiset<(Key, Value)>, m: map<Key, Value>, k: Key, v: Value)
    requires Represents(bag, m)
    requires if k in m then after + multiset{(k, m[k])} == bag + multiset{(k, v)} else after == bag + multiset{(k, v)}
    ensures Represents(after, m[k := v])
  {
    forall e
      ensures after[e] == if e.0 in m[k := v] && m[k := v][e.0] == e.1 then 1 else 0
    {
      assert k in m ==> (after + multiset{(k, m[k])})[e] == (bag + multiset{(k, v)})[e];
    }
  }

  lemma RepresentsDelete(bag: multiset<(Key, Value)>, after: multiset<(Key, Value)>, m: map<Key, Value>, k: Key)
    requires Represents(bag, m) && k in m && after + multiset{(k, m[k])} == bag
    ensures Represents(after, m - {k})
  {
    forall e
      ensures after[e] == if e.0 in m - {k} && (m - {k})[e.0] == e.1 then 1 else 0
    {
      assert (after + multiset{(k, m[k])})[e] == bag[e];
    }
  }
}
