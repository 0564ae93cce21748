/** What a probe of a TurboHash bucket may conclude from the cells it has passed. */
module TurboProbe {
  import opened TurboCell
  import opened Bags

  /** The lowest place at or after `from` that satisfies p, or the number of places. */
  function First(places: seq<Place>, p: Place -> bool, from: nat): (i: nat)
    requires from <= |places|
    ensures from <= i <= |places| && (i < |places| ==> p(places[i]))
    ensures forall j :: from <= j < i ==> !p(places[j])
    decreases |places| - from
  {
    if from == |places| || p(places[from]) then from else First(places, p, from + 1)
  }

  ghost predicate NoMatch(c: Cell, h: Hasher, k: Key) {
    forall i :: 0 <= i < |c.places| ==> !c.places[i].Matches(h, k)
  }

  /** Every cell fewer than d steps from home is Full and holds no record of the key. */
  ghost predicate Passed(cells: seq<Cell>, h: Hasher, k: Key, home: nat, d: nat)
    requires home < |cells|
  {
    forall e :: 0 <= e < |cells| && Hops(|cells|, home, e) < d ==> Full(cells[e]) && NoMatch(cells[e], h, k)
  }

  function HomeOf(cells: seq<Cell>, h: Hasher, k: Key): (home: nat)
    requires |cells| > 0
    ensures home < |cells|
  {
    Home(h, h.h1(k), |cells|)
  }

  /** No live record of the key fewer than d steps from its home. */
  ghost predicate Missing(cells: seq<Cell>, h: Hasher, k: Key, d: nat)
    requires |cells| > 0
  {
    forall c, i :: 0 <= c < |cells| && 0 <= i < |cells[c].places| && cells[c].places[i].Live() && cells[c].places[i].key == k ==>
      Hops(|cells|, HomeOf(cells, h, k), c) >= d
  }

  lemma PassedMissing(cells: seq<Cell>, s: nat, h: Hasher, k: Key, d: nat, limit: nat)
    requires Inv(cells, s, h, limit) && Passed(cells, h, k, HomeOf(cells, h, k), d)
    ensures Missing(cells, h, k, d)
  {
    hide Full, Home;
    forall c, i | 0 <= c < |cells| && 0 <= i < |cells[c].places| && cells[c].places[i].Live() && cells[c].places[i].key == k
      ensures Hops(|cells|, HomeOf(cells, h, k), c) >= d
    {
      assert cells[c].places[i].Matches(h, k);
    }
  }

  /** A cell that is not Full ends the search: no record of the key lies beyond it. */
  lemma GapEndsSearch(cells: seq<Cell>, s: nat, h: Hasher, k: Key, c: nat, limit: nat)
    requires Inv(cells, s, h, limit) && c < |cells|
    requires var home := HomeOf(cells, h, k); Passed(cells, h, k, home, Hops(|cells|, home, c))
    requires !Full(cells[c]) && NoMatch(cells[c], h, k)
    ensures Missing(cells, h, k, limit)
  {
    hide Full, Home;
    forall e, i | 0 <= e < |cells| && 0 <= i < |cells[e].places| && cells[e].places[i].Live()
      ensures cells[e].places[i].key != k
    {
      assert cells[e].places[i].key == k ==> cells[e].places[i].Matches(h, k);
    }
  }

  /** What is found is what the map binds. */
  lemma HeldIsBound(cells: seq<Cell>, c: nat, i: nat, m: map<Key, Value>)
    requires c < |cells| && i < |cells[c].places| && cells[c].places[i].Live() && Represents(Contents(cells), m)
    ensures var p := cells[c].places[i]; p.key in m && m[p.key] == p.value
  {
    LiveIsIn(cells, c, i);
  }

  /** A key missed everywhere within the limit of the invariant is not in the map, and conversely. */
  lemma MissingIsUnbound(cells: seq<Cell>, s: nat, h: Hasher, k: Key, limit: nat, m: map<Key, Value>)
    requires Inv(cells, s, h, limit) && Represents(Contents(cells), m)
    ensures Missing(cells, h, k, limit) <==> k !in m
  {
    hide Full, Home, Hops;
    if k in m {
      ContentsHas(cells, (k, m[k]));
      var c, i :| 0 <= c < |cells| && Holds(cells[c], i, (k, m[k]));
      assert Reachable(cells, HomeOf(cells, h, k), c, limit);
    } else {
      forall c, i | 0 <= c < |cells| && 0 <= i < |cells[c].places| && cells[c].places[i].Live()
        ensures cells[c].places[i].key != k
      {
        LiveIsIn(cells, c, i);
      }
    }
  }

  // Where an insertion may go

  ghost predicate NoErased(c: Cell) {
    forall i :: 0 <= i < |c.places| ==> !c.places[i].deleted
  }

  /** A cell that a probe for the key visits: only Full cells before it, within reach. */
  ghost predicate Probed(cells: seq<Cell>, h: Hasher, k: Key, e: nat)
    requires 0 < |cells| && e < |cells|
  {
    Reachable(cells, HomeOf(cells, h, k), e, MAX_PROBE_LEN)
  }

  /** The lowest deleted place of the farthest probed cell that has one. */
  ghost predicate LastErased(cells: seq<Cell>, h: Hasher, k: Key, c: nat, i: nat)
    requires 0 < |cells|
  {
    && c < |cells| && Probed(cells, h, k, c)
    && i < |cells[c].places| && i == First(cells[c].places, Erased, 0)
    && forall e :: 0 <= e < |cells| && Probed(cells, h, k, e) && !NoErased(cells[e]) ==>
      Hops(|cells|, HomeOf(cells, h, k), e) <= Hops(|cells|, HomeOf(cells, h, k), c)
  }

  /** No probed cell has a deleted place, and this is the lowest free place of the first cell that is not Full. */
  ghost predicate FirstFree(cells: seq<Cell>, h: Hasher, k: Key, c: nat, i: nat)
    requires 0 < |cells|
  {
    && c < |cells| && Probed(cells, h, k, c) && !Full(cells[c])
    && i < |cells[c].places| && i == First(cells[c].places, Free, 0)
    && NothingErased(cells, h, k)
  }

  ghost predicate NothingErased(cells: seq<Cell>, h: Hasher, k: Key)
    requires 0 < |cells|
  {
    forall e :: 0 <= e < |cells| && Probed(cells, h, k, e) ==> NoErased(cells[e])
  }

  /** Where the probe has got to: deleted places seen so far. */
  ghost predicate Seen(cells: seq<Cell>, home: nat, d: nat, some: bool, c: nat, i: nat)
    requires home < |cells|
  {
    if some then
      && c < |cells| && Hops(|cells|, home, c) < d
      && i < |cells[c].places| && i == First(cells[c].places, Erased, 0)
      && forall e :: 0 <= e < |cells| && Hops(|cells|, home, c) < Hops(|cells|, home, e) < d ==> NoErased(cells[e])
    else
      forall e :: 0 <= e < |cells| && Hops(|cells|, home, e) < d ==> NoErased(cells[e])
  }

  lemma FreePlace(c: Cell, s: nat, h: Hasher)
    requires CellOk(c, s, h)
    ensures First(c.places, Free, 0) < s
  {
    var i := First(c.places, Free, 0);
    if i == s {
      assert forall j :: 0 <= j < s ==> !Free(c.places[j]);
      AllOccupied(c.places);
    }
  }

  lemma {:induction false} AllOccupied(places: seq<Place>)
    requires forall j :: 0 <= j < |places| ==> places[j].occupied
    ensures Tally(places, Occupied) == |places|
  {
    if places != [] {
      AllOccupied(places[..|places| - 1]);
    }
  }

  /** A probe that passed every cell has seen every deleted place there is to see. */
  lemma ProbeExhausted(cells: seq<Cell>, h: Hasher, k: Key, d: nat, some: bool, c: nat, i: nat)
    requires 0 < |cells| && (d == |cells| || d == MAX_PROBE_LEN) && d <= MAX_PROBE_LEN
    requires Passed(cells, h, k, HomeOf(cells, h, k), d) && Seen(cells, HomeOf(cells, h, k), d, some, c, i)
    ensures some ==> LastErased(cells, h, k, c, i) && c < |cells| && i < |cells[c].places|
    ensures !some ==> NothingErased(cells, h, k) && forall e :: 0 <= e < |cells| && Probed(cells, h, k, e) ==> Full(cells[e])
  {
    hide Full, HomeOf;
  }

  /** So has one that stops at a cell that is not Full. */
  lemma ProbeStopped(cells: seq<Cell>, h: Hasher, k: Key, stop: nat, some: bool, c: nat, i: nat)
    requires 0 < |cells| && stop < |cells| && !Full(cells[stop])
    requires var home := HomeOf(cells, h, k);
      var d := Hops(|cells|, home, stop);
      d < MAX_PROBE_LEN && Passed(cells, h, k, home, d) && Seen(cells, home, d + 1, some, c, i)
    ensures Probed(cells, h, k, stop)
    ensures some ==> LastErased(cells, h, k, c, i) && c < |cells| && i < |cells[c].places|
    ensures !some ==> NothingErased(cells, h, k)
  {
    hide Full, HomeOf;
  }

  lemma ProbeStart(cells: seq<Cell>, h: Hasher, k: Key)
    requires 0 < |cells|
    ensures Passed(cells, h, k, HomeOf(cells, h, k), 0) && Seen(cells, HomeOf(cells, h, k), 0, false, 0, 0)
  {
  }

  /** One more cell looked at: its lowest deleted place, if any, replaces the one remembered. */
  lemma SeenStep(cells: seq<Cell>, home: nat, at: nat, some: bool, c: nat, i: nat)
    requires home < |cells| && at < |cells| && Seen(cells, home, Hops(|cells|, home, at), some, c, i)
    ensures var erased := First(cells[at].places, Erased, 0);
      if erased < |cells[at].places| then Seen(cells, home, Hops(|cells|, home, at) + 1, true, at, erased)
      else Seen(cells, home, Hops(|cells|, home, at) + 1, some, c, i)
  {
    hide First;
  }

  lemma PassStep(cells: seq<Cell>, h: Hasher, k: Key, home: nat, at: nat)
    requires home < |cells| && at < |cells| && Passed(cells, h, k, home, Hops(|cells|, home, at))
    requires Full(cells[at]) && NoMatch(cells[at], h, k)
    ensures Passed(cells, h, k, home, Hops(|cells|, home, at) + 1)
  {
    hide Full, NoMatch;
  }

  // The specification of findSlotForInsert

  /** What findSlotForInsert reports. */
  datatype Target = NoSlot | Fresh(cell: nat, slot: nat) | Equal(cell: nat, slot: nat, was: nat)

  /**
   An equal key within reach is updated into its cell's lowest free place; otherwise the last deleted place on
   the probe is reused, or else the first free one; it fails only with neither.
   */
  ghost predicate TargetOk(cells: seq<Cell>, h: Hasher, k: Key, t: Target)
    requires 0 < |cells|
  {
    InRange(cells, t) &&
    match t
    case Equal(c, i, w) =>
      && cells[c].places[w].Matches(h, k)
      && i == First(cells[c].places, Free, 0)
    case Fresh(c, i) =>
      Missing(cells, h, k, MAX_PROBE_LEN) && (LastErased(cells, h, k, c, i) || FirstFree(cells, h, k, c, i))
    case NoSlot =>
      && Missing(cells, h, k, MAX_PROBE_LEN) && NothingErased(cells, h, k)
      && forall e :: 0 <= e < |cells| && Probed(cells, h, k, e) ==> Full(cells[e])
  }

  predicate InRange(cells: seq<Cell>, t: Target) {
    && (!t.NoSlot? ==> t.cell < |cells| && t.slot < |cells[t.cell].places|)
    && (t.Equal? ==> t.was < |cells[t.cell].places|)
  }

  /** insertToSlotAndGC at such a target. */
  function Put(cells: seq<Cell>, h: Hasher, k: Key, v: Value, t: Target): seq<Cell>
    requires InRange(cells, t)
  {
    var p := Place(true, false, h.tag(k), h.h1(k), k, v);
    match t
    case NoSlot => cells
    case Fresh(c, i) => cells[c := Filled(cells[c], i, p)]
    case Equal(c, i, w) => cells[c := Moved(cells[c], i, w, p)]
  }

  lemma PutFresh(cells: seq<Cell>, s: nat, h: Hasher, k: Key, v: Value, c: nat, i: nat, limit: nat)
    requires Inv(cells, s, h, limit) && limit >= MAX_PROBE_LEN && TargetOk(cells, h, k, Fresh(c, i))
    ensures var after := Put(cells, h, k, v, Fresh(c, i));
      Inv(after, s, h, limit) && Contents(after) == Contents(cells) + multiset{(k, v)}
  {
    var p := Place(true, false, h.tag(k), h.h1(k), k, v);
    assert Reachable(cells, HomeOf(cells, h, k), c, limit);
    FilledSpec(cells, c, i, p, cells[c].seqNo + 1, s, h, limit);
  }

  lemma PutEqual(cells: seq<Cell>, s: nat, h: Hasher, k: Key, v: Value, c: nat, i: nat, w: nat, limit: nat, m: map<Key, Value>)
    requires Inv(cells, s, h, limit) && TargetOk(cells, h, k, Equal(c, i, w)) && Represents(Contents(cells), m)
    ensures var after, was := Put(cells, h, k, v, Equal(c, i, w)), cells[c].places[w].value;
      && Inv(after, s, h, limit) && Contents(after) + multiset{(k, was)} == Contents(cells) + multiset{(k, v)}
      && k in m && m[k] == was
  {
    HeldIsBound(cells, c, w, m);
    MovedSpec(cells, c, i, w, Place(true, false, h.tag(k), h.h1(k), k, v), s, h, limit);
  }

  /** Writing to the target binds the key in the map and keeps the invariant. */
  lemma PutSpec(cells: seq<Cell>, s: nat, h: Hasher, k: Key, v: Value, t: Target, limit: nat, m: map<Key, Value>)
    requires Inv(cells, s, h, limit) && limit >= MAX_PROBE_LEN && Represents(Contents(cells), m)
    requires TargetOk(cells, h, k, t) && !t.NoSlot? && (t.Fresh? ==> k !in m)
    ensures var after := Put(cells, h, k, v, t);
      && Inv(after, s, h, limit) && Represents(Contents(after), m[k := v])
      && (t.Equal? ==> k in m && m[k] == cells[t.cell].places[t.was].value)
  {
    assert InRange(cells, t);
    hide Inv, Contents, TargetOk, Put, Represents, InRange;
    match t {
      case Fresh(c, i) =>
        PutFresh(cells, s, h, k, v, c, i, limit);
      case Equal(c, i, w) =>
        PutEqual(cells, s, h, k, v, c, i, w, limit, m);
    }
    RepresentsPut(Contents(cells), Contents(Put(cells, h, k, v, t)), m, k, v);
  }

  lemma MarkOccupancy(c: Cell, i: nat)
    requires i < |c.places|
    ensures Occupancy(Marked(c, i)) == Occupancy(c)
  {
    TallyUpdate(c.places, i, Marked(c, i).places[i], Occupied);
  }

  /** Marking a record deleted unbinds its key. */
  lemma MarkSpec(cells: seq<Cell>, s: nat, h: Hasher, c: nat, i: nat, limit: nat, m: map<Key, Value>)
    requires Inv(cells, s, h, limit) && Represents(Contents(cells), m)
    requires c < |cells| && i < s && cells[c].places[i].Live()
    ensures var after, p := cells[c := Marked(cells[c], i)], cells[c].places[i];
      Inv(after, s, h, limit) && Represents(Contents(after), m - {p.key}) && p.key in m && m[p.key] == p.value
  {
    HeldIsBound(cells, c, i, m);
    MarkedSpec(cells, c, i, s, h, limit);
    hide Inv, Contents;
    RepresentsDelete(Contents(cells), Contents(cells[c := Marked(cells[c], i)]), m, cells[c].places[i].key);
  }

  lemma WiderReach(cells: seq<Cell>, s: nat, h: Hasher)
    requires Inv(cells, s, h, MAX_PROBE_LEN)
    ensures Inv(cells, s, h, MAX_PROBE_LEN + 1)
  {
  }

  lemma TargetBinds(cells: seq<Cell>, s: nat, h: Hasher, k: Key, t: Target, m: map<Key, Value>)
    requires Inv(cells, s, h, MAX_PROBE_LEN + 1) && TargetOk(cells, h, k, t) && Represents(Contents(cells), m)
    requires Inv(cells, s, h, MAX_PROBE_LEN) || k !in m
    ensures InRange(cells, t) && (t.Equal? <==> k in m)
  {
    if t.Equal? {
      HeldIsBound(cells, t.cell, t.was, m);
    } else if Inv(cells, s, h, MAX_PROBE_LEN) {
      MissingIsUnbound(cells, s, h, k, MAX_PROBE_LEN, m);
    }
  }
}
