/**
 A TurboHash bucket of sixteen cells that meets every invariant of insertions and lookups, but that a doubling
 cannot carry over within the reach of lookups: six records of home 2 sit in cell 0, fourteen steps out, and
 ninety of home 1 fill the other cells. The walk meets the six first, they take cell 2 of the new bucket, and the last six of the
 ninety are pushed fifteen steps from their home.
 */
module TurboOverreach {
  import opened Bags
  import opened TurboCell
  import opened TurboProbe
  import opened TurboRehash
  import opened TurboMove

  const SLOTS: nat := 7
  const CELLS: nat := 16

  function Mix(x: nat): nat {
    if x < 6 then 2 else 1
  }

  function Word(k: Key): nat {
    if k < 0 then 0 else k
  }

  function Tag(k: Key): nat {
    0
  }

  const HASHER: Hasher := Hasher(Word, Tag, Mix)

  function Record(k: Key): Place {
    Place(true, false, 0, Word(k), k, 0)
  }

  function Records(j: nat): seq<Place> {
    seq(j, k => Record(k))
  }

  function Six(c: nat): seq<Place> {
    seq(6, i => Record(6 * c + i))
  }

  function Bindings(n: nat): (m: map<Key, Value>)
    ensures forall k :: k in m <==> 0 <= k < n
    ensures forall k :: k in m ==> m[k] == 0
  {
    if n == 0 then map[] else Bindings(n - 1)[n - 1 := 0]
  }

  /** Six records and the spare place. */
  function CrowdedCell(c: nat): Cell {
    Cell(Six(c) + [EMPTY], 0)
  }

  function Crowded(n: nat): seq<Cell> {
    seq(n, c requires c >= 0 => CrowdedCell(c))
  }

  lemma CrowdedCellLive(c: nat)
    ensures Occupancy(CrowdedCell(c)) == 6
    ensures LiveIn(CrowdedCell(c).places) == Six(c)
  {
    var places := CrowdedCell(c).places;
    assert places[..6] == Six(c);
    assert forall i :: 0 <= i < 6 ==> Six(c)[i] == Record(6 * c + i);
    AllLive(Six(c));
    AllOccupied(Six(c));
  }

  lemma {:induction false} AllLive(places: seq<Place>)
    requires forall i :: 0 <= i < |places| ==> places[i].Live()
    ensures LiveIn(places) == places
  {
    if places != [] {
      AllLive(places[..|places| - 1]);
    }
  }

  lemma {:induction false} CrowdedWalk(n: nat)
    ensures LivePlaces(Crowded(n)) == Records(6 * n)
  {
    if n > 0 {
      CrowdedWalk(n - 1);
      CrowdedCellLive(n - 1);
      assert Crowded(n)[..n - 1] == Crowded(n - 1);
    }
  }

  lemma LastRecord(j: nat)
    requires j > 0
    ensures Sum(Records(j), PlaceBag) == Sum(Records(j - 1), PlaceBag) + PlaceBag(Record(j - 1))
  {
    assert Records(j)[..j - 1] == Records(j - 1);
  }

  lemma {:induction false} RecordsBag(j: nat, e: (Key, Value))
    ensures Sum(Records(j), PlaceBag)[e] == if 0 <= e.0 < j && e.1 == 0 then 1 else 0
  {
    if j > 0 {
      RecordsBag(j - 1, e);
      LastRecord(j);
      hide Records;
      assert PlaceBag(Record(j - 1)) == multiset{(j - 1, 0)};
    } else {
      assert Records(j) == [];
    }
  }

  lemma CrowdedCellOk(c: nat)
    ensures CellOk(CrowdedCell(c), SLOTS, HASHER) && Full(CrowdedCell(c)) && NoErased(CrowdedCell(c))
  {
    CrowdedCellLive(c);
    hide Occupancy;
    var places := CrowdedCell(c).places;
    assert forall i :: 0 <= i < 7 ==> places[i] == if i < 6 then Record(6 * c + i) else EMPTY;
  }

  lemma CrowdedBag(e: (Key, Value))
    ensures Contents(Crowded(CELLS))[e] == if e.0 in Bindings(96) && Bindings(96)[e.0] == e.1 then 1 else 0
  {
    WalkIsComplete(Crowded(CELLS));
    CrowdedWalk(CELLS);
    RecordsBag(96, e);
  }

  lemma CrowdedReach(c: nat, i: nat)
    requires c < CELLS && i < 6
    ensures Hops(CELLS, Home(HASHER, Word(6 * c + i), CELLS), c) < MAX_PROBE_LEN
  {
  }

  /** The bucket is a good one: every lookup finds its record, and it holds 96 bindings. */
  lemma CrowdedIsValid()
    ensures Inv(Crowded(CELLS), SLOTS, HASHER, MAX_PROBE_LEN)
    ensures Represents(Contents(Crowded(CELLS)), Bindings(96))
    ensures forall c :: 0 <= c < CELLS ==> Full(Crowded(CELLS)[c]) && NoErased(Crowded(CELLS)[c])
  {
    var cells := Crowded(CELLS);
    forall c: nat | c < CELLS
      ensures CellOk(cells[c], SLOTS, HASHER) && Full(cells[c]) && NoErased(cells[c])
    {
      CrowdedCellOk(c);
    }
    hide Full, Occupancy, CellOk, Hops, Home, Word, Contents, NoErased, Bindings;
    forall e: (Key, Value)
      ensures Contents(cells)[e] == if e.0 in Bindings(96) && Bindings(96)[e.0] == e.1 then 1 else 0
    {
      CrowdedBag(e);
    }
    forall c, i | 0 <= c < CELLS && 0 <= i < |cells[c].places| && cells[c].places[i].Live()
      ensures Reachable(cells, Home(HASHER, cells[c].places[i].h1, CELLS), c, MAX_PROBE_LEN)
    {
      assert i < 6 && cells[c].places[i] == Record(6 * c + i);
      CrowdedReach(c, i);
    }
  }

  // The doubling

  /** Places used in each of the 32 new cells once j records are settled. */
  function Used(j: nat): seq<nat> {
    seq(2 * CELLS, c requires c >= 0 => UsedIn(j, c))
  }

  function UsedIn(j: nat, c: nat): nat {
    if c == 2 then AtMostSix(j)
    else if c == 1 then AtMostSix(j - 6)
    else if c >= 3 then AtMostSix(j - 6 - 6 * (c - 2))
    else 0
  }

  function AtMostSix(x: int): nat {
    if x < 0 then 0 else if x < 6 then x else 6
  }

  function Lands(j: nat): nat {
    if j < 6 then 2 else if j < 12 then 1 else (j - 6) / 6 + 2
  }

  lemma NextLanding(j: nat)
    requires j < 96
    ensures Lands(j) < 2 * CELLS
    ensures Land(Used(j), SLOTS, Mix(j), 0) == Landed(Lands(j), Lands(j) - Mix(j))
    ensures Used(j)[Lands(j) := Used(j)[Lands(j)] + 1] == Used(j + 1)
  {
    LandFinds(Used(j), SLOTS, Mix(j), Lands(j));
  }

  lemma HomeOfRecord(j: nat)
    ensures Home(HASHER, Record(j).h1, 2 * CELLS) == Mix(j)
  {
  }

  lemma {:induction false} SettlesAs(j: nat)
    requires j <= 96
    ensures var r := Settle(2 * CELLS, SLOTS, Homes(HASHER, Records(j), 2 * CELLS));
      && r.Settled? && r.vec == Used(j)
      && (j > 0 ==> r.hops[j - 1] == Lands(j - 1) - Mix(j - 1))
  {
    if j == 0 {
      assert Used(0) == seq(2 * CELLS, _ => 0);
    } else {
      SettlesAs(j - 1);
      HomeOfRecord(j - 1);
      hide Settle, Homes, Land, Used, Lands, Mix, Home, Word;
      NextLanding(j - 1);
      SettleNext(2 * CELLS, SLOTS, HASHER, Records(j - 1), Record(j - 1));
      assert Records(j) == Records(j - 1) + [Record(j - 1)];
    }
  }

  /** Doubling this bucket puts a record out of reach; an insertion of any new key forces the doubling. */
  lemma DoublingCanOverreach()
    ensures Overreaches(Rehash(Crowded(CELLS), HASHER, SLOTS, 2 * CELLS))
    ensures forall k: Key :: k < 0 || k >= 96 ==> TargetOk(Crowded(CELLS), HASHER, k, NoSlot)
  {
    CrowdedWalk(CELLS);
    SettlesAs(96);
    CrowdedIsValid();
    forall k: Key | k < 0 || k >= 96
      ensures TargetOk(Crowded(CELLS), HASHER, k, NoSlot)
    {
      MissingIsUnbound(Crowded(CELLS), SLOTS, HASHER, k, MAX_PROBE_LEN, Bindings(96));
    }
  }
}
