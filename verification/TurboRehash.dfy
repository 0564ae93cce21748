/**
 Where a TurboHash rehash puts each record: as a function of the order in which the old bucket is walked.
 A rehash may take one probe step more than a lookup does.
 */
module TurboRehash {
  import opened Bags
  import opened TurboCell

  datatype Landing = Landed(cell: nat, hops: nat) | NoRoom

  /** findNextSlotInRehash, standing at cell `at` after `hops` steps; vec counts the places used in each new cell. */
  function Land(vec: seq<nat>, s: nat, at: nat, hops: nat): (r: Landing)
    requires at < |vec| && s > 0 && hops <= MAX_PROBE_LEN
    ensures r.Landed? ==> r.cell < |vec|
    decreases MAX_PROBE_LEN - hops
  {
    if vec[at] < s - 1 then Landed(at, hops)
    else if hops == MAX_PROBE_LEN then NoRoom
    else Land(vec, s, Next(|vec|, at), hops + 1)
  }

  /** All cells fewer than d steps from home are used up. */
  ghost predicate UsedBefore(vec: seq<nat>, s: nat, home: nat, d: nat)
    requires home < |vec|
  {
    forall e :: 0 <= e < |vec| && Hops(|vec|, home, e) < d ==> vec[e] >= s - 1
  }

  /** A record lands in the nearest cell with room, or all sixteen cells from its home on are used up. */
  lemma {:induction false} LandSound(vec: seq<nat>, s: nat, home: nat, at: nat, hops: nat)
    requires home < |vec| && at < |vec| && s > 0 && hops <= MAX_PROBE_LEN
    requires hops < |vec| ==> Hops(|vec|, home, at) == hops
    requires UsedBefore(vec, s, home, hops)
    ensures match Land(vec, s, at, hops)
      case NoRoom => UsedBefore(vec, s, home, MAX_PROBE_LEN + 1)
      case Landed(c, d) => c < |vec| && vec[c] < s - 1 && Hops(|vec|, home, c) == d <= MAX_PROBE_LEN && UsedBefore(vec, s, home, d)
    decreases MAX_PROBE_LEN - hops
  {
    if vec[at] >= s - 1 && hops < MAX_PROBE_LEN {
      assert UsedBefore(vec, s, home, hops + 1);
      LandSound(vec, s, home, Next(|vec|, at), hops + 1);
    }
  }

  /** The nearest cell with room is where the record lands. */
  lemma LandFinds(vec: seq<nat>, s: nat, home: nat, c: nat)
    requires home < |vec| && c < |vec| && s > 0 && Hops(|vec|, home, c) <= MAX_PROBE_LEN
    requires vec[c] < s - 1 && UsedBefore(vec, s, home, Hops(|vec|, home, c))
    ensures Land(vec, s, home, 0) == Landed(c, Hops(|vec|, home, c))
  {
    LandSound(vec, s, home, home, 0);
    var r := Land(vec, s, home, 0);
    assert r.Landed?;
    assert !(r.hops < Hops(|vec|, home, c)) && !(r.hops > Hops(|vec|, home, c));
  }

  // The whole walk

  datatype Settling = Settled(vec: seq<nat>, hops: seq<nat>) | GaveUp

  function SettleOne(r: Settling, s: nat, home: nat): (t: Settling)
    requires s > 0 && (r.Settled? ==> home < |r.vec|)
    ensures t.Settled? ==> r.Settled? && |t.vec| == |r.vec| && |t.hops| == |r.hops| + 1
  {
    if r.GaveUp? then GaveUp
    else
      match Land(r.vec, s, home, 0)
      case NoRoom => GaveUp
      case Landed(c, d) => Settled(r.vec[c := r.vec[c] + 1], r.hops + [d])
  }

  /** Settles records with the given homes one after the other in n new cells. */
  function Settle(n: nat, s: nat, homes: seq<nat>): (r: Settling)
    requires n > 0 && s > 0 && forall j :: 0 <= j < |homes| ==> homes[j] < n
    ensures r.Settled? ==> |r.vec| == n && |r.hops| == |homes|
  {
    if homes == [] then Settled(seq(n, _ => 0), [])
    else SettleOne(Settle(n, s, homes[..|homes| - 1]), s, homes[|homes| - 1])
  }

  /** Some record came to lie one step beyond the reach of a lookup. */
  ghost predicate Overreaches(r: Settling) {
    r.Settled? && exists j :: 0 <= j < |r.hops| && r.hops[j] >= MAX_PROBE_LEN
  }

  function Total(vec: seq<nat>): nat {
    if vec == [] then 0 else Total(vec[..|vec| - 1]) + vec[|vec| - 1]
  }

  lemma {:induction false} TotalUpdate(vec: seq<nat>, c: nat, x: nat)
    requires c < |vec|
    ensures Total(vec[c := x]) == Total(vec) + x - vec[c]
  {
    var k, t := |vec| - 1, vec[c := x];
    if c == k {
      assert t[..k] == vec[..k];
    } else {
      assert t[..k] == vec[..k][c := x];
      TotalUpdate(vec[..k], c, x);
    }
  }

  lemma MulStep(k: nat, x: nat)
    ensures (k + 1) * x == k * x + x
  {
  }

  lemma {:induction false} TotalBound(vec: seq<nat>, x: nat)
    ensures (forall c :: 0 <= c < |vec| ==> vec[c] == 0) ==> Total(vec) == 0
    ensures (forall c :: 0 <= c < |vec| ==> vec[c] >= x) ==> Total(vec) >= |vec| * x
    ensures (forall c :: 0 <= c < |vec| ==> vec[c] <= x) ==> Total(vec) <= |vec| * x
  {
    if vec != [] {
      var k := |vec| - 1;
      TotalBound(vec[..k], x);
      MulStep(k, x);
    }
  }

  /** While there is room in at most sixteen cells, one more record settles, within reach if there are only fifteen. */
  lemma OneMoreSettles(r: Settling, s: nat, home: nat)
    requires s > 0 && r.Settled? && home < |r.vec| <= MAX_PROBE_LEN + 1
    requires Total(r.vec) < |r.vec| * (s - 1)
    ensures var t := SettleOne(r, s, home);
      t.Settled? && Total(t.vec) == Total(r.vec) + 1 && t.hops[..|r.hops|] == r.hops && t.hops[|r.hops|] < |r.vec|
  {
    LandSound(r.vec, s, home, home, 0);
    TotalBound(r.vec, s - 1);
    var l := Land(r.vec, s, home, 0);
    assert l.Landed?;
    TotalUpdate(r.vec, l.cell, r.vec[l.cell] + 1);
  }

  /**
   With at most sixteen cells a rehash never gives up as long as the records fit at all, and with at most
   fifteen no record lands out of reach.
   */
  lemma {:induction false} SmallBucketsSettle(n: nat, s: nat, homes: seq<nat>)
    requires 0 < n <= MAX_PROBE_LEN + 1 && s > 0 && forall j :: 0 <= j < |homes| ==> homes[j] < n
    requires |homes| <= n * (s - 1)
    ensures var r := Settle(n, s, homes);
      r.Settled? && Total(r.vec) == |homes| && forall j :: 0 <= j < |homes| ==> r.hops[j] < n
  {
    if homes == [] {
      TotalBound(Settle(n, s, []).vec, 0);
    } else {
      hide SettleOne;
      var last := |homes| - 1;
      var prev := Settle(n, s, homes[..last]);
      SmallBucketsSettle(n, s, homes[..last]);
      OneMoreSettles(prev, s, homes[last]);
      assert forall j :: 0 <= j < last ==> Settle(n, s, homes).hops[..last][j] == prev.hops[j];
    }
  }

  // The order of the walk

  /** The live places of a cell in ascending order, as the bit set iterates them. */
  function LiveIn(places: seq<Place>): seq<Place> {
    if places == [] then []
    else
      var last := |places| - 1;
      LiveIn(places[..last]) + if places[last].Live() then [places[last]] else []
  }

  /** The live places of the bucket, cell by cell. */
  function LivePlaces(cells: seq<Cell>): seq<Place> {
    if cells == [] then []
    else LivePlaces(cells[..|cells| - 1]) + LiveIn(cells[|cells| - 1].places)
  }

  function Homes(h: Hasher, places: seq<Place>, n: nat): (r: seq<nat>)
    requires n > 0
    ensures |r| == |places| && forall j :: 0 <= j < |r| ==> r[j] < n
  {
    seq(|places|, j requires 0 <= j < |places| => Home(h, places[j].h1, n))
  }

  /** What a rehash of these cells into n new ones does with their records. */
  function Rehash(cells: seq<Cell>, h: Hasher, s: nat, n: nat): Settling
    requires n > 0 && s > 0
  {
    Settle(n, s, Homes(h, LivePlaces(cells), n))
  }

  lemma {:induction false} LiveInCount(places: seq<Place>)
    ensures |LiveIn(places)| <= Tally(places, Occupied)
  {
    if places != [] {
      LiveInCount(places[..|places| - 1]);
    }
  }

  lemma {:induction false} LivePlacesCount(cells: seq<Cell>, x: nat)
    requires forall c :: 0 <= c < |cells| ==> Occupancy(cells[c]) <= x
    ensures |LivePlaces(cells)| <= |cells| * x
  {
    if cells != [] {
      var last := |cells| - 1;
      LivePlacesCount(cells[..last], x);
      LiveInCount(cells[last].places);
      hide LiveIn;
      MulStep(last, x);
    }
  }

  lemma MulMonotone(a: nat, b: nat, x: nat)
    requires a <= b
    ensures a * x <= b * x
  {
  }

  /** Doubling up to eight cells or collecting garbage in as many keeps every record within reach of a lookup. */
  lemma SmallRehash(cells: seq<Cell>, h: Hasher, s: nat, n: nat, limit: nat)
    requires Inv(cells, s, h, limit) && |cells| <= n <= MAX_PROBE_LEN + 1
    ensures Rehash(cells, h, s, n).Settled?
    ensures n <= MAX_PROBE_LEN ==> !Overreaches(Rehash(cells, h, s, n))
  {
    LivePlacesCount(cells, s - 1);
    MulMonotone(|cells|, n, s - 1);
    hide Inv, Settle;
    SmallBucketsSettle(n, s, Homes(h, LivePlaces(cells), n));
  }

  // When larger buckets keep their reach, whatever the order of the walk

  /** Home y is fewer than fifteen cells before or after home x. */
  predicate Near(n: nat, x: nat, y: nat)
    requires x < n && y < n
  {
    Hops(n, x, y) < MAX_PROBE_LEN || Hops(n, y, x) < MAX_PROBE_LEN
  }

  function NearTo(n: nat, x: nat): nat -> bool
    requires x < n
  {
    (y: nat) => y < n && Near(n, x, y)
  }

  /** No 29 consecutive new cells are home to more records than fifteen cells take. */
  predicate Calm(n: nat, s: nat, homes: seq<nat>)
    requires s > 0
  {
    forall x: nat :: x < n ==> Tally(homes, NearTo(n, x)) <= MAX_PROBE_LEN * (s - 1)
  }

  /** The cell i steps after x. */
  function Steps(n: nat, x: nat, i: nat): (c: nat)
    requires x < n && i < n
    ensures c < n && Hops(n, x, c) == i
  {
    if x + i < n then x + i else x + i - n
  }

  /** How much the k cells from x on hold. */
  function Window(vec: seq<nat>, x: nat, k: nat): nat
    requires x < |vec| && k <= |vec|
  {
    if k == 0 then 0 else Window(vec, x, k - 1) + vec[Steps(|vec|, x, k - 1)]
  }

  lemma {:induction false} WindowUpdate(vec: seq<nat>, x: nat, k: nat, c: nat)
    requires x < |vec| && k <= |vec| && c < |vec|
    ensures Window(vec[c := vec[c] + 1], x, k) == Window(vec, x, k) + if Hops(|vec|, x, c) < k then 1 else 0
  {
    if k > 0 {
      WindowUpdate(vec, x, k - 1, c);
      assert Steps(|vec|, x, k - 1) == c <==> Hops(|vec|, x, c) == k - 1;
    }
  }

  lemma {:induction false} WindowUsed(vec: seq<nat>, s: nat, x: nat, k: nat)
    requires s > 0 && x < |vec| && k <= |vec| && UsedBefore(vec, s, x, k)
    ensures Window(vec, x, k) >= k * (s - 1)
  {
    if k > 0 {
      WindowUsed(vec, s, x, k - 1);
      MulStep(k - 1, s - 1);
    }
  }

  lemma {:induction false} WindowZero(n: nat, x: nat, k: nat)
    requires x < n && k <= n
    ensures Window(seq(n, _ => 0), x, k) == 0
  {
    if k > 0 {
      WindowZero(n, x, k - 1);
    }
  }

  /** Two homes from which the same cell is fewer than fifteen steps away are near each other. */
  lemma SharedCell(n: nat, x: nat, y: nat, c: nat)
    requires x < n && y < n && c < n && Hops(n, x, c) < MAX_PROBE_LEN && Hops(n, y, c) < MAX_PROBE_LEN
    ensures Near(n, x, y)
  {
  }

  /** What fifteen cells hold came from homes near the first of them. */
  ghost predicate Accounted(vec: seq<nat>, homes: seq<nat>)
    requires |vec| > MAX_PROBE_LEN
  {
    forall x: nat :: x < |vec| ==> Window(vec, x, MAX_PROBE_LEN) <= Tally(homes, NearTo(|vec|, x))
  }

  lemma TallyNext(homes: seq<nat>, y: nat, p: nat -> bool)
    ensures Tally(homes + [y], p) == Tally(homes, p) + if p(y) then 1 else 0
  {
    assert (homes + [y])[..|homes|] == homes;
  }

  lemma CalmHasRoom(vec: seq<nat>, s: nat, homes: seq<nat>, y: nat)
    requires s > 0 && y < |vec| && |vec| > MAX_PROBE_LEN && Accounted(vec, homes) && Calm(|vec|, s, homes + [y])
    ensures !UsedBefore(vec, s, y, MAX_PROBE_LEN)
  {
    var n := |vec|;
    assert Window(vec, y, MAX_PROBE_LEN) <= Tally(homes, NearTo(n, y));
    assert Tally(homes + [y], NearTo(n, y)) <= MAX_PROBE_LEN * (s - 1);
    TallyNext(homes, y, NearTo(n, y));
    if UsedBefore(vec, s, y, MAX_PROBE_LEN) {
      WindowUsed(vec, s, y, MAX_PROBE_LEN);
    }
  }

  /** A record that lands fewer than fifteen steps from home is accounted for. */
  lemma AccountedNext(vec: seq<nat>, homes: seq<nat>, y: nat, c: nat)
    requires |vec| > MAX_PROBE_LEN && Accounted(vec, homes) && y < |vec| && c < |vec| && Hops(|vec|, y, c) < MAX_PROBE_LEN
    ensures Accounted(vec[c := vec[c] + 1], homes + [y])
  {
    hide Window, Hops, Near;
    var n := |vec|;
    forall x: nat | x < n
      ensures Window(vec[c := vec[c] + 1], x, MAX_PROBE_LEN) <= Tally(homes + [y], NearTo(n, x))
    {
      WindowUpdate(vec, x, MAX_PROBE_LEN, c);
      TallyNext(homes, y, NearTo(n, x));
      assert Window(vec, x, MAX_PROBE_LEN) <= Tally(homes, NearTo(n, x));
      if Hops(n, x, c) < MAX_PROBE_LEN {
        SharedCell(n, x, y, c);
      }
    }
  }

  /** One more record finds a cell fewer than fifteen steps away. */
  lemma CalmLands(vec: seq<nat>, s: nat, homes: seq<nat>, y: nat)
    requires s > 0 && y < |vec| && |vec| > MAX_PROBE_LEN && Accounted(vec, homes) && Calm(|vec|, s, homes + [y])
    ensures var l := Land(vec, s, y, 0);
      && l.Landed? && l.hops < MAX_PROBE_LEN && vec[l.cell] < s - 1
      && Accounted(vec[l.cell := vec[l.cell] + 1], homes + [y])
  {
    hide Land, Calm, Accounted;
    LandSound(vec, s, y, y, 0);
    CalmHasRoom(vec, s, homes, y);
    var l := Land(vec, s, y, 0);
    assert l.Landed? && l.hops < MAX_PROBE_LEN;
    AccountedNext(vec, homes, y, l.cell);
  }

  lemma CalmFront(n: nat, s: nat, homes: seq<nat>, y: nat)
    requires s > 0 && Calm(n, s, homes + [y])
    ensures Calm(n, s, homes)
  {
    forall x: nat | x < n
      ensures Tally(homes, NearTo(n, x)) <= MAX_PROBE_LEN * (s - 1)
    {
      TallyNext(homes, y, NearTo(n, x));
    }
  }

  lemma CalmStart(n: nat, s: nat)
    requires n > MAX_PROBE_LEN && s > 0
    ensures var r := Settle(n, s, []); r.Settled? && Accounted(r.vec, []) && !Overreaches(r)
  {
    forall x: nat | x < n
      ensures Window(Settle(n, s, []).vec, x, MAX_PROBE_LEN) == 0
    {
      WindowZero(n, x, MAX_PROBE_LEN);
    }
  }

  lemma {:induction false} CalmSettles(n: nat, s: nat, homes: seq<nat>)
    requires n > MAX_PROBE_LEN && s > 0 && (forall j :: 0 <= j < |homes| ==> homes[j] < n) && Calm(n, s, homes)
    ensures var r := Settle(n, s, homes); r.Settled? && Accounted(r.vec, homes) && !Overreaches(r)
  {
    hide Calm, Accounted, Land, Overreaches;
    if homes == [] {
      CalmStart(n, s);
    } else {
      var front, y := homes[..|homes| - 1], homes[|homes| - 1];
      assert homes == front + [y];
      CalmFront(n, s, front, y);
      CalmSettles(n, s, front);
      CalmLands(Settle(n, s, front).vec, s, front, y);
      OverreachNext(Settle(n, s, front), s, y);
    }
  }

  lemma OverreachNext(r: Settling, s: nat, home: nat)
    requires r.Settled? && s > 0 && home < |r.vec| && !Overreaches(r)
    requires var l := Land(r.vec, s, home, 0); l.Landed? && l.hops < MAX_PROBE_LEN
    ensures !Overreaches(SettleOne(r, s, home))
  {
    hide Land;
  }

  /** However the records are ordered, a calm rehash beyond fifteen cells settles them all within the reach of lookups. */
  lemma CalmRehash(cells: seq<Cell>, h: Hasher, s: nat, n: nat)
    requires n > MAX_PROBE_LEN && s > 0 && Calm(n, s, Homes(h, LivePlaces(cells), n))
    ensures var r := Rehash(cells, h, s, n); r.Settled? && !Overreaches(r)
  {
    CalmSettles(n, s, Homes(h, LivePlaces(cells), n));
  }

  /** Calm looks only at how many records each cell is home to. */
  lemma CalmIgnoresOrder(n: nat, s: nat, homes: seq<nat>, other: seq<nat>)
    requires s > 0 && multiset(homes) == multiset(other)
    ensures Calm(n, s, homes) <==> Calm(n, s, other)
  {
    forall x: nat | x < n
      ensures Tally(homes, NearTo(n, x)) == Tally(other, NearTo(n, x))
    {
      TallyOrder(homes, other, NearTo(n, x));
    }
  }
}
