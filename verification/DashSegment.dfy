/**
 One segment of Dash extendible hashing as values: what its buckets and stash hold, how a key is looked
 up, inserted and deleted, and the invariant that makes every lookup complete.
 */
module DashSegment {
  import opened Bags
  import opened DashMarks

  datatype Segment = Segment(bucket: seq<Bucket>, stash: seq<Bucket>)

  function Home(hash: nat): (y: nat)
    ensures y < BUCKETS
  {
    hash / 256 % BUCKETS
  }

  function Tag(hash: nat): nat {
    hash % 256
  }

  function Prev(y: nat): (z: nat)
    requires y < BUCKETS
    ensures z < BUCKETS && Next(z) == y
  {
    if y == 0 then BUCKETS - 1 else y - 1
  }

  // Contents

  ghost function CellPairs(c: Cell): multiset<Pair> {
    if c.Held? then multiset{c.pair} else multiset{}
  }

  ghost function BucketPairs(b: Bucket): multiset<Pair> {
    Sum(b.cells, CellPairs)
  }

  ghost function Contents(t: Segment): multiset<Pair> {
    Sum(t.bucket, BucketPairs) + Sum(t.stash, BucketPairs)
  }

  /** At most one pair for each key. */
  ghost predicate Functional(bag: multiset<Pair>) {
    forall p, q :: p in bag && q in bag && p.key == q.key ==> p == q && bag[p] == 1
  }

  // The stashed pairs of one home bucket

  ghost function StashedIn(h: Hasher, y: nat, pos: nat): Cell -> multiset<(nat, nat)> {
    (c: Cell) => if c.Held? && Home(h(c.pair.key)) == y then multiset{(Tag(h(c.pair.key)), pos)} else multiset{}
  }

  ghost function Stashed(h: Hasher, stash: seq<Bucket>, y: nat): multiset<(nat, nat)> {
    if stash == [] then multiset{}
    else
      var s := |stash| - 1;
      Stashed(h, stash[..s], y) + Sum(stash[s].cells, StashedIn(h, y, Position(s)))
  }

  /** One more stash bucket adds what it holds. */
  lemma StashedSnoc(h: Hasher, stash: seq<Bucket>, b: Bucket, y: nat)
    ensures Stashed(h, stash + [b], y) == Stashed(h, stash, y) + Sum(b.cells, StashedIn(h, y, Position(|stash|)))
  {
    assert (stash + [b])[..|stash|] == stash;
  }

  // The invariant

  ghost predicate CellOk(h: Hasher, y: nat, c: Cell)
    requires y < BUCKETS
  {
    c.Held? ==>
      var hash := h(c.pair.key);
      c.tag == Tag(hash) && c.pair.value != NONE && (if c.probe then Next(Home(hash)) == y else Home(hash) == y)
  }

  ghost predicate StashCellOk(h: Hasher, c: Cell) {
    c.Held? ==> c.tag == Tag(h(c.pair.key)) && c.pair.value != NONE && !c.probe
  }

  ghost predicate BucketOk(h: Hasher, y: nat, b: Bucket)
    requires y < BUCKETS
  {
    Shaped(b) && forall c :: c in b.cells ==> CellOk(h, y, c)
  }

  ghost predicate StashOk(h: Hasher, b: Bucket) {
    Shaped(b) && forall c :: c in b.cells ==> StashCellOk(h, c)
  }

  ghost predicate Placed(h: Hasher, t: Segment) {
    && |t.bucket| == BUCKETS && |t.stash| >= STASHES
    && (forall y :: 0 <= y < BUCKETS ==> BucketOk(h, y, t.bucket[y]))
    && (forall s :: 0 <= s < |t.stash| ==> StashOk(h, t.stash[s]))
  }

  ghost predicate Promised(h: Hasher, t: Segment)
    requires Placed(h, t)
  {
    forall y :: 0 <= y < BUCKETS ==> Promise(t.bucket, y, Stashed(h, t.stash, y))
  }

  ghost predicate Inv(h: Hasher, t: Segment) {
    Placed(h, t) && Promised(h, t)
  }

  // Operations on one bucket

  function Count(cells: seq<Cell>): (n: nat)
    ensures n <= |cells|
  {
    if cells == [] then 0
    else Count(cells[..|cells| - 1]) + if cells[|cells| - 1].Held? then 1 else 0
  }

  predicate Full(b: Bucket) {
    Count(b.cells) == PAIRS
  }

  function FirstFree(cells: seq<Cell>, i: nat := 0): (k: nat)
    requires i <= |cells|
    ensures i <= k <= |cells|
    ensures forall j :: i <= j < k ==> cells[j].Held?
    ensures k < |cells| ==> cells[k].Free?
    decreases |cells| - i
  {
    if i == |cells| || cells[i].Free? then i else FirstFree(cells, i + 1)
  }

  /** The first cell whose member bit is as wanted; a free cell has it clear. */
  function FirstMember(cells: seq<Cell>, probe: bool, i: nat := 0): (k: nat)
    requires i <= |cells|
    ensures i <= k <= |cells|
    ensures forall j :: i <= j < k ==> (cells[j].Held? && cells[j].probe) != probe
    ensures k < |cells| ==> (cells[k].Held? && cells[k].probe) == probe
    decreases |cells| - i
  {
    if i == |cells| || (cells[i].Held? && cells[i].probe) == probe then i else FirstMember(cells, probe, i + 1)
  }

  predicate Hit(c: Cell, tag: nat, key: Key, probe: bool) {
    c.Held? && c.tag == tag && c.probe == probe && c.pair.key == key
  }

  function FirstHit(cells: seq<Cell>, tag: nat, key: Key, probe: bool, i: nat := 0): (k: nat)
    requires i <= |cells|
    ensures i <= k <= |cells|
    ensures forall j :: i <= j < k ==> !Hit(cells[j], tag, key, probe)
    ensures k < |cells| ==> Hit(cells[k], tag, key, probe)
    decreases |cells| - i
  {
    if i == |cells| || Hit(cells[i], tag, key, probe) then i else FirstHit(cells, tag, key, probe, i + 1)
  }

  /** check_and_get */
  function Lookup(b: Bucket, tag: nat, key: Key, probe: bool): Value {
    var k := FirstHit(b.cells, tag, key, probe);
    if k < |b.cells| then b.cells[k].pair.value else NONE
  }

  function Place(b: Bucket, i: nat, c: Cell): Bucket
    requires i < |b.cells|
  {
    b.(cells := b.cells[i := c])
  }

  // Lookup in a segment

  function StashScan(stash: seq<Bucket>, y: nat, tag: nat, key: Key): Value
    requires |stash| == STASHES
  {
    var v := Lookup(stash[y % 2], tag, key, false);
    if v != NONE then v else Lookup(stash[(1 + y % 2) % 2], tag, key, false)
  }

  function MarkScan(stash: seq<Bucket>, marks: seq<Mark>, member: bool, tag: nat, key: Key, i: nat := 0): Value
    requires |stash| == STASHES && i <= |marks|
    decreases |marks| - i
  {
    if i == |marks| then NONE
    else
      var m := marks[i];
      var v := if m.On? && m.tag == tag && m.member == member then Lookup(stash[m.pos % 2], tag, key, false) else NONE;
      if v != NONE then v else MarkScan(stash, marks, member, tag, key, i + 1)
  }

  /** The part of a lookup that follows the marks of home bucket y into the stash. */
  function StashSearch(t: Segment, y: nat, tag: nat, key: Key): Value
    requires Ring(t.bucket) && |t.stash| == STASHES && y < BUCKETS
  {
    var b, n := t.bucket[y], t.bucket[Next(y)];
    if !b.check then NONE
    else if b.overflow != 0 then StashScan(t.stash, y, tag, key)
    else
      var v := MarkScan(t.stash, b.marks, false, tag, key);
      if v != NONE then v else MarkScan(t.stash, n.marks, true, tag, key)
  }

  function Get(h: Hasher, t: Segment, key: Key): Value
    requires Ring(t.bucket) && |t.stash| == STASHES
  {
    var y, tag := Home(h(key)), Tag(h(key));
    var own := Lookup(t.bucket[y], tag, key, false);
    if own != NONE then own
    else
      var lent := Lookup(t.bucket[Next(y)], tag, key, true);
      if lent != NONE then lent else StashSearch(t, y, tag, key)
  }

  // Where things are

  lemma InBucket(b: Bucket, p: Pair)
    ensures p in BucketPairs(b) <==> exists i :: 0 <= i < |b.cells| && b.cells[i].Held? && b.cells[i].pair == p
  {
    SumHas(b.cells, CellPairs, p);
    forall i | 0 <= i < |b.cells|
      ensures p in CellPairs(b.cells[i]) <==> b.cells[i].Held? && b.cells[i].pair == p
    {
    }
  }

  lemma InSegment(t: Segment, p: Pair)
    ensures p in Contents(t) <==>
            (exists y :: 0 <= y < |t.bucket| && p in BucketPairs(t.bucket[y])) ||
            (exists s :: 0 <= s < |t.stash| && p in BucketPairs(t.stash[s]))
  {
    SumHas(t.bucket, BucketPairs, p);
    SumHas(t.stash, BucketPairs, p);
  }

  /** Each bucket's pairs are among the segment's. */
  lemma BucketInSegment(t: Segment, s: nat)
    ensures s < |t.bucket| ==> BucketPairs(t.bucket[s]) <= Contents(t)
    ensures s < |t.stash| ==> BucketPairs(t.stash[s]) <= Contents(t)
  {
    if s < |t.bucket| {
      SumBounds(t.bucket, s, BucketPairs);
    }
    if s < |t.stash| {
      SumBounds(t.stash, s, BucketPairs);
    }
  }

  lemma LookupSound(b: Bucket, tag: nat, key: Key, probe: bool)
    ensures var v := Lookup(b, tag, key, probe); v != NONE ==> Pair(key, v) in BucketPairs(b)
  {
    InBucket(b, Pair(key, Lookup(b, tag, key, probe)));
  }

  lemma LookupComplete(b: Bucket, i: nat, tag: nat, key: Key, probe: bool)
    requires i < |b.cells| && Hit(b.cells[i], tag, key, probe)
    requires forall c :: c in b.cells && c.Held? ==> c.pair.value != NONE
    ensures Lookup(b, tag, key, probe) != NONE
  {
    var k := FirstHit(b.cells, tag, key, probe);
    assert b.cells[k] in b.cells;
  }

  lemma {:induction false} StashedHas(h: Hasher, stash: seq<Bucket>, y: nat, s: nat, i: nat)
    requires s < |stash| && i < |stash[s].cells|
    requires var c := stash[s].cells[i]; c.Held? && Home(h(c.pair.key)) == y
    ensures (Tag(h(stash[s].cells[i].pair.key)), Position(s)) in Stashed(h, stash, y)
  {
    var n := |stash| - 1;
    if s == n {
      SumBounds(stash[n].cells, i, StashedIn(h, y, Position(n)));
    } else {
      StashedHas(h, stash[..n], y, s, i);
    }
  }

  /** A stash of n buckets cannot hold more than n times PAIRS pairs of any home. */
  lemma {:induction false} StashedBound(h: Hasher, stash: seq<Bucket>, y: nat)
    requires forall s :: 0 <= s < |stash| ==> Shaped(stash[s])
    ensures |Stashed(h, stash, y)| <= PAIRS * |stash|
  {
    if stash != [] {
      var s := |stash| - 1;
      StashedBound(h, stash[..s], y);
      InOneBound(h, y, Position(s), stash[s].cells);
      assert PAIRS * |stash| == PAIRS * s + PAIRS;
    }
  }

  lemma {:induction false} InOneBound(h: Hasher, y: nat, pos: nat, cells: seq<Cell>)
    ensures |Sum(cells, StashedIn(h, y, pos))| <= |cells|
  {
    if cells != [] {
      InOneBound(h, y, pos, cells[..|cells| - 1]);
    }
  }

  lemma {:induction false} StashedPosition(h: Hasher, stash: seq<Bucket>, y: nat, e: (nat, nat))
    requires e in Stashed(h, stash, y)
    ensures exists s :: 0 <= s < |stash| && e.1 == Position(s)
  {
    var n := |stash| - 1;
    if e in Stashed(h, stash[..n], y) {
      StashedPosition(h, stash[..n], y, e);
    } else {
      SumHas(stash[n].cells, StashedIn(h, y, Position(n)), e);
    }
  }

  lemma MarkHeard(marks: seq<Mark>, e: (nat, nat))
    ensures e in Sum(marks, OwnMark) <==> On(e.0, e.1, false) in marks
    ensures e in Sum(marks, MemberMark) <==> On(e.0, e.1, true) in marks
  {
    SumHas(marks, OwnMark, e);
    SumHas(marks, MemberMark, e);
    forall i | 0 <= i < |marks|
      ensures e in OwnMark(marks[i]) <==> marks[i] == On(e.0, e.1, false)
      ensures e in MemberMark(marks[i]) <==> marks[i] == On(e.0, e.1, true)
    {
    }
  }

  /** Every mark on the ring names a position that exists. */
  lemma MarksAreNarrow(h: Hasher, t: Segment, y: nat, m: Mark)
    requires Inv(h, t) && y < BUCKETS && m in t.bucket[y].marks && m.On?
    ensures exists s :: 0 <= s < |t.stash| && m.pos == Position(s)
  {
    var e := (m.tag, m.pos);
    MarkHeard(t.bucket[y].marks, e);
    var z := if m.member then Prev(y) else y;
    assert e in Signals(t.bucket, z);
    assert Promise(t.bucket, z, Stashed(h, t.stash, z));
    StashedPosition(h, t.stash, z, e);
  }

  // Get

  lemma {:induction false} MarkScanSound(stash: seq<Bucket>, marks: seq<Mark>, member: bool, tag: nat, key: Key, i: nat)
    requires |stash| == STASHES && i <= |marks|
    ensures var v := MarkScan(stash, marks, member, tag, key, i);
      v != NONE ==> Pair(key, v) in BucketPairs(stash[0]) || Pair(key, v) in BucketPairs(stash[1])
    decreases |marks| - i
  {
    hide Lookup, BucketPairs;
    if i < |marks| {
      LookupSound(stash[0], tag, key, false);
      LookupSound(stash[1], tag, key, false);
      assert marks[i].On? ==> marks[i].pos % 2 == 0 || marks[i].pos % 2 == 1;
      MarkScanSound(stash, marks, member, tag, key, i + 1);
    }
  }

  lemma {:induction false} MarkScanComplete(stash: seq<Bucket>, marks: seq<Mark>, member: bool, tag: nat, key: Key, i: nat, k: nat)
    requires |stash| == STASHES && i <= k < |marks|
    requires marks[k].On? && marks[k].tag == tag && marks[k].member == member
    requires Lookup(stash[marks[k].pos % 2], tag, key, false) != NONE
    ensures MarkScan(stash, marks, member, tag, key, i) != NONE
    decreases |marks| - i
  {
    if i < k {
      MarkScanComplete(stash, marks, member, tag, key, i + 1, k);
    }
  }

  /** Whatever Get returns is stored in the segment under that key. */
  lemma GetSound(h: Hasher, t: Segment, key: Key)
    requires Ring(t.bucket) && |t.stash| == STASHES
    ensures var v := Get(h, t, key); v != NONE ==> Pair(key, v) in Contents(t)
  {
    var y, tag := Home(h(key)), Tag(h(key));
    var v := Get(h, t, key);
    BucketInSegment(t, y);
    BucketInSegment(t, Next(y));
    BucketInSegment(t, 0);
    BucketInSegment(t, 1);
    if v == Lookup(t.bucket[y], tag, key, false) {
      LookupSound(t.bucket[y], tag, key, false);
    } else if v == Lookup(t.bucket[Next(y)], tag, key, true) {
      LookupSound(t.bucket[Next(y)], tag, key, true);
    } else {
      StashSearchSound(t, y, tag, key);
    }
  }

  lemma StashSearchSound(t: Segment, y: nat, tag: nat, key: Key)
    requires Ring(t.bucket) && |t.stash| == STASHES && y < BUCKETS
    ensures var v := StashSearch(t, y, tag, key);
      v != NONE ==> Pair(key, v) in BucketPairs(t.stash[0]) || Pair(key, v) in BucketPairs(t.stash[1])
  {
    if t.bucket[y].overflow != 0 {
      LookupSound(t.stash[0], tag, key, false);
      LookupSound(t.stash[1], tag, key, false);
    } else {
      MarkScanSound(t.stash, t.bucket[y].marks, false, tag, key, 0);
      MarkScanSound(t.stash, t.bucket[Next(y)].marks, true, tag, key, 0);
    }
  }

  lemma StashedIsFound(h: Hasher, t: Segment, s: nat, i: nat, key: Key)
    requires Inv(h, t) && s < |t.stash| && i < PAIRS && i < |t.stash[s].cells|
    requires t.stash[s].cells[i].Held? && t.stash[s].cells[i].pair.key == key
    ensures var y, tag, pos := Home(h(key)), Tag(h(key)), Position(s);
      && t.bucket[y].check
      && Lookup(t.stash[s], tag, key, false) != NONE
      && (t.bucket[y].overflow == 0 ==>
            On(tag, pos, false) in t.bucket[y].marks || On(tag, pos, true) in t.bucket[Next(y)].marks)
  {
    var y, tag := Home(h(key)), Tag(h(key));
    var c := t.stash[s].cells[i];
    assert StashCellOk(h, c) by { assert StashOk(h, t.stash[s]) && c in t.stash[s].cells; }
    assert forall d :: d in t.stash[s].cells ==> StashCellOk(h, d) by { assert StashOk(h, t.stash[s]); }
    LookupComplete(t.stash[s], i, tag, key, false);
    StashedHas(h, t.stash, y, s, i);
    PromiseIsComplete(t.bucket, y, Stashed(h, t.stash, y));
    MarkHeard(t.bucket[y].marks, (tag, Position(s)));
    MarkHeard(t.bucket[Next(y)].marks, (tag, Position(s)));
  }

  lemma BucketPairIsFound(h: Hasher, t: Segment, z: nat, i: nat, key: Key)
    requires Placed(h, t) && z < BUCKETS && i < PAIRS
    requires t.bucket[z].cells[i].Held? && t.bucket[z].cells[i].pair.key == key
    ensures var y, tag := Home(h(key)), Tag(h(key));
      Lookup(t.bucket[y], tag, key, false) != NONE || Lookup(t.bucket[Next(y)], tag, key, true) != NONE
  {
    var c := t.bucket[z].cells[i];
    assert BucketOk(h, z, t.bucket[z]);
    assert CellOk(h, z, c) by { assert c in t.bucket[z].cells; }
    assert forall d :: d in t.bucket[z].cells ==> CellOk(h, z, d);
    LookupComplete(t.bucket[z], i, Tag(h(key)), key, c.probe);
  }

  /** A pair in the segment is never missed, wherever displacement or the stash has put it. */
  lemma GetComplete(h: Hasher, t: Segment, p: Pair)
    requires Inv(h, t) && |t.stash| == STASHES && p in Contents(t)
    ensures Get(h, t, p.key) != NONE
  {
    var y, tag := Home(h(p.key)), Tag(h(p.key));
    InSegment(t, p);
    if z :| 0 <= z < BUCKETS && p in BucketPairs(t.bucket[z]) {
      InBucket(t.bucket[z], p);
      var i :| 0 <= i < PAIRS && t.bucket[z].cells[i].Held? && t.bucket[z].cells[i].pair == p;
      BucketPairIsFound(h, t, z, i, p.key);
    } else {
      var s :| 0 <= s < STASHES && p in BucketPairs(t.stash[s]);
      InBucket(t.stash[s], p);
      var i :| 0 <= i < |t.stash[s].cells| && t.stash[s].cells[i].Held? && t.stash[s].cells[i].pair == p;
      assert StashOk(h, t.stash[s]);
      StashedIsFound(h, t, s, i, p.key);
      StashSearchComplete(h, t, s, p.key);
    }
  }

  lemma StashSearchComplete(h: Hasher, t: Segment, s: nat, key: Key)
    requires Ring(t.bucket) && |t.stash| == STASHES && s < STASHES
    requires var y, tag := Home(h(key)), Tag(h(key));
      && t.bucket[y].check
      && Lookup(t.stash[s], tag, key, false) != NONE
      && (t.bucket[y].overflow == 0 ==>
            On(tag, s, false) in t.bucket[y].marks || On(tag, s, true) in t.bucket[Next(y)].marks)
    ensures Get(h, t, key) != NONE
  {
    var y, tag := Home(h(key)), Tag(h(key));
    var b, n := t.bucket[y], t.bucket[Next(y)];
    if b.overflow == 0 {
      if On(tag, s, false) in b.marks {
        var k :| 0 <= k < MARKS && b.marks[k] == On(tag, s, false);
        MarkScanComplete(t.stash, b.marks, false, tag, key, 0, k);
      } else {
        var k :| 0 <= k < MARKS && n.marks[k] == On(tag, s, true);
        MarkScanComplete(t.stash, n.marks, true, tag, key, 0, k);
      }
    }
  }

  /** Get is the lookup of the map that the contents form. */
  lemma GetIsLookup(h: Hasher, t: Segment, key: Key)
    requires Inv(h, t) && |t.stash| == STASHES && Functional(Contents(t))
    ensures Get(h, t, key) == NONE <==> forall v :: Pair(key, v) !in Contents(t)
    ensures forall v :: Pair(key, v) in Contents(t) ==> Get(h, t, key) == v
  {
    GetSound(h, t, key);
    forall v | Pair(key, v) in Contents(t)
      ensures Get(h, t, key) == v && v != NONE
    {
      GetComplete(h, t, Pair(key, v));
      assert Pair(key, Get(h, t, key)) in Contents(t);
    }
  }
}
