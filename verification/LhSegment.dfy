/**
 A table of Dash linear hashing as a segment whose stash goes on into a chain of overflow buckets: growing
 and shrinking the chain, and which keys a split moves.
 */
module LhSegment {
  import opened Bags
  import opened Powers
  import opened DashMarks
  import opened DashSegment
  import opened DashUpdates
  import opened DashSplit
  import opened DashFit
  import opened LhExpansion

  /** Linear hashing compares both bits of a mark's position. */
  const WIDTH: nat := 4

  /** Linear hashing takes home and tag from the top of the 64-bit hash. */
  function Word(hash: nat): nat {
    hash / Pow2(50) % BUCKETS * 256 + hash / Pow2(56) % 256
  }

  lemma WordFields(hash: nat)
    ensures Home(Word(hash)) == hash / Pow2(50) % BUCKETS && Tag(Word(hash)) == hash / Pow2(56) % 256
  {
    hide Pow2;
    DivMul(hash / Pow2(50) % BUCKETS, 256, hash / Pow2(56) % 256);
  }

  function Placing(hash: Hasher): Hasher {
    (key: Key) => Word(hash(key))
  }

  function Blanked(): (b: Bucket)
    ensures Shaped(b)
  {
    Bucket(seq(PAIRS, _ => Free), seq(MARKS, _ => Blank), false, 0)
  }

  // The chain

  /** A new overflow bucket at the end of the chain. */
  function Extended(t: Segment): Segment {
    t.(stash := t.stash + [Blanked()])
  }

  lemma BlankedIsEmpty(h: Hasher, y: nat, pos: nat)
    ensures BucketPairs(Blanked()) == multiset{} && Sum(Blanked().cells, StashedIn(h, y, pos)) == multiset{}
    ensures FirstFree(Blanked().cells) == 0
  {
    SumEmpty(Blanked().cells, CellPairs);
    SumEmpty(Blanked().cells, StashedIn(h, y, pos));
  }

  lemma ExtendedContents(t: Segment)
    ensures Contents(Extended(t)) == Contents(t) && Shaped(Blanked())
  {
    SumAppend(t.stash, [Blanked()], BucketPairs);
    BlankedIsEmpty(k => 0, 0, 0);
    SumOne(Blanked(), BucketPairs);
  }

  lemma ExtendedStashed(h: Hasher, t: Segment, y: nat)
    ensures Stashed(h, Extended(t).stash, y) == Stashed(h, t.stash, y)
  {
    hide Stashed;
    BlankedIsEmpty(h, y, Position(|t.stash|));
    StashedSnoc(h, t.stash, Blanked(), y);
  }

  lemma ExtendedKeeps(h: Hasher, t: Segment)
    requires Inv(h, t) && Chained(t)
    ensures var u := Extended(t); Inv(h, u) && Chained(u) && Contents(u) == Contents(t)
  {
    var u := Extended(t);
    ExtendedContents(t);
    assert StashOk(h, Blanked());
    assert forall s :: 0 <= s < |t.stash| ==> u.stash[s] == t.stash[s];
    hide BucketOk, StashOk, Promise, Contents, Shaped;
    forall y | 0 <= y < BUCKETS
      ensures Promise(u.bucket, y, Stashed(h, u.stash, y))
    {
      ExtendedStashed(h, t, y);
      assert Promise(t.bucket, y, Stashed(h, t.stash, y));
    }
  }

  /** The chain without overflow bucket s. */
  function Shortened(t: Segment, s: nat): Segment
    requires STASHES <= s < |t.stash|
  {
    t.(stash := t.stash[..s] + t.stash[s + 1..])
  }

  lemma {:induction false} EmptyCells(cells: seq<Cell>)
    requires Count(cells) == 0
    ensures forall i :: 0 <= i < |cells| ==> cells[i].Free?
  {
    if cells != [] {
      EmptyCells(cells[..|cells| - 1]);
    }
  }

  /** All positions from the chain on are the same, so an empty overflow bucket can go. */
  lemma {:induction false} StashedShortened(h: Hasher, front: seq<Bucket>, b: Bucket, back: seq<Bucket>, y: nat)
    requires |front| >= STASHES && Count(b.cells) == 0
    ensures Stashed(h, front + back, y) == Stashed(h, front + [b] + back, y)
  {
    hide Stashed, Count;
    if back == [] {
      assert front + back == front && front + [b] + back == front + [b];
      StashedSnoc(h, front, b, y);
      EmptyCells(b.cells);
      SumEmpty(b.cells, StashedIn(h, y, Position(|front|)));
    } else {
      hide StashedIn;
      var n := |back| - 1;
      StashedShortened(h, front, b, back[..n], y);
      assert front + back == (front + back[..n]) + [back[n]];
      assert front + [b] + back == (front + [b] + back[..n]) + [back[n]];
      StashedSnoc(h, front + back[..n], back[n], y);
      StashedSnoc(h, front + [b] + back[..n], back[n], y);
    }
  }

  lemma ShortenedPlaced(h: Hasher, t: Segment, s: nat)
    requires Placed(h, t) && STASHES <= s < |t.stash|
    ensures Placed(h, Shortened(t, s)) && Chained(Shortened(t, s)) && Shortened(t, s).stash[..STASHES] == t.stash[..STASHES]
  {
    hide BucketOk, StashOk;
    var u := Shortened(t, s);
    assert forall k :: 0 <= k < |u.stash| ==> u.stash[k] == t.stash[if k < s then k else k + 1];
    PlacedIsChained(h, u);
  }

  lemma ShortenedKeeps(h: Hasher, t: Segment, s: nat)
    requires Inv(h, t) && Chained(t) && STASHES <= s < |t.stash| && Count(t.stash[s].cells) == 0
    ensures var u := Shortened(t, s);
      && Inv(h, u) && Chained(u) && Contents(u) == Contents(t) && u.stash[..STASHES] == t.stash[..STASHES]
  {
    hide Placed, Promise, Contents, Stashed, Count;
    var u := Shortened(t, s);
    ShortenedContents(t, s);
    ShortenedPlaced(h, t, s);
    assert t.stash == t.stash[..s] + [t.stash[s]] + t.stash[s + 1..];
    forall y | 0 <= y < BUCKETS
      ensures Promise(u.bucket, y, Stashed(h, u.stash, y))
    {
      StashedShortened(h, t.stash[..s], t.stash[s], t.stash[s + 1..], y);
      assert Promise(t.bucket, y, Stashed(h, t.stash, y));
    }
  }

  lemma ShortenedContents(t: Segment, s: nat)
    requires STASHES <= s < |t.stash| && Count(t.stash[s].cells) == 0
    ensures Contents(Shortened(t, s)) == Contents(t)
  {
    EmptyCells(t.stash[s].cells);
    SumEmpty(t.stash[s].cells, CellPairs);
    var a, b := t.stash[..s], t.stash[s + 1..];
    assert t.stash == (a + [t.stash[s]]) + b;
    SumAppend(a, b, BucketPairs);
    SumAppend(a + [t.stash[s]], b, BucketPairs);
    SumAppend(a, [t.stash[s]], BucketPairs);
    SumOne(t.stash[s], BucketPairs);
  }

  // Which keys move

  function Moves(hash: Hasher, n: nat): Key -> bool {
    (key: Key) => hash(key) % (2 * Pow2(n)) >= Pow2(n)
  }

  lemma MovesTest(hash: Hasher, n: nat, c: Cell)
    ensures c.Held? ==> (Moves(hash, n)(c.pair.key) <==> hash(c.pair.key) % (2 * Pow2(n)) >= Pow2(n))
  {
  }

  /** Every key of the bag addresses table b at level n. */
  ghost predicate Addressed(hash: Hasher, bag: multiset<Pair>, n: nat, b: nat) {
    forall p :: p in bag ==> Idx(hash(p.key), n) == b
  }

  /** Keys that move address the table one doubling further on; the others stay where they were. */
  lemma SplitAddresses(hash: Hasher, stay: multiset<Pair>, go: multiset<Pair>, n: nat, b: nat)
    requires Addressed(hash, stay + go, n, b)
    requires (forall p :: p in stay ==> !Moves(hash, n)(p.key)) && (forall p :: p in go ==> Moves(hash, n)(p.key))
    ensures Addressed(hash, stay, n + 1, b) && Addressed(hash, go, n + 1, b + Pow2(n))
  {
    forall p | p in stay + go
      ensures Idx(hash(p.key), n + 1) == if p in go then b + Pow2(n) else b
    {
      SplitTest(hash(p.key), n, b);
    }
  }

  // The front and the chain

  ghost function ChainPairs(t: Segment): multiset<Pair>
    requires |t.stash| >= STASHES
  {
    Sum(t.stash[STASHES..], BucketPairs)
  }

  lemma FrontAndChain(t: Segment)
    requires |t.stash| >= STASHES
    ensures Contents(t) == Front(t) + ChainPairs(t)
  {
    assert t.stash == t.stash[..STASHES] + t.stash[STASHES..];
    hide BucketPairs;
    SumAppend(t.stash[..STASHES], t.stash[STASHES..], BucketPairs);
  }

  /** A pair added without touching the chain is added to the front. */
  lemma FrontAdds(t: Segment, u: Segment, p: Pair)
    requires |t.stash| == |u.stash| >= STASHES && u.stash[STASHES..] == t.stash[STASHES..]
    requires Contents(u) == Contents(t) + multiset{p}
    ensures Front(u) == Front(t) + multiset{p}
  {
    FrontAndChain(t);
    FrontAndChain(u);
    CancelAll(Front(u), Front(t) + multiset{p}, ChainPairs(t));
  }

  /** Marks and the chain do not count for the front. */
  lemma FrontSame(t: Segment, u: Segment)
    requires |t.stash| >= STASHES && |u.stash| >= STASHES && |u.bucket| == |t.bucket|
    requires forall y :: 0 <= y < |t.bucket| ==> u.bucket[y].cells == t.bucket[y].cells
    requires u.stash[..STASHES] == t.stash[..STASHES]
    ensures Front(u) == Front(t)
  {
    SumSame(u.bucket, t.bucket, BucketPairs);
  }

  /** Full buckets and full fixed stash buckets stay full. */
  ghost predicate FullStays(t: Segment, u: Segment)
    requires Chained(t) && Chained(u)
  {
    && (forall y :: 0 <= y < BUCKETS && Full(t.bucket[y]) ==> Full(u.bucket[y]))
    && (forall s :: 0 <= s < STASHES && Full(t.stash[s]) ==> Full(u.stash[s]))
  }

  /** What a cell of the chain still holds stays, and found no room in front of the chain. */
  ghost predicate Settled(hash: Hasher, n: nat, t: Segment, c: Cell)
    requires Chained(t)
  {
    c.Held? ==> !Moves(hash, n)(c.pair.key) && Crammed(t, Home(Placing(hash)(c.pair.key)))
  }

  /** The first k cells of an overflow bucket are settled. */
  ghost predicate Drained(hash: Hasher, n: nat, t: Segment, b: Bucket, k: nat)
    requires Chained(t)
  {
    forall i :: 0 <= i < k && i < |b.cells| ==> Settled(hash, n, t, b.cells[i])
  }

  /** What has settled stays settled while the front only fills up. */
  lemma DrainedStays(hash: Hasher, n: nat, t: Segment, u: Segment, b: Bucket, k: nat)
    requires Chained(t) && Chained(u) && FullStays(t, u) && Drained(hash, n, t, b, k)
    ensures Drained(hash, n, u, b, k)
  {
    hide Full, Home, Placing, Moves;
    forall i | 0 <= i < k && i < |b.cells|
      ensures Settled(hash, n, u, b.cells[i])
    {
      assert Settled(hash, n, t, b.cells[i]);
    }
  }

  /** One cell of the chain is dealt with: it is freed, or its pair has settled there. */
  ghost predicate CellDrained(hash: Hasher, n: nat, t: Segment, u: Segment, c: nat, i: nat)
    requires Chained(t) && Chained(u) && STASHES <= c < |t.stash| && i < PAIRS
  {
    && |u.stash| == |t.stash| && FullStays(t, u)
    && (forall k :: STASHES <= k < |t.stash| && k != c ==> u.stash[k] == t.stash[k])
    && (u.stash[c] == Place(t.stash[c], i, Free) || (u.stash[c] == t.stash[c] && Settled(hash, n, u, t.stash[c].cells[i])))
  }

  lemma FullSame(t: Segment)
    requires Chained(t)
    ensures FullStays(t, t)
  {
  }

  lemma FullChain(t: Segment, u: Segment, v: Segment)
    requires Chained(t) && Chained(u) && Chained(v) && FullStays(t, u) && FullStays(u, v)
    ensures FullStays(t, v)
  {
    hide Full;
  }

  /** One more cell: free, or settled. */
  lemma DrainedNext(hash: Hasher, n: nat, t: Segment, was: Bucket, b: Bucket, i: nat)
    requires Chained(t) && i < |was.cells| && Drained(hash, n, t, was, i)
    requires b == Place(was, i, Free) || (b == was && Settled(hash, n, t, was.cells[i]))
    ensures Drained(hash, n, t, b, i + 1)
  {
    hide Settled;
    forall k | 0 <= k < i + 1 && k < |b.cells|
      ensures Settled(hash, n, t, b.cells[k])
    {
      if k < i {
        assert b.cells[k] == was.cells[k] && Settled(hash, n, t, was.cells[k]);
      } else if b.cells[i] == Free {
        FreeSettled(hash, n, t);
      }
    }
  }

  lemma FreeSettled(hash: Hasher, n: nat, t: Segment)
    requires Chained(t)
    ensures Settled(hash, n, t, Free)
  {
  }

  /** The first i cells of overflow bucket c are dealt with; the rest of the chain is untouched. */
  ghost predicate PartDrained(hash: Hasher, n: nat, t: Segment, u: Segment, c: nat, i: nat)
    requires Chained(t) && Chained(u) && STASHES <= c < |t.stash| && i <= PAIRS
  {
    && |u.stash| == |t.stash| && FullStays(t, u)
    && (forall k :: STASHES <= k < |t.stash| && k != c ==> u.stash[k] == t.stash[k])
    && u.stash[c].cells[i..] == t.stash[c].cells[i..] && Drained(hash, n, u, u.stash[c], i)
  }

  lemma PartNone(hash: Hasher, n: nat, t: Segment, c: nat)
    requires Chained(t) && STASHES <= c < |t.stash|
    ensures PartDrained(hash, n, t, t, c, 0)
  {
  }

  lemma PartNow(hash: Hasher, n: nat, t: Segment, u: Segment, c: nat, i: nat)
    requires Chained(t) && Chained(u) && STASHES <= c < |t.stash| && i < PAIRS && PartDrained(hash, n, t, u, c, i)
    ensures |u.stash| == |t.stash| && u.stash[c].cells[i] == t.stash[c].cells[i]
  {
    hide FullStays, Drained;
    assert u.stash[c].cells[i..][0] == t.stash[c].cells[i..][0];
  }

  /** A free cell needs no dealing with. */
  lemma FreeDrained(hash: Hasher, n: nat, t: Segment, c: nat, i: nat)
    requires Chained(t) && STASHES <= c < |t.stash| && i < PAIRS && t.stash[c].cells[i].Free?
    ensures CellDrained(hash, n, t, t, c, i)
  {
    FullSame(t);
    FreeSettled(hash, n, t);
    hide FullStays, Settled;
  }

  lemma PartNext(hash: Hasher, n: nat, t: Segment, u: Segment, v: Segment, c: nat, i: nat)
    requires Chained(t) && Chained(u) && Chained(v) && STASHES <= c < |t.stash| == |u.stash| && i < PAIRS
    requires PartDrained(hash, n, t, u, c, i) && CellDrained(hash, n, u, v, c, i)
    ensures PartDrained(hash, n, t, v, c, i + 1)
  {
    hide FullStays, Settled, Drained;
    FullChain(t, u, v);
    DrainedStays(hash, n, u, v, u.stash[c], i);
    DrainedNext(hash, n, v, u.stash[c], v.stash[c], i);
    TailRest(v.stash[c].cells, u.stash[c].cells, t.stash[c].cells, i);
  }

  lemma TailRest(cells: seq<Cell>, was: seq<Cell>, orig: seq<Cell>, i: nat)
    requires i < |cells| == |was| == |orig| && was[i..] == orig[i..] && (cells == was || cells == was[i := Free])
    ensures cells[i + 1..] == orig[i + 1..]
  {
    assert orig[i + 1..] == orig[i..][1..] && was[i + 1..] == was[i..][1..];
  }

  lemma PartAll(hash: Hasher, n: nat, t: Segment, u: Segment, c: nat)
    requires Chained(t) && Chained(u) && STASHES <= c < |t.stash| && PartDrained(hash, n, t, u, c, PAIRS)
    ensures |u.stash| == |t.stash| && FullStays(t, u) && Drained(hash, n, u, u.stash[c], PAIRS)
    ensures forall k :: STASHES <= k < |t.stash| && k != c ==> u.stash[k] == t.stash[k]
  {
  }

  /** The overflow buckets before the c-th have been walked over: what they hold is settled, and none is empty. */
  ghost predicate AllSettled(hash: Hasher, n: nat, t: Segment, c: nat)
    requires Chained(t)
  {
    forall s :: STASHES <= s < c && s < |t.stash| ==> Drained(hash, n, t, t.stash[s], PAIRS) && Count(t.stash[s].cells) > 0
  }

  lemma NoneSettled(hash: Hasher, n: nat, t: Segment)
    requires Chained(t)
    ensures AllSettled(hash, n, t, STASHES)
  {
  }

  lemma SettledNext(hash: Hasher, n: nat, t: Segment, c: nat)
    requires Chained(t) && STASHES <= c < |t.stash| && AllSettled(hash, n, t, c)
    requires Drained(hash, n, t, t.stash[c], PAIRS) && Count(t.stash[c].cells) > 0
    ensures AllSettled(hash, n, t, c + 1)
  {
    hide Drained;
  }

  lemma SettledStays(hash: Hasher, n: nat, t: Segment, u: Segment, c: nat)
    requires Chained(t) && Chained(u) && FullStays(t, u) && c < |t.stash| == |u.stash| && AllSettled(hash, n, t, c)
    requires forall s :: STASHES <= s < |t.stash| && s != c ==> u.stash[s] == t.stash[s]
    ensures AllSettled(hash, n, u, c)
  {
    hide Drained, FullStays, Count;
    forall s | STASHES <= s < c
      ensures Drained(hash, n, u, u.stash[s], PAIRS) && Count(u.stash[s].cells) > 0
    {
      assert Drained(hash, n, t, t.stash[s], PAIRS) && Count(t.stash[s].cells) > 0;
      DrainedStays(hash, n, t, u, t.stash[s], PAIRS);
    }
  }

  /** Unlinking an overflow bucket unsettles nothing. */
  lemma SettledShortened(hash: Hasher, n: nat, t: Segment, c: nat)
    requires Chained(t) && STASHES <= c < |t.stash| && AllSettled(hash, n, t, c)
    ensures Chained(Shortened(t, c)) && AllSettled(hash, n, Shortened(t, c), c)
  {
    hide Drained, Count;
    var u := Shortened(t, c);
    assert forall k :: 0 <= k < |u.stash| ==> u.stash[k] == t.stash[if k < c then k else k + 1];
    assert FullStays(t, u);
    forall s | STASHES <= s < c
      ensures Drained(hash, n, u, u.stash[s], PAIRS) && Count(u.stash[s].cells) > 0
    {
      assert Drained(hash, n, t, t.stash[s], PAIRS) && Count(t.stash[s].cells) > 0;
      DrainedStays(hash, n, t, u, t.stash[s], PAIRS);
    }
  }

  lemma AllDrained(hash: Hasher, n: nat, t: Segment, p: Pair)
    requires Chained(t) && p in Contents(t)
    requires forall q :: q in Front(t) ==> !Moves(hash, n)(q.key)
    requires AllSettled(hash, n, t, |t.stash|)
    ensures !Moves(hash, n)(p.key)
  {
    hide Moves, Settled, Contents, Front;
    FrontAndChain(t);
    if p !in Front(t) {
      var k, i := InChain(t, p);
      assert Drained(hash, n, t, t.stash[k], PAIRS);
      SettledIsHome(hash, n, t, t.stash[k].cells[i]);
    }
  }

  lemma InChain(t: Segment, p: Pair) returns (k: nat, i: nat)
    requires Chained(t) && p in ChainPairs(t)
    ensures STASHES <= k < |t.stash| && i < PAIRS && t.stash[k].cells[i].Held? && t.stash[k].cells[i].pair == p
  {
    var chain := t.stash[STASHES..];
    SumHas(chain, BucketPairs, p);
    var s :| 0 <= s < |chain| && p in BucketPairs(chain[s]);
    InBucket(chain[s], p);
    i :| 0 <= i < |chain[s].cells| && chain[s].cells[i].Held? && chain[s].cells[i].pair == p;
    k := STASHES + s;
  }

  lemma SettledIsHome(hash: Hasher, n: nat, t: Segment, c: Cell)
    requires Chained(t) && c.Held? && Settled(hash, n, t, c)
    ensures !Moves(hash, n)(c.pair.key)
  {
  }

  /** Once the chain has been walked over, all that is left addresses the table itself. */
  lemma DrainedAddresses(hash: Hasher, t: Segment, go: multiset<Pair>, n: nat, b: nat)
    requires Chained(t) && AllSettled(hash, n, t, |t.stash|) && Addressed(hash, Contents(t) + go, n, b)
    requires (forall p :: p in Front(t) ==> !Moves(hash, n)(p.key)) && (forall p :: p in go ==> Moves(hash, n)(p.key))
    ensures Addressed(hash, Contents(t), n + 1, b) && Addressed(hash, go, n + 1, b + Pow2(n))
  {
    hide Moves, Contents, Front, AllSettled, Addressed, Pow2;
    forall p | p in Contents(t)
      ensures !Moves(hash, n)(p.key)
    {
      AllDrained(hash, n, t, p);
    }
    SplitAddresses(hash, Contents(t), go, n, b);
  }
}
