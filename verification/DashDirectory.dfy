/**
 The directory of Dash extendible hashing: 2^depth entries naming segments, each segment with a local
 depth and a bit pattern.  Growing at a full segment, doubling, merging two empty halves and halving the
 directory all keep the one relation that makes routing by hash prefix correct.
 */
module DashDirectory {
  import opened Powers
  import opened DashRouting

  /** state: 0 normal, -1 merging, -2 splitting, -3 new */
  datatype Meta = Meta(localDepth: nat, pattern: nat, state: int)

  datatype Dir = Dir(depth: nat, entry: seq<nat>, depthCount: int, meta: map<nat, Meta>)

  /** i >> (depth - localDepth) */
  function TopBits(i: nat, depth: nat, localDepth: nat): nat
    requires localDepth <= depth
  {
    DivBound(i, Pow2(depth - localDepth), 0);
    i / Pow2(depth - localDepth)
  }

  /** Entries whose segment uses every directory bit. */
  ghost function Deep(d: Dir): set<nat> {
    set i: nat | i < |d.entry| && d.entry[i] in d.meta && d.meta[d.entry[i]].localDepth == d.depth
  }

  /** Entry i names segment t exactly when i starts with t's pattern. */
  ghost predicate Routes(d: Dir, i: nat, t: nat)
    requires i < |d.entry| && t in d.meta && d.meta[t].localDepth <= d.depth
  {
    d.entry[i] == t <==> TopBits(i, d.depth, d.meta[t].localDepth) == d.meta[t].pattern
  }

  ghost predicate Inv(d: Dir) {
    && |d.entry| == Pow2(d.depth)
    && (forall i :: 0 <= i < |d.entry| ==> d.entry[i] in d.meta)
    && (forall t :: t in d.meta ==> d.meta[t].localDepth <= d.depth && d.meta[t].pattern < Pow2(d.meta[t].localDepth))
    && (forall i, t :: 0 <= i < |d.entry| && t in d.meta ==> Routes(d, i, t))
    && d.depthCount == |Deep(d)|
  }

  /** Every hash is routed to the segment whose pattern it starts with. */
  lemma RoutedByPattern(d: Dir, hash: nat, t: nat)
    requires Inv(d) && d.depth <= WORD && hash < Pow2(WORD) && t in d.meta
    ensures Prefix(hash, d.depth) < |d.entry|
    ensures d.entry[Prefix(hash, d.depth)] == t <==> Prefix(hash, d.meta[t].localDepth) == d.meta[t].pattern
  {
    PrefixBound(hash, d.depth);
    PrefixOfPrefix(hash, d.meta[t].localDepth, d.depth);
    assert Routes(d, Prefix(hash, d.depth), t);
    hide Prefix, Pow2, Inv;
  }

  // Arithmetic of chunks

  lemma DivRange(i: nat, size: nat, q: nat)
    requires size > 0
    ensures i / size == q <==> q * size <= i < q * size + size
  {
    LessMul(i / size, q, size);
    LessMul(q, i / size, size);
  }

  lemma HalfOf(i: nat, size: nat)
    requires size > 0
    ensures i / (2 * size) == i / size / 2
  {
    DivDiv(i, size, 2);
    assert size * 2 == 2 * size;
  }

  lemma PowStep(n: nat)
    requires n > 0
    ensures Pow2(n) == 2 * Pow2(n - 1)
  {
  }

  /** One bit more refines the top bits into their two halves. */
  lemma TopBitsHalves(i: nat, depth: nat, localDepth: nat)
    requires localDepth < depth
    ensures TopBits(i, depth, localDepth) == TopBits(i, depth, localDepth + 1) / 2
  {
    PowStep(depth - localDepth);
    HalfOf(i, Pow2(depth - localDepth - 1));
  }

  /** Doubling the directory doubles indices, and the top bits do not notice. */
  lemma TopBitsDoubled(i: nat, depth: nat, localDepth: nat)
    requires localDepth <= depth
    ensures TopBits(i, depth + 1, localDepth) == TopBits(i / 2, depth, localDepth)
  {
    DivDiv(i, 2, Pow2(depth - localDepth));
  }

  // The operations as functions

  /** The two metas that splitting segment t leaves, before and after in the directory's terms. */
  function SplitMeta(meta: map<nat, Meta>, t: nat, newB: nat): map<nat, Meta>
    requires t in meta
  {
    var m := meta[t];
    meta[t := Meta(m.localDepth + 1, 2 * m.pattern, m.state)][newB := Meta(m.localDepth + 1, 2 * m.pattern + 1, 0)]
  }

  /** Directory_Update: the right half of the old segment's entries now name the new one. */
  function Updated(d: Dir, t: nat, newB: nat): (r: Dir)
    requires t in d.meta && d.meta[t].localDepth < d.depth
  {
    var m := d.meta[t];
    Dir(d.depth,
        seq(|d.entry|, i requires 0 <= i < |d.entry| =>
          if TopBits(i, d.depth, m.localDepth + 1) == 2 * m.pattern + 1 then newB else d.entry[i]),
        if m.localDepth + 1 == d.depth then d.depthCount + 2 else d.depthCount,
        SplitMeta(d.meta, t, newB))
  }

  /** Directory_Doubling at entry x. */
  function Doubled(d: Dir, x: nat, newB: nat): (r: Dir)
    requires x < |d.entry| && d.entry[x] in d.meta
  {
    Dir(d.depth + 1,
        seq(2 * |d.entry|, i requires 0 <= i < 2 * |d.entry| => if i == 2 * x + 1 then newB else d.entry[i / 2]),
        2,
        SplitMeta(d.meta, d.entry[x], newB))
  }

  lemma UpdatedRoutes(d: Dir, t: nat, newB: nat, i: nat, s: nat)
    requires Inv(d) && t in d.meta && d.meta[t].localDepth < d.depth && newB !in d.meta
    requires i < |d.entry| && s in Updated(d, t, newB).meta
    ensures Updated(d, t, newB).meta[s].localDepth <= d.depth && Routes(Updated(d, t, newB), i, s)
  {
    assert Routes(d, i, t) && (s in d.meta ==> Routes(d, i, s));
    assert s in d.meta ==> d.meta[s].localDepth <= d.depth;
    assert d.entry[i] in d.meta;
    hide Inv, TopBits;
    TopBitsHalves(i, d.depth, d.meta[t].localDepth);
  }

  lemma UpdatedInv(d: Dir, t: nat, newB: nat)
    requires Inv(d) && t in d.meta && d.meta[t].localDepth < d.depth && newB !in d.meta
    ensures Inv(Updated(d, t, newB))
  {
    hide Routes, TopBits, Deep;
    var r := Updated(d, t, newB);
    forall i, s | 0 <= i < |r.entry| && s in r.meta
      ensures r.meta[s].localDepth <= d.depth && Routes(r, i, s)
    {
      UpdatedRoutes(d, t, newB, i, s);
    }
    UpdatedCount(d, t, newB);
  }

  /** Where the entries of a growing segment go. */
  lemma UpdatedEntry(d: Dir, t: nat, newB: nat, i: nat)
    requires Inv(d) && t in d.meta && d.meta[t].localDepth < d.depth && newB !in d.meta && i < |d.entry|
    ensures Updated(d, t, newB).entry[i] == newB ==> d.entry[i] == t
    ensures Updated(d, t, newB).entry[i] == newB || Updated(d, t, newB).entry[i] == d.entry[i]
  {
    TopBitsHalves(i, d.depth, d.meta[t].localDepth);
    assert Routes(d, i, t);
  }

  lemma UpdatedCount(d: Dir, t: nat, newB: nat)
    requires Inv(d) && t in d.meta && d.meta[t].localDepth < d.depth && newB !in d.meta
    ensures |Deep(Updated(d, t, newB))| == Updated(d, t, newB).depthCount
  {
    hide TopBits, Pow2, Routes;
    var r, m := Updated(d, t, newB), d.meta[t];
    forall i: nat | i < |d.entry|
      ensures i in Deep(r) <==> i in Deep(d) || (d.entry[i] == t && m.localDepth + 1 == d.depth)
    {
      UpdatedEntry(d, t, newB, i);
    }
    if m.localDepth + 1 == d.depth {
      var a, b := 2 * m.pattern, 2 * m.pattern + 1;
      LastTwo(d, t);
      assert Deep(r) == Deep(d) + {a, b};
      assert a !in Deep(d) && b !in Deep(d);
    } else {
      assert Deep(r) == Deep(d);
    }
  }

  /** A segment one bit short of the directory has exactly two entries. */
  lemma LastTwo(d: Dir, t: nat)
    requires Inv(d) && t in d.meta && d.meta[t].localDepth + 1 == d.depth
    ensures var p := d.meta[t].pattern;
      2 * p + 1 < |d.entry| && forall i :: 0 <= i < |d.entry| ==> (d.entry[i] == t <==> i == 2 * p || i == 2 * p + 1)
  {
    var p := d.meta[t].pattern;
    PowStep(d.depth);
    forall i | 0 <= i < |d.entry|
      ensures d.entry[i] == t <==> i == 2 * p || i == 2 * p + 1
    {
      assert Routes(d, i, t);
      assert TopBits(i, d.depth, d.depth - 1) == i / 2 by { assert Pow2(1) == 2 * Pow2(0); }
    }
  }

  lemma FullBits(i: nat, depth: nat)
    ensures TopBits(i, depth, depth) == i
  {
    assert Pow2(0) == 1;
  }

  lemma DoubledInv(d: Dir, x: nat, newB: nat)
    requires Inv(d) && x < |d.entry| && d.meta[d.entry[x]].localDepth == d.depth && newB !in d.meta
    ensures Inv(Doubled(d, x, newB))
  {
    var r, t := Doubled(d, x, newB), d.entry[x];
    FullBits(x, d.depth);
    assert Routes(d, x, t);
    PowStep(d.depth + 1);
    hide Routes, TopBits, Deep, Pow2;
    forall i, s | 0 <= i < |r.entry| && s in r.meta
      ensures r.meta[s].localDepth <= r.depth && Routes(r, i, s)
    {
      DoubledRoutes(d, x, newB, i, s);
    }
    DoubledCount(d, x, newB);
  }

  lemma DoubledRoutes(d: Dir, x: nat, newB: nat, i: nat, s: nat)
    requires Inv(d) && x < |d.entry| && d.meta[d.entry[x]].localDepth == d.depth && newB !in d.meta
    requires d.meta[d.entry[x]].pattern == x && i < 2 * |d.entry| && (s in d.meta || s == newB)
    ensures Doubled(d, x, newB).meta[s].localDepth <= d.depth + 1 && Routes(Doubled(d, x, newB), i, s)
  {
    var t := d.entry[x];
    assert Routes(d, i / 2, t) && (s in d.meta ==> Routes(d, i / 2, s) && d.meta[s].localDepth <= d.depth);
    assert d.entry[i / 2] in d.meta;
    FullBits(i, d.depth + 1);
    FullBits(i / 2, d.depth);
    hide Inv, TopBits, Pow2;
    if s != t && s != newB {
      TopBitsDoubled(i, d.depth, d.meta[s].localDepth);
    }
  }

  lemma DoubledCount(d: Dir, x: nat, newB: nat)
    requires Inv(d) && x < |d.entry| && d.meta[d.entry[x]].localDepth == d.depth && newB !in d.meta
    requires d.meta[d.entry[x]].pattern == x
    ensures |Deep(Doubled(d, x, newB))| == 2
  {
    var r, t := Doubled(d, x, newB), d.entry[x];
    hide TopBits, Pow2;
    forall i: nat | i < 2 * |d.entry|
      ensures i in Deep(r) <==> i == 2 * x || i == 2 * x + 1
    {
      assert d.entry[i / 2] in d.meta && Routes(d, i / 2, t);
      FullBits(i / 2, d.depth);
    }
    assert Deep(r) == {2 * x, 2 * x + 1};
  }

  // Merging two halves

  /** left and right split from one segment and have not split since. */
  ghost predicate Buddies(d: Dir, left: nat, right: nat) {
    && left in d.meta && right in d.meta
    && d.meta[left].localDepth == d.meta[right].localDepth > 0
    && d.meta[left].pattern % 2 == 0 && d.meta[right].pattern == d.meta[left].pattern + 1
  }

  /** Directory_Merge_Update and the two updates of left's meta around it. */
  function Merged(d: Dir, left: nat, right: nat): Dir
    requires left in d.meta && d.meta[left].localDepth > 0
  {
    var m := d.meta[left];
    Dir(d.depth,
        seq(|d.entry|, i requires 0 <= i < |d.entry| => if d.entry[i] == right then left else d.entry[i]),
        if m.localDepth == d.depth then d.depthCount - 2 else d.depthCount,
        (d.meta - {right})[left := Meta(m.localDepth - 1, m.pattern / 2, 0)])
  }

  lemma MergedRoutes(d: Dir, left: nat, right: nat, i: nat, s: nat)
    requires Inv(d) && Buddies(d, left, right) && i < |d.entry| && s in Merged(d, left, right).meta
    ensures Merged(d, left, right).meta[s].localDepth <= d.depth && Routes(Merged(d, left, right), i, s)
  {
    assert Routes(d, i, left) && Routes(d, i, right) && Routes(d, i, s);
    assert d.meta[left].localDepth <= d.depth && d.meta[s].localDepth <= d.depth;
    hide Inv, TopBits, Pow2;
    TopBitsHalves(i, d.depth, d.meta[left].localDepth - 1);
  }

  lemma MergedInv(d: Dir, left: nat, right: nat)
    requires Inv(d) && Buddies(d, left, right)
    ensures Inv(Merged(d, left, right))
  {
    var r, m := Merged(d, left, right), d.meta[left];
    PowStep(m.localDepth);
    hide Routes, TopBits, Deep, Pow2;
    forall i, s | 0 <= i < |r.entry| && s in r.meta
      ensures r.meta[s].localDepth <= r.depth && Routes(r, i, s)
    {
      MergedRoutes(d, left, right, i, s);
    }
    MergedCount(d, left, right);
  }

  lemma MergedCount(d: Dir, left: nat, right: nat)
    requires Inv(d) && Buddies(d, left, right)
    ensures |Deep(Merged(d, left, right))| == Merged(d, left, right).depthCount
  {
    hide Routes, TopBits, Pow2;
    var r, m := Merged(d, left, right), d.meta[left];
    if m.localDepth == d.depth {
      OnlyEntry(d, left);
      OnlyEntry(d, right);
    }
    forall i: nat | i < |d.entry|
      ensures i in Deep(d) <==> i in Deep(r) || (m.localDepth == d.depth && (i == m.pattern || i == m.pattern + 1))
      ensures i in Deep(r) && m.localDepth == d.depth ==> i != m.pattern && i != m.pattern + 1
    {
      assert d.entry[i] in d.meta;
    }
    if m.localDepth == d.depth {
      DeepDrops(Deep(d), Deep(r), m.pattern);
    } else {
      assert Deep(r) == Deep(d);
    }
  }

  lemma DeepDrops(before: set<nat>, after: set<nat>, a: nat)
    requires a !in after && a + 1 !in after
    requires forall i :: i in before <==> i in after || i == a || i == a + 1
    ensures |after| == |before| - 2
  {
    assert before == after + {a, a + 1};
  }

  /** A segment at full depth has exactly one entry. */
  lemma OnlyEntry(d: Dir, t: nat)
    requires Inv(d) && t in d.meta && d.meta[t].localDepth == d.depth
    ensures d.meta[t].pattern < |d.entry|
    ensures forall i :: 0 <= i < |d.entry| ==> (d.entry[i] == t <==> i == d.meta[t].pattern)
  {
    hide TopBits;
    forall i | 0 <= i < |d.entry|
      ensures d.entry[i] == t <==> i == d.meta[t].pattern
    {
      assert Routes(d, i, t);
      FullBits(i, d.depth);
    }
  }

  /** The two ends that TryMerge computes for index x are the two halves of x's chunk. */
  lemma ChunkEnds(depth: nat, L: nat, x: nat)
    requires 0 < L <= depth && x < Pow2(depth)
    ensures var size := Pow2(depth - (L - 1));
      var left := x - x % size;
      var right := left + size / 2;
      && size >= 2 && 0 <= left && right < Pow2(depth)
      && TopBits(left, depth, L) % 2 == 0 && TopBits(right, depth, L) == TopBits(left, depth, L) + 1
      && (TopBits(x, depth, L) == TopBits(left, depth, L) || TopBits(x, depth, L) == TopBits(right, depth, L))
  {
    hide Pow2, TopBits;
    var half, size := Pow2(depth - L), Pow2(depth - (L - 1));
    PowStep(depth - L + 1);
    ChunkInside(depth, L, x);
    EndsOf(x, half);
    TopBitsIs(x, depth, L);
    TopBitsIs(x - x % size, depth, L);
    TopBitsIs(x - x % size + half, depth, L);
  }

  lemma TopBitsIs(i: nat, depth: nat, L: nat)
    requires L <= depth
    ensures TopBits(i, depth, L) == i / Pow2(depth - L)
  {
  }

  lemma EndsOf(x: nat, half: nat)
    requires half > 0
    ensures var size, q := 2 * half, x / (2 * half);
      && x - x % size == q * size >= 0 && size / 2 == half
      && (x - x % size) / half == 2 * q && (x - x % size + half) / half == 2 * q + 1
      && (x / half == 2 * q || x / half == 2 * q + 1)
  {
    var q := x / (2 * half);
    DivBound(x, 2 * half, 0);
    HalfOf(x, half);
    assert x - x % (2 * half) == q * (2 * half);
    Halving(q, half);
    DivMul(2 * q, half, 0);
    DivMul(2 * q + 1, half, 0);
  }

  lemma Halving(q: int, half: int)
    ensures q * (2 * half) == (2 * q) * half && (2 * q + 1) * half == (2 * q) * half + half
  {
  }

  lemma ChunkInside(depth: nat, L: nat, x: nat)
    requires 0 < L <= depth && x < Pow2(depth)
    ensures var size := Pow2(depth - (L - 1)); x / size * size + size <= Pow2(depth)
  {
    var size := Pow2(depth - (L - 1));
    Pow2Add(L - 1, depth - (L - 1));
    DivBound(x, size, Pow2(L - 1));
    LessMul(x / size, Pow2(L - 1), size);
  }

  /** What TryMerge reads at the two ends of x's chunk, when they have the same depth, are buddies. */
  lemma ChunkEndsAreBuddies(d: Dir, x: nat)
    requires Inv(d) && x < |d.entry| && d.meta[d.entry[x]].localDepth > 0
    ensures var size := Pow2(d.depth - (d.meta[d.entry[x]].localDepth - 1));
      var left := x - x % size;
      var right := left + size / 2;
      && size >= 2 && 0 <= left && right < |d.entry|
      && (d.meta[d.entry[left]].localDepth == d.meta[d.entry[right]].localDepth ==>
            Buddies(d, d.entry[left], d.entry[right]))
  {
    var t := d.entry[x];
    var L := d.meta[t].localDepth;
    var size := Pow2(d.depth - (L - 1));
    var left := x - x % size;
    var right := left + size / 2;
    ChunkEnds(d.depth, L, x);
    hide TopBits, Pow2;
    assert d.entry[left] in d.meta && d.entry[right] in d.meta;
    assert Routes(d, x, t) && Routes(d, left, t) && Routes(d, right, t);
    assert Routes(d, left, d.entry[left]) && Routes(d, right, d.entry[right]);
    hide Inv;
  }

  /**
   Where TryMerge's computation of the right end fails: the index lies inside the directory exactly when the segment has
   a buddy at all, that is, a positive local depth.  Without one it is the index just past the last entry.
   */
  lemma RightInside(d: Dir, x: nat)
    requires Inv(d) && x < |d.entry|
    ensures d.entry[x] in d.meta && d.meta[d.entry[x]].localDepth <= d.depth
    ensures var L := d.meta[d.entry[x]].localDepth;
      var size := Pow2(d.depth + 1 - L);
      var left := x - x % size;
      var right := left + size / 2;
      (right < |d.entry| <==> L > 0) && (L == 0 ==> left == 0 && right == |d.entry|)
  {
    var L := d.meta[d.entry[x]].localDepth;
    assert |d.entry| == Pow2(d.depth);
    if L > 0 {
      ChunkEndsAreBuddies(d, x);
      assert d.depth + 1 - L == d.depth - (L - 1);
    } else {
      hide Inv, Pow2;
      PowStep(d.depth + 1);
      DivMul(0, Pow2(d.depth + 1), x);
    }
  }

  // Halving

  /** With no segment at full depth the two entries of every pair agree, as Halve_Directory asserts. */
  lemma PairsAgree(d: Dir, i: nat)
    requires Inv(d) && d.depthCount == 0 && 2 * i + 1 < |d.entry|
    ensures d.depth > 0 && d.entry[2 * i] == d.entry[2 * i + 1]
    ensures d.meta[d.entry[2 * i]].localDepth < d.depth
  {
    assert Deep(d) == {};
    assert Pow2(0) == 1;
    var t := d.entry[2 * i];
    assert 2 * i !in Deep(d);
    var L := d.meta[t].localDepth;
    TopBitsDoubled(2 * i, d.depth - 1, L);
    TopBitsDoubled(2 * i + 1, d.depth - 1, L);
    assert TopBits(2 * i, d.depth, L) == TopBits(2 * i + 1, d.depth, L);
    assert Routes(d, 2 * i, t) && Routes(d, 2 * i + 1, t);
  }

  function Halved(d: Dir, count: int): Dir
    requires d.depth > 0
  {
    Dir(d.depth - 1, seq(|d.entry| / 2, i requires 0 <= i < |d.entry| / 2 => d.entry[2 * i]), count, d.meta)
  }

  lemma HalvedInv(d: Dir, count: int)
    requires Inv(d) && d.depthCount == 0 && d.depth > 0 && count == |Deep(Halved(d, count))|
    ensures Inv(Halved(d, count))
  {
    var r := Halved(d, count);
    PowStep(d.depth);
    forall t | t in r.meta
      ensures r.meta[t].localDepth <= r.depth
    {
      if r.meta[t].localDepth == d.depth {
        DeepIsCounted(d, t);
      }
    }
    forall i, t | 0 <= i < |r.entry| && t in r.meta
      ensures Routes(r, i, t)
    {
      TopBitsDoubled(2 * i, r.depth, r.meta[t].localDepth);
      assert Routes(d, 2 * i, t);
    }
  }

  /** A segment at full depth is counted: some entry names it. */
  lemma DeepIsCounted(d: Dir, t: nat)
    requires Inv(d) && t in d.meta && d.meta[t].localDepth == d.depth
    ensures d.depthCount > 0
  {
    OnlyEntry(d, t);
    assert d.meta[t].pattern in Deep(d);
  }

  // Runs

  /** A directory as the constructor builds it: one segment per entry. */
  function Initial(depth: nat): Dir {
    Dir(depth, seq(Pow2(depth), i => i), Pow2(depth), map i: nat | i < Pow2(depth) :: Meta(depth, i, 0))
  }

  datatype Step = Grow(x: nat, freshId: nat) | Shrink(x: nat) | Halve

  /**
   One step of the directory; a step whose conditions fail does nothing.  Shrinking a segment of local depth 0, for which
   the code reads past the directory, does nothing here.
   */
  ghost function Apply(d: Dir, step: Step): Dir
    requires Inv(d)
  {
    match step
    case Grow(x, n) =>
      if x >= |d.entry| || n in d.meta then d
      else if d.meta[d.entry[x]].localDepth < d.depth then Updated(d, d.entry[x], n)
      else Doubled(d, x, n)
    case Shrink(x) =>
      if x >= |d.entry| || d.meta[d.entry[x]].localDepth == 0 then d
      else
        ChunkEndsAreBuddies(d, x);
        var size := Pow2(d.depth - (d.meta[d.entry[x]].localDepth - 1));
        var left := d.entry[x - x % size];
        var right := d.entry[x - x % size + size / 2];
        if d.meta[left].localDepth != d.meta[right].localDepth then d else Merged(d, left, right)
    case Halve =>
      if d.depthCount != 0 || d.depth <= 2 then d else Halved(d, |Deep(Halved(d, 0))|)
  }

  ghost function Below(n: nat): (s: set<nat>)
    ensures |s| == n && forall i: nat :: i in s <==> i < n
  {
    if n == 0 then {} else Below(n - 1) + {n - 1}
  }

  lemma InitialInv(depth: nat)
    ensures Inv(Initial(depth))
  {
    var d := Initial(depth);
    forall i, t | 0 <= i < |d.entry| && t in d.meta
      ensures Routes(d, i, t)
    {
      FullBits(i, depth);
    }
    assert Deep(d) == Below(Pow2(depth));
  }

  ghost function Fresh(depth: nat): (d: Dir)
    ensures Inv(d)
  {
    InitialInv(depth);
    Initial(depth)
  }

  lemma ApplyInv(d: Dir, step: Step)
    requires Inv(d)
    ensures Inv(Apply(d, step))
  {
    hide TopBits, Pow2, Updated, Doubled, Merged;
    match step
    case Grow(x, n) =>
      if x < |d.entry| && n !in d.meta {
        if d.meta[d.entry[x]].localDepth < d.depth {
          UpdatedInv(d, d.entry[x], n);
        } else {
          DoubledInv(d, x, n);
        }
      }
    case Shrink(x) =>
      if x < |d.entry| && d.meta[d.entry[x]].localDepth > 0 {
        ChunkEndsAreBuddies(d, x);
        var size := Pow2(d.depth - (d.meta[d.entry[x]].localDepth - 1));
        var left := d.entry[x - x % size];
        var right := d.entry[x - x % size + size / 2];
        if d.meta[left].localDepth == d.meta[right].localDepth {
          MergedInv(d, left, right);
        }
      }
    case Halve =>
      if d.depthCount == 0 && d.depth > 2 {
        var count := |Deep(Halved(d, 0))|;
        assert Deep(Halved(d, count)) == Deep(Halved(d, 0));
        HalvedInv(d, count);
      }
  }

  /**
   A segment that has to grow always does: the directory doubles exactly when the segment uses every bit, the entries of the
   segment whose next bit is one name the new segment, and nothing else changes but the two halves' depths and patterns.
   */
  lemma GrowEffect(d: Dir, x: nat, n: nat)
    requires Inv(d) && x < |d.entry| && n !in d.meta
    ensures var r, t := Apply(d, Grow(x, n)), d.entry[x];
      var m := d.meta[t];
      var doubled := m.localDepth == d.depth;
      && m.localDepth < r.depth == (if doubled then d.depth + 1 else d.depth)
      && |r.entry| == (if doubled then 2 * |d.entry| else |d.entry|)
      && (forall i :: 0 <= i < |r.entry| ==>
            var was := d.entry[if doubled then i / 2 else i];
            r.entry[i] == if was == t && i / Pow2(r.depth - m.localDepth - 1) % 2 == 1 then n else was)
      && r.meta == d.meta[t := Meta(m.localDepth + 1, 2 * m.pattern, m.state)][n := Meta(m.localDepth + 1, 2 * m.pattern + 1, 0)]
  {
    var r, t := Apply(d, Grow(x, n)), d.entry[x];
    var m := d.meta[t];
    PowStep(d.depth + 1);
    forall i | 0 <= i < |r.entry|
      ensures var was := d.entry[if m.localDepth == d.depth then i / 2 else i];
        r.entry[i] == if was == t && i / Pow2(r.depth - m.localDepth - 1) % 2 == 1 then n else was
    {
      if m.localDepth == d.depth {
        GrowDoubles(d, x, n, i);
      } else {
        GrowUpdates(d, t, n, i);
      }
    }
  }

  lemma GrowUpdates(d: Dir, t: nat, n: nat, i: nat)
    requires Inv(d) && t in d.meta && d.meta[t].localDepth < d.depth && n !in d.meta && i < |d.entry|
    ensures Updated(d, t, n).entry[i] ==
      if d.entry[i] == t && i / Pow2(d.depth - d.meta[t].localDepth - 1) % 2 == 1 then n else d.entry[i]
  {
    TopBitsHalves(i, d.depth, d.meta[t].localDepth);
    assert Routes(d, i, t);
  }

  lemma GrowDoubles(d: Dir, x: nat, n: nat, i: nat)
    requires Inv(d) && x < |d.entry| && d.meta[d.entry[x]].localDepth == d.depth && n !in d.meta && i < 2 * |d.entry|
    ensures Doubled(d, x, n).entry[i] == if d.entry[i / 2] == d.entry[x] && i / Pow2(0) % 2 == 1 then n else d.entry[i / 2]
  {
    assert Pow2(0) == 1;
    OnlyEntry(d, d.entry[x]);
    FullBits(x, d.depth);
    assert Routes(d, x, d.entry[x]);
  }

  /** Halving happens exactly at depth count zero and a depth above two, and drops one of each pair of equal entries. */
  lemma HalveEffect(d: Dir)
    requires Inv(d)
    ensures var r := Apply(d, Step.Halve);
      if d.depthCount == 0 && d.depth > 2 then
        && r.depth == d.depth - 1 && |d.entry| == 2 * |r.entry| && r.meta == d.meta && r.depthCount == |Deep(r)|
        && forall i :: 0 <= i < |r.entry| ==> r.entry[i] == d.entry[2 * i] == d.entry[2 * i + 1]
      else r == d
  {
    hide Inv, Deep, Halved;
    if d.depthCount == 0 && d.depth > 2 {
      HalvedIs(d, |Deep(Halved(d, 0))|);
    }
  }

  lemma HalvedIs(d: Dir, count: int)
    requires Inv(d) && d.depthCount == 0 && d.depth > 0
    ensures var r := Halved(d, count);
      && r.depth == d.depth - 1 && |d.entry| == 2 * |r.entry| && r.meta == d.meta && r.depthCount == count
      && Deep(r) == Deep(Halved(d, 0))
      && forall i :: 0 <= i < |r.entry| ==> r.entry[i] == d.entry[2 * i] == d.entry[2 * i + 1]
  {
    PowStep(d.depth);
    assert |d.entry| == 2 * Pow2(d.depth - 1);
    assert Deep(Halved(d, count)) == Deep(Halved(d, 0));
    hide TopBits, Pow2, Inv, Deep;
    forall i | 0 <= i < |d.entry| / 2
      ensures d.entry[2 * i] == d.entry[2 * i + 1]
    {
      PairsAgree(d, i);
    }
  }

  ghost function Run(d: Dir, steps: seq<Step>): Dir
    decreases |steps|
  {
    if steps == [] then d else Run(Take(d, steps[0]), steps[1..])
  }

  ghost function Take(d: Dir, step: Step): Dir {
    if Inv(d) then Apply(d, step) else d
  }

  lemma {:induction false} RunInv(d: Dir, steps: seq<Step>)
    requires Inv(d)
    ensures Inv(Run(d, steps))
    decreases |steps|
  {
    hide Inv, Apply;
    if steps != [] {
      ApplyInv(d, steps[0]);
      RunInv(Take(d, steps[0]), steps[1..]);
    }
  }

  /**
   Every run from a fresh directory routes every hash to the segment whose pattern it starts with, and whenever
   the depth count is zero the halving assertion holds at every pair.
   */
  lemma RunsRouteByPattern(depth: nat, steps: seq<Step>, hash: nat, t: nat, i: nat)
    requires hash < Pow2(WORD)
    ensures var d := Run(Fresh(depth), steps);
      && (d.depth <= WORD && t in d.meta ==>
            Prefix(hash, d.depth) < |d.entry| && d.meta[t].localDepth <= d.depth &&
            (d.entry[Prefix(hash, d.depth)] == t <==> Prefix(hash, d.meta[t].localDepth) == d.meta[t].pattern))
      && (d.depthCount == 0 && 2 * i + 1 < |d.entry| ==> d.entry[2 * i] == d.entry[2 * i + 1])
  {
    hide Initial, Run;
    var d := Run(Fresh(depth), steps);
    RunInv(Fresh(depth), steps);
    if d.depth <= WORD && t in d.meta {
      RoutedByPattern(d, hash, t);
    }
    if d.depthCount == 0 && 2 * i + 1 < |d.entry| {
      PairsAgree(d, i);
    }
  }

  /** Merging the two segments of the smallest directory is enough to get there. */
  lemma DepthZeroIsReached()
    ensures var d := Run(Fresh(1), [Shrink(0)]);
      Inv(d) && |d.entry| == 2 && d.entry[0] in d.meta && d.meta[d.entry[0]].localDepth == 0
  {
    var d := Fresh(1);
    assert Pow2(1) == 2 * Pow2(0) && Pow2(0) == 1;
    assert d.entry == [0, 1];
    RunInv(d, [Shrink(0)]);
    assert Apply(d, Shrink(0)) == Merged(d, 0, 1);
    assert [Shrink(0)][..0] == [] && [Shrink(0)][1..] == [];
  }
}
