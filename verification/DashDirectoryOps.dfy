/** The directory operations of Finger_EH as the code carries them out on the entry array. */
module DashDirectoryOps {
  import opened Powers
  import opened DashDirectory

  class Directory {
    var globalDepth: nat
    var entry: array<nat>
    var depthCount: int
    var meta: map<nat, Meta>

    ghost function View(): Dir
      reads this, entry
    {
      Dir(globalDepth, entry[..], depthCount, meta)
    }

    /** A directory of 2^depth segments, one per entry. */
    constructor (depth: nat)
      ensures View() == Initial(depth) && fresh(entry)
    {
      var capacity := Pow2(depth);
      globalDepth := depth;
      entry := new nat[capacity](i => i);
      depthCount := capacity;
      meta := map i: nat | i < capacity :: Meta(depth, i, 0);
      new;
      assert entry[..] == Initial(depth).entry;
    }

    /** Overwrites n entries from start on, last one first. */
    method Fill(start: nat, n: nat, newB: nat)
      requires start + n <= entry.Length
      modifies entry
      ensures forall k :: 0 <= k < entry.Length ==> entry[k] == if start <= k < start + n then newB else old(entry[k])
    {
      var i := n - 1;
      while i >= 0
        invariant -1 <= i < n
        invariant forall k :: 0 <= k < entry.Length ==> entry[k] == if start + i < k < start + n then newB else old(entry[k])
      {
        entry[start + i] := newB;
        i := i - 1;
      }
    }

    /** Directory_Update for the segment oldB at entry x, with the pattern writes of Split before it. */
    method Update(x: nat, newB: nat, oldB: nat)
      requires Inv(View()) && x < entry.Length && entry[x] == oldB
      requires meta[oldB].localDepth < globalDepth && newB !in meta
      modifies this, entry
      ensures entry == old(entry) && View() == Updated(old(View()), oldB, newB)
      ensures globalDepth == old(globalDepth) && forall k :: 0 <= k < entry.Length ==>
        entry[k] == if old(entry[k]) == oldB && k / Pow2(globalDepth - old(meta[oldB].localDepth) - 1) % 2 == 1 then newB
                    else old(entry[k])
    {
      ghost var d := View();
      hide TopBits, Inv, Updated, SplitMeta;
      ReadsAreNamed(d);
      RightHalf(d, x, newB);
      UpdatedOdd(d, oldB, newB);
      hide Pow2;
      var newDepth := meta[oldB].localDepth + 1;
      if globalDepth - newDepth == 0 {
        if x % 2 == 0 {
          entry[x + 1] := newB;
        } else {
          entry[x] := newB;
        }
        depthCount := depthCount + 2;
      } else {
        var chunkSize := Pow2(globalDepth - (newDepth - 1));
        var x0 := x - x % chunkSize;
        var base := chunkSize / 2;
        Fill(x0 + base, base, newB);
      }
      meta := SplitMeta(meta, oldB, newB);
      assert entry[..] == Updated(d, oldB, newB).entry;
      UpdatedFields(d, oldB, newB);
    }

    /** Directory_Doubling at entry x. */
    method Doubling(x: nat, newB: nat, oldB: nat)
      requires Inv(View()) && x < entry.Length && entry[x] == oldB && meta[oldB].localDepth == globalDepth
      modifies this
      ensures fresh(entry) && View() == Doubled(old(View()), x, newB)
      ensures globalDepth == old(globalDepth) + 1 && entry.Length == 2 * old(entry.Length)
      ensures forall k :: 0 <= k < entry.Length ==> entry[k] == if k == 2 * x + 1 then newB else old(entry[k / 2])
    {
      hide TopBits;
      ghost var d := View();
      var capacity := entry.Length;
      var dd := new nat[2 * capacity];
      for i := 0 to capacity
        invariant View() == d
        invariant forall k :: 0 <= k < 2 * i ==> dd[k] == d.entry[k / 2]
      {
        dd[2 * i] := entry[i];
        dd[2 * i + 1] := entry[i];
      }
      dd[2 * x + 1] := newB;
      assert dd[..] == Doubled(d, x, newB).entry;
      meta := SplitMeta(meta, oldB, newB);
      globalDepth := globalDepth + 1;
      depthCount := 2;
      entry := dd;
    }

    /**
     The directory side of TryMerge at entry x, in whichever half of its chunk: the segments at the two ends of the chunk
     merge exactly when they have the same depth, and then every entry that named either names the left one.
     */
    method Merge(x: nat) returns (ok: bool)
      requires Inv(View()) && x < entry.Length && meta[entry[x]].localDepth > 0
      modifies this, entry
      ensures entry == old(entry)
      ensures View() == Apply(old(View()), Shrink(x))
      ensures var d, size := old(View()), Pow2(old(globalDepth) - (old(meta[entry[x]].localDepth) - 1));
        var left := x - x % size;
        && 0 <= left && left + size / 2 < |d.entry|
        && var l, r := d.entry[left], d.entry[left + size / 2];
          && l in d.meta && r in d.meta && (ok <==> d.meta[l].localDepth == d.meta[r].localDepth)
          && (ok ==> MergedInto(d, View(), l, r))
      ensures !ok ==> View() == old(View())
    {
      hide TopBits, Inv, Pow2, Apply, Merged, MergedInto;
      ghost var d := View();
      ChunkEndsAreBuddies(d, x);
      ReadsAreNamed(d);
      ShrinkIs(d, x);
      var target := entry[x];
      var chunkSize := Pow2(globalDepth - (meta[target].localDepth - 1));
      var left := x - x % chunkSize;
      var right := left + chunkSize / 2;
      var leftSeg, rightSeg := entry[left], entry[right];
      if meta[leftSeg].localDepth != meta[rightSeg].localDepth {
        return false;
      }
      PowStep(d.depth - (d.meta[d.entry[x]].localDepth - 1));
      SameChunk(d, x, left, right, chunkSize / 2);
      var m := meta[leftSeg];
      for i := right to right + chunkSize / 2
        invariant |d.entry| == entry.Length
        invariant forall k :: 0 <= k < entry.Length ==> entry[k] == if right <= k < i then leftSeg else d.entry[k]
        invariant globalDepth == d.depth && depthCount == d.depthCount && meta == d.meta
        invariant entry == old(entry)
      {
        entry[i] := leftSeg;
      }
      if m.localDepth - 1 + 1 == globalDepth {
        depthCount := depthCount - 2;
      }
      meta := (meta - {rightSeg})[leftSeg := Meta(m.localDepth - 1, m.pattern / 2, 0)];
      MergedIs(d, View(), leftSeg, rightSeg, right, chunkSize / 2);
      MergedIsInto(d, leftSeg, rightSeg);
      return true;
    }

    /**
     The loop of Halve_Directory: copies every second entry and counts the segments at the new full depth that are
     neither splitting nor merging, passing over the entry after one that is merging.
     */
    method Compact(dir: array<nat>) returns (count: int, ghost counted: set<nat>)
      requires Inv(View()) && depthCount == 0 && dir != entry && 2 * dir.Length == entry.Length
      modifies dir
      ensures View() == old(View()) && count == |counted|
      ensures forall k :: 0 <= k < dir.Length ==> dir[k] == entry[2 * k] && dir[k] in meta
      ensures forall k: nat :: k in counted <==> k < dir.Length && Counted(View(), k)
    {
      hide TopBits, Inv, Skipped;
      ghost var d := View();
      ReadsAreNamed(d);
      var skip := false;
      count, counted := 0, {};
      FirstCounted(d);
      for i := 0 to dir.Length
        invariant entry[..] == d.entry && skip == Skipped(d, i) && count == |counted|
        invariant forall k :: 0 <= k < i ==> dir[k] == d.entry[2 * k] && dir[k] in meta
        invariant forall k: nat :: k in counted <==> k < i && Counted(d, k)
      {
        dir[i] := entry[2 * i];
        PairsAgree(d, i);
        assert entry[2 * i] == entry[2 * i + 1];
        NextSkipped(d, i);
        if !skip {
          if meta[dir[i]].localDepth == globalDepth - 1 && meta[dir[i]].state != -2 {
            if meta[dir[i]].state != -1 {
              count := count + 1;
              counted := counted + {i};
            } else {
              skip := true;
            }
          }
        } else {
          skip := false;
        }
      }
    }

    /** Halve_Directory; the new count is right exactly when every segment at full depth was counted. */
    method Halve()
      requires Inv(View()) && depthCount == 0 && globalDepth > 0
      modifies this
      ensures fresh(entry) && View() == Halved(old(View()), depthCount) && depthCount <= |Deep(View())|
      ensures depthCount == |Deep(View())| <==> forall k :: k in Deep(View()) ==> Counted(old(View()), k)
      ensures old(Quiet(View())) ==> depthCount == |Deep(View())|
    {
      hide TopBits, Inv, Skipped;
      ghost var d := View();
      PowStep(globalDepth);
      EntryCount(d);
      var dir := new nat[Pow2(globalDepth - 1)];
      ghost var counted: set<nat>;
      depthCount, counted := Compact(dir);
      globalDepth := globalDepth - 1;
      assert dir[..] == Halved(d, depthCount).entry;
      entry := dir;
      CountedAreDeep(d, counted, depthCount);
    }
  }

  /** u is d with the two segments l and r merged into l: one bit less, and the entries of both. */
  ghost predicate MergedInto(d: Dir, u: Dir, l: nat, r: nat)
    requires l in d.meta && r in d.meta
  {
    && u.depth == d.depth && |u.entry| == |d.entry|
    && (forall k :: 0 <= k < |d.entry| ==> u.entry[k] == if d.entry[k] == l || d.entry[k] == r then l else d.entry[k])
    && (forall t :: t in u.meta <==> t in d.meta && t != r)
    && (forall t :: t in u.meta && t != l ==> u.meta[t] == d.meta[t])
    && l in u.meta && u.meta[l].localDepth + 1 == d.meta[l].localDepth && u.meta[l].pattern == d.meta[l].pattern / 2
    && u.depthCount == if d.meta[l].localDepth == d.depth then d.depthCount - 2 else d.depthCount
  }

  /** What Apply does to shrink a segment, at the two ends of its chunk. */
  lemma ShrinkIs(d: Dir, x: nat)
    requires Inv(d) && x < |d.entry| && d.meta[d.entry[x]].localDepth > 0
    ensures var size := Pow2(d.depth - (d.meta[d.entry[x]].localDepth - 1));
      var left := x - x % size;
      && 0 <= left && left + size / 2 < |d.entry|
      && var l, r := d.entry[left], d.entry[left + size / 2];
        && l in d.meta && r in d.meta
        && (d.meta[l].localDepth == d.meta[r].localDepth ==>
              d.meta[l].localDepth > 0 && Apply(d, Shrink(x)) == Merged(d, l, r))
        && (d.meta[l].localDepth != d.meta[r].localDepth ==> Apply(d, Shrink(x)) == d)
  {
    ChunkEndsAreBuddies(d, x);
    ReadsAreNamed(d);
    hide Inv, Pow2, Merged;
  }

  lemma MergedIs(d: Dir, u: Dir, l: nat, r: nat, right: nat, half: nat)
    requires Buddies(d, l, r) && right + half <= |d.entry| == |u.entry| && u.depth == d.depth
    requires forall i :: 0 <= i < |d.entry| ==> (d.entry[i] == r <==> right <= i < right + half)
    requires forall k :: 0 <= k < |d.entry| ==> u.entry[k] == if right <= k < right + half then l else d.entry[k]
    requires u.depthCount == if d.meta[l].localDepth == d.depth then d.depthCount - 2 else d.depthCount
    requires u.meta == (d.meta - {r})[l := Meta(d.meta[l].localDepth - 1, d.meta[l].pattern / 2, 0)]
    ensures u == Merged(d, l, r)
  {
    assert u.entry == Merged(d, l, r).entry;
  }

  lemma MergedIsInto(d: Dir, l: nat, r: nat)
    requires Buddies(d, l, r)
    ensures MergedInto(d, Merged(d, l, r), l, r)
  {
  }

  // What halving counts

  /** The segment of pair k of entries uses all but the last directory bit. */
  predicate DeepPair(d: Dir, k: nat) {
    2 * k < |d.entry| && d.entry[2 * k] in d.meta && d.meta[d.entry[2 * k]].localDepth == d.depth - 1
  }

  /** Pair k comes after one that is merging and was not itself passed over. */
  ghost predicate Skipped(d: Dir, k: nat) {
    k > 0 && !Skipped(d, k - 1) && DeepPair(d, k - 1) && d.meta[d.entry[2 * k - 2]].state == -1
  }

  ghost predicate Counted(d: Dir, k: nat) {
    !Skipped(d, k) && DeepPair(d, k) && d.meta[d.entry[2 * k]].state != -1 && d.meta[d.entry[2 * k]].state != -2
  }

  /** No segment is splitting or merging. */
  predicate Quiet(d: Dir) {
    forall t :: t in d.meta ==> d.meta[t].state != -1 && d.meta[t].state != -2
  }

  /** The segment of pair k is merging. */
  predicate MergingPair(d: Dir, k: nat) {
    DeepPair(d, k) && d.meta[d.entry[2 * k]].state == -1
  }

  /** A pair is passed over exactly when the unbroken row of merging pairs before it is odd. */
  lemma {:induction false} SkippedAfterOdd(d: Dir, k: nat, row: nat)
    requires row <= k && forall j :: k - row <= j < k ==> MergingPair(d, j)
    requires row == k || !MergingPair(d, k - row - 1)
    ensures Skipped(d, k) <==> row % 2 == 1
  {
    if row > 0 {
      SkippedAfterOdd(d, k - 1, row - 1);
      assert MergingPair(d, k - 1);
    }
  }

  lemma FirstCounted(d: Dir)
    ensures !Skipped(d, 0)
  {
  }

  lemma NextSkipped(d: Dir, k: nat)
    ensures Skipped(d, k + 1) <==> !Skipped(d, k) && DeepPair(d, k) && d.meta[d.entry[2 * k]].state == -1
  {
  }

  lemma {:induction false} QuietCounts(d: Dir, k: nat)
    requires Quiet(d)
    ensures !Skipped(d, k)
  {
  }

  lemma PartCount(part: set<nat>, whole: set<nat>)
    requires part <= whole
    ensures |part| <= |whole| && (|part| == |whole| <==> part == whole)
  {
    assert whole == part + (whole - part);
  }

  lemma EvenEntries(d: Dir)
    requires Inv(d) && d.depth > 0
    ensures |d.entry| == 2 * Pow2(d.depth - 1)
  {
    PowStep(d.depth);
  }

  lemma DeepHalved(d: Dir, count: int, n: nat)
    requires |d.entry| == 2 * n && d.depth > 0
    ensures forall k: nat :: k in Deep(Halved(d, count)) <==> DeepPair(d, k)
  {
    var r := Halved(d, count);
    assert |r.entry| == n;
    forall k: nat
      ensures k in Deep(r) <==> DeepPair(d, k)
    {
      assert k < n ==> r.entry[k] == d.entry[2 * k];
    }
  }

  lemma CountedAreDeep(d: Dir, counted: set<nat>, count: int)
    requires Inv(d) && d.depth > 0 && count == |counted|
    requires forall k: nat :: k in counted <==> 2 * k < |d.entry| && Counted(d, k)
    ensures var r := Halved(d, count);
      && count <= |Deep(r)| && (count == |Deep(r)| <==> forall k :: k in Deep(r) ==> Counted(d, k))
      && (Quiet(d) ==> count == |Deep(r)|)
  {
    EvenEntries(d);
    DeepHalved(d, count, Pow2(d.depth - 1));
    hide Skipped, Inv, Halved, Deep;
    var r := Halved(d, count);
    PartCount(counted, Deep(r));
    if Quiet(d) {
      forall k | k in Deep(r)
        ensures Counted(d, k)
      {
        QuietCounts(d, k);
      }
    }
  }

  lemma EntryCount(d: Dir)
    requires Inv(d)
    ensures |d.entry| == Pow2(d.depth)
  {
  }

  lemma ReadsAreNamed(d: Dir)
    requires Inv(d)
    ensures forall i :: 0 <= i < |d.entry| ==> d.entry[i] in d.meta
    ensures forall t :: t in d.meta ==> d.meta[t].localDepth <= d.depth
  {
  }

  lemma UpdatedFields(d: Dir, t: nat, newB: nat)
    requires t in d.meta && d.meta[t].localDepth < d.depth
    ensures var r := Updated(d, t, newB);
      && |r.entry| == |d.entry| && r.depth == d.depth && r.meta == SplitMeta(d.meta, t, newB)
      && r.depthCount == if d.meta[t].localDepth + 1 == d.depth then d.depthCount + 2 else d.depthCount
  {
    hide TopBits, SplitMeta;
  }

  lemma UpdatedOdd(d: Dir, t: nat, newB: nat)
    requires Inv(d) && t in d.meta && d.meta[t].localDepth < d.depth && newB !in d.meta
    ensures |Updated(d, t, newB).entry| == |d.entry|
    ensures forall k :: 0 <= k < |d.entry| ==>
      Updated(d, t, newB).entry[k] ==
      if d.entry[k] == t && k / Pow2(d.depth - d.meta[t].localDepth - 1) % 2 == 1 then newB else d.entry[k]
  {
    UpdatedFields(d, t, newB);
    hide Inv, Updated, Pow2;
    forall k | 0 <= k < |d.entry|
      ensures Updated(d, t, newB).entry[k] ==
              if d.entry[k] == t && k / Pow2(d.depth - d.meta[t].localDepth - 1) % 2 == 1 then newB else d.entry[k]
    {
      GrowUpdates(d, t, newB, k);
    }
  }

  /** The index range that Directory_Update overwrites is the right half of the segment's entries. */
  lemma RightHalf(d: Dir, x: nat, newB: nat)
    requires Inv(d) && x < |d.entry| && d.meta[d.entry[x]].localDepth < d.depth
    ensures var t := d.entry[x];
      var size := Pow2(d.depth - d.meta[t].localDepth);
      var x0 := x - x % size;
      && size >= 2 && 0 <= x0 && x0 + size <= |d.entry|
      && (d.meta[t].localDepth + 1 == d.depth ==> size == 2)
      && forall i :: 0 <= i < |d.entry| ==>
           Updated(d, t, newB).entry[i] == if x0 + size / 2 <= i < x0 + size then newB else d.entry[i]
  {
    var t := d.entry[x];
    var m := d.meta[t];
    var L := m.localDepth + 1;
    var half := Pow2(d.depth - L);
    PowStep(d.depth - m.localDepth);
    assert L == d.depth ==> half == 1 by { assert Pow2(0) == 1; }
    assert Routes(d, x, t);
    EndsOf(x, half);
    ChunkInside(d.depth, L, x);
    hide Inv, Pow2;
    forall i | 0 <= i < |d.entry|
      ensures Updated(d, t, newB).entry[i] ==
              if x - x % (2 * half) + half <= i < x - x % (2 * half) + 2 * half then newB else d.entry[i]
    {
      DivRange(i, half, 2 * m.pattern + 1);
      OddMultiple(m.pattern, half);
    }
  }

  lemma OddMultiple(p: nat, half: nat)
    ensures (2 * p + 1) * half == p * (2 * half) + half
  {
  }

  /** The index range that Directory_Merge_Update overwrites is exactly the right segment's. */
  lemma SameChunk(d: Dir, x: nat, left: nat, right: nat, half: nat)
    requires Inv(d) && x < |d.entry| && d.meta[d.entry[x]].localDepth > 0
    requires half == Pow2(d.depth - d.meta[d.entry[x]].localDepth) && left == x - x % (2 * half) && right == left + half
    requires 0 <= left && right < |d.entry| && Buddies(d, d.entry[left], d.entry[right])
    ensures right + half <= |d.entry| && d.meta[d.entry[right]].localDepth == d.meta[d.entry[x]].localDepth
    ensures forall i :: 0 <= i < |d.entry| ==> (d.entry[i] == d.entry[right] <==> right <= i < right + half)
  {
    var L := d.meta[d.entry[x]].localDepth;
    PowStep(d.depth - (L - 1));
    ChunkEnds(d.depth, L, x);
    ChunkInside(d.depth, L, x);
    SameDepth(d, x, left, right);
    forall i | 0 <= i < |d.entry|
      ensures d.entry[i] == d.entry[right] <==> right <= i < right + half
    {
      ChunkEntry(d, x, left, right, half, i);
    }
    EndsOf(x, half);
  }

  /** An index names the right segment exactly when it lies in the upper half of the chunk. */
  lemma ChunkEntry(d: Dir, x: nat, left: nat, right: nat, half: nat, i: nat)
    requires Inv(d) && x < |d.entry| && i < |d.entry| && right < |d.entry|
    requires half == Pow2(d.depth - d.meta[d.entry[right]].localDepth) && left == x - x % (2 * half) && right == left + half
    ensures d.entry[i] == d.entry[right] <==> right <= i < right + half
  {
    var r := d.entry[right];
    assert Routes(d, i, r) && Routes(d, right, r);
    hide Inv, Pow2;
    EndsOf(x, half);
    OddMultiple(x / (2 * half), half);
    DivRange(i, half, d.meta[r].pattern);
  }

  lemma SameDepth(d: Dir, x: nat, left: nat, right: nat)
    requires Inv(d) && x < |d.entry| && left < |d.entry| && right < |d.entry|
    requires d.entry[left] in d.meta && d.entry[right] in d.meta
    requires d.meta[d.entry[left]].localDepth == d.meta[d.entry[right]].localDepth
    requires var L := d.meta[d.entry[x]].localDepth;
      TopBits(x, d.depth, L) == TopBits(left, d.depth, L) || TopBits(x, d.depth, L) == TopBits(right, d.depth, L)
    ensures d.meta[d.entry[right]].localDepth == d.meta[d.entry[x]].localDepth
  {
    var t := d.entry[x];
    assert Routes(d, x, t) && Routes(d, left, t) && Routes(d, right, t);
    hide Inv, TopBits;
  }
}
