/**
 Dash extendible hashing as a whole: a directory and the segments it names, as a map.  A segment holds exactly the part of
 the map whose hashes start with its pattern, whatever sequence of insertions, deletions, splits and changes of the
 directory has led there, and what a split finds no room for is the only thing the map ever loses unasked.
 */
module DashHash {
  import opened Powers
  import opened DashMarks
  import opened DashSegment
  import opened DashUpdates
  import opened DashSplit
  import opened DashRouting
  import opened DashTable
  import D = DashDirectory

  datatype Hash = Hash(dir: D.Dir, seg: map<nat, Segment>)

  /** The segment that a hash selects. */
  function Selected(t: Hash, hash: nat): nat
    requires t.dir.depth <= WORD
  {
    var i := Prefix(hash, t.dir.depth);
    if i < |t.dir.entry| then t.dir.entry[i] else 0
  }

  function Find(h: Hasher, t: Hash, k: Key): Value
    requires t.dir.depth <= WORD
  {
    var s := Selected(t, h(k));
    if s in t.seg && WellShaped(t.seg[s]) then Get(h, t.seg[s], k) else NONE
  }

  // The invariant

  /** Segment s holds exactly the bindings whose hashes start with its pattern. */
  ghost predicate Holds(h: Hasher, bag: multiset<Pair>, m: D.Meta, bindings: map<Key, Value>)
    requires m.localDepth <= WORD
  {
    forall p :: p in bag <==> p.key in bindings && bindings[p.key] == p.value && Prefix(h(p.key), m.localDepth) == m.pattern
  }

  ghost predicate SegmentOk(h: Hasher, s: Segment, m: D.Meta, bindings: map<Key, Value>) {
    && Inv(h, s) && WellShaped(s) && Functional(Contents(s)) && m.localDepth <= WORD && Holds(h, Contents(s), m, bindings)
  }

  /** Every segment has its part, going by the depths and patterns in meta. */
  ghost predicate AllOk(h: Hasher, seg: map<nat, Segment>, meta: map<nat, D.Meta>, bindings: map<Key, Value>) {
    seg.Keys == meta.Keys && forall s :: s in seg ==> SegmentOk(h, seg[s], meta[s], bindings)
  }

  ghost predicate Whole(h: Hasher, t: Hash, bindings: map<Key, Value>) {
    D.Inv(t.dir) && t.dir.depth <= WORD && AllOk(h, t.seg, t.dir.meta, bindings)
  }

  /** Hashes are 64 bits wide. */
  ghost predicate Wide64(h: Hasher) {
    forall k :: h(k) < Pow2(WORD)
  }

  lemma SelectedOk(h: Hasher, t: Hash, bindings: map<Key, Value>, k: Key)
    requires Whole(h, t, bindings) && Wide64(h)
    ensures Selected(t, h(k)) in t.seg
    ensures forall s :: s in t.seg ==>
      t.dir.meta[s].localDepth <= WORD &&
      (s == Selected(t, h(k)) <==> Prefix(h(k), t.dir.meta[s].localDepth) == t.dir.meta[s].pattern)
  {
    hide SegmentOk;
    PrefixBound(h(k), t.dir.depth);
    assert |t.dir.entry| == Pow2(t.dir.depth);
    forall s | s in t.seg
      ensures t.dir.meta[s].localDepth <= WORD
      ensures s == Selected(t, h(k)) <==> Prefix(h(k), t.dir.meta[s].localDepth) == t.dir.meta[s].pattern
    {
      D.RoutedByPattern(t.dir, h(k), s);
    }
  }

  /** Looking a key up in the segment its hash selects is looking it up in the map. */
  lemma FindIsMap(h: Hasher, t: Hash, bindings: map<Key, Value>, k: Key)
    requires Whole(h, t, bindings) && Wide64(h)
    ensures Find(h, t, k) == if k in bindings then bindings[k] else NONE
  {
    SelectedOk(h, t, bindings, k);
    var s := Selected(t, h(k));
    assert SegmentOk(h, t.seg[s], t.dir.meta[s], bindings);
    GetIsLookup(h, t.seg[s], k);
    hide Inv, Contents, Functional, Get, WellShaped, Selected, D.Inv;
    if k in bindings {
      assert Pair(k, bindings[k]) in Contents(t.seg[s]);
    }
  }

  // Steps

  /** What Table.Split promises of the half that stays, the half that goes, and the pairs it found no room for. */
  ghost predicate SplitInto(h: Hasher, m: D.Meta, s: Segment, stay: Segment, go: Segment, lost: multiset<Pair>)
    requires m.localDepth < WORD
  {
    && Inv(h, stay) && WellShaped(stay) && Functional(Contents(stay))
    && Inv(h, go) && WellShaped(go) && Functional(Contents(go))
    && Contents(stay) + (Contents(go) + lost) == Contents(s)
    && (forall p :: p in Contents(go) + lost ==> Moves(h, m.localDepth, m.pattern)(p.key))
    && (forall p :: p in Contents(stay) ==> !Moves(h, m.localDepth, m.pattern)(p.key))
  }

  datatype Step =
    | Put(k: Key, v: Value)
    | Remove(k: Key)
    /** The segment at entry x splits, the new one is called n; the directory is updated, or doubled. */
    | Split(x: nat, n: nat, stay: Segment, go: Segment, lost: multiset<Pair>)
    /** The segment at entry x merges with its buddy, the right one of the two being empty. */
    | Merge(x: nat)
    | Halve

  /** The two ends of the chunk of entry x, as TryMerge computes them. */
  function Left(d: D.Dir, x: nat): int
    requires x < |d.entry| && d.entry[x] in d.meta && 0 < d.meta[d.entry[x]].localDepth <= d.depth
  {
    x - x % Pow2(d.depth - (d.meta[d.entry[x]].localDepth - 1))
  }

  function Right(d: D.Dir, x: nat): int
    requires x < |d.entry| && d.entry[x] in d.meta && 0 < d.meta[d.entry[x]].localDepth <= d.depth
  {
    Left(d, x) + Pow2(d.depth - (d.meta[d.entry[x]].localDepth - 1)) / 2
  }

  ghost predicate Allowed(h: Hasher, t: Hash, step: Step) {
    match step
    case Put(k, v) => v != NONE
    case Remove(k) => true
    case Split(x, n, stay, go, lost) =>
      && x < |t.dir.entry| && t.dir.entry[x] in t.seg && t.dir.entry[x] in t.dir.meta && n !in t.dir.meta
      && t.dir.meta[t.dir.entry[x]].localDepth < WORD
      && SplitInto(h, t.dir.meta[t.dir.entry[x]], t.seg[t.dir.entry[x]], stay, go, lost)
    case Merge(x) =>
      && x < |t.dir.entry| && t.dir.entry[x] in t.dir.meta && 0 < t.dir.meta[t.dir.entry[x]].localDepth <= t.dir.depth
      && 0 <= Left(t.dir, x) < |t.dir.entry| && 0 <= Right(t.dir, x) < |t.dir.entry|
      && D.Buddies(t.dir, t.dir.entry[Left(t.dir, x)], t.dir.entry[Right(t.dir, x)])
      && t.dir.entry[Right(t.dir, x)] in t.seg && Contents(t.seg[t.dir.entry[Right(t.dir, x)]]) == multiset{}
    case Halve => t.dir.depthCount == 0 && t.dir.depth > 2
  }

  ghost function After(h: Hasher, t: Hash, step: Step): Hash
    requires t.dir.depth <= WORD && Allowed(h, t, step)
  {
    match step
    case Put(k, v) =>
      var s := Selected(t, h(k));
      if s in t.seg && WellShaped(t.seg[s]) then t.(seg := t.seg[s := Insert(h, t.seg[s], Pair(k, v)).0]) else t
    case Remove(k) =>
      var s := Selected(t, h(k));
      if s in t.seg && WellShaped(t.seg[s]) then t.(seg := t.seg[s := Delete(h, t.seg[s], k).0]) else t
    case Split(x, n, stay, go, lost) =>
      var s := t.dir.entry[x];
      Hash(if t.dir.meta[s].localDepth < t.dir.depth then D.Updated(t.dir, s, n) else D.Doubled(t.dir, x, n),
           t.seg[s := stay][n := go])
    case Merge(x) =>
      var left, right := t.dir.entry[Left(t.dir, x)], t.dir.entry[Right(t.dir, x)];
      Hash(D.Merged(t.dir, left, right), t.seg - {right})
    case Halve => t.(dir := D.Halved(t.dir, |D.Deep(D.Halved(t.dir, 0))|))
  }

  /** The map without the bindings that were lost. */
  ghost function Without(bindings: map<Key, Value>, lost: multiset<Pair>): map<Key, Value> {
    map k | k in bindings && Pair(k, bindings[k]) !in lost :: bindings[k]
  }

  ghost function BindingsAfter(h: Hasher, t: Hash, bindings: map<Key, Value>, step: Step): map<Key, Value>
    requires t.dir.depth <= WORD
  {
    match step
    case Put(k, v) =>
      var s := Selected(t, h(k));
      if s in t.seg && WellShaped(t.seg[s]) && Insert(h, t.seg[s], Pair(k, v)).1.Inserted? then bindings[k := v] else bindings
    case Remove(k) => bindings - {k}
    case Split(x, n, stay, go, lost) => Without(bindings, lost)
    case Merge(_) => bindings
    case Halve => bindings
  }

  // One step keeps the invariant

  /** The two maps differ at most in key k. */
  ghost predicate SameBut(bindings: map<Key, Value>, after: map<Key, Value>, k: Key) {
    forall j :: j != k ==> (j in after <==> j in bindings) && (j in after && j in bindings ==> after[j] == bindings[j])
  }

  lemma SameButPut(bindings: map<Key, Value>, k: Key, v: Value)
    ensures SameBut(bindings, bindings[k := v], k) && SameBut(bindings, bindings, k)
  {
  }

  lemma SameButRemoved(bindings: map<Key, Value>, k: Key)
    ensures SameBut(bindings, bindings - {k}, k)
  {
  }

  /** A binding that a segment is not responsible for does not concern it. */
  lemma OkElsewhere(h: Hasher, s: Segment, m: D.Meta, bindings: map<Key, Value>, after: map<Key, Value>, k: Key)
    requires SegmentOk(h, s, m, bindings) && Prefix(h(k), m.localDepth) != m.pattern && SameBut(bindings, after, k)
    ensures SegmentOk(h, s, m, after)
  {
    hide Prefix, Inv, Contents, WellShaped, Functional;
  }

  lemma HoldsPut(h: Hasher, bag: multiset<Pair>, bag': multiset<Pair>, m: D.Meta, bindings: map<Key, Value>, k: Key, v: Value)
    requires m.localDepth <= WORD && Holds(h, bag, m, bindings) && Prefix(h(k), m.localDepth) == m.pattern
    requires bag' == bag + multiset{Pair(k, v)} && forall w :: Pair(k, w) !in bag
    ensures Holds(h, bag', m, bindings[k := v])
  {
    hide Prefix;
    forall p: Pair | p.key == k
      ensures p !in bag
    {
      assert Pair(k, p.value) == p;
    }
  }

  lemma PutSegment(h: Hasher, s: Segment, m: D.Meta, bindings: map<Key, Value>, k: Key, v: Value)
    requires SegmentOk(h, s, m, bindings) && v != NONE && Prefix(h(k), m.localDepth) == m.pattern
    ensures var (u, r) := Insert(h, s, Pair(k, v));
      SegmentOk(h, u, m, if r.Inserted? then bindings[k := v] else bindings)
  {
    InsertSpec(h, s, Pair(k, v));
    hide Inv, Contents, Functional, WellShaped, Prefix, Insert, Holds;
    var (u, r) := Insert(h, s, Pair(k, v));
    if r.Inserted? {
      HoldsPut(h, Contents(s), Contents(u), m, bindings, k, v);
    }
  }

  lemma HoldsRemove(h: Hasher, bag: multiset<Pair>, bag': multiset<Pair>, m: D.Meta, bindings: map<Key, Value>, k: Key, v: Value)
    requires m.localDepth <= WORD && Holds(h, bag, m, bindings)
    requires bag == bag' + multiset{Pair(k, v)} && forall w :: Pair(k, w) !in bag'
    ensures Holds(h, bag', m, bindings - {k})
  {
    hide Prefix;
    forall p: Pair
      ensures p in bag' <==> p in bag && p.key != k
    {
      if p.key != k {
        assert bag[p] == bag'[p];
      } else {
        assert Pair(k, p.value) !in bag';
      }
    }
  }

  lemma HoldsWithout(h: Hasher, bag: multiset<Pair>, m: D.Meta, bindings: map<Key, Value>, k: Key)
    requires m.localDepth <= WORD && Holds(h, bag, m, bindings) && forall w :: Pair(k, w) !in bag
    ensures Holds(h, bag, m, bindings - {k})
  {
    hide Prefix;
    forall p: Pair | p in bag
      ensures p.key != k
    {
      assert Pair(p.key, p.value) == p;
    }
  }

  lemma RemoveSegment(h: Hasher, s: Segment, m: D.Meta, bindings: map<Key, Value>, k: Key)
    requires SegmentOk(h, s, m, bindings)
    ensures SegmentOk(h, Delete(h, s, k).0, m, bindings - {k})
  {
    DeleteSpec(h, s, k);
    hide Inv, Contents, Functional, WellShaped, Prefix, Delete, Holds;
    var (u, ok) := Delete(h, s, k);
    if ok {
      var v :| Contents(s) == Contents(u) + multiset{Pair(k, v)};
      HoldsRemove(h, Contents(s), Contents(u), m, bindings, k, v);
    } else {
      HoldsWithout(h, Contents(s), m, bindings, k);
    }
  }

  /** One segment changes, and every other one has nothing to do with the key that changes. */
  lemma OneOk(h: Hasher, seg: map<nat, Segment>, meta: map<nat, D.Meta>, bindings: map<Key, Value>, z: nat, s: Segment,
              after: map<Key, Value>, k: Key)
    requires AllOk(h, seg, meta, bindings) && SameBut(bindings, after, k) && z in seg && SegmentOk(h, s, meta[z], after)
    requires forall y :: y in seg && y != z ==> meta[y].localDepth <= WORD && Prefix(h(k), meta[y].localDepth) != meta[y].pattern
    ensures AllOk(h, seg[z := s], meta, after)
  {
    hide SegmentOk, Prefix, SameBut;
    var u := seg[z := s];
    forall y | y in u
      ensures SegmentOk(h, u[y], meta[y], after)
    {
      if y != z {
        OkElsewhere(h, seg[y], meta[y], bindings, after, k);
      }
    }
  }

  /** The segment that the key selects changes. */
  lemma OneChanges(h: Hasher, t: Hash, bindings: map<Key, Value>, k: Key, s: Segment, after: map<Key, Value>)
    requires Whole(h, t, bindings) && Wide64(h) && SameBut(bindings, after, k)
    requires var z := Selected(t, h(k)); z in t.seg && z in t.dir.meta && SegmentOk(h, s, t.dir.meta[z], after)
    ensures Whole(h, t.(seg := t.seg[Selected(t, h(k)) := s]), after)
  {
    SelectedOk(h, t, bindings, k);
    hide AllOk, SegmentOk, Prefix, Selected, D.Inv, SameBut, Wide64;
    OneOk(h, t.seg, t.dir.meta, bindings, Selected(t, h(k)), s, after, k);
  }

  lemma SegmentShaped(h: Hasher, s: Segment, m: D.Meta, bindings: map<Key, Value>)
    requires SegmentOk(h, s, m, bindings)
    ensures WellShaped(s)
  {
  }

  lemma SelectedSegment(h: Hasher, t: Hash, bindings: map<Key, Value>, k: Key)
    requires Whole(h, t, bindings) && Wide64(h)
    ensures var z := Selected(t, h(k));
      && z in t.seg && z in t.dir.meta && SegmentOk(h, t.seg[z], t.dir.meta[z], bindings) && WellShaped(t.seg[z])
      && Prefix(h(k), t.dir.meta[z].localDepth) == t.dir.meta[z].pattern
  {
    SelectedOk(h, t, bindings, k);
    hide SegmentOk, Prefix, Selected, D.Inv, WellShaped, Wide64;
    var z := Selected(t, h(k));
    SegmentShaped(h, t.seg[z], t.dir.meta[z], bindings);
  }

  lemma PutWhole(h: Hasher, t: Hash, bindings: map<Key, Value>, k: Key, v: Value)
    requires Whole(h, t, bindings) && Wide64(h) && v != NONE
    ensures Whole(h, After(h, t, Put(k, v)), BindingsAfter(h, t, bindings, Put(k, v)))
  {
    SelectedSegment(h, t, bindings, k);
    hide Whole, AllOk, SegmentOk, Prefix, Insert, Selected, WellShaped, Wide64, SameBut;
    assert t.dir.depth <= WORD by { WholeDepth(h, t, bindings); }
    var s := Selected(t, h(k));
    SameButPut(bindings, k, v);
    assert After(h, t, Put(k, v)) == t.(seg := t.seg[s := Insert(h, t.seg[s], Pair(k, v)).0]);
    hide After;
    PutSegment(h, t.seg[s], t.dir.meta[s], bindings, k, v);
    OneChanges(h, t, bindings, k, Insert(h, t.seg[s], Pair(k, v)).0, BindingsAfter(h, t, bindings, Put(k, v)));
  }

  lemma WholeDepth(h: Hasher, t: Hash, bindings: map<Key, Value>)
    requires Whole(h, t, bindings)
    ensures t.dir.depth <= WORD
  {
  }

  lemma RemoveWhole(h: Hasher, t: Hash, bindings: map<Key, Value>, k: Key)
    requires Whole(h, t, bindings) && Wide64(h)
    ensures Whole(h, After(h, t, Remove(k)), BindingsAfter(h, t, bindings, Remove(k)))
  {
    SelectedSegment(h, t, bindings, k);
    hide Whole, AllOk, SegmentOk, Prefix, Delete, Selected, WellShaped, Wide64, SameBut;
    assert t.dir.depth <= WORD by { WholeDepth(h, t, bindings); }
    var s := Selected(t, h(k));
    SameButRemoved(bindings, k);
    assert After(h, t, Remove(k)) == t.(seg := t.seg[s := Delete(h, t.seg[s], k).0]);
    hide After;
    RemoveSegment(h, t.seg[s], t.dir.meta[s], bindings, k);
    OneChanges(h, t, bindings, k, Delete(h, t.seg[s], k).0, bindings - {k});
  }

  /** Where a pair of the old segment is after the split. */
  lemma SplitPlaces(h: Hasher, m: D.Meta, s: Segment, stay: Segment, go: Segment, lost: multiset<Pair>, p: Pair)
    requires m.localDepth < WORD && Functional(Contents(s)) && SplitInto(h, m, s, stay, go, lost)
    ensures p in Contents(stay) <==> p in Contents(s) && !Moves(h, m.localDepth, m.pattern)(p.key)
    ensures p in Contents(go) <==> p in Contents(s) && Moves(h, m.localDepth, m.pattern)(p.key) && p !in lost
    ensures p in lost ==> p in Contents(s) && Moves(h, m.localDepth, m.pattern)(p.key)
  {
    hide Inv, Contents, WellShaped, Moves;
    assert Contents(s)[p] == Contents(stay)[p] + Contents(go)[p] + lost[p];
    assert p in Contents(go) ==> p in Contents(go) + lost;
    assert p in lost ==> p in Contents(go) + lost;
    assert p in Contents(s) ==> Contents(s)[p] == 1;
  }

  /** Both halves hold what their longer patterns say. */
  lemma SplitSegment(h: Hasher, m: D.Meta, s: Segment, stay: Segment, go: Segment, lost: multiset<Pair>, bindings: map<Key, Value>)
    requires m.localDepth < WORD && SegmentOk(h, s, m, bindings) && SplitInto(h, m, s, stay, go, lost)
    ensures SegmentOk(h, stay, D.Meta(m.localDepth + 1, 2 * m.pattern, m.state), Without(bindings, lost))
    ensures SegmentOk(h, go, D.Meta(m.localDepth + 1, 2 * m.pattern + 1, 0), Without(bindings, lost))
  {
    hide Inv, Contents, WellShaped, Prefix, Functional;
    var after := Without(bindings, lost);
    forall p: Pair
      ensures p in Contents(stay) <==>
        p.key in after && after[p.key] == p.value && Prefix(h(p.key), m.localDepth + 1) == 2 * m.pattern
      ensures p in Contents(go) <==>
        p.key in after && after[p.key] == p.value && Prefix(h(p.key), m.localDepth + 1) == 2 * m.pattern + 1
    {
      SplitPlaces(h, m, s, stay, go, lost, p);
      PrefixHalves(h(p.key), m.localDepth);
      assert p.key in bindings && bindings[p.key] == p.value ==> Pair(p.key, bindings[p.key]) == p;
    }
  }

  /** Bindings that another segment is responsible for may go. */
  lemma OkWithout(h: Hasher, s: Segment, m: D.Meta, bindings: map<Key, Value>, lost: multiset<Pair>)
    requires SegmentOk(h, s, m, bindings)
    requires forall p :: p in lost ==> Prefix(h(p.key), m.localDepth) != m.pattern
    ensures SegmentOk(h, s, m, Without(bindings, lost))
  {
    hide Prefix, Inv, Contents, WellShaped, Functional;
    forall p: Pair
      ensures p in Contents(s) <==> p.key in Without(bindings, lost) && Without(bindings, lost)[p.key] == p.value
                                    && Prefix(h(p.key), m.localDepth) == m.pattern
    {
      assert p.key in bindings && bindings[p.key] == p.value ==> Pair(p.key, bindings[p.key]) == p;
    }
  }

  /** Lost pairs are in the care of the segment that splits. */
  lemma LostRouted(h: Hasher, m: D.Meta, s: Segment, stay: Segment, go: Segment, lost: multiset<Pair>, bindings: map<Key, Value>, p: Pair)
    requires m.localDepth < WORD && SegmentOk(h, s, m, bindings) && SplitInto(h, m, s, stay, go, lost) && p in lost
    ensures Prefix(h(p.key), m.localDepth) == m.pattern
  {
    hide Inv, Contents, WellShaped, Prefix, Functional, SplitInto;
    SplitPlaces(h, m, s, stay, go, lost, p);
  }

  lemma SplitElsewhere(h: Hasher, t: Hash, bindings: map<Key, Value>, s: nat, z: nat, stay: Segment, go: Segment, lost: multiset<Pair>)
    requires Whole(h, t, bindings) && Wide64(h) && s in t.seg && z in t.seg && z != s && t.dir.meta[s].localDepth < WORD
    requires SplitInto(h, t.dir.meta[s], t.seg[s], stay, go, lost)
    ensures SegmentOk(h, t.seg[z], t.dir.meta[z], Without(bindings, lost))
  {
    assert SegmentOk(h, t.seg[z], t.dir.meta[z], bindings) && SegmentOk(h, t.seg[s], t.dir.meta[s], bindings);
    assert t.dir.meta[z].localDepth <= WORD;
    hide SegmentOk, Prefix, D.Inv, Selected, SplitInto, Wide64;
    forall p | p in lost
      ensures Prefix(h(p.key), t.dir.meta[z].localDepth) != t.dir.meta[z].pattern
    {
      LostRouted(h, t.dir.meta[s], t.seg[s], stay, go, lost, bindings, p);
      SelectedOk(h, t, bindings, p.key);
    }
    OkWithout(h, t.seg[z], t.dir.meta[z], bindings, lost);
  }

  lemma SplitDirectory(h: Hasher, t: Hash, bindings: map<Key, Value>, x: nat, n: nat, stay: Segment, go: Segment, lost: multiset<Pair>)
    requires Whole(h, t, bindings) && Allowed(h, t, Split(x, n, stay, go, lost))
    ensures var u := After(h, t, Split(x, n, stay, go, lost)).dir;
      D.Inv(u) && u.depth <= WORD
  {
    hide AllOk, SplitInto;
    var s := t.dir.entry[x];
    assert t.dir.meta[s].localDepth <= t.dir.depth;
    if t.dir.meta[s].localDepth < t.dir.depth {
      D.UpdatedInv(t.dir, s, n);
    } else {
      D.DoubledInv(t.dir, x, n);
    }
  }

  lemma SplitOk(h: Hasher, t: Hash, bindings: map<Key, Value>, x: nat, n: nat, stay: Segment, go: Segment, lost: multiset<Pair>)
    requires Whole(h, t, bindings) && Wide64(h) && Allowed(h, t, Split(x, n, stay, go, lost))
    ensures var u := After(h, t, Split(x, n, stay, go, lost)); AllOk(h, u.seg, u.dir.meta, Without(bindings, lost))
  {
    hide SegmentOk, SplitInto, Without, Wide64;
    var s := t.dir.entry[x];
    SplitSegment(h, t.dir.meta[s], t.seg[s], stay, go, lost, bindings);
    var u := After(h, t, Split(x, n, stay, go, lost));
    hide D.Inv;
    forall z | z in u.seg
      ensures SegmentOk(h, u.seg[z], u.dir.meta[z], Without(bindings, lost))
    {
      if z != s && z != n {
        SplitElsewhere(h, t, bindings, s, z, stay, go, lost);
      }
    }
  }

  lemma SplitWhole(h: Hasher, t: Hash, bindings: map<Key, Value>, x: nat, n: nat, stay: Segment, go: Segment, lost: multiset<Pair>)
    requires Whole(h, t, bindings) && Wide64(h) && Allowed(h, t, Split(x, n, stay, go, lost))
    ensures Whole(h, After(h, t, Split(x, n, stay, go, lost)), Without(bindings, lost))
  {
    SplitDirectory(h, t, bindings, x, n, stay, go, lost);
    SplitOk(h, t, bindings, x, n, stay, go, lost);
    hide After, Allowed, AllOk, D.Inv, Without;
  }

  /** The left segment takes over the shorter pattern; the right one had nothing. */
  lemma MergeSegment(h: Hasher, left: Segment, right: Segment, l: D.Meta, r: D.Meta, bindings: map<Key, Value>)
    requires SegmentOk(h, left, l, bindings) && SegmentOk(h, right, r, bindings) && Contents(right) == multiset{}
    requires l.localDepth == r.localDepth > 0 && l.pattern % 2 == 0 && r.pattern == l.pattern + 1
    ensures SegmentOk(h, left, D.Meta(l.localDepth - 1, l.pattern / 2, 0), bindings)
  {
    hide Inv, Contents, WellShaped, Prefix, Functional;
    forall p: Pair
      ensures p in Contents(left) <==>
        p.key in bindings && bindings[p.key] == p.value && Prefix(h(p.key), l.localDepth - 1) == l.pattern / 2
    {
      PrefixHalves(h(p.key), l.localDepth - 1);
      assert p !in Contents(right);
    }
  }

  lemma MergeOk(h: Hasher, t: Hash, bindings: map<Key, Value>, left: nat, right: nat)
    requires Whole(h, t, bindings) && D.Buddies(t.dir, left, right) && right in t.seg && Contents(t.seg[right]) == multiset{}
    ensures AllOk(h, t.seg - {right}, D.Merged(t.dir, left, right).meta, bindings)
  {
    hide SegmentOk, D.Inv, Contents;
    MergeSegment(h, t.seg[left], t.seg[right], t.dir.meta[left], t.dir.meta[right], bindings);
    assert (t.seg - {right}).Keys == D.Merged(t.dir, left, right).meta.Keys;
  }

  lemma MergeWhole(h: Hasher, t: Hash, bindings: map<Key, Value>, x: nat)
    requires Whole(h, t, bindings) && Allowed(h, t, Merge(x))
    ensures Whole(h, After(h, t, Merge(x)), bindings)
  {
    hide AllOk, SegmentOk, Left, Right, Contents, D.Merged;
    var left, right := t.dir.entry[Left(t.dir, x)], t.dir.entry[Right(t.dir, x)];
    D.MergedInv(t.dir, left, right);
    MergeOk(h, t, bindings, left, right);
    MergedDepth(t.dir, left, right);
  }

  lemma MergedDepth(d: D.Dir, left: nat, right: nat)
    requires left in d.meta && d.meta[left].localDepth > 0
    ensures D.Merged(d, left, right).depth == d.depth
  {
  }

  /** The invariant holds after every step. */
  lemma AfterWhole(h: Hasher, t: Hash, bindings: map<Key, Value>, step: Step)
    requires Whole(h, t, bindings) && Wide64(h) && Allowed(h, t, step)
    ensures Whole(h, After(h, t, step), BindingsAfter(h, t, bindings, step))
  {
    match step {
      case Put(k, v) => PutWhole(h, t, bindings, k, v);
      case Remove(k) => RemoveWhole(h, t, bindings, k);
      case Split(x, n, stay, go, lost) => SplitWhole(h, t, bindings, x, n, stay, go, lost);
      case Merge(x) => MergeWhole(h, t, bindings, x);
      case Halve =>
        D.HalvedInv(t.dir, |D.Deep(D.Halved(t.dir, 0))|);
        hide SegmentOk, D.Inv;
    }
  }

  // Runs

  /** A run from t with these bindings: where it leads, if every step is allowed when its turn comes. */
  ghost function Run(h: Hasher, t: Hash, bindings: map<Key, Value>, steps: seq<Step>): (Hash, map<Key, Value>)
    decreases |steps|
  {
    if steps == [] || t.dir.depth > WORD || !Allowed(h, t, steps[0]) then (t, bindings)
    else Run(h, After(h, t, steps[0]), BindingsAfter(h, t, bindings, steps[0]), steps[1..])
  }

  lemma {:induction false} RunWhole(h: Hasher, t: Hash, bindings: map<Key, Value>, steps: seq<Step>)
    requires Whole(h, t, bindings) && Wide64(h)
    ensures var (u, after) := Run(h, t, bindings, steps); Whole(h, u, after)
    decreases |steps|
  {
    if steps != [] && t.dir.depth <= WORD && Allowed(h, t, steps[0]) {
      hide Whole, After, BindingsAfter, Allowed, Wide64;
      AfterWhole(h, t, bindings, steps[0]);
      RunWhole(h, After(h, t, steps[0]), BindingsAfter(h, t, bindings, steps[0]), steps[1..]);
    }
  }

  /** A new table: 2^depth empty segments. */
  ghost function Fresh(depth: nat): Hash {
    Hash(D.Fresh(depth), map i: nat | i in D.Fresh(depth).meta :: Empty())
  }

  lemma FreshWhole(h: Hasher, depth: nat)
    requires depth <= WORD
    ensures Whole(h, Fresh(depth), map[])
  {
    EmptyIsEmpty(h);
    hide Inv, Contents, Pow2, D.Inv;
    var t := Fresh(depth);
    forall s | s in t.seg
      ensures SegmentOk(h, t.seg[s], t.dir.meta[s], map[])
    {
    }
  }

  /** Over every run from a new table, looking up is looking up in the map that the run has built. */
  lemma RunsAreMaps(h: Hasher, depth: nat, steps: seq<Step>, k: Key)
    requires depth <= WORD && Wide64(h)
    ensures var (t, bindings) := Run(h, Fresh(depth), map[], steps);
      t.dir.depth <= WORD && Find(h, t, k) == if k in bindings then bindings[k] else NONE
  {
    FreshWhole(h, depth);
    RunWhole(h, Fresh(depth), map[], steps);
    var (t, bindings) := Run(h, Fresh(depth), map[], steps);
    FindIsMap(h, t, bindings, k);
  }

  /** The code's split is such a step. */
  method SplitTable(table: Table) returns (next: Table, ghost lost: multiset<Pair>)
    requires table.Valid() && table.localDepth < WORD && Functional(Contents(table.View()))
    modifies table`bucket, table`stash, table`pattern, table`number
    ensures table.localDepth == old(table.localDepth)
    ensures SplitInto(table.h, D.Meta(table.localDepth, old(table.pattern), 0), old(table.View()), table.View(), next.View(), lost)
  {
    hide Inv, Contents, Functional, Moves;
    next, lost := table.Split();
  }
}
