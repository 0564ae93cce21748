/** What each step of a Dash table does to what can be looked up, and to its directory. */
module DashEffects {
  import opened Powers
  import opened DashMarks
  import opened DashSegment
  import opened DashUpdates
  import opened DashFit
  import opened DashSplit
  import opened DashRouting
  import opened DashHash
  import D = DashDirectory

  /** Insert refuses a stored key, and otherwise finds room exactly when the counts say that there is some. */
  lemma InsertAnswers(h: Hasher, s: Segment, pair: Pair)
    requires Inv(h, s) && WellShaped(s) && Functional(Contents(s)) && pair.value != NONE
    ensures var r, y := Insert(h, s, pair).1, Home(h(pair.key));
      && (r.Exists? <==> exists v :: Pair(pair.key, v) in Contents(s))
      && (!r.Exists? ==> (r.Inserted? <==> Fit(LoadsOf(s), y).1))
      && (!Fit(LoadsOf(s), y).1 ==> Crammed(s, y))
  {
    var y, tag := Home(h(pair.key)), Tag(h(pair.key));
    InsertSpec(h, s, pair);
    hide Inv, Contents, Functional, Duplicate, Add, Fit, LoadsOf, Crammed, Home, Tag;
    AddFits(s, y, tag, pair);
  }

  lemma HoldsKey(h: Hasher, s: Segment, m: D.Meta, bindings: map<Key, Value>, k: Key)
    requires SegmentOk(h, s, m, bindings) && Prefix(h(k), m.localDepth) == m.pattern
    ensures (exists v :: Pair(k, v) in Contents(s)) <==> k in bindings
  {
    hide Inv, Contents, WellShaped, Functional, Prefix;
    if k in bindings {
      assert Pair(k, bindings[k]) in Contents(s);
    }
  }

  /** What is looked up before and after, where the table goes from holding one map to holding another. */
  lemma SeenTwice(h: Hasher, t: Hash, u: Hash, before: map<Key, Value>, after: map<Key, Value>, j: Key)
    requires Whole(h, t, before) && Whole(h, u, after) && Wide64(h)
    ensures t.dir.depth <= WORD && u.dir.depth <= WORD
    ensures Find(h, t, j) == if j in before then before[j] else NONE
    ensures Find(h, u, j) == if j in after then after[j] else NONE
  {
    WholeDepth(h, t, before);
    WholeDepth(h, u, after);
    hide Whole, Wide64, Find;
    FindIsMap(h, t, before, j);
    FindIsMap(h, u, after, j);
  }

  /** Where the two maps differ in one key only, no other key is found differently. */
  lemma ChangeIsSeen(h: Hasher, t: Hash, u: Hash, before: map<Key, Value>, after: map<Key, Value>, k: Key, j: Key)
    requires Whole(h, t, before) && Whole(h, u, after) && Wide64(h) && SameBut(before, after, k)
    ensures t.dir.depth <= WORD && u.dir.depth <= WORD
    ensures Find(h, u, k) == if k in after then after[k] else NONE
    ensures j != k ==> Find(h, u, j) == Find(h, t, j)
  {
    hide Whole, Wide64, Find;
    SeenTwice(h, t, u, before, after, k);
    SeenTwice(h, t, u, before, after, j);
  }

  /**
   After an insertion a key that was not bound is found exactly when its home has room, and only a home that is crammed has
   none; a bound key keeps its value, and no other key is affected.
   */
  lemma PutIsSeen(h: Hasher, t: Hash, bindings: map<Key, Value>, k: Key, v: Value, j: Key)
    requires Whole(h, t, bindings) && Wide64(h) && v != NONE
    ensures var u, s := After(h, t, Put(k, v)), Selected(t, h(k));
      && u.dir == t.dir && s in t.seg && WellShaped(t.seg[s])
      && Find(h, u, k) == (if k in bindings then bindings[k] else if Fit(LoadsOf(t.seg[s]), Home(h(k))).1 then v else NONE)
      && (!Fit(LoadsOf(t.seg[s]), Home(h(k))).1 ==> Crammed(t.seg[s], Home(h(k))))
      && (j != k ==> Find(h, u, j) == Find(h, t, j))
  {
    WholeDepth(h, t, bindings);
    SelectedSegment(h, t, bindings, k);
    PutAnswers(h, t, bindings, k, v);
    PutDir(h, t, k, v);
    SameButPut(bindings, k, v);
    assert Allowed(h, t, Put(k, v));
    hide Whole, Wide64, Find, After, Allowed, BindingsAfter, Selected, SegmentOk, Fit, LoadsOf, Crammed, WellShaped, SameBut, Prefix;
    PutWhole(h, t, bindings, k, v);
    ChangeIsSeen(h, t, After(h, t, Put(k, v)), bindings, BindingsAfter(h, t, bindings, Put(k, v)), k, j);
  }

  lemma PutDir(h: Hasher, t: Hash, k: Key, v: Value)
    requires t.dir.depth <= WORD && v != NONE
    ensures After(h, t, Put(k, v)).dir == t.dir
  {
    hide Insert, Selected, WellShaped;
  }

  lemma PutAnswers(h: Hasher, t: Hash, bindings: map<Key, Value>, k: Key, v: Value)
    requires Whole(h, t, bindings) && Wide64(h) && v != NONE && t.dir.depth <= WORD
    ensures var s, after := Selected(t, h(k)), BindingsAfter(h, t, bindings, Put(k, v));
      && s in t.seg && WellShaped(t.seg[s])
      && after == (if k !in bindings && Fit(LoadsOf(t.seg[s]), Home(h(k))).1 then bindings[k := v] else bindings)
      && (!Fit(LoadsOf(t.seg[s]), Home(h(k))).1 ==> Crammed(t.seg[s], Home(h(k))))
  {
    SelectedSegment(h, t, bindings, k);
    var z := Selected(t, h(k));
    PutMap(h, t, bindings, k, v);
    hide Whole, Wide64, Prefix, Selected, WellShaped, Insert, SegmentOk, Fit, LoadsOf, Crammed, Home, BindingsAfter;
    SegmentAnswers(h, t.seg[z], t.dir.meta[z], bindings, Pair(k, v));
  }

  lemma PutMap(h: Hasher, t: Hash, bindings: map<Key, Value>, k: Key, v: Value)
    requires t.dir.depth <= WORD && Selected(t, h(k)) in t.seg && WellShaped(t.seg[Selected(t, h(k))])
    ensures BindingsAfter(h, t, bindings, Put(k, v)) ==
      if Insert(h, t.seg[Selected(t, h(k))], Pair(k, v)).1.Inserted? then bindings[k := v] else bindings
  {
    hide Selected, WellShaped, Insert;
  }

  lemma SegmentAnswers(h: Hasher, s: Segment, m: D.Meta, bindings: map<Key, Value>, pair: Pair)
    requires SegmentOk(h, s, m, bindings) && Prefix(h(pair.key), m.localDepth) == m.pattern && pair.value != NONE
    ensures WellShaped(s)
    ensures Insert(h, s, pair).1.Inserted? <==> pair.key !in bindings && Fit(LoadsOf(s), Home(h(pair.key))).1
    ensures !Fit(LoadsOf(s), Home(h(pair.key))).1 ==> Crammed(s, Home(h(pair.key)))
  {
    HoldsKey(h, s, m, bindings, pair.key);
    hide Prefix, Insert, Inv, Contents, Functional, Fit, LoadsOf, Crammed, Home, Holds;
    InsertAnswers(h, s, pair);
  }

  lemma RemoveDir(h: Hasher, t: Hash, k: Key)
    requires t.dir.depth <= WORD
    ensures After(h, t, Remove(k)).dir == t.dir
  {
    hide Delete, Selected, WellShaped;
  }

  lemma RemoveMap(h: Hasher, t: Hash, bindings: map<Key, Value>, k: Key)
    requires t.dir.depth <= WORD
    ensures BindingsAfter(h, t, bindings, Remove(k)) == bindings - {k}
  {
  }

  lemma WholeDir(h: Hasher, t: Hash, bindings: map<Key, Value>)
    requires Whole(h, t, bindings)
    ensures D.Inv(t.dir) && t.dir.depth <= WORD
  {
  }

  /** After a deletion the key is not found, and no other key is affected. */
  lemma RemoveIsSeen(h: Hasher, t: Hash, bindings: map<Key, Value>, k: Key, j: Key)
    requires Whole(h, t, bindings) && Wide64(h)
    ensures var u := After(h, t, Remove(k));
      u.dir == t.dir && Find(h, u, k) == NONE && (j != k ==> Find(h, u, j) == Find(h, t, j))
  {
    WholeDir(h, t, bindings);
    RemoveDir(h, t, k);
    RemoveMap(h, t, bindings, k);
    assert Allowed(h, t, Remove(k));
    hide Whole, Wide64, Find, After, Allowed, BindingsAfter;
    RemoveWhole(h, t, bindings, k);
    SameButRemoved(bindings, k);
    hide SameBut;
    ChangeIsSeen(h, t, After(h, t, Remove(k)), bindings, bindings - {k}, k, j);
  }

  lemma SplitDir(h: Hasher, t: Hash, x: nat, n: nat, stay: Segment, go: Segment, lost: multiset<Pair>)
    requires D.Inv(t.dir) && t.dir.depth <= WORD && Allowed(h, t, Split(x, n, stay, go, lost))
    ensures After(h, t, Split(x, n, stay, go, lost)) == Hash(D.Apply(t.dir, D.Grow(x, n)), t.seg[t.dir.entry[x] := stay][n := go])
  {
    hide SplitInto, D.Updated, D.Doubled;
  }

  /** A split enters the new segment into the directory, and every key is found as before unless its pair was lost. */
  lemma SplitIsSeen(h: Hasher, t: Hash, bindings: map<Key, Value>, x: nat, n: nat, stay: Segment, go: Segment,
                    lost: multiset<Pair>, j: Key)
    requires Whole(h, t, bindings) && Wide64(h) && Allowed(h, t, Split(x, n, stay, go, lost))
    ensures D.Inv(t.dir) && t.dir.depth <= WORD
    ensures var u := After(h, t, Split(x, n, stay, go, lost));
      && u == Hash(D.Apply(t.dir, D.Grow(x, n)), t.seg[t.dir.entry[x] := stay][n := go]) && u.dir.depth <= WORD
      && Find(h, u, j) == if Pair(j, Find(h, t, j)) in lost then NONE else Find(h, t, j)
  {
    WholeDir(h, t, bindings);
    SplitWhole(h, t, bindings, x, n, stay, go, lost);
    SplitDir(h, t, x, n, stay, go, lost);
    hide Whole, Wide64, Find, After, Allowed, D.Inv, D.Apply;
    SeenTwice(h, t, After(h, t, Split(x, n, stay, go, lost)), bindings, Without(bindings, lost), j);
  }

  lemma MergeDir(h: Hasher, t: Hash, x: nat)
    requires D.Inv(t.dir) && t.dir.depth <= WORD && Allowed(h, t, Merge(x))
    ensures After(h, t, Merge(x)).dir == D.Apply(t.dir, D.Shrink(x))
  {
    hide D.Merged, D.Inv, Pow2, Contents;
  }

  lemma HalveDir(h: Hasher, t: Hash)
    requires D.Inv(t.dir) && t.dir.depth <= WORD && Allowed(h, t, Step.Halve)
    ensures After(h, t, Step.Halve).dir == D.Apply(t.dir, D.Step.Halve)
  {
    hide D.Halved, D.Inv;
  }

  lemma ReshapeMap(h: Hasher, t: Hash, bindings: map<Key, Value>, step: Step)
    requires t.dir.depth <= WORD && (step.Merge? || step.Halve?)
    ensures BindingsAfter(h, t, bindings, step) == bindings
  {
  }

  /** Merging and halving change the directory, and no key is found differently. */
  lemma ReshapeIsSeen(h: Hasher, t: Hash, bindings: map<Key, Value>, step: Step, j: Key)
    requires Whole(h, t, bindings) && Wide64(h) && (step.Merge? || step.Halve?) && Allowed(h, t, step)
    ensures D.Inv(t.dir) && t.dir.depth <= WORD
    ensures var u := After(h, t, step);
      && u.dir == D.Apply(t.dir, if step.Merge? then D.Shrink(step.x) else D.Step.Halve) && u.dir.depth <= WORD
      && Find(h, u, j) == Find(h, t, j)
  {
    WholeDir(h, t, bindings);
    ReshapeMap(h, t, bindings, step);
    hide Whole, Wide64, Find, After, Allowed, D.Inv, D.Apply, BindingsAfter;
    AfterWhole(h, t, bindings, step);
    if step.Merge? {
      MergeDir(h, t, step.x);
    } else {
      HalveDir(h, t);
    }
    SeenTwice(h, t, After(h, t, step), bindings, bindings, j);
  }

  /** A run goes on: one more step, if it is allowed where the run has led, is carried out. */
  lemma {:induction false} RunGoesOn(h: Hasher, t: Hash, bindings: map<Key, Value>, steps: seq<Step>, step: Step)
    requires Whole(h, t, bindings) && Wide64(h) && Complete(h, t, steps)
    ensures var (u, after) := Run(h, t, bindings, steps);
      && u.dir.depth <= WORD
      && (Allowed(h, u, step) ==>
            && Complete(h, t, steps + [step])
            && Run(h, t, bindings, steps + [step]) == (After(h, u, step), BindingsAfter(h, u, after, step)))
    decreases |steps|
  {
    hide Whole, After, BindingsAfter, Allowed, Wide64;
    WholeDepth(h, t, bindings);
    if steps == [] {
      assert [step][1..] == [];
    } else {
      AfterWhole(h, t, bindings, steps[0]);
      RunGoesOn(h, After(h, t, steps[0]), BindingsAfter(h, t, bindings, steps[0]), steps[1..], step);
      assert (steps + [step])[0] == steps[0] && (steps + [step])[1..] == steps[1..] + [step];
    }
  }

  /** Every step of the run is allowed when its turn comes. */
  ghost predicate Complete(h: Hasher, t: Hash, steps: seq<Step>)
    decreases |steps|
  {
    steps == [] || (t.dir.depth <= WORD && Allowed(h, t, steps[0]) && Complete(h, After(h, t, steps[0]), steps[1..]))
  }
}
