/**
 The cuckoo branch of CCEH: find_path walks from slot to slot, each time to the place of the same offset
 in the occupant's other probe window, and execute_path shifts the pairs along the walk.
 */
module CcehCuckoo {
  import opened Bags
  import opened DashRouting

  const SLOTS: nat := 1024
  const WINDOW: nat := 32
  const THRESHOLD: nat := 16
  const INVALID: Key := -1

  type Key = int
  type Value = int
  type Hasher = Key -> nat

  datatype Pair = Pair(key: Key, value: Value)

  /** (((hash & kMask) * kNumPairPerCacheLine) + j) % kNumSlot */
  function Index(hash: nat, j: nat): (i: nat)
    ensures i < SLOTS
  {
    (hash % 256 * 4 + j) % SLOTS
  }

  /** The two hash functions and the depth that decide where a key may live and whether it still does. */
  datatype Layout = Layout(f: Hasher, s: Hasher, depth: nat, pattern: nat)

  /** The first offset at which slot cur lies in one of the key's windows, or WINDOW. */
  function Offset(l: Layout, key: Key, cur: nat, j: nat := 0): (k: nat)
    requires j <= WINDOW
    ensures j <= k <= WINDOW
    ensures k < WINDOW ==> cur == Index(l.f(key), k) || cur == Index(l.s(key), k)
    ensures forall i :: j <= i < k ==> cur != Index(l.f(key), i) && cur != Index(l.s(key), i)
    decreases WINDOW - j
  {
    if j == WINDOW || cur == Index(l.f(key), j) || cur == Index(l.s(key), j) then j else Offset(l, key, cur, j + 1)
  }

  /** Where the walk goes from slot cur whose occupant has this key. */
  function Other(l: Layout, key: Key, cur: nat): nat
  {
    var j := Offset(l, key, cur);
    if j == WINDOW then cur else if cur == Index(l.f(key), j) then Index(l.s(key), j) else Index(l.f(key), j)
  }

  /** The slot is in one of the two probe windows of the key. */
  predicate InWindow(l: Layout, key: Key, slot: nat) {
    exists j :: 0 <= j < WINDOW && (slot == Index(l.f(key), j) || slot == Index(l.s(key), j))
  }

  /** The slot is free, or its pair no longer belongs to the segment. */
  predicate Dead(l: Layout, key: Key)
    requires l.depth <= WORD
  {
    Prefix(l.f(key), l.depth) != l.pattern || key == INVALID
  }

  function Step(l: Layout, b: seq<Pair>, cur: nat): nat
    requires cur < |b|
  {
    Other(l, b[cur].key, cur)
  }

  /** The slot reached after n moves. */
  function Walk(l: Layout, b: seq<Pair>, cur: nat, n: nat): (r: nat)
    requires |b| == SLOTS && cur < SLOTS
    ensures r < SLOTS
  {
    if n == 0 then cur else
      var m := Walk(l, b, cur, n - 1);
      Step(l, b, m)
  }

  predicate Stops(l: Layout, b: seq<Pair>, cur: nat, n: nat)
    requires |b| == SLOTS && cur < SLOTS && l.depth <= WORD
  {
    Dead(l, b[Walk(l, b, cur, n)].key)
  }

  /** The walk is a function of the slot: from equal slots it goes on equally. */
  lemma {:induction false} WalkRepeats(l: Layout, b: seq<Pair>, cur: nat, x: nat, y: nat, k: nat)
    requires |b| == SLOTS && cur < SLOTS && Walk(l, b, cur, x) == Walk(l, b, cur, y)
    ensures Walk(l, b, cur, x + k) == Walk(l, b, cur, y + k)
  {
    hide Step;
    if k > 0 {
      WalkRepeats(l, b, cur, x, y, k - 1);
    }
  }

  /** So a walk that stops for the first time at move n has not been anywhere twice. */
  lemma NoSlotTwice(l: Layout, b: seq<Pair>, cur: nat, x: nat, y: nat, n: nat)
    requires |b| == SLOTS && cur < SLOTS && l.depth <= WORD
    requires Stops(l, b, cur, n) && GoesOn(l, b, cur, n)
    requires x < y <= n
    ensures Walk(l, b, cur, x) != Walk(l, b, cur, y)
  {
    hide Walk, Dead;
    assert !Stops(l, b, cur, x + (n - y)) && y + (n - y) == n;
    if Walk(l, b, cur, x) == Walk(l, b, cur, y) {
      WalkRepeats(l, b, cur, x, y, n - y);
    }
  }

  /** A move leaves the occupant's one window for the same place in the other. */
  lemma OtherInWindow(l: Layout, key: Key, cur: nat)
    ensures Other(l, key, cur) != cur ==> InWindow(l, key, cur) && InWindow(l, key, Other(l, key, cur))
  {
  }

  // What a segment holds

  ghost function LivePair(l: Layout): Pair -> multiset<Pair>
    requires l.depth <= WORD
  {
    (p: Pair) => if Dead(l, p.key) then multiset{} else multiset{p}
  }

  ghost function Live(l: Layout, b: seq<Pair>): multiset<Pair>
    requires l.depth <= WORD
  {
    Sum(b, LivePair(l))
  }

  /** The path lists the slots of the walk and the keys found there. */
  ghost predicate Follows(l: Layout, b: seq<Pair>, target: nat, path: seq<(nat, Key)>)
    requires |b| == SLOTS && target < SLOTS
  {
    forall i :: 0 <= i < |path| ==> path[i] == (Walk(l, b, target, i), b[Walk(l, b, target, i)].key)
  }

  /** The walk does not stop before move n. */
  ghost predicate GoesOn(l: Layout, b: seq<Pair>, target: nat, n: nat)
    requires |b| == SLOTS && target < SLOTS && l.depth <= WORD
  {
    forall m :: 0 <= m < n ==> !Stops(l, b, target, m)
  }

  /** A usable path: the walk from target up to its first dead slot. */
  ghost predicate IsPath(l: Layout, b: seq<Pair>, target: nat, path: seq<(nat, Key)>)
    requires |b| == SLOTS && target < SLOTS && l.depth <= WORD
  {
    && 0 < |path| <= THRESHOLD && Follows(l, b, target, path)
    && Stops(l, b, target, |path| - 1) && GoesOn(l, b, target, |path| - 1)
  }

  lemma WalkStep(l: Layout, b: seq<Pair>, cur: nat, n: nat)
    requires |b| == SLOTS && cur < SLOTS
    ensures Walk(l, b, cur, n + 1) == Other(l, b[Walk(l, b, cur, n)].key, Walk(l, b, cur, n))
  {
  }

  /** One move of the walk leads from one window of the key to the other. */
  lemma MoveIsSound(l: Layout, b: seq<Pair>, target: nat, n: nat, i: nat)
    requires |b| == SLOTS && target < SLOTS && l.depth <= WORD && i < n
    requires Stops(l, b, target, n) && GoesOn(l, b, target, n)
    ensures var x, y := Walk(l, b, target, i), Walk(l, b, target, i + 1);
      !Dead(l, b[x].key) && InWindow(l, b[x].key, x) && InWindow(l, b[x].key, y)
  {
    var x := Walk(l, b, target, i);
    assert !Stops(l, b, target, i);
    hide Walk, InWindow, Other, Dead;
    NoSlotTwice(l, b, target, i, i + 1, n);
    WalkStep(l, b, target, i);
    OtherInWindow(l, b[x].key, x);
  }

  /** What every path offers its user. */
  lemma PathIsSound(l: Layout, b: seq<Pair>, target: nat, path: seq<(nat, Key)>)
    requires |b| == SLOTS && target < SLOTS && l.depth <= WORD && IsPath(l, b, target, path)
    ensures path != [] && path[0].0 == target && forall i :: 0 <= i < |path| ==> path[i].0 < SLOTS && b[path[i].0].key == path[i].1
    ensures forall i, j :: 0 <= i < j < |path| ==> path[i].0 != path[j].0
    ensures Dead(l, path[|path| - 1].1) && forall i :: 0 <= i < |path| - 1 ==> !Dead(l, path[i].1)
    ensures forall i :: 0 <= i < |path| - 1 ==> InWindow(l, path[i].1, path[i].0) && InWindow(l, path[i].1, path[i + 1].0)
  {
    var n := |path| - 1;
    assert Walk(l, b, target, 0) == target && Dead(l, b[Walk(l, b, target, n)].key);
    hide Walk, InWindow, Dead, Stops, GoesOn;
    forall i, j | 0 <= i < j < |path|
      ensures path[i].0 != path[j].0
    {
      NoSlotTwice(l, b, target, i, j, n);
    }
    forall i | 0 <= i < n
      ensures !Dead(l, path[i].1) && InWindow(l, path[i].1, path[i].0) && InWindow(l, path[i].1, path[i + 1].0)
    {
      MoveIsSound(l, b, target, n, i);
    }
  }

  // The moves and their chains, without the walk

  /**
   x and y are the places of the same offset in the two windows of the key, at the first offset at which x is in either;
   the move leads out of either window into the other.
   */
  ghost predicate Partner(l: Layout, key: Key, x: nat, y: nat) {
    exists j :: 0 <= j < WINDOW && At(l, key, x, y, j) && forall i :: 0 <= i < j ==> Index(l.f(key), i) != x && Index(l.s(key), i) != x
  }

  ghost predicate At(l: Layout, key: Key, x: nat, y: nat, j: nat) {
    (Index(l.f(key), j) == x && Index(l.s(key), j) == y) || (Index(l.s(key), j) == x && Index(l.f(key), j) == y)
  }

  ghost predicate Moves(l: Layout, b: seq<Pair>, chain: seq<nat>)
    requires |b| == SLOTS
  {
    && (forall i :: 0 <= i < |chain| ==> chain[i] < SLOTS)
    && (forall i :: 0 < i < |chain| ==> Partner(l, b[chain[i - 1]].key, chain[i - 1], chain[i]))
  }

  /** A chain of moves from slot to slot, fewer than THRESHOLD, that ends in a slot free or with a pair of another segment. */
  ghost predicate DeadEnd(l: Layout, b: seq<Pair>, target: nat, chain: seq<nat>)
    requires |b| == SLOTS && l.depth <= WORD
  {
    && 0 < |chain| <= THRESHOLD && chain[0] == target && Moves(l, b, chain)
    && var key := b[chain[|chain| - 1]].key; key == INVALID || Prefix(l.f(key), l.depth) != l.pattern
  }

  ghost predicate HasDeadEnd(l: Layout, b: seq<Pair>, target: nat)
    requires |b| == SLOTS && l.depth <= WORD
  {
    exists chain :: DeadEnd(l, b, target, chain)
  }

  /** A slot has a partner exactly when it is in a window of its occupant, and then Other is the only one. */
  lemma OtherIsPartner(l: Layout, key: Key, x: nat, y: nat)
    ensures Partner(l, key, x, y) <==> InWindow(l, key, x) && y == Other(l, key, x)
  {
    hide Index;
    var k := Offset(l, key, x);
    if j :| 0 <= j < WINDOW && At(l, key, x, y, j) && forall i :: 0 <= i < j ==> Index(l.f(key), i) != x && Index(l.s(key), i) != x {
      assert k == j;
    }
    if InWindow(l, key, x) {
      assert k < WINDOW;
      assert At(l, key, x, Other(l, key, x), k);
    }
  }

  /** The walk follows every chain, and one that comes to a dead slot earlier stops there. */
  lemma {:induction false} ChainIsWalk(l: Layout, b: seq<Pair>, target: nat, chain: seq<nat>, i: nat)
    requires |b| == SLOTS && target < SLOTS && l.depth <= WORD && DeadEnd(l, b, target, chain) && i < |chain|
    ensures Walk(l, b, target, i) == chain[i]
  {
    hide Partner, Other, InWindow;
    if i > 0 {
      ChainIsWalk(l, b, target, chain, i - 1);
      OtherIsPartner(l, b[chain[i - 1]].key, chain[i - 1], chain[i]);
      WalkStep(l, b, target, i - 1);
    }
  }

  lemma WalkMoves(l: Layout, b: seq<Pair>, target: nat, n: nat, chain: seq<nat>)
    requires |b| == SLOTS && target < SLOTS && l.depth <= WORD && |chain| == n + 1
    requires Stops(l, b, target, n) && GoesOn(l, b, target, n)
    requires forall i :: 0 <= i <= n ==> chain[i] == Walk(l, b, target, i)
    ensures Moves(l, b, chain)
  {
    hide Walk, Partner, GoesOn, Stops;
    forall i | 0 < i < |chain|
      ensures Partner(l, b[chain[i - 1]].key, chain[i - 1], chain[i])
    {
      WalkToPartner(l, b, target, n, i - 1);
      assert chain[i - 1] == Walk(l, b, target, i - 1);
    }
  }

  lemma WalkSlots(l: Layout, b: seq<Pair>, target: nat, n: nat) returns (chain: seq<nat>)
    requires |b| == SLOTS && target < SLOTS
    ensures |chain| == n + 1 && forall i :: 0 <= i <= n ==> chain[i] == Walk(l, b, target, i)
  {
    hide Walk;
    chain := seq(n + 1, i requires 0 <= i => Walk(l, b, target, i));
  }

  /** The slots of the walk up to its first dead one are such a chain. */
  lemma WalkIsChain(l: Layout, b: seq<Pair>, target: nat, n: nat) returns (chain: seq<nat>)
    requires |b| == SLOTS && target < SLOTS && l.depth <= WORD && n < THRESHOLD
    requires Stops(l, b, target, n) && GoesOn(l, b, target, n)
    ensures DeadEnd(l, b, target, chain)
  {
    assert Walk(l, b, target, 0) == target;
    hide Walk, Moves, GoesOn, Prefix;
    chain := WalkSlots(l, b, target, n);
    WalkMoves(l, b, target, n, chain);
    assert chain[0] == target && chain[n] == Walk(l, b, target, n);
  }

  lemma WalkToPartner(l: Layout, b: seq<Pair>, target: nat, n: nat, i: nat)
    requires |b| == SLOTS && target < SLOTS && l.depth <= WORD && i < n
    requires Stops(l, b, target, n) && GoesOn(l, b, target, n)
    ensures var x := Walk(l, b, target, i); Partner(l, b[x].key, x, Walk(l, b, target, i + 1))
  {
    MoveIsSound(l, b, target, n, i);
    WalkStep(l, b, target, i);
    hide Walk, Partner, Other, InWindow;
    OtherIsPartner(l, b[Walk(l, b, target, i)].key, Walk(l, b, target, i), Walk(l, b, target, i + 1));
  }

  lemma FirstStop(l: Layout, b: seq<Pair>, target: nat, n: nat) returns (m: nat)
    requires |b| == SLOTS && target < SLOTS && l.depth <= WORD && Stops(l, b, target, n)
    ensures m <= n && Stops(l, b, target, m) && GoesOn(l, b, target, m)
  {
    hide Stops;
    m := 0;
    while !Stops(l, b, target, m)
      invariant m <= n && GoesOn(l, b, target, m)
      decreases n - m
    {
      m := m + 1;
    }
  }

  lemma StopIsDeadEnd(l: Layout, b: seq<Pair>, target: nat, n: nat)
    requires |b| == SLOTS && target < SLOTS && l.depth <= WORD && n < THRESHOLD && Stops(l, b, target, n)
    ensures HasDeadEnd(l, b, target)
  {
    hide Stops, GoesOn, DeadEnd;
    var m := FirstStop(l, b, target, n);
    var chain := WalkIsChain(l, b, target, m);
  }

  lemma DeadEndStops(l: Layout, b: seq<Pair>, target: nat, chain: seq<nat>)
    requires |b| == SLOTS && target < SLOTS && l.depth <= WORD && DeadEnd(l, b, target, chain)
    ensures Stops(l, b, target, |chain| - 1)
  {
    hide Walk, Partner;
    ChainIsWalk(l, b, target, chain, |chain| - 1);
  }

  class Segment {
    const bucket: array<Pair>
    var localDepth: nat

    constructor (localDepth: nat)
      ensures fresh(bucket) && bucket.Length == SLOTS && this.localDepth == localDepth
      ensures forall i :: 0 <= i < SLOTS ==> bucket[i].key == INVALID
    {
      bucket := new Pair[SLOTS](i => Pair(INVALID, 0));
      this.localDepth := localDepth;
    }

    /** The inner loop of find_path. */
    method FindOffset(l: Layout, key: Key, cur: nat) returns (j: nat)
      ensures j == Offset(l, key, cur)
    {
      j := 0;
      while j < WINDOW && cur != Index(l.f(key), j) && cur != Index(l.s(key), j)
        invariant j <= Offset(l, key, cur)
      {
        j := j + 1;
      }
    }

    /** Where the occupant of slot cur could go instead; no move if cur is in neither of its windows. */
    method NextSlot(l: Layout, key: Key, cur: nat) returns (moves: bool, other: nat)
      ensures other == Other(l, key, cur) && (moves <==> InWindow(l, key, cur)) && (!moves ==> other == cur)
      ensures cur < SLOTS ==> other < SLOTS
    {
      var j := FindOffset(l, key, cur);
      moves := j < WINDOW;
      other := if j == WINDOW then cur else if Index(l.f(key), j) == cur then Index(l.s(key), j) else Index(l.f(key), j);
    }

    /** Nonempty exactly when a dead slot is fewer than THRESHOLD moves away, along any chain of moves. */
    method FindPath(l: Layout, target: nat) returns (path: seq<(nat, Key)>)
      requires bucket.Length == SLOTS && l.depth == localDepth <= WORD && target < SLOTS
      ensures path != [] ==> IsPath(l, bucket[..], target, path)
      ensures path == [] <==> !HasDeadEnd(l, bucket[..], target)
    {
      ghost var b := bucket[..];
      path := [(target, bucket[target].key)];
      var cur, i := target, 0;
      ghost var stuck := false;
      SearchStarts(l, b, target);
      hide Searching, Other, Dead, HasDeadEnd, IsPath, InWindow, Prefix, Index;
      while i < THRESHOLD
        invariant i <= THRESHOLD && cur < SLOTS && Searching(l, b, target, path, cur, i, stuck)
      {
        var key := bucket[cur].key;
        if Dead(l, key) {
          break;
        }
        var moves, other := NextSlot(l, key, cur);
        if moves {
          SearchMoves(l, b, target, path, cur, i, stuck);
          path := path + [(other, bucket[other].key)];
          cur := other;
        } else {
          SearchWaits(l, b, target, path, cur, i, stuck);
          stuck := true;
        }
        i := i + 1;
      }
      SearchEnds(l, b, target, path, cur, i, stuck);
      if i == THRESHOLD {
        path := [];
      }
    }

    /** Shifts the pairs along the path, last one first, and writes the new one at its start. */
    method ExecutePath(path: seq<(nat, Key)>, key: Key, value: Value)
      requires bucket.Length == SLOTS && OnSlots(path)
      modifies bucket
      ensures bucket[..] == Executed(old(bucket[..]), path, Pair(key, value))
    {
      ghost var b := bucket[..];
      var i := |path| - 1;
      while i > 0
        invariant 0 <= i < |path|
        invariant Shifted(bucket[..], path, i) == Shifted(b, path, |path| - 1)
      {
        ghost var c := bucket[..];
        bucket[path[i].0] := bucket[path[i - 1].0];
        assert bucket[..] == c[path[i].0 := c[path[i - 1].0]];
        i := i - 1;
      }
      ghost var c := bucket[..];
      bucket[path[0].0] := Pair(key, value);
      assert bucket[..] == c[path[0].0 := Pair(key, value)];
    }

    /** The cuckoo branch of Insert: true when one of the two walks found a dead slot in time. */
    method CuckooBranch(l: Layout, key: Key, value: Value) returns (ok: bool)
      requires bucket.Length == SLOTS && l.depth == localDepth <= WORD && !Dead(l, key)
      modifies bucket
      ensures ok <==> HasDeadEnd(l, old(bucket[..]), Index(l.f(key), 0)) || HasDeadEnd(l, old(bucket[..]), Index(l.s(key), 0))
      ensures ok ==> Live(l, bucket[..]) == old(Live(l, bucket[..])) + multiset{Pair(key, value)}
      ensures ok ==> forall k :: 0 <= k < SLOTS && bucket[k] != old(bucket[k]) ==> InWindow(l, bucket[k].key, k)
      ensures !ok ==> bucket[..] == old(bucket[..])
    {
      hide Dead, Walk, IsPath, Executed, Live, HasDeadEnd;
      ghost var b := bucket[..];
      var path1 := FindPath(l, Index(l.f(key), 0));
      var path2 := FindPath(l, Index(l.s(key), 0));
      if |path1| == 0 && |path2| == 0 {
        return false;
      }
      var path := Choose(path1, path2);
      ghost var target := if path == path1 then Index(l.f(key), 0) else Index(l.s(key), 0);
      CuckooInsert(l, b, target, path, Pair(key, value));
      ExecutePath(path, key, value);
      return true;
    }
  }

  lemma GoesOnStep(l: Layout, b: seq<Pair>, target: nat, n: nat)
    requires |b| == SLOTS && target < SLOTS && l.depth <= WORD
    ensures GoesOn(l, b, target, 0)
    ensures GoesOn(l, b, target, n + 1) <==> GoesOn(l, b, target, n) && !Dead(l, b[Walk(l, b, target, n)].key)
  {
    hide Walk, Dead;
    if GoesOn(l, b, target, n + 1) {
      assert !Stops(l, b, target, n);
    }
  }

  lemma FollowsStep(l: Layout, b: seq<Pair>, target: nat, path: seq<(nat, Key)>)
    requires |b| == SLOTS && target < SLOTS && Follows(l, b, target, path)
    ensures var x := Walk(l, b, target, |path|); Follows(l, b, target, path + [(x, b[x].key)])
  {
    hide Walk;
  }

  /** The state of find_path's loop; it is stuck once an occupant is in neither of its windows. */
  ghost predicate Searching(l: Layout, b: seq<Pair>, target: nat, path: seq<(nat, Key)>, cur: nat, i: nat, stuck: bool)
    requires |b| == SLOTS && target < SLOTS && cur < SLOTS && l.depth <= WORD
  {
    && cur == Walk(l, b, target, i) && 0 < |path| <= i + 1 && GoesOn(l, b, target, i)
    && if stuck then !InWindow(l, b[cur].key, cur) && !Dead(l, b[cur].key) else |path| == i + 1 && Follows(l, b, target, path)
  }

  lemma SearchStarts(l: Layout, b: seq<Pair>, target: nat)
    requires |b| == SLOTS && target < SLOTS && l.depth <= WORD
    ensures Searching(l, b, target, [(target, b[target].key)], target, 0, false)
  {
    assert Walk(l, b, target, 0) == target;
  }

  lemma SearchMoves(l: Layout, b: seq<Pair>, target: nat, path: seq<(nat, Key)>, cur: nat, i: nat, stuck: bool)
    requires |b| == SLOTS && target < SLOTS && cur < SLOTS && l.depth <= WORD && Searching(l, b, target, path, cur, i, stuck)
    requires !Dead(l, b[cur].key) && InWindow(l, b[cur].key, cur)
    ensures var x := Other(l, b[cur].key, cur);
      x < SLOTS && Searching(l, b, target, path + [(x, b[x].key)], x, i + 1, stuck)
  {
    hide Walk, Dead, InWindow, Other, Follows;
    WalkStep(l, b, target, i);
    GoesOnStep(l, b, target, i);
    FollowsStep(l, b, target, path);
  }

  lemma SearchWaits(l: Layout, b: seq<Pair>, target: nat, path: seq<(nat, Key)>, cur: nat, i: nat, stuck: bool)
    requires |b| == SLOTS && target < SLOTS && cur < SLOTS && l.depth <= WORD && Searching(l, b, target, path, cur, i, stuck)
    requires !Dead(l, b[cur].key) && !InWindow(l, b[cur].key, cur)
    ensures Searching(l, b, target, path, cur, i + 1, true)
  {
    OtherStays(l, b[cur].key, cur);
    hide Walk, Dead, InWindow, Other, Follows;
    WalkStep(l, b, target, i);
    GoesOnStep(l, b, target, i);
  }

  lemma OtherStays(l: Layout, key: Key, cur: nat)
    requires !InWindow(l, key, cur)
    ensures Other(l, key, cur) == cur
  {
    hide Index;
  }

  lemma SearchEnds(l: Layout, b: seq<Pair>, target: nat, path: seq<(nat, Key)>, cur: nat, i: nat, stuck: bool)
    requires |b| == SLOTS && target < SLOTS && cur < SLOTS && l.depth <= WORD && Searching(l, b, target, path, cur, i, stuck)
    requires i <= THRESHOLD && (i < THRESHOLD ==> Dead(l, b[cur].key))
    ensures HasDeadEnd(l, b, target) <==> i < THRESHOLD
    ensures i < THRESHOLD ==> path != [] && IsPath(l, b, target, path)
  {
    hide Walk, Dead, InWindow, Follows, HasDeadEnd;
    EndsFrom(l, b, target, i);
  }

  /** The walk that has gone on for n moves comes to a dead end in time exactly when it is there before the threshold. */
  lemma EndsFrom(l: Layout, b: seq<Pair>, target: nat, n: nat)
    requires |b| == SLOTS && target < SLOTS && l.depth <= WORD && n <= THRESHOLD
    requires GoesOn(l, b, target, n) && (n < THRESHOLD ==> Dead(l, b[Walk(l, b, target, n)].key))
    ensures HasDeadEnd(l, b, target) <==> n < THRESHOLD
    ensures n < THRESHOLD ==> Stops(l, b, target, n)
  {
    assert n < THRESHOLD ==> Stops(l, b, target, n);
    hide Stops, Walk, Dead;
    if n < THRESHOLD {
      StopIsDeadEnd(l, b, target, n);
    } else if chain :| DeadEnd(l, b, target, chain) {
      DeadEndStops(l, b, target, chain);
      assert false;
    }
  }

  predicate OnSlots(path: seq<(nat, Key)>) {
    path != [] && forall i :: 0 <= i < |path| ==> path[i].0 < SLOTS
  }

  /** The loop of execute_path from index i down. */
  function Shifted(b: seq<Pair>, path: seq<(nat, Key)>, i: nat): (r: seq<Pair>)
    requires |b| == SLOTS && OnSlots(path) && i < |path|
    ensures |r| == SLOTS
    decreases i
  {
    if i == 0 then b else Shifted(b[path[i].0 := b[path[i - 1].0]], path, i - 1)
  }

  function Executed(b: seq<Pair>, path: seq<(nat, Key)>, pair: Pair): (r: seq<Pair>)
    requires |b| == SLOTS && OnSlots(path)
    ensures |r| == SLOTS
  {
    Shifted(b, path, |path| - 1)[path[0].0 := pair]
  }

  ghost predicate Distinct(path: seq<(nat, Key)>) {
    forall i, j :: 0 <= i < j < |path| ==> path[i].0 != path[j].0
  }

  /** Each pair up to index i moves one place along the path; every slot off the path keeps its pair. */
  lemma {:induction false} ShiftedPlaces(b: seq<Pair>, path: seq<(nat, Key)>, i: nat, k: nat)
    requires |b| == SLOTS && OnSlots(path) && Distinct(path) && i < |path| && k < SLOTS
    ensures (forall m :: 0 < m <= i ==> path[m].0 != k) ==> Shifted(b, path, i)[k] == b[k]
    ensures forall m :: 0 < m <= i && path[m].0 == k ==> Shifted(b, path, i)[k] == b[path[m - 1].0]
    decreases i
  {
    if i > 0 {
      var c := b[path[i].0 := b[path[i - 1].0]];
      ShiftedPlaces(c, path, i - 1, k);
      forall m | 0 < m <= i && path[m].0 == k
        ensures Shifted(b, path, i)[k] == b[path[m - 1].0]
      {
        if m == i {
          assert forall n :: 0 < n <= i - 1 ==> path[n].0 != k;
        }
      }
    }
  }

  /** Shifting duplicates the first pair and drops the pair at index i, nothing else. */
  lemma {:induction false} ShiftedLive(l: Layout, b: seq<Pair>, path: seq<(nat, Key)>, i: nat)
    requires |b| == SLOTS && OnSlots(path) && Distinct(path) && i < |path| && l.depth <= WORD
    ensures Live(l, Shifted(b, path, i)) + LivePair(l)(b[path[i].0]) == Live(l, b) + LivePair(l)(b[path[0].0])
    decreases i
  {
    hide LivePair;
    if i > 0 {
      var e := LivePair(l);
      var c := b[path[i].0 := b[path[i - 1].0]];
      ShiftedLive(l, c, path, i - 1);
      SumUpdate(b, path[i].0, b[path[i - 1].0], e);
      assert c[path[i - 1].0] == b[path[i - 1].0] && c[path[0].0] == b[path[0].0];
      Chain(Live(l, Shifted(b, path, i)), e(b[path[i - 1].0]), Live(l, c), e(b[path[0].0]), e(b[path[i].0]), Live(l, b));
    }
  }

  /**
   The cuckoo insertion: along a path that find_path returned, every live pair survives, the new pair joins them,
   every pair that moved is in one of its windows, and slots off the path are untouched.
   */
  lemma CuckooInsert(l: Layout, b: seq<Pair>, target: nat, path: seq<(nat, Key)>, pair: Pair)
    requires |b| == SLOTS && target < SLOTS && l.depth <= WORD && IsPath(l, b, target, path) && !Dead(l, pair.key)
    requires InWindow(l, pair.key, target)
    ensures OnSlots(path)
    ensures var r := Executed(b, path, pair);
      && Live(l, r) == Live(l, b) + multiset{pair}
      && r[target] == pair
      && (forall k :: 0 <= k < SLOTS && (forall i :: 0 <= i < |path| ==> path[i].0 != k) ==> r[k] == b[k])
      && (forall i :: 0 <= i < |path| ==> InWindow(l, r[path[i].0].key, path[i].0))
  {
    hide IsPath, Dead, InWindow, Executed;
    PathIsSound(l, b, target, path);
    assert Distinct(path) && OnSlots(path);
    ExecutedPlaces(b, path, pair);
    ExecutedLive(l, b, path, pair);
    forall i | 0 <= i < |path|
      ensures InWindow(l, Executed(b, path, pair)[path[i].0].key, path[i].0)
    {
      if i > 0 {
        assert InWindow(l, path[i - 1].1, path[i - 1 + 1].0);
      }
    }
  }

  lemma ExecutedPlaces(b: seq<Pair>, path: seq<(nat, Key)>, pair: Pair)
    requires |b| == SLOTS && OnSlots(path) && Distinct(path)
    ensures var r := Executed(b, path, pair);
      && r[path[0].0] == pair
      && (forall i :: 0 < i < |path| ==> r[path[i].0] == b[path[i - 1].0])
      && (forall k :: 0 <= k < SLOTS && (forall i :: 0 <= i < |path| ==> path[i].0 != k) ==> r[k] == b[k])
  {
    forall k | 0 <= k < SLOTS
      ensures (forall i :: 0 <= i < |path| ==> path[i].0 != k) ==> Executed(b, path, pair)[k] == b[k]
      ensures forall i :: 0 < i < |path| && path[i].0 == k ==> Executed(b, path, pair)[k] == b[path[i - 1].0]
    {
      ShiftedPlaces(b, path, |path| - 1, k);
    }
  }

  lemma ExecutedLive(l: Layout, b: seq<Pair>, path: seq<(nat, Key)>, pair: Pair)
    requires |b| == SLOTS && OnSlots(path) && Distinct(path) && l.depth <= WORD
    requires Dead(l, b[path[|path| - 1].0].key) && !Dead(l, pair.key)
    ensures Live(l, Executed(b, path, pair)) == Live(l, b) + multiset{pair}
  {
    var n, e := |path| - 1, LivePair(l);
    var s := Shifted(b, path, n);
    ShiftedLive(l, b, path, n);
    ShiftedPlaces(b, path, n, path[0].0);
    SumUpdate(s, path[0].0, pair, e);
    hide Shifted, Dead;
    var r := Live(l, Executed(b, path, pair));
    assert e(b[path[n].0]) == multiset{} && e(pair) == multiset{pair};
    AddNothing(Live(l, s), Live(l, s));
    forall x: Pair
      ensures r[x] == (Live(l, b) + multiset{pair})[x]
    {
      assert (r + e(s[path[0].0]))[x] == (Live(l, s) + e(pair))[x];
      assert Live(l, s)[x] == (Live(l, b) + e(b[path[0].0]))[x];
    }
  }

  /** The choice between the two paths: some path is taken whenever there is one, and it is never the empty one. */
  function Choose(path1: seq<(nat, Key)>, path2: seq<(nat, Key)>): (path: seq<(nat, Key)>)
    requires path1 != [] || path2 != []
    ensures path != [] && (path == path1 || path == path2)
    ensures path1 != [] && path2 != [] && path1[0].1 != INVALID ==> |path| <= |path1| && |path| <= |path2|
  {
    if |path1| == 0 || (|path2| != 0 && |path2| < |path1|) || (|path2| != 0 && path1[0].1 == INVALID) then path2 else path1
  }
}
