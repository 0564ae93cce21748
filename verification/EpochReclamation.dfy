/**
 Epoch-based reclamation: threads enter, retire unreachable nodes in batches that share one epoch label,
 bump the global epoch and free what no thread can still see.  Every atomic access is a step, and threads
 take steps in any order.
 */
module EpochReclamation {
  import opened Bags

  const BATCH: nat := 32

  type Node = nat

  /** A label's epoch is that of its latest node. */
  datatype Label = Label(nodes: seq<Node>, epoche: nat)

  /** labels[0] is headDeletionList. */
  datatype DeletionList = DeletionList(labels: seq<Label>, count: int, added: nat, deleted: nat)

  /** localEpoche: max() is Infinite */
  datatype Bound = Finite(e: nat) | Infinite

  predicate Below(x: nat, b: Bound) {
    b.Infinite? || x < b.e
  }

  function Min(a: Bound, b: Bound): Bound {
    if a.Finite? && (b.Infinite? || a.e < b.e) then a else b
  }

  /** DeletionList::add */
  function Added(d: DeletionList, node: Node, epoche: nat): DeletionList {
    var labels :=
      if d.labels != [] && |d.labels[0].nodes| < BATCH then
        d.labels[0 := Label(d.labels[0].nodes + [node], epoche)]
      else
        [Label([node], epoche)] + d.labels;
    DeletionList(labels, d.count + 1, d.added + 1, d.deleted)
  }

  /** DeletionList::remove of the label at index k */
  function Removed(d: DeletionList, k: nat): DeletionList
    requires k < |d.labels|
  {
    var n := |d.labels[k].nodes|;
    DeletionList(d.labels[..k] + d.labels[k + 1..], d.count - n, d.added, d.deleted + n)
  }

  // The nodes of a list

  ghost function LabelNodes(l: Label): multiset<Node> {
    multiset(l.nodes)
  }

  ghost function Pending(d: DeletionList): multiset<Node> {
    Sum(d.labels, LabelNodes)
  }

  /** added = deleted + size, and size is what the labels hold. */
  ghost predicate Counted(d: DeletionList) {
    d.count == |Pending(d)| && d.added == d.deleted + d.count
  }

  lemma AddPending(d: DeletionList, node: Node, epoche: nat)
    ensures Pending(Added(d, node, epoche)) == Pending(d) + multiset{node}
    ensures Counted(d) ==> Counted(Added(d, node, epoche))
  {
    if d.labels != [] && |d.labels[0].nodes| < BATCH {
      var l := Label(d.labels[0].nodes + [node], epoche);
      SumUpdate(d.labels, 0, l, LabelNodes);
      assert LabelNodes(l) == LabelNodes(d.labels[0]) + multiset{node};
      CancelPart(Pending(Added(d, node, epoche)), Pending(d), LabelNodes(d.labels[0]), multiset{node});
    } else {
      SumAppend([Label([node], epoche)], d.labels, LabelNodes);
      SumOne(Label([node], epoche), LabelNodes);
    }
  }

  lemma RemovePending(d: DeletionList, k: nat)
    requires k < |d.labels|
    ensures Pending(d) == Pending(Removed(d, k)) + multiset(d.labels[k].nodes)
    ensures Counted(d) ==> Counted(Removed(d, k))
  {
    var l, a, b := d.labels[k], d.labels[..k], d.labels[k + 1..];
    assert d.labels == a + ([l] + b);
    SumAppend(a, [l] + b, LabelNodes);
    SumAppend([l], b, LabelNodes);
    SumOne(l, LabelNodes);
    SumAppend(a, b, LabelNodes);
    Middle(Sum(a, LabelNodes), LabelNodes(l), Sum(b, LabelNodes));
  }

  // The protocol

  datatype Pc =
    | Out
    | Entering(e: nat)
    | In
    | Retiring(node: Node, e: nat)
    | Leaving
    | Scan(i: nat, oldest: Bound)
    | Sweep(k: nat, oldest: Bound)

  /** entered is the time of the last enterEpoche; it and the retirement times below are for the statements only. */
  datatype Thread = Thread(pc: Pc, local: Bound, threshold: nat, list: DeletionList, entered: nat)

  /** retired maps each node ever retired to the time of its retirement and the epoch read then. */
  datatype State = State(current: nat, threads: seq<Thread>, now: nat, retired: map<Node, (nat, nat)>, freed: multiset<Node>)

  /** Drop ends a read-only section, which EpocheGuardReadonly does without touching anything. */
  datatype Action = Enter | Retire(node: Node) | Exit | Drop

  predicate Inside(t: Thread) {
    t.pc.In? || t.pc.Retiring?
  }

  function Put(s: State, t: nat, th: Thread): State
    requires t < |s.threads|
  {
    s.(threads := s.threads[t := th], now := s.now + 1)
  }

  /** One atomic access by thread t; start is startGCThreshhold. */
  function Step(s: State, t: nat, a: Action, start: nat): State
    requires t < |s.threads|
  {
    var th := s.threads[t];
    match th.pc
    case Out => if a.Enter? then Put(s, t, th.(pc := Entering(s.current))) else s
    case Entering(e) => Put(s, t, th.(pc := In, local := Finite(e), entered := s.now))
    case In =>
      if a.Retire? && a.node !in s.retired then
        Put(s, t, th.(pc := Retiring(a.node, s.current))).(retired := s.retired[a.node := (s.now, s.current)])
      else if a.Exit? then
        Put(s, t, th.(pc := Leaving)).(current := if th.threshold % 64 == 1 then s.current + 1 else s.current)
      else if a.Drop? then Put(s, t, th.(pc := Out))
      else s
    case Retiring(node, e) =>
      Put(s, t, th.(pc := In, list := Added(th.list, node, e), threshold := th.threshold + 1))
    case Leaving =>
      if th.threshold <= start then Put(s, t, th.(pc := Out))
      else if th.list.count == 0 then Put(s, t, th.(pc := Out, threshold := 0))
      else Put(s, t, th.(pc := Scan(0, Infinite), local := Infinite))
    case Scan(i, oldest) =>
      if i < |s.threads| then Put(s, t, th.(pc := Scan(i + 1, Min(s.threads[i].local, oldest))))
      else Put(s, t, th.(pc := Sweep(0, oldest)))
    case Sweep(k, oldest) =>
      if k >= |th.list.labels| then Put(s, t, th.(pc := Out, threshold := 0))
      else if Below(th.list.labels[k].epoche, oldest) then
        Put(s, t, th.(list := Removed(th.list, k))).(freed := s.freed + multiset(th.list.labels[k].nodes))
      else Put(s, t, th.(pc := Sweep(k + 1, oldest)))
  }

  // The invariant

  /** Thread th is inside and entered before node n was retired. */
  predicate Saw(s: State, th: Thread, n: Node)
    requires n in s.retired
  {
    Inside(th) && th.entered < s.retired[n].0
  }

  /** A label is not older than any of its nodes, nor newer than the clock. */
  ghost predicate LabelOk(s: State, l: Label) {
    l.epoche <= s.current && forall n :: n in l.nodes ==> n in s.retired && s.retired[n].1 <= l.epoche
  }

  /** What a cleaner has learned from the first i threads: its bound is low enough for whoever saw its nodes. */
  ghost predicate Scanned(s: State, d: DeletionList, i: nat, oldest: Bound)
    requires i <= |s.threads|
  {
    forall k, n, j :: 0 <= k < |d.labels| && n in d.labels[k].nodes && n in s.retired && 0 <= j < i && Saw(s, s.threads[j], n) ==>
      !Below(s.retired[n].1, oldest)
  }

  ghost predicate LabelsOk(s: State, d: DeletionList) {
    forall k :: 0 <= k < |d.labels| ==> LabelOk(s, d.labels[k])
  }

  /** An epoch read but not yet stored is one that was current; a retiring thread's is no older than its labels. */
  ghost predicate ReadOk(s: State, th: Thread) {
    && (th.pc.Entering? ==> th.pc.e <= s.current)
    && (th.pc.Retiring? ==>
          && th.pc.node in s.retired && s.retired[th.pc.node].1 == th.pc.e <= s.current
          && forall k :: 0 <= k < |th.list.labels| ==> th.list.labels[k].epoche <= th.pc.e)
  }

  /** Whoever is inside holds back every epoch stamped since it entered. */
  ghost predicate EntryOk(s: State, th: Thread) {
    && (Inside(th) ==> th.local.Finite? && th.local.e <= s.current)
    && (forall n :: n in s.retired && Saw(s, th, n) ==> th.local.Finite? && th.local.e <= s.retired[n].1)
  }

  ghost predicate CleanOk(s: State, th: Thread) {
    && (th.pc.Scan? ==> th.pc.i <= |s.threads| && Scanned(s, th.list, th.pc.i, th.pc.oldest))
    && (th.pc.Sweep? ==> Scanned(s, th.list, |s.threads|, th.pc.oldest))
  }

  ghost predicate ThreadOk(s: State, t: nat)
    requires t < |s.threads|
  {
    LabelsOk(s, s.threads[t].list) && ReadOk(s, s.threads[t]) && EntryOk(s, s.threads[t]) && CleanOk(s, s.threads[t])
  }

  /** The safety property: whoever is inside entered no earlier than every freed node was retired. */
  ghost predicate Safe(s: State) {
    forall n, t :: n in s.freed && 0 <= t < |s.threads| ==> n in s.retired && !Saw(s, s.threads[t], n)
  }

  ghost predicate Inv(s: State) {
    && Safe(s)
    && (forall t :: 0 <= t < |s.threads| ==> ThreadOk(s, t))
    && (forall n :: n in s.retired ==> s.retired[n].0 < s.now && s.retired[n].1 <= s.current)
    && (forall n :: n in s.freed ==> n in s.retired)
  }

  /**
   What a step by thread t may do to the others' world: the clock moves on, a new retirement is stamped now, and
   nobody comes to have seen what they had not.
   */
  ghost predicate Later(s: State, r: State, t: nat) {
    && |r.threads| == |s.threads| && s.current <= r.current && s.now <= r.now
    && (forall u :: 0 <= u < |s.threads| && u != t ==> r.threads[u] == s.threads[u])
    && (forall n :: n in s.retired ==> n in r.retired && r.retired[n] == s.retired[n])
    && (forall n :: n in r.retired && n !in s.retired ==> r.retired[n] == (s.now, s.current) && s.now < r.now)
    && (t < |s.threads| ==> forall n :: n in s.retired && Saw(r, r.threads[t], n) ==> Saw(s, s.threads[t], n))
  }

  /** Only the stepping thread changes, it comes inside only now, and a new retirement is stamped now. */
  lemma StepFrame(s: State, t: nat, a: Action, start: nat)
    requires t < |s.threads|
    ensures var r := Step(s, t, a, start);
      && |r.threads| == |s.threads| && r.threads == s.threads[t := r.threads[t]]
      && s.current <= r.current && s.now <= r.now
      && (r.retired == s.retired || exists n: Node :: n !in s.retired && r.retired == s.retired[n := (s.now, s.current)] && s.now < r.now)
      && (Inside(r.threads[t]) ==> r.threads[t].entered == s.now || (Inside(s.threads[t]) && r.threads[t].entered == s.threads[t].entered))
  {
    hide Added, Removed, Min, Below;
  }

  lemma StepLater(s: State, t: nat, a: Action, start: nat)
    requires Inv(s) && t < |s.threads|
    ensures Later(s, Step(s, t, a, start), t)
  {
    hide ThreadOk, Safe, Step;
    StepFrame(s, t, a, start);
  }

  lemma LabelsLater(s: State, r: State, t: nat, d: DeletionList)
    requires Later(s, r, t) && LabelsOk(s, d)
    ensures LabelsOk(r, d)
  {
    forall k | 0 <= k < |d.labels|
      ensures LabelOk(r, d.labels[k])
    {
      assert LabelOk(s, d.labels[k]);
    }
  }

  lemma ScannedLater(s: State, r: State, t: nat, d: DeletionList, i: nat, oldest: Bound)
    requires Later(s, r, t) && t < |s.threads| && i <= |s.threads| && Scanned(s, d, i, oldest) && LabelsOk(s, d)
    ensures Scanned(r, d, i, oldest)
  {
    forall k, n, j | 0 <= k < |d.labels| && n in d.labels[k].nodes && n in r.retired && 0 <= j < i && Saw(r, r.threads[j], n)
      ensures !Below(r.retired[n].1, oldest)
    {
      assert LabelOk(s, d.labels[k]);
      assert n in s.retired && Saw(s, s.threads[j], n);
    }
  }

  /** The invariant of one thread survives a step of another. */
  lemma OtherThread(s: State, r: State, t: nat, u: nat)
    requires Later(s, r, t) && t < |s.threads| && u < |s.threads| && u != t && ThreadOk(s, u)
    requires forall n :: n in s.retired ==> s.retired[n].0 < s.now
    ensures ThreadOk(r, u)
  {
    hide Scanned, LabelsOk;
    var th := s.threads[u];
    LabelsLater(s, r, t, th.list);
    if th.pc.Scan? {
      ScannedLater(s, r, t, th.list, th.pc.i, th.pc.oldest);
    }
    if th.pc.Sweep? {
      ScannedLater(s, r, t, th.list, |s.threads|, th.pc.oldest);
    }
  }

  // The stepping thread

  lemma AddLabels(s: State, d: DeletionList, node: Node, e: nat)
    requires LabelsOk(s, d) && node in s.retired && s.retired[node].1 == e <= s.current
    requires forall k :: 0 <= k < |d.labels| ==> d.labels[k].epoche <= e
    ensures LabelsOk(s, Added(d, node, e))
  {
    var r := Added(d, node, e);
    forall k | 0 <= k < |r.labels|
      ensures LabelOk(s, r.labels[k])
    {
      if |r.labels| == |d.labels| {
        assert LabelOk(s, d.labels[k]);
      } else {
        assert k > 0 ==> r.labels[k] == d.labels[k - 1] && LabelOk(s, d.labels[k - 1]);
      }
    }
  }

  lemma RemoveLabels(s: State, d: DeletionList, k: nat)
    requires LabelsOk(s, d) && k < |d.labels|
    ensures LabelsOk(s, Removed(d, k))
  {
    var r := Removed(d, k);
    forall i | 0 <= i < |r.labels|
      ensures LabelOk(s, r.labels[i])
    {
      assert r.labels[i] == d.labels[if i < k then i else i + 1];
    }
  }

  lemma OwnLabels(s: State, t: nat, a: Action, start: nat)
    requires Inv(s) && t < |s.threads|
    ensures LabelsOk(Step(s, t, a, start), Step(s, t, a, start).threads[t].list)
  {
    hide LabelsOk, Added, Removed, EntryOk, CleanOk, Safe;
    var r, th := Step(s, t, a, start), s.threads[t];
    assert ThreadOk(s, t);
    StepLater(s, t, a, start);
    if th.pc.Retiring? {
      AddLabels(s, th.list, th.pc.node, th.pc.e);
      LabelsLater(s, r, t, Added(th.list, th.pc.node, th.pc.e));
    } else if th.pc.Sweep? && th.pc.k < |th.list.labels| {
      RemoveLabels(s, th.list, th.pc.k);
      LabelsLater(s, r, t, Removed(th.list, th.pc.k));
      LabelsLater(s, r, t, th.list);
    } else {
      LabelsLater(s, r, t, th.list);
    }
  }

  lemma LabelsPast(s: State, t: nat)
    requires Inv(s) && t < |s.threads|
    ensures ReadOk(s, s.threads[t]) && forall k :: 0 <= k < |s.threads[t].list.labels| ==> s.threads[t].list.labels[k].epoche <= s.current
  {
    assert ThreadOk(s, t);
    forall k | 0 <= k < |s.threads[t].list.labels|
      ensures s.threads[t].list.labels[k].epoche <= s.current
    {
      assert LabelOk(s, s.threads[t].list.labels[k]);
    }
  }

  lemma OutRead(s: State, t: nat, a: Action, start: nat)
    requires t < |s.threads| && s.threads[t].pc.Out?
    ensures ReadOk(Step(s, t, a, start), Step(s, t, a, start).threads[t])
  {
  }

  lemma InRead(s: State, t: nat, a: Action, start: nat)
    requires t < |s.threads| && s.threads[t].pc.In?
    requires forall k :: 0 <= k < |s.threads[t].list.labels| ==> s.threads[t].list.labels[k].epoche <= s.current
    ensures ReadOk(Step(s, t, a, start), Step(s, t, a, start).threads[t])
  {
  }

  lemma NothingRead(s: State, th: Thread)
    requires !th.pc.Entering? && !th.pc.Retiring?
    ensures ReadOk(s, th)
  {
  }

  lemma OwnRead(s: State, t: nat, a: Action, start: nat)
    requires Inv(s) && t < |s.threads|
    ensures ReadOk(Step(s, t, a, start), Step(s, t, a, start).threads[t])
  {
    LabelsPast(s, t);
    hide Inv, Added, Removed, Min, Below, ReadOk;
    var r := Step(s, t, a, start);
    if s.threads[t].pc.Out? {
      hide Step;
      OutRead(s, t, a, start);
    } else if s.threads[t].pc.In? {
      hide Step;
      InRead(s, t, a, start);
    } else {
      assert !r.threads[t].pc.Entering? && !r.threads[t].pc.Retiring?;
      hide Step;
      NothingRead(r, r.threads[t]);
    }
  }

  lemma OwnEntry(s: State, t: nat, a: Action, start: nat)
    requires Inv(s) && t < |s.threads|
    ensures EntryOk(Step(s, t, a, start), Step(s, t, a, start).threads[t])
  {
    hide Added, Removed, CleanOk, Safe, LabelsOk;
    assert ThreadOk(s, t);
  }

  /** One more thread scanned. */
  lemma ScanOne(s: State, d: DeletionList, i: nat, oldest: Bound)
    requires i < |s.threads| && ThreadOk(s, i) && Scanned(s, d, i, oldest)
    ensures Scanned(s, d, i + 1, Min(s.threads[i].local, oldest))
  {
  }

  lemma ScannedRemove(s: State, d: DeletionList, k: nat, i: nat, oldest: Bound)
    requires i <= |s.threads| && k < |d.labels| && Scanned(s, d, i, oldest)
    ensures Scanned(s, Removed(d, k), i, oldest)
  {
    var r := Removed(d, k);
    forall l, n, j | 0 <= l < |r.labels| && n in r.labels[l].nodes && n in s.retired && 0 <= j < i && Saw(s, s.threads[j], n)
      ensures !Below(s.retired[n].1, oldest)
    {
      assert r.labels[l] == d.labels[if l < k then l else l + 1];
    }
  }

  lemma OwnClean(s: State, t: nat, a: Action, start: nat)
    requires Inv(s) && t < |s.threads|
    ensures CleanOk(Step(s, t, a, start), Step(s, t, a, start).threads[t])
  {
    hide Added, Removed, EntryOk, ReadOk, Safe, LabelsOk, Scanned, Saw;
    var r, th := Step(s, t, a, start), s.threads[t];
    assert ThreadOk(s, t);
    StepLater(s, t, a, start);
    if th.pc.Scan? {
      var i, oldest := th.pc.i, th.pc.oldest;
      if i < |s.threads| {
        assert ThreadOk(s, i);
        ScanOne(s, th.list, i, oldest);
        ScannedLater(s, r, t, th.list, i + 1, Min(s.threads[i].local, oldest));
      } else {
        ScannedLater(s, r, t, th.list, i, oldest);
      }
    } else if th.pc.Sweep? {
      var k, oldest := th.pc.k, th.pc.oldest;
      ScannedLater(s, r, t, th.list, |s.threads|, oldest);
      if k < |th.list.labels| {
        ScannedRemove(r, th.list, k, |s.threads|, oldest);
      }
    } else if th.pc.Leaving? {
      ScannedNone(r, th.list);
    }
  }

  lemma ScannedNone(s: State, d: DeletionList)
    ensures Scanned(s, d, 0, Infinite)
  {
  }

  /** A step frees only the nodes of one label older than the cleaner's bound. */
  lemma StepFrees(s: State, t: nat, a: Action, start: nat, n: Node)
    requires t < |s.threads| && n in Step(s, t, a, start).freed && n !in s.freed
    ensures var th := s.threads[t];
      && th.pc.Sweep? && th.pc.k < |th.list.labels|
      && n in th.list.labels[th.pc.k].nodes && Below(th.list.labels[th.pc.k].epoche, th.pc.oldest)
  {
    hide Added, Removed, Min, Below;
  }

  lemma StepSafe(s: State, t: nat, a: Action, start: nat)
    requires Inv(s) && t < |s.threads|
    ensures Safe(Step(s, t, a, start)) && forall n :: n in Step(s, t, a, start).freed ==> n in Step(s, t, a, start).retired
  {
    hide EntryOk, ReadOk, Step;
    var r, th := Step(s, t, a, start), s.threads[t];
    assert ThreadOk(s, t);
    StepLater(s, t, a, start);
    forall n, u | n in r.freed && 0 <= u < |r.threads|
      ensures n in r.retired && !Saw(r, r.threads[u], n)
    {
      if n !in s.freed {
        StepFrees(s, t, a, start, n);
        assert LabelOk(s, th.list.labels[th.pc.k]);
        assert !Saw(s, s.threads[u], n);
      }
    }
    if |r.threads| > 0 {
      assert forall n :: n in r.freed ==> n in r.retired && !Saw(r, r.threads[0], n);
    }
  }

  lemma StepInv(s: State, t: nat, a: Action, start: nat)
    requires Inv(s) && t < |s.threads|
    ensures Inv(Step(s, t, a, start))
  {
    hide Safe, ThreadOk, Added, Removed;
    var r := Step(s, t, a, start);
    StepLater(s, t, a, start);
    StepSafe(s, t, a, start);
    forall u | 0 <= u < |r.threads|
      ensures ThreadOk(r, u)
    {
      if u == t {
        OwnThread(s, t, a, start);
      } else {
        OtherThread(s, r, t, u);
      }
    }
  }

  lemma OwnThread(s: State, t: nat, a: Action, start: nat)
    requires Inv(s) && t < |s.threads|
    ensures ThreadOk(Step(s, t, a, start), t)
  {
    hide Step, Inv;
    OwnLabels(s, t, a, start);
    OwnRead(s, t, a, start);
    OwnEntry(s, t, a, start);
    OwnClean(s, t, a, start);
    StepKeepsThreads(s, t, a, start);
  }

  lemma StepKeepsThreads(s: State, t: nat, a: Action, start: nat)
    requires t < |s.threads|
    ensures |Step(s, t, a, start).threads| == |s.threads|
  {
  }

  // Every callback runs at most once

  /** The nodes a thread still owes: those in its labels and the one it is adding. */
  ghost function Owed(th: Thread): multiset<Node> {
    Pending(th.list) + if th.pc.Retiring? then multiset{th.pc.node} else multiset{}
  }

  /** Each node ever retired is owed by exactly one thread or has been freed, once; the counters agree. */
  ghost predicate Conserved(s: State) {
    && Sum(s.threads, Owed) + s.freed == multiset(s.retired.Keys)
    && forall t :: 0 <= t < |s.threads| ==> Counted(s.threads[t].list)
  }

  /** What the stepping thread owes, what is freed and what is newly retired balance. */
  lemma StepOwes(s: State, t: nat, a: Action, start: nat)
    requires t < |s.threads| && Counted(s.threads[t].list)
    ensures var r := Step(s, t, a, start);
      && Counted(r.threads[t].list)
      && Owed(r.threads[t]) + r.freed == Owed(s.threads[t]) + s.freed + multiset(r.retired.Keys - s.retired.Keys)
      && s.retired.Keys <= r.retired.Keys
  {
    StepFrame(s, t, a, start);
    hide Step, Counted, Owed;
    var r, th := Step(s, t, a, start), s.threads[t];
    if th.pc.In? && a.Retire? && a.node !in s.retired {
      RetireOwes(s, t, a, start);
      assert r.retired.Keys - s.retired.Keys == {a.node};
    } else {
      if th.pc.Retiring? {
        AddOwes(s, t, a, start);
      } else if th.pc.Sweep? && th.pc.k < |th.list.labels| {
        FreeOwes(s, t, a, start);
      } else {
        IdleOwes(s, t, a, start);
        SameOwes(th, r.threads[t]);
      }
      NothingNew(s.retired, Owed(th) + s.freed);
    }
  }

  lemma SameOwes(x: Thread, y: Thread)
    requires x.list == y.list && !x.pc.Retiring? && !y.pc.Retiring?
    ensures Owed(x) == Owed(y)
  {
  }

  /** A retired node is owed from then on. */
  lemma RetireOwes(s: State, t: nat, a: Action, start: nat)
    requires t < |s.threads| && s.threads[t].pc.In? && a.Retire? && a.node !in s.retired
    ensures var r := Step(s, t, a, start);
      && r.threads[t].list == s.threads[t].list && r.freed == s.freed
      && Owed(r.threads[t]) == Owed(s.threads[t]) + multiset{a.node}
      && r.retired.Keys == s.retired.Keys + {a.node}
  {
    hide Pending;
  }

  /** The node being added moves into a label. */
  lemma AddOwes(s: State, t: nat, a: Action, start: nat)
    requires t < |s.threads| && s.threads[t].pc.Retiring? && Counted(s.threads[t].list)
    ensures var r := Step(s, t, a, start);
      Counted(r.threads[t].list) && Owed(r.threads[t]) == Owed(s.threads[t]) && r.freed == s.freed && r.retired == s.retired
  {
    hide Added, Counted, Pending;
    AddPending(s.threads[t].list, s.threads[t].pc.node, s.threads[t].pc.e);
  }

  /** A label old enough moves to what is freed. */
  lemma FreeOwes(s: State, t: nat, a: Action, start: nat)
    requires t < |s.threads| && s.threads[t].pc.Sweep? && s.threads[t].pc.k < |s.threads[t].list.labels|
    requires Counted(s.threads[t].list)
    ensures var r := Step(s, t, a, start);
      Counted(r.threads[t].list) && Owed(r.threads[t]) + r.freed == Owed(s.threads[t]) + s.freed && r.retired == s.retired
  {
    hide Removed, Counted, Pending, Below;
    var th := s.threads[t];
    RemovePending(th.list, th.pc.k);
    Swap(Pending(Removed(th.list, th.pc.k)), multiset(th.list.labels[th.pc.k].nodes), s.freed);
  }

  /** Any other step owes and frees as before. */
  lemma IdleOwes(s: State, t: nat, a: Action, start: nat)
    requires t < |s.threads| && !s.threads[t].pc.Retiring?
    requires !(s.threads[t].pc.In? && a.Retire? && a.node !in s.retired)
    requires !(s.threads[t].pc.Sweep? && s.threads[t].pc.k < |s.threads[t].list.labels|)
    ensures var r := Step(s, t, a, start);
      && r.threads[t].list == s.threads[t].list && !r.threads[t].pc.Retiring?
      && r.freed == s.freed && r.retired == s.retired
  {
    hide Min;
  }

  lemma NothingNew(m: map<Node, (nat, nat)>, a: multiset<Node>)
    ensures multiset(m.Keys - m.Keys) == multiset{} && a + multiset{} == a
  {
    assert m.Keys - m.Keys == {};
  }

  lemma StepConserved(s: State, t: nat, a: Action, start: nat)
    requires Conserved(s) && t < |s.threads|
    ensures Conserved(Step(s, t, a, start))
  {
    hide Step, Counted, Owed;
    var r := Step(s, t, a, start);
    StepOwes(s, t, a, start);
    StepOnly(s, t, a, start);
    SumUpdate(s.threads, t, r.threads[t], Owed);
    Balance(Sum(r.threads, Owed), Owed(s.threads[t]), Sum(s.threads, Owed), Owed(r.threads[t]), s.freed, r.freed,
            multiset(s.retired.Keys), multiset(r.retired.Keys - s.retired.Keys));
    assert multiset(s.retired.Keys) + multiset(r.retired.Keys - s.retired.Keys) == multiset(r.retired.Keys);
  }

  lemma StepOnly(s: State, t: nat, a: Action, start: nat)
    requires t < |s.threads|
    ensures |Step(s, t, a, start).threads| == |s.threads|
    ensures Step(s, t, a, start).threads == s.threads[t := Step(s, t, a, start).threads[t]]
  {
  }

  // Runs

  /** No thread inside, nothing retired; the local epochs may be anything. */
  ghost predicate Started(s: State) {
    && s.retired == map[] && s.freed == multiset{}
    && forall t :: 0 <= t < |s.threads| ==> s.threads[t].pc.Out? && s.threads[t].list == DeletionList([], 0, 0, 0)
  }

  function Run(s: State, schedule: seq<(nat, Action)>, start: nat): State
    decreases |schedule|
  {
    if schedule == [] then s
    else
      var (t, a) := schedule[0];
      Run(if t < |s.threads| then Step(s, t, a, start) else s, schedule[1..], start)
  }

  lemma StartedInv(s: State)
    requires Started(s)
    ensures Inv(s) && Conserved(s)
  {
    SumEmpty(s.threads, Owed);
  }

  lemma {:induction false} RunInv(s: State, schedule: seq<(nat, Action)>, start: nat)
    requires Inv(s) && Conserved(s)
    ensures Inv(Run(s, schedule, start)) && Conserved(Run(s, schedule, start))
    decreases |schedule|
  {
    hide Inv, Conserved, Step;
    if schedule != [] {
      var (t, a) := schedule[0];
      if t < |s.threads| {
        StepInv(s, t, a, start);
        StepConserved(s, t, a, start);
        RunInv(Step(s, t, a, start), schedule[1..], start);
      } else {
        RunInv(s, schedule[1..], start);
      }
    }
  }

  /**
   In every run, for every number of threads: a freed node was retired, has been freed once, and was retired before
   every thread now inside entered; each list's counters satisfy added = deleted + size.
   */
  lemma ReclamationIsSafe(s: State, schedule: seq<(nat, Action)>, start: nat, n: Node, t: nat)
    requires Started(s)
    ensures var r := Run(s, schedule, start);
      && (n in r.freed ==> r.freed[n] == 1 && n in r.retired)
      && (t < |r.threads| && n in r.freed && Inside(r.threads[t]) ==> r.retired[n].0 <= r.threads[t].entered)
      && (t < |r.threads| ==> r.threads[t].list.added == r.threads[t].list.deleted + |Pending(r.threads[t].list)|)
      && (t < |r.threads| && n in Pending(r.threads[t].list) ==> n !in r.freed)
  {
    hide Step, Run, Conserved, ThreadOk, Counted;
    var r := Run(s, schedule, start);
    StartedInv(s);
    RunInv(s, schedule, start);
    OnceEach(r, n, t);
  }

  lemma OnceEach(s: State, n: Node, t: nat)
    requires Conserved(s)
    ensures s.freed[n] <= 1
    ensures t < |s.threads| ==> s.threads[t].list.added == s.threads[t].list.deleted + |Pending(s.threads[t].list)|
    ensures t < |s.threads| && n in Pending(s.threads[t].list) ==> n !in s.freed
  {
    hide Pending;
    var all := Sum(s.threads, Owed) + s.freed;
    assert all == multiset(s.retired.Keys) && multiset(s.retired.Keys)[n] <= 1;
    assert all[n] == Sum(s.threads, Owed)[n] + s.freed[n];
    if t < |s.threads| {
      SumBounds(s.threads, t, Owed);
      assert Counted(s.threads[t].list);
      assert Owed(s.threads[t])[n] <= Sum(s.threads, Owed)[n];
    }
  }

  // The list as an object

  /** The labels that a cleanup with this bound leaves, in order. */
  function Kept(labels: seq<Label>, oldest: Bound): seq<Label> {
    if labels == [] then []
    else
      var n := |labels| - 1;
      Kept(labels[..n], oldest) + if Below(labels[n].epoche, oldest) then [] else [labels[n]]
  }

  /** The nodes that it frees, in order. */
  function Freed(labels: seq<Label>, oldest: Bound): seq<Node> {
    if labels == [] then []
    else
      var n := |labels| - 1;
      Freed(labels[..n], oldest) + if Below(labels[n].epoche, oldest) then labels[n].nodes else []
  }

  /**
   Nothing is lost between what a cleanup keeps and what it frees; what it keeps is not old enough, what it frees comes
   from labels that are.
   */
  lemma KeptAndFreed(labels: seq<Label>, oldest: Bound)
    ensures Sum(labels, LabelNodes) == Sum(Kept(labels, oldest), LabelNodes) + multiset(Freed(labels, oldest))
    ensures forall l :: l in Kept(labels, oldest) <==> l in labels && !Below(l.epoche, oldest)
    ensures forall n :: n in Freed(labels, oldest) <==> Due(labels, oldest, n)
  {
    hide Below, Kept, Freed, Due;
    NothingLost(labels, oldest);
    KeptAge(labels, oldest);
    forall n
      ensures n in Freed(labels, oldest) <==> Due(labels, oldest, n)
    {
      FreedIsDue(labels, oldest, n);
    }
  }

  lemma {:induction false} NothingLost(labels: seq<Label>, oldest: Bound)
    ensures Sum(labels, LabelNodes) == Sum(Kept(labels, oldest), LabelNodes) + multiset(Freed(labels, oldest))
  {
    hide Below;
    if labels != [] {
      var n := |labels| - 1;
      NothingLost(labels[..n], oldest);
      var k, f, l := Kept(labels[..n], oldest), Freed(labels[..n], oldest), labels[n];
      AddRight(Sum(labels[..n], LabelNodes), Sum(k, LabelNodes), multiset(f), LabelNodes(l));
      assert Sum(labels, LabelNodes) == Sum(labels[..n], LabelNodes) + LabelNodes(l);
      if Below(l.epoche, oldest) {
        assert Kept(labels, oldest) == k && Freed(labels, oldest) == f + l.nodes;
        BagOfTwo(f, l);
      } else {
        assert Kept(labels, oldest) == k + [l] && Freed(labels, oldest) == f;
        SumAppend(k, [l], LabelNodes);
        SumOne(l, LabelNodes);
      }
    }
  }

  lemma {:induction false} KeptAge(labels: seq<Label>, oldest: Bound)
    ensures forall l :: l in Kept(labels, oldest) <==> l in labels && !Below(l.epoche, oldest)
  {
    if labels != [] {
      KeptAge(labels[..|labels| - 1], oldest);
      KeptNext(labels, oldest);
    }
  }

  /** Node n belongs to a label that is old enough. */
  ghost predicate Due(labels: seq<Label>, oldest: Bound, n: Node) {
    exists i :: 0 <= i < |labels| && Below(labels[i].epoche, oldest) && n in labels[i].nodes
  }

  lemma DueNext(labels: seq<Label>, oldest: Bound, n: Node)
    requires labels != []
    ensures var last := |labels| - 1;
      Due(labels, oldest, n) <==> Due(labels[..last], oldest, n) || (Below(labels[last].epoche, oldest) && n in labels[last].nodes)
  {
    hide Below;
    var front := labels[..|labels| - 1];
    if i :| 0 <= i < |labels| && Below(labels[i].epoche, oldest) && n in labels[i].nodes {
      assert i < |front| ==> front[i] == labels[i];
    }
    if i :| 0 <= i < |front| && Below(front[i].epoche, oldest) && n in front[i].nodes {
      assert labels[i] == front[i];
    }
  }

  lemma {:induction false} FreedIsDue(labels: seq<Label>, oldest: Bound, n: Node)
    ensures n in Freed(labels, oldest) <==> Due(labels, oldest, n)
  {
    hide Below, Due;
    if labels != [] {
      FreedIsDue(labels[..|labels| - 1], oldest, n);
      DueNext(labels, oldest, n);
    } else {
      NothingDue(oldest, n);
    }
  }

  lemma NothingDue(oldest: Bound, n: Node)
    ensures !Due([], oldest, n)
  {
  }

  lemma KeptNext(labels: seq<Label>, oldest: Bound)
    requires labels != []
    requires var n := |labels| - 1;
      forall l :: l in Kept(labels[..n], oldest) <==> l in labels[..n] && !Below(l.epoche, oldest)
    ensures forall l :: l in Kept(labels, oldest) <==> l in labels && !Below(l.epoche, oldest)
  {
    hide Below;
    assert labels == labels[..|labels| - 1] + [labels[|labels| - 1]];
  }

  /** The positions of the labels that a cleanup keeps. */
  function KeptAt(labels: seq<Label>, oldest: Bound): (at: seq<nat>)
    ensures forall i :: 0 <= i < |at| ==> at[i] < |labels|
    ensures forall i, j :: 0 <= i < j < |at| ==> at[i] < at[j]
  {
    if labels == [] then []
    else KeptAt(labels[..|labels| - 1], oldest) + if Below(labels[|labels| - 1].epoche, oldest) then [] else [|labels| - 1]
  }

  /** Labels are kept in the order in which they were, each that is not old enough exactly once. */
  lemma KeptInOrder(labels: seq<Label>, oldest: Bound)
    ensures var at, kept := KeptAt(labels, oldest), Kept(labels, oldest);
      && |at| == |kept| && (forall i :: 0 <= i < |at| ==> at[i] < |labels| && kept[i] == labels[at[i]])
      && (forall i, j :: 0 <= i < j < |at| ==> at[i] < at[j])
      && (forall k :: 0 <= k < |labels| ==> (k in at <==> !Below(labels[k].epoche, oldest)))
  {
    hide Below, Kept, KeptAt;
    KeptAre(labels, oldest);
    KeptWhich(labels, oldest);
  }

  lemma {:induction false} KeptAre(labels: seq<Label>, oldest: Bound)
    ensures var at, kept := KeptAt(labels, oldest), Kept(labels, oldest);
      |at| == |kept| && forall i :: 0 <= i < |at| ==> at[i] < |labels| && kept[i] == labels[at[i]]
  {
    hide Below;
    if labels != [] {
      KeptAre(labels[..|labels| - 1], oldest);
    }
  }

  lemma {:induction false} KeptWhich(labels: seq<Label>, oldest: Bound)
    ensures forall k :: 0 <= k < |labels| ==> (k in KeptAt(labels, oldest) <==> !Below(labels[k].epoche, oldest))
  {
    hide Below;
    if labels != [] {
      var n := |labels| - 1;
      KeptWhich(labels[..n], oldest);
      var front := KeptAt(labels[..n], oldest);
      forall k | 0 <= k < |labels|
        ensures k in KeptAt(labels, oldest) <==> !Below(labels[k].epoche, oldest)
      {
        if k < n {
          assert labels[..n][k] == labels[k];
        } else {
          assert k !in front;
        }
      }
    }
  }

  lemma BagOfTwo(f: seq<Node>, l: Label)
    ensures multiset(f + l.nodes) == multiset(f) + LabelNodes(l)
  {
  }

  lemma NextLabel(all: seq<Label>, n: nat, oldest: Bound)
    requires n < |all|
    ensures Kept(all[..n + 1], oldest) == Kept(all[..n], oldest) + if Below(all[n].epoche, oldest) then [] else [all[n]]
    ensures Freed(all[..n + 1], oldest) == Freed(all[..n], oldest) + if Below(all[n].epoche, oldest) then all[n].nodes else []
  {
    assert all[..n + 1][..n] == all[..n];
  }

  lemma NoLabel(all: seq<Label>, oldest: Bound)
    ensures Kept(all[..0], oldest) == [] && Freed(all[..0], oldest) == []
  {
  }

  lemma StillCounted(d: DeletionList, oldest: Bound)
    requires Counted(d)
    ensures var n := |Freed(d.labels, oldest)|;
      Counted(DeletionList(Kept(d.labels, oldest), d.count - n, d.added, d.deleted + n))
  {
    KeptAndFreed(d.labels, oldest);
  }

  class DeletionListObject {
    var labels: seq<Label>
    var freeLabels: nat
    var count: int
    var added: nat
    var deleted: nat

    function View(): DeletionList
      reads this
    {
      DeletionList(labels, count, added, deleted)
    }

    constructor ()
      ensures View() == DeletionList([], 0, 0, 0)
    {
      labels, freeLabels, count, added, deleted := [], 0, 0, 0, 0;
    }

    method Add(node: Node, globalEpoch: nat)
      modifies this
      ensures View() == Added(old(View()), node, globalEpoch)
    {
      count := count + 1;
      if labels != [] && |labels[0].nodes| < BATCH {
      } else {
        if freeLabels != 0 {
          freeLabels := freeLabels - 1;
        }
        labels := [Label([], globalEpoch)] + labels;
      }
      ghost var before := labels;
      labels := labels[0 := Label(labels[0].nodes + [node], globalEpoch)];
      added := added + 1;
      assert before[0].nodes == [] ==> labels[0] == Label([node], globalEpoch);
      assert labels == [labels[0]] + before[1..];
    }

    method Remove(k: nat)
      requires k < |labels|
      modifies this
      ensures View() == Removed(old(View()), k)
    {
      var gone := labels[k];
      labels := labels[..k] + labels[k + 1..];
      count := count - |gone.nodes|;
      freeLabels := freeLabels + 1;
      deleted := deleted + |gone.nodes|;
    }

    /** The cleanup loop: frees exactly the labels below the bound and keeps the others in order. */
    method Cleanup(oldest: Bound) returns (freed: seq<Node>)
      requires Counted(View())
      modifies this
      ensures labels == Kept(old(labels), oldest)
      ensures freed == Freed(old(labels), oldest)
      ensures Counted(View()) && added == old(added) && deleted == old(deleted) + |freed|
    {
      hide Counted, Below, Kept, Freed;
      freed := [];
      var cur := 0;
      ghost var done := 0;
      ghost var all := labels;
      NoLabel(all, oldest);
      while cur < |labels|
        invariant done <= |all| && added == old(added)
        invariant Swept(all, labels, cur, done, freed, oldest)
        invariant count == old(count) - |freed| && deleted == old(deleted) + |freed|
        decreases |all| - done
      {
        SweptNext(all, labels, cur, done, freed, oldest);
        if Below(labels[cur].epoche, oldest) {
          freed := freed + labels[cur].nodes;
          Remove(cur);
        } else {
          cur := cur + 1;
        }
        done := done + 1;
      }
      assert all[..done] == all;
      StillCounted(old(View()), oldest);
    }
  }

  /** The list in the middle of a cleanup: done labels of the original have been looked at, cur of them kept. */
  ghost predicate Swept(all: seq<Label>, labels: seq<Label>, cur: nat, done: nat, freed: seq<Node>, oldest: Bound)
    requires done <= |all|
  {
    cur == |Kept(all[..done], oldest)| && labels == Kept(all[..done], oldest) + all[done..] && freed == Freed(all[..done], oldest)
  }

  lemma SweptNext(all: seq<Label>, labels: seq<Label>, cur: nat, done: nat, freed: seq<Node>, oldest: Bound)
    requires done <= |all| && cur < |labels| && Swept(all, labels, cur, done, freed, oldest)
    ensures done < |all|
    ensures if Below(labels[cur].epoche, oldest)
            then Swept(all, labels[..cur] + labels[cur + 1..], cur, done + 1, freed + labels[cur].nodes, oldest)
            else Swept(all, labels, cur + 1, done + 1, freed, oldest)
  {
    hide Kept, Freed, Below;
    var k := Kept(all[..done], oldest);
    assert |labels| == |k| + |all[done..]|;
    NextLabel(all, done, oldest);
    assert all[done..] == [all[done]] + all[done + 1..];
    assert labels[..cur] + labels[cur + 1..] == k + all[done + 1..];
    assert labels == (k + [all[done]]) + all[done + 1..];
  }
}
