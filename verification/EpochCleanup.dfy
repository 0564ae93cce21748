/**
 What epoch-based reclamation gets done: a cleanup frees everything that no other thread holds back, and a guard that
 runs alone takes its nodes all the way from retirement to reclamation.
 */
module EpochCleanup {
  import opened Bags
  import opened EpochReclamation

  type Schedule = seq<(nat, Action)>

  /** Only thread t moves. */
  ghost predicate Alone(schedule: Schedule, t: nat) {
    forall i :: 0 <= i < |schedule| ==> schedule[i].0 == t
  }

  /** Epoch e is below the local epoch of every thread but t that has one, among the first n threads. */
  ghost predicate PastFirst(s: State, t: nat, n: nat, e: nat)
    requires n <= |s.threads|
  {
    forall u :: 0 <= u < n && u != t && s.threads[u].local.Finite? ==> e < s.threads[u].local.e
  }

  /** Nothing retired in epoch e is held back by another thread. */
  ghost predicate Past(s: State, t: nat, e: nat) {
    PastFirst(s, t, |s.threads|, e)
  }

  /** Nothing has changed but thread t, the clock and what is freed. */
  ghost predicate Only(s: State, r: State, t: nat) {
    && |r.threads| == |s.threads| && r.current == s.current && r.retired == s.retired
    && forall u :: 0 <= u < |s.threads| && u != t ==> r.threads[u] == s.threads[u]
  }

  lemma OnlyTwice(s: State, q: State, r: State, t: nat)
    requires Only(s, q, t) && Only(q, r, t)
    ensures Only(s, r, t)
  {
  }

  lemma RunNext(s: State, schedule: Schedule, t: nat, start: nat)
    requires schedule != [] && Alone(schedule, t) && t < |s.threads|
    ensures Alone(schedule[1..], t)
    ensures Run(s, schedule, start) == Run(Step(s, t, schedule[0].1, start), schedule[1..], start)
  {
    hide Step;
  }

  lemma {:induction false} RunTwo(s: State, a: Schedule, b: Schedule, start: nat)
    ensures Run(s, a + b, start) == Run(Run(s, a, start), b, start)
    decreases |a|
  {
    hide Step;
    if a == [] {
      assert a + b == b;
    } else {
      var (t, x) := a[0];
      assert (a + b)[0] == a[0] && (a + b)[1..] == a[1..] + b;
      RunTwo(if t < |s.threads| then Step(s, t, x, start) else s, a[1..], b, start);
    }
  }

  // The scan

  /** One more thread looked at. */
  lemma BoundNext(s: State, t: nat, i: nat, oldest: Bound)
    requires i < |s.threads| && (i == t ==> s.threads[i].local.Infinite?)
    requires forall e: nat :: Below(e, oldest) <==> PastFirst(s, t, i, e)
    ensures forall e: nat :: Below(e, Min(s.threads[i].local, oldest)) <==> PastFirst(s, t, i + 1, e)
  {
    forall e: nat
      ensures Below(e, Min(s.threads[i].local, oldest)) <==> PastFirst(s, t, i + 1, e)
    {
      assert PastFirst(s, t, i + 1, e) <==> PastFirst(s, t, i, e) && (i != t && s.threads[i].local.Finite? ==> e < s.threads[i].local.e);
    }
  }

  lemma PastSame(s: State, r: State, t: nat, i: nat)
    requires Only(s, r, t) && i <= |s.threads|
    ensures forall e: nat :: PastFirst(r, t, i, e) <==> PastFirst(s, t, i, e)
  {
  }

  /** The rest of a scan ends with the bound that the other threads' epochs set. */
  lemma {:induction false} ScanAlone(s: State, t: nat, schedule: Schedule, start: nat, i: nat, oldest: Bound) returns (o: Bound)
    requires t < |s.threads| && s.threads[t].pc == Scan(i, oldest) && s.threads[t].local.Infinite?
    requires i <= |s.threads| && |schedule| == |s.threads| - i + 1 && Alone(schedule, t)
    requires forall e: nat :: Below(e, oldest) <==> PastFirst(s, t, i, e)
    ensures forall e: nat :: Below(e, o) <==> Past(s, t, e)
    ensures var r := Run(s, schedule, start);
      Only(s, r, t) && r.freed == s.freed && r.threads[t] == s.threads[t].(pc := Sweep(0, o))
    decreases |s.threads| - i
  {
    RunNext(s, schedule, t, start);
    hide Below, Min, PastFirst, Alone;
    var q := Step(s, t, schedule[0].1, start);
    assert Only(s, q, t) && q.freed == s.freed;
    PastSame(s, q, t, i);
    PastSame(s, q, t, |s.threads|);
    if i < |s.threads| {
      BoundNext(s, t, i, oldest);
      PastSame(s, q, t, i + 1);
      o := ScanAlone(q, t, schedule[1..], start, i + 1, Min(s.threads[i].local, oldest));
      OnlyTwice(s, q, Run(q, schedule[1..], start), t);
    } else {
      o := oldest;
      assert schedule[1..] == [];
    }
  }

  // The sweep

  /** The rest of a sweep keeps and frees what is to be kept and freed of all the labels. */
  lemma {:induction false} SweepAlone(s: State, t: nat, schedule: Schedule, start: nat, cur: nat, o: Bound,
                                      all: seq<Label>, done: nat, freed: seq<Node>, base: multiset<Node>)
    requires t < |s.threads| && s.threads[t].pc == Sweep(cur, o) && done <= |all|
    requires |schedule| == |all| - done + 1 && Alone(schedule, t)
    requires Swept(all, s.threads[t].list.labels, cur, done, freed, o) && s.freed == base + multiset(freed)
    ensures var r := Run(s, schedule, start);
      && Only(s, r, t) && r.freed == base + multiset(Freed(all, o))
      && r.threads[t].pc.Out? && r.threads[t].threshold == 0 && r.threads[t].local == s.threads[t].local
      && r.threads[t].list.labels == Kept(all, o)
    decreases |all| - done
  {
    hide Below, Kept, Freed;
    RunNext(s, schedule, t, start);
    var th := s.threads[t];
    var q := Step(s, t, schedule[0].1, start);
    assert Only(s, q, t);
    SweptEnds(all, th.list.labels, cur, done, freed, o);
    if cur < |th.list.labels| {
      SweptNext(all, th.list.labels, cur, done, freed, o);
      hide Swept, Alone, Only;
      var l := th.list.labels[cur];
      if Below(l.epoche, o) {
        assert base + multiset(freed) + multiset(l.nodes) == base + multiset(freed + l.nodes);
        SweepAlone(q, t, schedule[1..], start, cur, o, all, done + 1, freed + l.nodes, base);
      } else {
        SweepAlone(q, t, schedule[1..], start, cur + 1, o, all, done + 1, freed, base);
      }
      OnlyTwice(s, q, Run(q, schedule[1..], start), t);
    } else {
      assert schedule[1..] == [];
    }
  }

  /** The sweep is at its end exactly when all labels have been looked at. */
  lemma SweptEnds(all: seq<Label>, labels: seq<Label>, cur: nat, done: nat, freed: seq<Node>, o: Bound)
    requires done <= |all| && Swept(all, labels, cur, done, freed, o)
    ensures cur < |labels| <==> done < |all|
    ensures done == |all| ==> labels == Kept(all, o) && freed == Freed(all, o)
  {
    hide Kept, Freed;
    assert done == |all| ==> all[..done] == all && all[done..] == [];
  }

  // A whole cleanup

  lemma CleanupAlone(s: State, t: nat, schedule: Schedule, start: nat) returns (o: Bound)
    requires t < |s.threads| && s.threads[t].pc.Leaving? && s.threads[t].threshold > start && s.threads[t].list.count != 0
    requires |schedule| == |s.threads| + |s.threads[t].list.labels| + 3 && Alone(schedule, t)
    ensures forall e: nat :: Below(e, o) <==> Past(s, t, e)
    ensures var r, labels := Run(s, schedule, start), s.threads[t].list.labels;
      && Only(s, r, t) && r.freed == s.freed + multiset(Freed(labels, o))
      && r.threads[t].pc.Out? && r.threads[t].threshold == 0 && r.threads[t].local.Infinite?
      && r.threads[t].list.labels == Kept(labels, o)
  {
    var n, labels := |s.threads|, s.threads[t].list.labels;
    var q := Step(s, t, schedule[0].1, start);
    RunNext(s, schedule, t, start);
    assert Only(s, q, t) && q.freed == s.freed && q.threads[t] == s.threads[t].(pc := Scan(0, Infinite), local := Infinite);
    var scan, sweep := schedule[1..][..n + 1], schedule[1..][n + 1..];
    assert schedule[1..] == scan + sweep;
    AlonePart(schedule[1..], t, n + 1);
    hide Step, Alone, Swept, Below, Kept, Freed, PastFirst;
    o := ScanAlone(q, t, scan, start, 0, Infinite) by { FirstBound(q, t); }
    PastSame(s, q, t, n);
    var p := Run(q, scan, start);
    RunTwo(q, scan, sweep, start);
    SweptStarts(labels, o);
    assert p.freed == s.freed + multiset([]);
    SweepAlone(p, t, sweep, start, 0, o, labels, 0, [], s.freed);
    OnlyTwice(s, q, p, t);
    OnlyTwice(s, p, Run(p, sweep, start), t);
  }

  lemma AlonePart(schedule: Schedule, t: nat, n: nat)
    requires Alone(schedule, t) && n <= |schedule|
    ensures Alone(schedule[..n], t) && Alone(schedule[n..], t)
  {
  }

  lemma FirstBound(s: State, t: nat)
    ensures forall e: nat :: Below(e, Infinite) <==> PastFirst(s, t, 0, e)
  {
  }

  lemma SweptStarts(all: seq<Label>, o: Bound)
    ensures Swept(all, all, 0, 0, [], o)
  {
    NoLabel(all, o);
    hide Kept, Freed;
    assert all[0..] == all;
  }

  /** Node n is in a label that no other thread holds back. */
  ghost predicate Released(s: State, t: nat, n: Node)
    requires t < |s.threads|
  {
    exists k :: 0 <= k < |s.threads[t].list.labels| && Past(s, t, s.threads[t].list.labels[k].epoche) && n in s.threads[t].list.labels[k].nodes
  }

  /**
   A cleanup during which nobody else moves frees exactly the nodes of those labels whose epoch is below every epoch that
   another thread holds, and keeps the other labels; if no other thread holds any, it frees everything.
   */
  lemma CleanupFrees(s: State, t: nat, schedule: Schedule, start: nat)
    requires t < |s.threads| && s.threads[t].pc.Leaving? && s.threads[t].threshold > start && s.threads[t].list.count != 0
    requires |schedule| == |s.threads| + |s.threads[t].list.labels| + 3 && Alone(schedule, t)
    ensures var r, d := Run(s, schedule, start), s.threads[t].list;
      && Only(s, r, t) && r.threads[t].pc.Out?
      && (forall l :: l in r.threads[t].list.labels <==> l in d.labels && !Past(s, t, l.epoche))
      && (forall n :: r.freed[n] > s.freed[n] <==> Released(s, t, n))
      && Pending(r.threads[t].list) + r.freed == Pending(d) + s.freed
      && ((forall u :: 0 <= u < |s.threads| && u != t ==> s.threads[u].local.Infinite?) ==>
            r.threads[t].list.labels == [] && r.freed == s.freed + Pending(d))
  {
    var r, labels := Run(s, schedule, start), s.threads[t].list.labels;
    var o := CleanupAlone(s, t, schedule, start);
    hide Run, Step, Alone, Below, Kept, Freed, Past, Only, Released, Due, LabelNodes;
    KeptAge(labels, o);
    DueIsReleased(s, t, o);
    Accounts(labels, o, s.freed, r.freed);
    if forall u :: 0 <= u < |s.threads| && u != t ==> s.threads[u].local.Infinite? {
      NobodyHolds(s, t);
      NoneLeft(r.threads[t].list.labels);
      assert multiset{} + r.freed == r.freed;
    }
  }

  lemma DueIsReleased(s: State, t: nat, o: Bound)
    requires t < |s.threads| && forall e: nat :: Below(e, o) <==> Past(s, t, e)
    ensures forall n :: Due(s.threads[t].list.labels, o, n) <==> Released(s, t, n)
  {
    hide Below, Past;
  }

  lemma Accounts(labels: seq<Label>, o: Bound, before: multiset<Node>, after: multiset<Node>)
    requires after == before + multiset(Freed(labels, o))
    ensures Sum(Kept(labels, o), LabelNodes) + after == Sum(labels, LabelNodes) + before
    ensures forall n :: after[n] > before[n] <==> Due(labels, o, n)
  {
    hide Freed, Kept, Due, Below, LabelNodes;
    KeptAndFreed(labels, o);
    AddRight(Sum(labels, LabelNodes), Sum(Kept(labels, o), LabelNodes), multiset(Freed(labels, o)), before);
    assert multiset(Freed(labels, o)) + before == after;
    forall n
      ensures after[n] > before[n] <==> Due(labels, o, n)
    {
      assert multiset(Freed(labels, o))[n] > 0 <==> n in Freed(labels, o);
    }
  }

  lemma NobodyHolds(s: State, t: nat)
    requires forall u :: 0 <= u < |s.threads| && u != t ==> s.threads[u].local.Infinite?
    ensures forall e: nat :: Past(s, t, e)
  {
  }

  lemma NoneLeft(labels: seq<Label>)
    requires forall l :: l !in labels
    ensures labels == [] && Sum(labels, LabelNodes) == multiset{}
  {
    if labels != [] {
      SomeLabel(labels);
    }
  }

  lemma SomeLabel(labels: seq<Label>)
    requires labels != []
    ensures exists l :: l in labels
  {
    assert labels[0] in labels;
  }

  // What the other calls get done

  /** Entering takes two accesses and publishes the epoch that was current at the first. */
  lemma Enters(s: State, t: nat, start: nat)
    requires t < |s.threads| && s.threads[t].pc.Out?
    ensures var r := Run(s, [(t, Enter), (t, Enter)], start);
      && Only(s, r, t) && r.freed == s.freed
      && r.threads[t].pc.In? && r.threads[t].local == Finite(s.current) && r.threads[t].entered == s.now + 1
      && r.threads[t].list == s.threads[t].list && r.threads[t].threshold == s.threads[t].threshold
  {
    var q := Step(s, t, Enter, start);
    var r := Step(q, t, Enter, start);
    assert Run(r, [], start) == r && Run(q, [(t, Enter)], start) == r;
  }

  /**
   Retiring a node puts it into the newest label, or into a new one when that one is full, and stamps the label with the
   current epoch.
   */
  lemma Retires(s: State, t: nat, n: Node, start: nat)
    requires t < |s.threads| && s.threads[t].pc.In? && n !in s.retired && Counted(s.threads[t].list)
    ensures var r, d := Run(s, [(t, Retire(n)), (t, Retire(n))], start), s.threads[t].list;
      && |r.threads| == |s.threads| && (forall u :: 0 <= u < |s.threads| && u != t ==> r.threads[u] == s.threads[u])
      && r.current == s.current && r.freed == s.freed && r.retired == s.retired[n := (s.now, s.current)]
      && r.threads[t].pc.In? && r.threads[t].local == s.threads[t].local
      && r.threads[t].threshold == s.threads[t].threshold + 1
      && Pending(r.threads[t].list) == Pending(d) + multiset{n} && r.threads[t].list.count == d.count + 1 > 0
      && Counted(r.threads[t].list)
      && var labels := r.threads[t].list.labels;
        && labels != [] && n in labels[0].nodes && labels[0].epoche == s.current
        && if d.labels != [] && |d.labels[0].nodes| < BATCH then |labels| == |d.labels| && labels[1..] == d.labels[1..]
           else labels[1..] == d.labels
  {
    assert s.threads[t].list.count >= 0;
    hide Pending, Counted;
    var q := Step(s, t, Retire(n), start);
    var r := Step(q, t, Retire(n), start);
    assert Run(r, [], start) == r && Run(q, [(t, Retire(n))], start) == r;
    AddPending(s.threads[t].list, n, s.current);
  }

  /** Leaving moves the epoch on with every 64th node that the thread has retired, one after a multiple of 64. */
  lemma Leaves(s: State, t: nat, start: nat)
    requires t < |s.threads| && s.threads[t].pc.In?
    ensures var r, th := Run(s, [(t, Exit)], start), s.threads[t];
      && |r.threads| == |s.threads| && (forall u :: 0 <= u < |s.threads| && u != t ==> r.threads[u] == s.threads[u])
      && r.threads[t] == th.(pc := Leaving) && r.retired == s.retired && r.freed == s.freed
      && r.current == if th.threshold % 64 == 1 then s.current + 1 else s.current
  {
    var r := Step(s, t, Exit, start);
    assert Run(r, [], start) == r;
  }

  /** A read-only guard ends without touching what its thread has published or pending. */
  lemma Drops(s: State, t: nat, start: nat)
    requires t < |s.threads| && s.threads[t].pc.In?
    ensures var r := Run(s, [(t, Drop)], start);
      Only(s, r, t) && r.freed == s.freed && r.threads[t] == s.threads[t].(pc := Out)
  {
    var r := Step(s, t, Drop, start);
    assert Run(r, [], start) == r;
  }

  /** Without enough retired since the last cleanup, or with nothing pending, leaving cleans nothing up. */
  lemma LeavesUncleaned(s: State, t: nat, a: Action, start: nat)
    requires t < |s.threads| && s.threads[t].pc.Leaving? && (s.threads[t].threshold <= start || s.threads[t].list.count == 0)
    ensures var r, th := Run(s, [(t, a)], start), s.threads[t];
      && Only(s, r, t) && r.freed == s.freed
      && r.threads[t] == th.(pc := Out, threshold := if th.threshold <= start then th.threshold else 0)
  {
    var r := Step(s, t, a, start);
    assert Run(r, [], start) == r;
  }

  /**
   A guard from end to end: with nobody else moving and nobody else's epoch published, a node that is retired is freed
   when its thread leaves, along with everything that the thread had pending, once its counter has passed the threshold.
   */
  lemma GuardFrees(s: State, t: nat, n: Node, rest: Schedule, start: nat)
    requires t < |s.threads| && s.threads[t].pc.Out? && n !in s.retired && Counted(s.threads[t].list)
    requires s.threads[t].threshold >= start
    requires forall u :: 0 <= u < |s.threads| && u != t ==> s.threads[u].local.Infinite?
    requires Alone(rest, t)
    requires var d := s.threads[t].list.labels;
      |rest| == |s.threads| + 3 + if d != [] && |d[0].nodes| < BATCH then |d| else |d| + 1
    ensures var r := Run(s, [(t, Enter), (t, Enter)] + [(t, Retire(n)), (t, Retire(n))] + [(t, Exit)] + rest, start);
      && |r.threads| == |s.threads| && r.threads[t].pc.Out? && r.threads[t].list.labels == []
      && r.freed == s.freed + Pending(s.threads[t].list) + multiset{n}
  {
    hide Run, Step, Alone, Pending, Counted;
    var e, a, x := [(t, Enter), (t, Enter)], [(t, Retire(n)), (t, Retire(n))], [(t, Exit)];
    RunTwo(s, e + a + x, rest, start);
    RunTwo(s, e + a, x, start);
    RunTwo(s, e, a, start);
    Enters(s, t, start);
    Retires(Run(s, e, start), t, n, start);
    Leaves(Run(s, e + a, start), t, start);
    CleanupFrees(Run(s, e + a + x, start), t, rest, start);
    assert s.freed + (Pending(s.threads[t].list) + multiset{n}) == s.freed + Pending(s.threads[t].list) + multiset{n};
  }
}
