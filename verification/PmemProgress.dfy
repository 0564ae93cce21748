/**
 What a persistent bucket gets done: the operation in flight completes after a fixed number of instructions, whatever is
 written back in between, and what it leaves behind is then in memory.
 */
module PmemProgress {
  import opened Powers
  import opened TurboCell
  import opened TurboProbe
  import opened PmemCell
  import opened PmemCrash
  import opened PmemRecovery

  /** The instructions that the job in flight has left: six for an insertion, two for a deletion. */
  function Left(s: State): int {
    match s.job
    case Idle => 0
    case Write(_, _, _) => FLUSHED_VERSION - s.pc
    case Rehash(_, _, cells) => 2 * |cells| + 5 - s.pc
  }

  lemma ProceedAdvances(s: State)
    requires PmemCrash.Inv(s) && !s.job.Idle?
    ensures Enabled(s, Proceed) && Left(s) > 0
    ensures var t := Step(s, Proceed);
      if Left(s) == 1 then t.job.Idle? && t.committed == Pending(s)
      else t.job == s.job && t.committed == s.committed && Left(t) == Left(s) - 1
  {
    hide CacheAt, MemoryAt, WriteBack, Exec, Pow2, AllSameLive;
  }

  /** The hardware's events and allocations: everything that is not the job's own progress. */
  predicate Outside(e: Event) {
    e.EvictLine? || e.EvictField?
  }

  /** Writing back changes neither the job nor how far it is. */
  lemma OutsideWaits(s: State, e: Event)
    requires Outside(e)
    ensures var t := Step(s, e);
      Enabled(s, e) && t.job == s.job && t.pc == s.pc && t.committed == s.committed && t.cache == s.cache
  {
  }

  /** The number of instructions among the events. */
  function Instructions(events: seq<Event>): nat {
    if events == [] then 0 else Instructions(events[..|events| - 1]) + if events[|events| - 1].Proceed? then 1 else 0
  }

  /** Instructions of the job in flight, with write-backs in between. */
  ghost predicate Working(events: seq<Event>) {
    forall e :: e in events ==> e.Proceed? || Outside(e)
  }

  /** Where the job that was in flight in s is after n of its instructions. */
  ghost predicate WorkedOn(s: State, r: State, n: nat) {
    if n == Left(s) then r.job.Idle? && r.committed == Pending(s)
    else r.job == s.job && r.committed == s.committed && Left(r) == Left(s) - n
  }

  lemma WorkStep(s: State, r: State, e: Event, n: nat)
    requires PmemCrash.Inv(r) && (e.Proceed? || Outside(e)) && n + (if e.Proceed? then 1 else 0) <= Left(s)
    requires WorkedOn(s, r, n)
    ensures Enabled(r, e) && PmemCrash.Inv(Step(r, e)) && WorkedOn(s, Step(r, e), n + if e.Proceed? then 1 else 0)
  {
    if e.Proceed? {
      ProceedAdvances(r);
    } else {
      OutsideWaits(r, e);
    }
    hide PmemCrash.Inv, Step, Enabled;
    StepInv(r, e);
  }

  /** The job in flight goes on with every instruction until none is left. */
  lemma {:induction false} WorkGoesOn(s: State, events: seq<Event>)
    requires PmemCrash.Inv(s) && Working(events) && Instructions(events) <= Left(s)
    ensures Legal(s, events) && PmemCrash.Inv(Run(s, events))
    ensures WorkedOn(s, Run(s, events), Instructions(events))
  {
    hide PmemCrash.Inv, Enabled, Step, WorkedOn, Left;
    if events != [] {
      var last := |events| - 1;
      assert events[last] in events && forall e :: e in events[..last] ==> e in events;
      WorkGoesOn(s, events[..last]);
      WorkStep(s, Run(s, events[..last]), events[last], Instructions(events[..last]));
    } else {
      NothingLeft(s);
    }
  }

  lemma NothingLeft(s: State)
    requires PmemCrash.Inv(s)
    ensures WorkedOn(s, s, 0)
  {
    if !s.job.Idle? {
      ProceedAdvances(s);
    }
  }

  lemma {:induction false} RunJoin(s: State, a: seq<Event>, b: seq<Event>)
    ensures Run(s, a + b) == Run(Run(s, a), b)
    ensures Legal(s, a + b) <==> Legal(s, a) && Legal(Run(s, a), b)
  {
    hide Step, Enabled;
    if b == [] {
      assert a + b == a;
    } else {
      var last := |b| - 1;
      RunJoin(s, a, b[..last]);
      assert (a + b)[..|a + b| - 1] == a + b[..last];
    }
  }

  lemma RunOne(s: State, e: Event)
    ensures Run(s, [e]) == Step(s, e) && (Legal(s, [e]) <==> Enabled(s, e))
  {
    hide Step, Enabled;
    assert [e][..0] == [];
  }

  /** What memory holds once no job is in flight. */
  lemma AtRest(s: State)
    requires PmemCrash.Inv(s) && s.job.Idle?
    ensures var r := Recover(s.memory); r.Bucket? && AllSameLive(r.cells, s.committed)
  {
    InvIsCrashSafe(s);
  }

  /**
   An insertion is in memory after six instructions and a deletion after two, whatever is written back in between: what
   is then recovered has the cell as the operation leaves it.
   */
  lemma WriteCompletes(s: State, c: nat, i: nat, after: Cell, events: seq<Event>)
    requires PmemCrash.Inv(s) && s.job.Idle? && c < |s.committed| && WriteOk(s.committed[c], after, i) && Working(events)
    requires Instructions(events) == if s.committed[c].places[i].Live() then 2 else 6
    ensures var all := [Begin(Write(c, i, after))] + events;
      var r, cells := Run(s, all), s.committed[c := after];
      && Legal(s, all) && r.job.Idle? && r.committed == cells
      && Recover(r.memory).Bucket? && AllSameLive(Recover(r.memory).cells, cells)
  {
    var begin := Begin(Write(c, i, after));
    var q := Step(s, begin);
    BeginInv(s, Write(c, i, after));
    assert Enabled(s, begin) && Left(q) == Instructions(events) && Pending(q) == s.committed[c := after];
    hide PmemCrash.Inv, Step, Enabled, Left, Pending, WriteOk;
    RunOne(s, begin);
    RunJoin(s, [begin], events);
    WorkGoesOn(q, events);
    AtRest(Run(q, events));
  }

  /**
   A rehash into a region that is allocated for it takes two instructions for each cell and five more; what is then
   recovered is the new bucket.
   */
  lemma RehashCompletes(s: State, ptr: nat, shift: nat, cells: seq<Cell>, cached: seq<Cell>, stored: seq<Cell>, events: seq<Event>)
    requires PmemCrash.Inv(s) && s.job.Idle? && ptr != s.Active() && |cells| == Pow2(shift) && Working(events)
    requires SameShape(cached, stored) && SameShape(cached, cells) && Instructions(events) == 2 * |cells| + 5
    ensures var all := [Allocate(ptr, cached, stored)] + [Begin(Rehash(ptr, shift, cells))] + events;
      var r := Run(s, all);
      && Legal(s, all) && r.job.Idle? && r.committed == cells
      && Recover(r.memory).Bucket? && AllSameLive(Recover(r.memory).cells, cells)
  {
    var allocate, begin := Allocate(ptr, cached, stored), Begin(Rehash(ptr, shift, cells));
    hide PmemCrash.Inv, Pow2;
    var p := Step(s, allocate);
    AllocateInv(s, ptr, cached, stored);
    var q := Step(p, begin);
    BeginInv(p, Rehash(ptr, shift, cells));
    assert Enabled(s, allocate) && Enabled(p, begin) && Left(q) == Instructions(events) && Pending(q) == cells;
    hide Step, Enabled, Left, Pending;
    RunOne(s, allocate);
    RunOne(p, begin);
    RunJoin(s, [allocate], [begin]);
    RunJoin(s, [allocate] + [begin], events);
    WorkGoesOn(q, events);
    AtRest(Run(q, events));
  }

  /**
   Any line can be written back at any time: memory then holds what the cache holds on that line, bits, tags and sequence
   number on the first and each slot on its own, and what it held before on the others.
   */
  lemma LineWrittenBack(s: State, ptr: nat, c: nat, i: nat, line: nat)
    requires ptr in s.cache.regions && ptr in s.memory.regions && SameShape(s.cache.regions[ptr], s.memory.regions[ptr])
    requires c < |s.cache.regions[ptr]| && i < |s.cache.regions[ptr][c].places|
    ensures Enabled(s, EvictLine(ptr, c, line))
    ensures var cached, was, now := s.cache.regions[ptr][c], s.memory.regions[ptr][c], Step(s, EvictLine(ptr, c, line)).memory.regions[ptr][c];
      var first, slot := if line == 0 then cached else was, if line == (i + 2) / 4 then cached else was;
      && |now.places| == |was.places| && now.seqNo == first.seqNo && SameSlot(now.places[i], slot.places[i])
      && SameBits(now.places[i], first.places[i]) && now.places[i].tag == first.places[i].tag
  {
  }

  /** So can any field of the bucket's meta data, by itself. */
  lemma FieldWrittenBack(s: State, f: Field)
    ensures Enabled(s, EvictField(f))
    ensures var cached, was, now := s.cache.meta, s.memory.meta, Step(s, EvictField(f)).memory.meta;
      && now.curVer == (if f.CurVer? then cached else was).curVer
      && now.ptr1 == (if f.Ptr1? then cached else was).ptr1 && now.shift1 == (if f.Shift1? then cached else was).shift1
      && now.ptr2 == (if f.Ptr2? then cached else was).ptr2 && now.shift2 == (if f.Shift2? then cached else was).shift2
  {
  }

  // The same for the life of a bucket

  function Machines(events: seq<Event>): seq<Act> {
    seq(|events|, i requires 0 <= i < |events| => Machine(events[i]))
  }

  lemma WorkingPart(events: seq<Event>)
    requires Working(events) && events != []
    ensures var last := |events| - 1;
      && Working(events[..last]) && (events[last].Proceed? || Outside(events[last]))
      && Instructions(events[..last]) <= Instructions(events)
  {
    assert events[|events| - 1] in events;
  }

  lemma Idles(s: State, r: State, n: nat)
    requires WorkedOn(s, r, n) && !s.job.Idle?
    ensures r.job.Idle? <==> n == Left(s)
  {
    hide Left;
  }

  lemma {:induction false} LivesOn(x: Moment, s: nat, h: Hasher, events: seq<Event>)
    requires Sound(x, s, h) && !x.st.job.Idle? && Working(events) && Instructions(events) <= Left(x.st)
    ensures Lawful(s, h, x, Machines(events))
    ensures var y := Lived(s, h, x, Machines(events));
      && y.st == Run(x.st, events) && y.doing == x.doing
      && y.done == if Instructions(events) == Left(x.st) then x.doing else x.done
  {
    hide PmemCrash.Inv, TurboCell.Inv, Contents, Represents, Enabled, Step, Left, WorkedOn, Working;
    if events != [] {
      var last := |events| - 1;
      WorkingPart(events);
      LivesOn(x, s, h, events[..last]);
      assert Machines(events)[..last] == Machines(events[..last]);
      WorkGoesOn(x.st, events);
      Idles(x.st, Run(x.st, events), Instructions(events));
    } else {
      NothingLeft(x.st);
      Idles(x.st, x.st, 0);
    }
  }

  lemma {:induction false} LivedJoin(x: Moment, s: nat, h: Hasher, a: seq<Act>, b: seq<Act>)
    requires Lawful(s, h, x, a) && Lawful(s, h, Lived(s, h, x, a), b)
    ensures Lawful(s, h, x, a + b) && Lived(s, h, x, a + b) == Lived(s, h, Lived(s, h, x, a), b)
    decreases |b|
  {
    hide Allowed, After;
    if b == [] {
      assert a + b == a;
    } else {
      var last := |b| - 1;
      LivedJoin(x, s, h, a, b[..last]);
      assert (a + b)[..|a + b| - 1] == a + b[..last];
    }
  }

  lemma LivedOne(x: Moment, s: nat, h: Hasher, a: Act)
    requires Allowed(x, s, h, a)
    ensures Lawful(s, h, x, [a]) && Lived(s, h, x, [a]) == After(x, s, h, a)
  {
    hide Allowed, After;
    assert [a][..0] == [];
    assert Lawful(s, h, x, []) && Lived(s, h, x, []) == x;
  }

  /** An operation has been started when its job is what is left to do, and its outcome what it is doing. */
  lemma Started(x: Moment, s: nat, h: Hasher, a: Act)
    requires Sound(x, s, h) && x.st.job.Idle? && Allowed(x, s, h, a) && (a.Insert? || a.Remove? || a.Resize?)
    ensures var y := After(x, s, h, a);
      && !y.st.job.Idle? && y.doing == (if a.Insert? then x.done[a.k := a.v] else if a.Remove? then x.done - {a.k} else x.done)
      && Left(y.st) == if a.Resize? then 2 * |a.cells| + 5 else if a.Remove? then 2 else 6
  {
    if a.Insert? {
      PutIsWrite(x.st.committed, s, h, a.k, a.v, a.t);
      DeadTarget(x.st.committed, s, h, a.k, a.t);
    }
    hide TurboCell.Inv, PmemCrash.Inv, Contents, Represents, TargetOk, WriteOk, Put, Marked;
  }

  lemma DeadTarget(cells: seq<Cell>, s: nat, h: Hasher, k: Key, t: Target)
    requires TurboCell.Inv(cells, s, h, MAX_PROBE_LEN) && InRange(cells, t) && TargetOk(cells, h, k, t) && !t.NoSlot?
    ensures !cells[t.cell].places[t.slot].Live()
  {
    hide Missing, Probed, NothingErased;
    assert CellOk(cells[t.cell], s, h);
    hide LastErased, FirstFree, First;
  }

  /**
   Every operation completes: with its instructions carried out, and anything written back in between, the map is as the
   operation makes it, no operation is in flight, and memory holds that map.
   */
  lemma OperationCompletes(x: Moment, s: nat, h: Hasher, a: Act, events: seq<Event>)
    requires Sound(x, s, h) && x.st.job.Idle? && Allowed(x, s, h, a) && (a.Insert? || a.Remove? || a.Resize?)
    requires Working(events) && Instructions(events) == if a.Resize? then 2 * |a.cells| + 5 else if a.Remove? then 2 else 6
    ensures var acts := [a] + Machines(events);
      && Lawful(s, h, x, acts)
      && var y := Lived(s, h, x, acts);
        && y.st.job.Idle?
        && y.done == (if a.Insert? then x.done[a.k := a.v] else if a.Remove? then x.done - {a.k} else x.done)
        && Recover(y.st.memory).Bucket? && Represents(Contents(Recover(y.st.memory).cells), y.done)
  {
    hide Sound, Allowed, After, Left, Working, Lawful, Lived, Contents, Represents;
    var y := After(x, s, h, a);
    Started(x, s, h, a);
    AfterSound(x, s, h, a);
    LivedOne(x, s, h, a);
    LivesOn(y, s, h, events);
    LivedJoin(x, s, h, [a], Machines(events));
    LivedSound(s, h, y, Machines(events));
    Rests(Lived(s, h, y, Machines(events)), y, events, s, h);
  }

  lemma Rests(z: Moment, y: Moment, events: seq<Event>, s: nat, h: Hasher)
    requires Sound(z, s, h) && Sound(y, s, h) && !y.st.job.Idle? && Working(events) && Instructions(events) == Left(y.st)
    requires z.st == Run(y.st, events) && z.done == z.doing
    ensures z.st.job.Idle? && Recover(z.st.memory).Bucket? && Represents(Contents(Recover(z.st.memory).cells), z.done)
  {
    WorkGoesOn(y.st, events);
    CrashKeeps(z, s, h);
  }
}
