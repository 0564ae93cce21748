/** What a recovered TurboHash bucket means: it can be searched, and it holds the map before or after. */
module PmemRecovery {
  import opened Bags
  import opened TurboCell
  import opened Powers
  import opened TurboProbe
  import opened TurboMove
  import opened PmemCell
  import opened PmemCrash

  lemma SameLiveCell(a: Cell, b: Cell)
    requires SameLive(a, b)
    ensures CellBag(a) == CellBag(b) && Occupancy(a) == Occupancy(b) && Full(a) == Full(b)
    ensures forall s, h :: CellOk(b, s, h) ==> CellOk(a, s, h)
  {
    SumSame(a.places, b.places, PlaceBag);
    TallySame(a.places, b.places, Occupied);
  }

  /** Dead places do not matter: buckets that agree on their live ones hold the same and can be searched alike. */
  lemma SameLiveBucket(a: seq<Cell>, b: seq<Cell>, s: nat, h: Hasher, limit: nat)
    requires AllSameLive(a, b) && TurboCell.Inv(b, s, h, limit)
    ensures TurboCell.Inv(a, s, h, limit) && Contents(a) == Contents(b)
  {
    hide Occupancy, Full, Home, Hops, CellOk;
    forall c | 0 <= c < |a|
      ensures CellBag(a[c]) == CellBag(b[c]) && Full(a[c]) == Full(b[c]) && CellOk(a[c], s, h)
    {
      SameLiveCell(a[c], b[c]);
    }
    SumSame(a, b, CellBag);
    hide CellBag, Contents;
    forall c, i | 0 <= c < |a| && 0 <= i < |a[c].places| && a[c].places[i].Live()
      ensures Reachable(a, Home(h, a[c].places[i].h1, |a|), c, limit)
    {
      assert Reachable(b, Home(h, b[c].places[i].h1, |b|), c, limit);
    }
  }

  /** The write a put amounts to. */
  lemma PutIsWrite(cells: seq<Cell>, s: nat, h: Hasher, k: Key, v: Value, t: Target)
    requires TurboCell.Inv(cells, s, h, MAX_PROBE_LEN) && InRange(cells, t) && TargetOk(cells, h, k, t) && !t.NoSlot?
    ensures var after := Put(cells, h, k, v, t);
      && WriteOk(cells[t.cell], after[t.cell], t.slot) && after == cells[t.cell := after[t.cell]]
  {
    hide Missing, Probed, NothingErased;
    var c := cells[t.cell];
    assert CellOk(c, s, h);
    assert !c.places[t.slot].Live() && (t.Equal? ==> c.places[t.was].Live());
    hide LastErased, FirstFree, First;
  }

  lemma MarkIsWrite(c: Cell, i: nat)
    requires i < |c.places| && c.places[i].Live()
    ensures WriteOk(c, Marked(c, i), i)
  {
  }

  /** A crash in the middle of an insertion or update leaves the map without or with the new binding. */
  lemma PutRecovers(st: State, s: nat, h: Hasher, k: Key, v: Value, t: Target, m: map<Key, Value>)
    requires CrashSafe(st) && TurboCell.Inv(st.committed, s, h, MAX_PROBE_LEN) && Represents(Contents(st.committed), m)
    requires InRange(st.committed, t) && TargetOk(st.committed, h, k, t) && !t.NoSlot? && (t.Fresh? ==> k !in m)
    requires Pending(st) == Put(st.committed, h, k, v, t)
    ensures var r := Recover(st.memory);
      && r.Bucket? && TurboCell.Inv(r.cells, s, h, MAX_PROBE_LEN)
      && (Represents(Contents(r.cells), m) || Represents(Contents(r.cells), m[k := v]))
  {
    var r := Recover(st.memory);
    PutSpec(st.committed, s, h, k, v, t, MAX_PROBE_LEN, m);
    hide Contents, TurboCell.Inv, Represents, TargetOk, AllSameLive;
    if AllSameLive(r.cells, st.committed) {
      SameLiveBucket(r.cells, st.committed, s, h, MAX_PROBE_LEN);
    } else {
      SameLiveBucket(r.cells, Pending(st), s, h, MAX_PROBE_LEN);
    }
  }

  /** A crash in the middle of a deletion leaves the map with or without the key. */
  lemma DeleteRecovers(st: State, s: nat, h: Hasher, c: nat, i: nat, m: map<Key, Value>)
    requires CrashSafe(st) && TurboCell.Inv(st.committed, s, h, MAX_PROBE_LEN) && Represents(Contents(st.committed), m)
    requires c < |st.committed| && i < s && st.committed[c].places[i].Live()
    requires Pending(st) == st.committed[c := Marked(st.committed[c], i)]
    ensures var r := Recover(st.memory);
      && r.Bucket? && TurboCell.Inv(r.cells, s, h, MAX_PROBE_LEN)
      && (Represents(Contents(r.cells), m) || Represents(Contents(r.cells), m - {st.committed[c].places[i].key}))
  {
    var r := Recover(st.memory);
    MarkSpec(st.committed, s, h, c, i, MAX_PROBE_LEN, m);
    hide Contents, TurboCell.Inv, Represents, AllSameLive;
    if AllSameLive(r.cells, st.committed) {
      SameLiveBucket(r.cells, st.committed, s, h, MAX_PROBE_LEN);
    } else {
      SameLiveBucket(r.cells, Pending(st), s, h, MAX_PROBE_LEN);
    }
  }

  /** A crash in the middle of a rehash, or with none in flight, loses nothing. */
  lemma RehashRecovers(st: State, s: nat, h: Hasher, limit: nat, m: map<Key, Value>)
    requires CrashSafe(st) && TurboCell.Inv(st.committed, s, h, limit) && Represents(Contents(st.committed), m)
    requires TurboCell.Inv(Pending(st), s, h, limit) && Contents(Pending(st)) == Contents(st.committed)
    ensures var r := Recover(st.memory);
      r.Bucket? && TurboCell.Inv(r.cells, s, h, limit) && Represents(Contents(r.cells), m)
  {
    var r := Recover(st.memory);
    hide Contents, TurboCell.Inv, Represents, AllSameLive;
    if AllSameLive(r.cells, st.committed) {
      SameLiveBucket(r.cells, st.committed, s, h, limit);
    } else {
      SameLiveBucket(r.cells, Pending(st), s, h, limit);
    }
  }

  // Whole lives of a bucket: operations, the hardware, and crashes

  /** done is the map that completed operations have built, doing what the operation in flight will make of it. */
  datatype Moment = Moment(st: State, done: map<Key, Value>, doing: map<Key, Value>)

  datatype Act =
    | Insert(k: Key, v: Value, t: Target)
    | Remove(k: Key, c: nat, i: nat)
    | Resize(ptr: nat, shift: nat, cells: seq<Cell>)
    /** An allocation, an instruction of the operation in flight, or something written back. */
    | Machine(e: Event)
    | Crash

  /** The job that an act starts. */
  function JobOf(x: Moment, h: Hasher, a: Act): Job {
    match a
    case Insert(k, v, t) =>
      if !t.NoSlot? && InRange(x.st.committed, t) then Write(t.cell, t.slot, Put(x.st.committed, h, k, v, t)[t.cell]) else Idle
    case Remove(k, c, i) =>
      if c < |x.st.committed| && i < |x.st.committed[c].places| then Write(c, i, Marked(x.st.committed[c], i)) else Idle
    case Resize(ptr, shift, cells) => Rehash(ptr, shift, cells)
    case Machine(_) => Idle
    case Crash => Idle
  }

  /**
   An insertion goes where FindSlotForInsert said, a deletion to a place that holds the key, a rehash to cells that hold
   the same records within the reach of lookups.
   */
  ghost predicate Allowed(x: Moment, s: nat, h: Hasher, a: Act) {
    match a
    case Insert(k, v, t) =>
      x.st.job.Idle? && !t.NoSlot? && TurboCell.Inv(x.st.committed, s, h, MAX_PROBE_LEN) && InRange(x.st.committed, t) &&
      TargetOk(x.st.committed, h, k, t)
    case Remove(k, c, i) =>
      && x.st.job.Idle? && c < |x.st.committed| && i < |x.st.committed[c].places|
      && x.st.committed[c].places[i].Live() && x.st.committed[c].places[i].key == k
    case Resize(ptr, shift, cells) =>
      && Enabled(x.st, Begin(Rehash(ptr, shift, cells)))
      && TurboCell.Inv(cells, s, h, MAX_PROBE_LEN) && Contents(cells) == Contents(x.st.committed)
    case Machine(e) => !e.Begin? && Enabled(x.st, e)
    case Crash => Recover(x.st.memory).Bucket?
  }

  ghost function After(x: Moment, s: nat, h: Hasher, a: Act): Moment
    requires Allowed(x, s, h, a)
  {
    match a
    case Insert(k, v, t) => Moment(Step(x.st, Begin(JobOf(x, h, a))), x.done, x.done[k := v])
    case Remove(k, c, i) => Moment(Step(x.st, Begin(JobOf(x, h, a))), x.done, x.done - {k})
    case Resize(ptr, shift, cells) => Moment(Step(x.st, Begin(JobOf(x, h, a))), x.done, x.done)
    case Machine(e) =>
      var st := Step(x.st, e);
      Moment(st, if st.job.Idle? then x.doing else x.done, x.doing)
    case Crash =>
      var cells := Recover(x.st.memory).cells;
      var m := if Represents(Contents(cells), x.done) then x.done else x.doing;
      Moment(Restarted(x.st.memory, cells), m, m)
  }

  /** Committed and pending bucket can be searched and hold these maps, and memory is as the protocol leaves it. */
  ghost predicate Sound(x: Moment, s: nat, h: Hasher) {
    && PmemCrash.Inv(x.st)
    && TurboCell.Inv(x.st.committed, s, h, MAX_PROBE_LEN) && Represents(Contents(x.st.committed), x.done)
    && TurboCell.Inv(Pending(x.st), s, h, MAX_PROBE_LEN) && Represents(Contents(Pending(x.st)), x.doing)
  }

  /** Starting a job whose outcome can be searched and holds m. */
  lemma BeginSound(x: Moment, s: nat, h: Hasher, job: Job, m: map<Key, Value>)
    requires Sound(x, s, h) && Enabled(x.st, Begin(job))
    requires var st := Step(x.st, Begin(job));
      TurboCell.Inv(Pending(st), s, h, MAX_PROBE_LEN) && Represents(Contents(Pending(st)), m)
    ensures Sound(Moment(Step(x.st, Begin(job)), x.done, m), s, h)
  {
    BeginInv(x.st, job);
    hide TurboCell.Inv, PmemCrash.Inv, Contents, Represents, Enabled;
  }

  lemma WriteBegins(st: State, c: nat, i: nat, after: Cell)
    requires PmemCrash.Inv(st) && st.job.Idle? && c < |st.committed| && WriteOk(st.committed[c], after, i)
    ensures Enabled(st, Begin(Write(c, i, after)))
    ensures Pending(Step(st, Begin(Write(c, i, after)))) == st.committed[c := after]
  {
    hide PmemCrash.Inv;
  }

  lemma InsertSound(x: Moment, s: nat, h: Hasher, k: Key, v: Value, t: Target)
    requires Sound(x, s, h) && Allowed(x, s, h, Insert(k, v, t))
    ensures Sound(After(x, s, h, Insert(k, v, t)), s, h)
  {
    var cells, job := x.st.committed, JobOf(x, h, Insert(k, v, t));
    PutIsWrite(cells, s, h, k, v, t);
    assert Put(cells, h, k, v, t) == cells[t.cell := Put(cells, h, k, v, t)[t.cell]];
    hide TurboCell.Inv, PmemCrash.Inv, Contents, Represents, TargetOk, WriteOk, Put, InRange, Enabled, Step, Pending;
    WriteBegins(x.st, t.cell, t.slot, Put(cells, h, k, v, t)[t.cell]);
    TargetBinds(cells, s, h, k, t, x.done);
    PutSpec(cells, s, h, k, v, t, MAX_PROBE_LEN, x.done);
    BeginSound(x, s, h, job, x.done[k := v]);
  }

  lemma RemoveSound(x: Moment, s: nat, h: Hasher, k: Key, c: nat, i: nat)
    requires Sound(x, s, h) && Allowed(x, s, h, Remove(k, c, i))
    ensures Sound(After(x, s, h, Remove(k, c, i)), s, h)
  {
    var cells, job := x.st.committed, JobOf(x, h, Remove(k, c, i));
    MarkIsWrite(cells[c], i);
    assert CellOk(cells[c], s, h);
    hide TurboCell.Inv, PmemCrash.Inv, Contents, Represents, WriteOk, Marked, Enabled, Step, Pending;
    WriteBegins(x.st, c, i, Marked(cells[c], i));
    MarkSpec(cells, s, h, c, i, MAX_PROBE_LEN, x.done);
    BeginSound(x, s, h, job, x.done - {k});
  }

  lemma ResizeSound(x: Moment, s: nat, h: Hasher, ptr: nat, shift: nat, cells: seq<Cell>)
    requires Sound(x, s, h) && Allowed(x, s, h, Resize(ptr, shift, cells))
    ensures Sound(After(x, s, h, Resize(ptr, shift, cells)), s, h)
  {
    hide TurboCell.Inv, PmemCrash.Inv, Contents, Represents, Enabled;
    BeginSound(x, s, h, Rehash(ptr, shift, cells), x.done);
  }

  /** The machine works on the job in flight until it is committed, and only then is there none. */
  lemma MachineWorks(s: State, e: Event)
    requires PmemCrash.Inv(s) && Enabled(s, e) && !e.Begin?
    ensures var t := Step(s, e);
      (t.job == s.job && t.committed == s.committed) || (t.job.Idle? && t.committed == Pending(s))
  {
    hide PmemCrash.Inv;
  }

  lemma MachineSound(x: Moment, s: nat, h: Hasher, e: Event)
    requires Sound(x, s, h) && Allowed(x, s, h, Machine(e))
    ensures Sound(After(x, s, h, Machine(e)), s, h)
  {
    MachineWorks(x.st, e);
    StepInv(x.st, e);
    hide TurboCell.Inv, PmemCrash.Inv, Contents, Represents, Step;
  }

  /** What a crash leaves holds the map without or with the operation in flight. */
  lemma CrashKeeps(x: Moment, s: nat, h: Hasher)
    requires Sound(x, s, h)
    ensures var r := Recover(x.st.memory);
      && r.Bucket? && TurboCell.Inv(r.cells, s, h, MAX_PROBE_LEN)
      && (Represents(Contents(r.cells), x.done) || Represents(Contents(r.cells), x.doing))
  {
    var r := Recover(x.st.memory);
    InvIsCrashSafe(x.st);
    hide Contents, TurboCell.Inv, PmemCrash.Inv, Represents, AllSameLive;
    if AllSameLive(r.cells, x.st.committed) {
      SameLiveBucket(r.cells, x.st.committed, s, h, MAX_PROBE_LEN);
    } else {
      SameLiveBucket(r.cells, Pending(x.st), s, h, MAX_PROBE_LEN);
    }
  }

  lemma AfterSound(x: Moment, s: nat, h: Hasher, a: Act)
    requires Sound(x, s, h) && Allowed(x, s, h, a)
    ensures Sound(After(x, s, h, a), s, h)
  {
    match a {
      case Insert(k, v, t) => InsertSound(x, s, h, k, v, t);
      case Remove(k, c, i) => RemoveSound(x, s, h, k, c, i);
      case Resize(ptr, shift, cells) => ResizeSound(x, s, h, ptr, shift, cells);
      case Machine(e) => MachineSound(x, s, h, e);
      case Crash =>
        CrashKeeps(x, s, h);
        RestartInv(x.st);
        hide TurboCell.Inv, PmemCrash.Inv, Contents, Represents;
    }
  }

  /** The moment after a sequence of acts, if each is allowed when its turn comes. */
  ghost function Lived(s: nat, h: Hasher, x: Moment, acts: seq<Act>): (r: Moment)
    requires Lawful(s, h, x, acts)
    decreases |acts|, 1
  {
    if acts == [] then x else After(Lived(s, h, x, acts[..|acts| - 1]), s, h, acts[|acts| - 1])
  }

  ghost predicate Lawful(s: nat, h: Hasher, x: Moment, acts: seq<Act>)
    decreases |acts|, 0
  {
    acts == [] || (var n := |acts| - 1; Lawful(s, h, x, acts[..n]) && Allowed(Lived(s, h, x, acts[..n]), s, h, acts[n]))
  }

  lemma {:induction false} LivedSound(s: nat, h: Hasher, x: Moment, acts: seq<Act>)
    requires Sound(x, s, h) && Lawful(s, h, x, acts)
    ensures Sound(Lived(s, h, x, acts), s, h)
  {
    if acts != [] {
      var n := |acts| - 1;
      hide Sound, Allowed, After;
      LivedSound(s, h, x, acts[..n]);
      AfterSound(Lived(s, h, x, acts[..n]), s, h, acts[n]);
    }
  }

  /** A bucket as it is created: empty cells, flushed, and named by version 1. */
  function Created(s: nat, ptr: nat, shift: nat, other: Meta): Moment {
    Moment(Initialised(ptr, shift, seq(Pow2(shift), _ => EmptyCell(s)), other), map[], map[])
  }

  /**
   The life of a persistent bucket, from its creation on, with any number of crashes: at every point, what a crash would
   leave in memory can be extracted and searched, and holds the map of all completed operations, without or with the
   one in flight.
   */
  lemma LifeIsDurable(s: nat, h: Hasher, ptr: nat, shift: nat, other: Meta, acts: seq<Act>)
    requires s >= 2 && Lawful(s, h, Created(s, ptr, shift, other), acts)
    ensures var x := Lived(s, h, Created(s, ptr, shift, other), acts);
      var r := Recover(x.st.memory);
      && r.Bucket? && TurboCell.Inv(r.cells, s, h, MAX_PROBE_LEN)
      && (Represents(Contents(r.cells), x.done) || Represents(Contents(r.cells), x.doing))
      && (x.st.job.Idle? ==> Represents(Contents(r.cells), x.done))
  {
    var x := Created(s, ptr, shift, other);
    var cells := x.st.committed;
    InitialisedInv(ptr, shift, cells, other);
    EmptyFilling(cells, seq(|cells|, _ => 0), s, h, MAX_PROBE_LEN);
    hide TurboCell.Inv, PmemCrash.Inv, Contents, Lawful, Lived, Initialised, CrashSafe, EmptyCell;
    LivedSound(s, h, x, acts);
    CrashKeeps(Lived(s, h, x, acts), s, h);
  }
}
