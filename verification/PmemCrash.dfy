/**
 A persistent TurboHash bucket over any run of inserts, updates, deletes and rehashes, with cache lines written
 back at any time: whenever it crashes, what Extract recovers is the bucket before or after the operation in
 flight.
 */
module PmemCrash {
  import opened Powers
  import opened TurboCell
  import opened PmemCell

  /** BucketMetaPmem: two slots for a bucket address and size, and which of them is current. */
  datatype Meta = Meta(curVer: int, ptr1: nat, shift1: nat, ptr2: nat, shift2: nat) {
    predicate Valid() {
      curVer == 1 || curVer == 2
    }

    function Ptr(ver: int): nat {
      if ver == 1 then ptr1 else ptr2
    }

    function Shift(ver: int): nat {
      if ver == 1 then shift1 else shift2
    }

    function SetPtr(ver: int, p: nat): Meta {
      if ver == 1 then this.(ptr1 := p) else this.(ptr2 := p)
    }

    function SetShift(ver: int, x: nat): Meta {
      if ver == 1 then this.(shift1 := x) else this.(shift2 := x)
    }
  }

  datatype Field = CurVer | Ptr1 | Shift1 | Ptr2 | Shift2

  function WriteBackField(memory: Meta, cache: Meta, f: Field): Meta {
    match f
    case CurVer => memory.(curVer := cache.curVer)
    case Ptr1 => memory.(ptr1 := cache.ptr1)
    case Shift1 => memory.(shift1 := cache.shift1)
    case Ptr2 => memory.(ptr2 := cache.ptr2)
    case Shift2 => memory.(shift2 := cache.shift2)
  }

  type Regions = map<nat, seq<Cell>>

  datatype Memory = Memory(regions: Regions, meta: Meta)

  datatype Recovery = Bucket(cells: seq<Cell>) | Corrupt

  /** Extract, followed to the cells it points at. */
  function Recover(m: Memory): Recovery {
    var ver := m.meta.curVer;
    if m.meta.Valid() && m.meta.Ptr(ver) in m.regions && |m.regions[m.meta.Ptr(ver)]| == Pow2(m.meta.Shift(ver))
    then Bucket(m.regions[m.meta.Ptr(ver)])
    else Corrupt
  }

  // Jobs, one at a time under the bucket lock

  datatype Job =
    | Idle
    /** A write to place i of cell c that leaves the cell as `after`; a deletion if place i is live. */
    | Write(c: nat, i: nat, after: Cell)
    /** A rehash into the allocated region ptr. */
    | Rehash(ptr: nat, shift: nat, cells: seq<Cell>)

  datatype State = State(cache: Memory, memory: Memory, job: Job, pc: nat, committed: seq<Cell>) {
    function Active(): nat {
      cache.meta.Ptr(cache.meta.curVer)
    }
  }

  datatype Event =
    | Allocate(ptr: nat, cached: seq<Cell>, stored: seq<Cell>)
    | Begin(job: Job)
    | Proceed
    | EvictLine(ptr: nat, c: nat, line: nat)
    | EvictField(f: Field)

  ghost predicate SameShape(a: seq<Cell>, b: seq<Cell>) {
    |a| == |b| && forall c :: 0 <= c < |a| ==> |a[c].places| == |b[c].places|
  }

  ghost predicate Enabled(s: State, e: Event) {
    match e
    case Allocate(ptr, cached, stored) => s.job.Idle? && ptr != s.Active() && SameShape(cached, stored)
    case Begin(job) =>
      s.job.Idle? &&
      (match job
       case Idle => false
       case Write(c, i, after) => c < |s.committed| && WriteOk(s.committed[c], after, i)
       case Rehash(ptr, shift, cells) =>
         && ptr != s.Active() && ptr in s.cache.regions && |cells| == Pow2(shift)
         && SameShape(s.cache.regions[ptr], cells))
    case Proceed => !s.job.Idle?
    case EvictLine(ptr, c, line) => true
    case EvictField(f) => true
  }

  function StoreCell(r: Regions, ptr: nat, c: nat, x: Cell): Regions {
    if ptr in r && c < |r[ptr]| then r[ptr := r[ptr][c := x]] else r
  }

  function EvictCell(m: Memory, cache: Memory, ptr: nat, c: nat, line: nat): Memory {
    if ptr in m.regions && ptr in cache.regions && c < |m.regions[ptr]| && c < |cache.regions[ptr]| then
      m.(regions := StoreCell(m.regions, ptr, c, WriteBack(m.regions[ptr][c], cache.regions[ptr][c], line)))
    else m
  }

  /** One instruction of insertToSlotAndGC or of deleteSlot. */
  function ProceedWrite(s: State): State
    requires s.job.Write?
  {
    var Write(c, i, after) := s.job;
    var a := s.Active();
    if i < |after.places| && s.pc < FLUSHED_VERSION && a in s.cache.regions && c < |s.cache.regions[a]| && c < |s.committed| then
      var instr := Program(after, i)[s.pc];
      var cache := s.cache.(regions := StoreCell(s.cache.regions, a, c, Exec(s.cache.regions[a][c], instr)));
      var memory := if instr.Flush? then EvictCell(s.memory, s.cache, a, c, instr.line) else s.memory;
      if s.pc + 1 == FLUSHED_VERSION then State(cache, memory, Idle, 0, s.committed[c := after])
      else State(cache, memory, s.job, s.pc + 1, s.committed)
    else s
  }

  /**
   One step of MinorRehash: copy the cells, flush them, then BucketMetaPmem.Store: set the other slot, flush,
   switch the version, flush.
   */
  function ProceedRehash(s: State): State
    requires s.job.Rehash?
  {
    var Rehash(ptr, shift, cells) := s.job;
    var n, meta := |cells|, s.cache.meta;
    var other := 3 - meta.curVer;
    if s.pc < n then
      s.(cache := s.cache.(regions := StoreCell(s.cache.regions, ptr, s.pc, cells[s.pc])), pc := s.pc + 1)
    else if s.pc < 2 * n then
      var c := s.pc - n;
      if ptr in s.cache.regions && c < |s.cache.regions[ptr]| then
        s.(memory := s.memory.(regions := StoreCell(s.memory.regions, ptr, c, s.cache.regions[ptr][c])), pc := s.pc + 1)
      else s
    else if s.pc == 2 * n then s.(cache := s.cache.(meta := meta.SetPtr(other, ptr)), pc := s.pc + 1)
    else if s.pc == 2 * n + 1 then s.(cache := s.cache.(meta := meta.SetShift(other, shift)), pc := s.pc + 1)
    else if s.pc == 2 * n + 2 then s.(memory := s.memory.(meta := meta), pc := s.pc + 1)
    else if s.pc == 2 * n + 3 then s.(cache := s.cache.(meta := meta.(curVer := other)), pc := s.pc + 1)
    else State(s.cache, s.memory.(meta := meta), Idle, 0, cells)
  }

  /** A write at a live place only changes bits, so it starts with the store of the version word. */
  predicate IsDeletion(s: State, job: Job) {
    && job.Write? && job.c < |s.committed| && job.i < |s.committed[job.c].places|
    && s.committed[job.c].places[job.i].Live()
  }

  function Step(s: State, e: Event): State {
    match e
    case Allocate(ptr, cached, stored) =>
      s.(cache := s.cache.(regions := s.cache.regions[ptr := cached]), memory := s.memory.(regions := s.memory.regions[ptr := stored]))
    case Begin(job) =>
      s.(job := job, pc := if IsDeletion(s, job) then FLUSHED_SLOT else 0)
    case Proceed =>
      if s.job.Write? then ProceedWrite(s) else if s.job.Rehash? then ProceedRehash(s) else s
    case EvictLine(ptr, c, line) => s.(memory := EvictCell(s.memory, s.cache, ptr, c, line))
    case EvictField(f) => s.(memory := s.memory.(meta := WriteBackField(s.memory.meta, s.cache.meta, f)))
  }

  // The invariant

  /** Cache and memory know the same regions, of the same shape. */
  ghost predicate Mapped(cache: Regions, memory: Regions) {
    && cache.Keys == memory.Keys
    && forall p :: p in cache ==> SameShape(cache[p], memory[p])
  }

  ghost predicate AllSameLive(a: seq<Cell>, b: seq<Cell>) {
    |a| == |b| && forall c :: 0 <= c < |a| ==> SameLive(a[c], b[c])
  }

  ghost predicate Writing(s: State, c: nat, i: nat, after: Cell) {
    && s.Active() in s.cache.regions && s.Active() in s.memory.regions
    && c < |s.committed| == |s.memory.regions[s.Active()]| && s.pc < FLUSHED_VERSION
    && WriteOk(s.committed[c], after, i)
    && (s.committed[c].places[i].Live() ==> s.pc >= FLUSHED_SLOT)
    && s.cache.regions[s.Active()] == s.committed[c := CacheAt(s.committed[c], after, s.pc)]
    && MemoryAt(s.memory.regions[s.Active()][c], s.committed[c], after, s.pc)
    && forall e :: 0 <= e < |s.committed| && e != c ==> SameLive(s.memory.regions[s.Active()][e], s.committed[e])
  }

  /** The new region holds what has been copied, and memory what has been flushed. */
  ghost predicate Copying(s: State, ptr: nat, cells: seq<Cell>) {
    && ptr in s.cache.regions && ptr in s.memory.regions
    && SameShape(s.cache.regions[ptr], cells) && SameShape(s.memory.regions[ptr], cells)
    && (forall c :: 0 <= c < |cells| && c < s.pc ==> s.cache.regions[ptr][c] == cells[c])
    && (forall c :: 0 <= c < |cells| && c + |cells| < s.pc ==> s.memory.regions[ptr][c] == cells[c])
  }

  ghost predicate Rehashing(s: State, ptr: nat, shift: nat, cells: seq<Cell>) {
    var n, cur, cache, memory := |cells|, s.cache.meta.curVer, s.cache.meta, s.memory.meta;
    && n == Pow2(shift) && s.pc <= 2 * n + 4
    && Copying(s, ptr, cells)
    && (s.pc > 2 * n ==> (if s.pc == 2 * n + 4 then cache.Ptr(cur) == ptr else cache.Ptr(3 - cur) == ptr))
    && (s.pc > 2 * n + 1 ==> (if s.pc == 2 * n + 4 then cache.Shift(cur) == shift else cache.Shift(3 - cur) == shift))
    && (s.pc <= 2 * n + 2 ==> SameCurrent(memory, cache) && RestingAt(s, cur))
    && (s.pc == 2 * n + 3 ==> memory == cache && RestingAt(s, cur))
    && (s.pc == 2 * n + 4 ==> memory.Valid() && memory.(curVer := cur) == cache && RestingAt(s, 3 - cur))
    && ptr != (if s.pc == 2 * n + 4 then cache.Ptr(3 - cur) else cache.Ptr(cur))
  }

  /** Memory and cache agree on the current version and its slot. */
  ghost predicate SameCurrent(m: Meta, n: Meta) {
    m.curVer == n.curVer && m.Ptr(n.curVer) == n.Ptr(n.curVer) && m.Shift(n.curVer) == n.Shift(n.curVer)
  }

  /** The bucket of the given slot is committed. */
  ghost predicate RestingAt(s: State, ver: int) {
    var p := s.cache.meta.Ptr(ver);
    && p in s.cache.regions && p in s.memory.regions
    && s.cache.regions[p] == s.committed && AllSameLive(s.memory.regions[p], s.committed)
    && |s.committed| == Pow2(s.cache.meta.Shift(ver))
  }

  ghost predicate Inv(s: State) {
    && s.cache.meta.Valid() && Mapped(s.cache.regions, s.memory.regions)
    && match s.job
       case Idle => s.memory.meta == s.cache.meta && RestingAt(s, s.cache.meta.curVer)
       case Write(c, i, after) =>
         s.memory.meta == s.cache.meta && |s.committed| == Pow2(s.cache.meta.Shift(s.cache.meta.curVer)) && Writing(s, c, i, after)
       case Rehash(ptr, shift, cells) => Rehashing(s, ptr, shift, cells)
  }

  /** BucketMetaPmem::Init, after the cells have been cleared and flushed: version 1 points at them. */
  function Initialised(ptr: nat, shift: nat, cells: seq<Cell>, other: Meta): State {
    var m := Memory(map[ptr := cells], other.(curVer := 1, ptr1 := ptr, shift1 := shift));
    State(m, m, Idle, 0, cells)
  }

  lemma InitialisedInv(ptr: nat, shift: nat, cells: seq<Cell>, other: Meta)
    requires |cells| == Pow2(shift)
    ensures Inv(Initialised(ptr, shift, cells, other)) && Recover(Initialised(ptr, shift, cells, other).memory) == Bucket(cells)
  {
    hide Pow2;
  }

  // Every step keeps the invariant

  lemma AllocateInv(s: State, ptr: nat, cached: seq<Cell>, stored: seq<Cell>)
    requires Inv(s) && Enabled(s, Allocate(ptr, cached, stored))
    ensures Inv(Step(s, Allocate(ptr, cached, stored)))
  {
  }

  lemma BeginInv(s: State, job: Job)
    requires Inv(s) && Enabled(s, Begin(job))
    ensures Inv(Step(s, Begin(job)))
  {
    hide LineOf, Pow2, SameLive, CacheAt;
    match job {
      case Write(c, i, after) =>
        CacheBegins(s.committed[c], after, i);
        BeginMemory(s.memory.regions[s.Active()][c], s.committed[c], after, i);
        assert s.committed[c := s.committed[c]] == s.committed;
      case Rehash(ptr, shift, cells) =>
        assert SameShape(s.cache.regions[ptr], s.memory.regions[ptr]);
    }
  }

  lemma EvictFieldInv(s: State, f: Field)
    requires Inv(s)
    ensures Inv(Step(s, EvictField(f)))
  {
    hide WriteOk, MemoryAt, CacheAt, SameLive;
  }

  /** A line written back changes one cell of memory, whose bucket stays mapped. */
  lemma EvictEffect(s: State, ptr: nat, c: nat, line: nat)
    requires Mapped(s.cache.regions, s.memory.regions)
    ensures var m, after := s.memory, EvictCell(s.memory, s.cache, ptr, c, line);
      && after.meta == m.meta && Mapped(s.cache.regions, after.regions) && after.regions.Keys == m.regions.Keys
      && forall p, e :: p in m.regions && 0 <= e < |m.regions[p]| ==>
           |after.regions[p]| == |m.regions[p]| == |s.cache.regions[p]| &&
           after.regions[p][e] == if p == ptr && e == c then WriteBack(m.regions[p][e], s.cache.regions[p][e], line) else m.regions[p][e]
  {
    hide LineOf;
    if ptr in s.memory.regions {
      assert SameShape(s.cache.regions[ptr], s.memory.regions[ptr]);
    }
  }

  lemma RestingEvicted(s: State, ver: int, ptr: nat, c: nat, line: nat)
    requires Mapped(s.cache.regions, s.memory.regions) && RestingAt(s, ver)
    ensures RestingAt(Step(s, EvictLine(ptr, c, line)), ver)
  {
    EvictEffect(s, ptr, c, line);
    hide SameLive, WriteBack, EvictCell, Mapped;
    var p := s.cache.meta.Ptr(ver);
    forall e | 0 <= e < |s.committed|
      ensures SameLive(EvictCell(s.memory, s.cache, ptr, c, line).regions[p][e], s.committed[e])
    {
      WriteBackAtRest(s.memory.regions[p][e], s.committed[e], line);
    }
  }

  lemma WritingEvicted(s: State, ptr: nat, c: nat, line: nat)
    requires Mapped(s.cache.regions, s.memory.regions) && s.job.Write? && Writing(s, s.job.c, s.job.i, s.job.after)
    ensures Writing(Step(s, EvictLine(ptr, c, line)), s.job.c, s.job.i, s.job.after)
  {
    EvictEffect(s, ptr, c, line);
    hide SameLive, WriteBack, EvictCell, Mapped, MemoryAt, CacheAt, WriteOk;
    var a, before := s.Active(), s.committed[s.job.c];
    WriteBackMidway(s.memory.regions[a][s.job.c], before, s.job.after, s.job.i, s.pc, line);
    forall e | 0 <= e < |s.committed| && e != s.job.c
      ensures SameLive(EvictCell(s.memory, s.cache, ptr, c, line).regions[a][e], s.committed[e])
    {
      WriteBackAtRest(s.memory.regions[a][e], s.committed[e], line);
    }
  }

  lemma CopyingEvicted(s: State, p: nat, cells: seq<Cell>, ptr: nat, c: nat, line: nat)
    requires Mapped(s.cache.regions, s.memory.regions) && Copying(s, p, cells)
    ensures Copying(Step(s, EvictLine(ptr, c, line)), p, cells)
  {
    EvictEffect(s, ptr, c, line);
    hide EvictCell, Mapped, LineOf;
    if p == ptr && c < |cells| && c + |cells| < s.pc {
      WriteBackSame(cells[c], line);
    }
  }

  lemma EvictLineInv(s: State, ptr: nat, c: nat, line: nat)
    requires Inv(s)
    ensures Inv(Step(s, EvictLine(ptr, c, line)))
  {
    EvictEffect(s, ptr, c, line);
    hide EvictCell, Mapped, Copying, Writing, RestingAt;
    match s.job {
      case Idle =>
        RestingEvicted(s, s.cache.meta.curVer, ptr, c, line);
      case Write(_, _, _) =>
        WritingEvicted(s, ptr, c, line);
      case Rehash(p, _, cells) =>
        CopyingEvicted(s, p, cells, ptr, c, line);
        if s.pc == 2 * |cells| + 4 {
          RestingEvicted(s, 3 - s.cache.meta.curVer, ptr, c, line);
        } else {
          RestingEvicted(s, s.cache.meta.curVer, ptr, c, line);
        }
    }
  }

  /** The cell a write is in the middle of, one instruction later. */
  lemma ProceedCell(s: State)
    requires s.job.Write? && Writing(s, s.job.c, s.job.i, s.job.after)
    ensures var Write(c, i, after) := s.job;
      var before, instr, m := s.committed[c], Program(after, i)[s.pc], s.memory.regions[s.Active()][c];
      && Exec(s.cache.regions[s.Active()][c], instr) == CacheAt(before, after, s.pc + 1)
      && CacheAt(before, after, FLUSHED_VERSION) == after
      && MemoryAt(if instr.Flush? then WriteBack(m, s.cache.regions[s.Active()][c], instr.line) else m, before, after, s.pc + 1)
  {
    var Write(c, i, after) := s.job;
    hide MemoryAt, CacheAt, SameLive, Exec, Program, WriteBack;
    ProgramStep(s.committed[c], after, i, s.pc);
    MemoryStep(s.memory.regions[s.Active()][c], s.committed[c], after, i, s.pc);
    CacheEnds(s.committed[c], after, i);
  }

  lemma StoreMapped(cache: Regions, memory: Regions, ptr: nat, c: nat, x: Cell)
    requires Mapped(cache, memory)
    requires ptr in cache && c < |cache[ptr]| ==> |x.places| == |cache[ptr][c].places|
    ensures Mapped(StoreCell(cache, ptr, c, x), memory)
  {
  }

  lemma ProceedWriteInv(s: State)
    requires Inv(s) && s.job.Write?
    ensures Inv(ProceedWrite(s))
  {
    var Write(c, i, after) := s.job;
    var a, instr := s.Active(), Program(after, i)[s.pc];
    ProceedCell(s);
    assert |CacheAt(s.committed[c], after, s.pc + 1).places| == |s.cache.regions[a][c].places|;
    hide MemoryAt, CacheAt, SameLive, Exec, Program, WriteBack, Pow2, WriteOk, Mapped;
    var x := Exec(s.cache.regions[a][c], instr);
    StoreMapped(s.cache.regions, s.memory.regions, a, c, x);
    if instr.Flush? {
      EvictEffect(s, a, c, instr.line);
      hide EvictCell;
      StoreMapped(s.cache.regions, EvictCell(s.memory, s.cache, a, c, instr.line).regions, a, c, x);
    }
  }

  lemma CopyStep(s: State)
    requires Inv(s) && s.job.Rehash? && s.pc < 2 * |s.job.cells|
    ensures Inv(ProceedRehash(s))
  {
    hide AllSameLive, Pow2;
  }

  /** The last five steps: the other slot is set, flushed, made current, and flushed again. */
  lemma SwitchStep(s: State)
    requires Inv(s) && s.job.Rehash? && s.pc >= 2 * |s.job.cells|
    ensures Inv(ProceedRehash(s))
  {
    assert forall c: Cell :: SameLive(c, c);
    hide Mapped, SameShape, SameLive, Pow2;
  }

  lemma StepInv(s: State, e: Event)
    requires Inv(s) && Enabled(s, e)
    ensures Inv(Step(s, e))
  {
    match e {
      case Allocate(ptr, cached, stored) => AllocateInv(s, ptr, cached, stored);
      case Begin(job) => BeginInv(s, job);
      case Proceed =>
        if s.job.Write? {
          ProceedWriteInv(s);
        } else if s.pc < 2 * |s.job.cells| {
          CopyStep(s);
        } else {
          SwitchStep(s);
        }
      case EvictLine(ptr, c, line) => EvictLineInv(s, ptr, c, line);
      case EvictField(f) => EvictFieldInv(s, f);
    }
  }

  // Crash safety

  /** What the operation in flight, if any, will leave behind. */
  function Pending(s: State): seq<Cell> {
    match s.job
    case Idle => s.committed
    case Write(c, i, after) => if c < |s.committed| then s.committed[c := after] else s.committed
    case Rehash(ptr, shift, cells) => cells
  }

  /** A crash now recovers the bucket as committed, or as the operation in flight will leave it. */
  ghost predicate CrashSafe(s: State) {
    var r := Recover(s.memory);
    r.Bucket? && (AllSameLive(r.cells, s.committed) || AllSameLive(r.cells, Pending(s)))
  }

  lemma InvIsCrashSafe(s: State)
    requires Inv(s)
    ensures CrashSafe(s)
  {
    hide Mapped, WriteOk, CacheAt, Pow2;
  }

  /** The state after a crash and Recover: the cache is empty, and what was extracted is what counts. */
  function Restarted(m: Memory, cells: seq<Cell>): State {
    State(m, m, Idle, 0, cells)
  }

  /** Operation resumes from there, so runs may contain any number of crashes. */
  lemma RestartInv(s: State)
    requires Inv(s)
    ensures Recover(s.memory).Bucket? && Inv(Restarted(s.memory, Recover(s.memory).cells))
  {
    InvIsCrashSafe(s);
    hide WriteOk, CacheAt, MemoryAt, Pow2;
  }

  /** What is committed changes only when an operation completes, and then to what it was to leave behind. */
  lemma CommitsPending(s: State, e: Event)
    requires Inv(s) && Enabled(s, e)
    ensures var t := Step(s, e); t.committed == s.committed || (t.committed == Pending(s) && t.job.Idle?)
  {
    hide Inv;
  }

  ghost predicate Legal(s: State, events: seq<Event>) {
    events == [] || (var last := |events| - 1; Legal(s, events[..last]) && Enabled(Run(s, events[..last]), events[last]))
  }

  function Run(s: State, events: seq<Event>): State {
    if events == [] then s else Step(Run(s, events[..|events| - 1]), events[|events| - 1])
  }

  /** Over every run, with lines written back at any point, a crash is safe at every point. */
  lemma {:induction false} RunIsCrashSafe(s: State, events: seq<Event>)
    requires Inv(s) && Legal(s, events)
    ensures Inv(Run(s, events)) && CrashSafe(Run(s, events))
  {
    if events != [] {
      var last := |events| - 1;
      RunIsCrashSafe(s, events[..last]);
      hide Inv, Enabled, Step, CrashSafe;
      StepInv(Run(s, events[..last]), events[last]);
    }
    InvIsCrashSafe(Run(s, events));
  }
}
