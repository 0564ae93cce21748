/**
 One cell of a persistent TurboHash bucket: what the cache holds, what the memory holds, and what the store
 sequence of a write leaves in memory when any cache lines are written back at any time.
 */
module PmemCell {
  import opened Bags
  import opened TurboCell

  /** The first slots share the line of the version word and the tags; four slots fill a line. */
  function LineOf(i: nat): nat {
    (i + 2) / 4
  }

  /** The content of memory after line `line` of the cell is written back from the cache. */
  function WriteBack(memory: Cell, cache: Cell, line: nat): Cell {
    if |memory.places| != |cache.places| then memory else
    Cell(seq(|memory.places|, i requires 0 <= i < |memory.places| =>
           WriteBackPlace(memory.places[i], cache.places[i], line == 0, line == LineOf(i))),
         if line == 0 then cache.seqNo else memory.seqNo)
  }

  /** Bits and tag live on the line of the version word, key and value on the line of the slot. */
  function WriteBackPlace(memory: Place, cache: Place, meta: bool, slot: bool): Place {
    var m := if meta then cache else memory;
    var s := if slot then cache else memory;
    Place(m.occupied, m.deleted, m.tag, s.h1, s.key, s.value)
  }

  predicate SameBits(p: Place, q: Place) {
    p.occupied == q.occupied && p.deleted == q.deleted
  }

  predicate SameSlot(p: Place, q: Place) {
    p.h1 == q.h1 && p.key == q.key && p.value == q.value
  }

  /** The two cells agree on the version word and on every live place; dead places may hold anything. */
  ghost predicate SameLive(a: Cell, b: Cell) {
    && |a.places| == |b.places|
    && forall i :: 0 <= i < |a.places| ==>
         SameBits(a.places[i], b.places[i]) && (b.places[i].Live() ==> a.places[i] == b.places[i])
  }

  // The store sequence of a write

  /** What a write may do: fill one place that holds no live record, and then set the bits. */
  ghost predicate WriteOk(before: Cell, after: Cell, i: nat) {
    && |before.places| == |after.places| && i < |before.places|
    && (forall j :: 0 <= j < |before.places| && j != i ==>
          after.places[j].tag == before.places[j].tag && SameSlot(after.places[j], before.places[j])
          && (after.places[j].Live() ==> before.places[j].Live()))
    && (before.places[i].Live() ==>
          after.places[i].tag == before.places[i].tag && SameSlot(after.places[i], before.places[i]))
  }

  /** One store of eight bytes, or the flush of a line with its fence. */
  datatype Instr =
    | StoreTag(i: nat, tag: nat)
    | StoreKey(i: nat, h1: nat, key: Key)
    | StoreEntry(i: nat, value: Value)
    | Flush(line: nat)
    | StoreVersion(bits: seq<Place>, seqNo: nat)

  /** insertToSlotAndGC with the slot's Store; a deletion is its last two steps. */
  function Program(after: Cell, i: nat): seq<Instr>
    requires i < |after.places|
  {
    var p := after.places[i];
    [StoreTag(i, p.tag), StoreKey(i, p.h1, p.key), StoreEntry(i, p.value), Flush(LineOf(i)),
     StoreVersion(after.places, after.seqNo), Flush(0)]
  }

  /** The effect of an instruction on the cached cell; of the argument of StoreVersion only the bits count. */
  function Exec(c: Cell, instr: Instr): Cell {
    match instr
    case StoreTag(i, t) => if i < |c.places| then c.(places := c.places[i := c.places[i].(tag := t)]) else c
    case StoreKey(i, h, k) => if i < |c.places| then c.(places := c.places[i := c.places[i].(h1 := h, key := k)]) else c
    case StoreEntry(i, v) => if i < |c.places| then c.(places := c.places[i := c.places[i].(value := v)]) else c
    case Flush(_) => c
    case StoreVersion(bits, n) =>
      if |bits| == |c.places| then
        Cell(seq(|bits|, j requires 0 <= j < |bits| => c.places[j].(occupied := bits[j].occupied, deleted := bits[j].deleted)), n)
      else c
  }

  // Progress of a write, counted in instructions done
  const STORED_TAG: nat := 1
  const STORED_KEY: nat := 2
  const STORED_ENTRY: nat := 3
  const FLUSHED_SLOT: nat := 4
  const STORED_VERSION: nat := 5
  const FLUSHED_VERSION: nat := 6

  function PlaceAt(before: Place, after: Place, pc: nat): Place {
    Place(if pc >= STORED_VERSION then after.occupied else before.occupied,
          if pc >= STORED_VERSION then after.deleted else before.deleted,
          if pc >= STORED_TAG then after.tag else before.tag,
          if pc >= STORED_KEY then after.h1 else before.h1,
          if pc >= STORED_KEY then after.key else before.key,
          if pc >= STORED_ENTRY then after.value else before.value)
  }

  /** The cell as the cache holds it after pc steps of the write. */
  function CacheAt(before: Cell, after: Cell, pc: nat): Cell
    requires |before.places| == |after.places|
  {
    Cell(seq(|before.places|, j requires 0 <= j < |before.places| => PlaceAt(before.places[j], after.places[j], pc)),
         if pc >= STORED_VERSION then after.seqNo else before.seqNo)
  }

  /** The slots that the new version makes live have reached memory. */
  ghost predicate SlotsPersisted(memory: Cell, after: Cell) {
    && |memory.places| == |after.places|
    && forall j :: 0 <= j < |memory.places| && after.places[j].Live() ==> SameSlot(memory.places[j], after.places[j])
  }

  /** What memory may hold after pc steps. */
  ghost predicate MemoryAt(memory: Cell, before: Cell, after: Cell, pc: nat) {
    if pc < FLUSHED_SLOT then SameLive(memory, before)
    else if pc == FLUSHED_SLOT then SameLive(memory, before) && SlotsPersisted(memory, after)
    else if pc == STORED_VERSION then (SameLive(memory, before) || SameLive(memory, after)) && SlotsPersisted(memory, after)
    else SameLive(memory, after)
  }

  /** A cell at rest in the cache agrees with memory whatever line is written back. */
  lemma WriteBackAtRest(memory: Cell, cache: Cell, line: nat)
    requires SameLive(memory, cache)
    ensures SameLive(WriteBack(memory, cache, line), cache)
  {
  }

  lemma WriteBackSame(c: Cell, line: nat)
    ensures WriteBack(c, c, line) == c
  {
    assert WriteBack(c, c, line).places == c.places;
  }

  /** A write starts from a cell at rest; the slots a deletion leaves live are in memory already. */
  lemma BeginMemory(memory: Cell, before: Cell, after: Cell, i: nat)
    requires WriteOk(before, after, i) && SameLive(memory, before)
    ensures MemoryAt(memory, before, after, 0)
    ensures before.places[i].Live() ==> MemoryAt(memory, before, after, FLUSHED_SLOT)
  {
  }

  lemma CacheBegins(before: Cell, after: Cell, i: nat)
    requires WriteOk(before, after, i)
    ensures CacheAt(before, after, if before.places[i].Live() then FLUSHED_SLOT else 0) == before
  {
    var x := CacheAt(before, after, if before.places[i].Live() then FLUSHED_SLOT else 0);
    assert forall j :: 0 <= j < |before.places| ==> x.places[j] == before.places[j];
  }

  /** Stores alone keep what memory may hold; flushes persist the slot, and then the version word. */
  lemma MemoryStep(memory: Cell, before: Cell, after: Cell, i: nat, pc: nat)
    requires WriteOk(before, after, i) && MemoryAt(memory, before, after, pc) && pc < FLUSHED_VERSION
    requires !before.places[i].Live() || pc >= FLUSHED_SLOT
    ensures var instr := Program(after, i)[pc];
      MemoryAt(if instr.Flush? then WriteBack(memory, CacheAt(before, after, pc), instr.line) else memory, before, after, pc + 1)
  {
  }

  /** Any line written back in the middle of a write leaves memory as the write allows at that step. */
  lemma WriteBackMidway(memory: Cell, before: Cell, after: Cell, i: nat, pc: nat, line: nat)
    requires WriteOk(before, after, i) && pc <= FLUSHED_VERSION && MemoryAt(memory, before, after, pc)
    requires !before.places[i].Live() || pc >= FLUSHED_SLOT
    ensures MemoryAt(WriteBack(memory, CacheAt(before, after, pc), line), before, after, pc)
  {
  }

  /** Running the program one instruction at a time takes the cache through these contents. */
  lemma ProgramStep(before: Cell, after: Cell, i: nat, pc: nat)
    requires WriteOk(before, after, i) && pc < FLUSHED_VERSION
    requires !before.places[i].Live() || pc >= FLUSHED_SLOT
    ensures Exec(CacheAt(before, after, pc), Program(after, i)[pc]) == CacheAt(before, after, pc + 1)
  {
    var x, y := Exec(CacheAt(before, after, pc), Program(after, i)[pc]), CacheAt(before, after, pc + 1);
    assert forall j :: 0 <= j < |before.places| ==> x.places[j] == y.places[j];
  }

  lemma CacheEnds(before: Cell, after: Cell, i: nat)
    requires WriteOk(before, after, i)
    ensures CacheAt(before, after, FLUSHED_VERSION) == after
  {
    var x := CacheAt(before, after, FLUSHED_VERSION);
    assert forall j :: 0 <= j < |before.places| ==> x.places[j] == after.places[j];
  }
}
