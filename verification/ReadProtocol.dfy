/**
 The lock-free lookup of a TurboHash cell against one writer at a time. The reader loads the version, reads a
 slot, loads the version again and accepts if the sequence number has grown by at most a given slack; the
 repository uses slack one.
 */
module ReadProtocol {
  import opened TurboCell

  /** What a write does: the new cell, and the one place whose slot and tag it stores first, if any. */
  datatype Writer = Idle | Busy(i: nat, after: Cell, pc: nat)

  datatype Reader =
    | Ready
    /** Matched place i against the version and tags in snap; has read the words given so far. */
    | Looking(snap: Cell, i: nat, found: Word, value: Word)
    | Answered(snap: Cell, i: nat, key: Key, answer: Value)

  datatype Word = Unread | Read(x: int)

  datatype State = State(cell: Cell, writer: Writer, reader: Reader)

  datatype Event =
    | BeginWrite(i: nat, after: Cell)
    | WriterStep
    | LoadVersion(i: nat)
    | ReadKey
    | ReadValue
    | Check

  /** insertToSlotAndGC and deleteSlot: fill a place that holds no live record, or only change bits. */
  ghost predicate IsWrite(before: Cell, i: nat, after: Cell) {
    && i < |before.places| == |after.places| && after.seqNo == before.seqNo + 1
    && (forall j :: 0 <= j < |before.places| && (j != i || before.places[i].Live()) ==>
          var p, q := before.places[j], after.places[j];
          p.tag == q.tag && p.h1 == q.h1 && p.key == q.key && p.value == q.value)
  }

  /** The three kinds of write of a bucket are of this form: none touches a place that is live in the published version. */
  lemma WritesSpareLivePlaces(c: Cell, i: nat, was: nat, p: Place)
    requires i < |c.places| && was < |c.places|
    ensures !c.places[i].Live() ==> IsWrite(c, i, Filled(c, i, p))
    ensures !c.places[i].occupied && c.places[was].Live() ==> IsWrite(c, i, Moved(c, i, was, p))
    ensures c.places[i].Live() ==> IsWrite(c, i, Marked(c, i))
  {
  }

  /** The reader moves at any time, or with atomic writes only between them. */
  ghost predicate Enabled(s: State, e: Event, atomic: bool) {
    match e
    case BeginWrite(i, after) => s.writer.Idle? && IsWrite(s.cell, i, after)
    case WriterStep => s.writer.Busy?
    case LoadVersion(i) => ReaderMay(s, atomic) && !s.reader.Looking? && i < |s.cell.places| && s.cell.places[i].Live()
    case ReadKey => ReaderMay(s, atomic) && s.reader.Looking? && s.reader.found.Unread?
    case ReadValue => ReaderMay(s, atomic) && s.reader.Looking? && s.reader.found.Read? && s.reader.value.Unread?
    case Check => ReaderMay(s, atomic) && s.reader.Looking? && s.reader.value.Read?
  }

  ghost predicate ReaderMay(s: State, atomic: bool) {
    !atomic || s.writer.Idle?
  }

  /** The writer's stores: key, value, tag, and then the version word with the bits and the sequence number. */
  function Store(c: Cell, w: Writer): Cell
    requires w.Busy?
  {
    if w.i >= |c.places| || |w.after.places| != |c.places| then c
    else
      var p := w.after.places[w.i];
      match w.pc
      case 0 => c.(places := c.places[w.i := c.places[w.i].(h1 := p.h1, key := p.key)])
      case 1 => c.(places := c.places[w.i := c.places[w.i].(value := p.value)])
      case 2 => c.(places := c.places[w.i := c.places[w.i].(tag := p.tag)])
      case _ => w.after
  }

  const PUBLISH: nat := 3

  function Step(s: State, e: Event, slack: nat): State {
    match e
    case BeginWrite(i, after) => s.(writer := Busy(i, after, 0))
    case WriterStep =>
      if s.writer.Idle? then s
      else s.(cell := Store(s.cell, s.writer),
              writer := if s.writer.pc >= PUBLISH then Idle else s.writer.(pc := s.writer.pc + 1))
    case LoadVersion(i) => s.(reader := Looking(s.cell, i, Unread, Unread))
    case ReadKey =>
      if s.reader.Looking? && s.reader.i < |s.cell.places|
      then s.(reader := s.reader.(found := Read(s.cell.places[s.reader.i].key))) else s
    case ReadValue =>
      if s.reader.Looking? && s.reader.i < |s.cell.places|
      then s.(reader := s.reader.(value := Read(s.cell.places[s.reader.i].value))) else s
    case Check =>
      if !(s.reader.Looking? && s.reader.found.Read? && s.reader.value.Read?) then s
      else if s.reader.snap.seqNo + slack < s.cell.seqNo then s.(reader := Ready)
      else s.(reader := Answered(s.reader.snap, s.reader.i, s.reader.found.x, s.reader.value.x))
  }

  // The invariant

  ghost predicate WriterOk(s: State) {
    s.writer.Busy? ==>
      && s.writer.i < |s.cell.places| == |s.writer.after.places| && s.writer.pc <= PUBLISH
      && s.writer.after.seqNo == s.cell.seqNo + 1
      && (forall j :: 0 <= j < |s.cell.places| && (j != s.writer.i || s.cell.places[j].Live()) ==>
            SameWords(s.cell.places[j], s.writer.after.places[j]))
  }

  ghost predicate SameWords(p: Place, q: Place) {
    p.tag == q.tag && p.h1 == q.h1 && p.key == q.key && p.value == q.value
  }

  /** While the sequence number is within the slack, the matched slot holds what it held, and so does what was read. */
  ghost predicate ReaderOk(s: State, slack: nat) {
    match s.reader
    case Ready => true
    case Looking(snap, i, found, value) =>
      && i < |snap.places| == |s.cell.places| && snap.places[i].Live() && snap.seqNo <= s.cell.seqNo
      && (s.cell.seqNo == snap.seqNo ==> s.cell.places[i].Live())
      && (s.cell.seqNo <= snap.seqNo + slack ==>
            && (s.writer.Idle? || s.cell.seqNo == snap.seqNo ==> SameWords(s.cell.places[i], snap.places[i]))
            && (found.Read? ==> found.x == snap.places[i].key)
            && (value.Read? ==> value.x == snap.places[i].value))
    case Answered(snap, i, key, answer) =>
      i < |snap.places| && snap.places[i].Live() && key == snap.places[i].key && answer == snap.places[i].value
  }

  /** One write after the load is harmless if writes are atomic; none is harmless anyway. */
  lemma StepSound(s: State, e: Event, atomic: bool, slack: nat)
    requires WriterOk(s) && ReaderOk(s, slack) && Enabled(s, e, atomic)
    requires slack == 0 || (slack == 1 && atomic)
    ensures WriterOk(Step(s, e, slack)) && ReaderOk(Step(s, e, slack), slack)
  {
  }

  ghost predicate Legal(s: State, events: seq<Event>, atomic: bool, slack: nat) {
    events == [] ||
    (var last := |events| - 1;
     Legal(s, events[..last], atomic, slack) && Enabled(Run(s, events[..last], slack), events[last], atomic))
  }

  function Run(s: State, events: seq<Event>, slack: nat): State {
    if events == [] then s else Step(Run(s, events[..|events| - 1], slack), events[|events| - 1], slack)
  }

  /** An answer is the record that the matched place held, live, in the version the reader loaded. */
  ghost predicate Sound(s: State) {
    s.reader.Answered? ==>
      && s.reader.i < |s.reader.snap.places| && s.reader.snap.places[s.reader.i].Live()
      && s.reader.key == s.reader.snap.places[s.reader.i].key && s.reader.answer == s.reader.snap.places[s.reader.i].value
  }

  /** Over every run from a cell at rest: slack one with atomic writes, and slack zero with any, answer soundly. */
  lemma {:induction false} AnswersAreSound(c: Cell, events: seq<Event>, atomic: bool, slack: nat)
    requires slack == 0 || (slack == 1 && atomic)
    requires Legal(State(c, Idle, Ready), events, atomic, slack)
    ensures var s := Run(State(c, Idle, Ready), events, slack); WriterOk(s) && ReaderOk(s, slack) && Sound(s)
  {
    if events != [] {
      var last := |events| - 1;
      AnswersAreSound(c, events[..last], atomic, slack);
      StepSound(Run(State(c, Idle, Ready), events[..last], slack), events[last], atomic, slack);
    }
  }

  // Which lookups are answered

  lemma Extend(s: State, events: seq<Event>, e: Event, atomic: bool, slack: nat)
    ensures Run(s, events + [e], slack) == Step(Run(s, events, slack), e, slack)
    ensures Legal(s, events + [e], atomic, slack) <==> Legal(s, events, atomic, slack) && Enabled(Run(s, events, slack), e, atomic)
  {
    assert (events + [e])[..|events|] == events;
  }

  /** The stores of writers among the events; a write takes four, the last of which publishes it. */
  function Stores(events: seq<Event>): nat {
    if events == [] then 0 else Stores(events[..|events| - 1]) + if events[|events| - 1].WriterStep? then 1 else 0
  }

  /** From a cell at rest, the sequence number has grown by one for every four stores. */
  lemma {:induction false} VersionCounts(c: Cell, events: seq<Event>, atomic: bool, slack: nat)
    requires Legal(State(c, Idle, Ready), events, atomic, slack)
    ensures var s, n := Run(State(c, Idle, Ready), events, slack), Stores(events);
      && s.cell.seqNo == c.seqNo + n / 4
      && (if s.writer.Idle? then n % 4 == 0 else s.writer.pc == n % 4)
      && WriterOk(s)
  {
    if events != [] {
      var last := |events| - 1;
      VersionCounts(c, events[..last], atomic, slack);
      StepCounts(Run(State(c, Idle, Ready), events[..last], slack), events[last], atomic, slack);
    }
  }

  lemma StepCounts(s: State, e: Event, atomic: bool, slack: nat)
    requires WriterOk(s) && Enabled(s, e, atomic)
    ensures var t := Step(s, e, slack);
      && WriterOk(t)
      && (if e.WriterStep? && s.writer.pc == PUBLISH then t.cell.seqNo == s.cell.seqNo + 1 && t.writer.Idle?
          else t.cell.seqNo == s.cell.seqNo)
      && (e.WriterStep? && s.writer.pc < PUBLISH ==> t.writer.Busy? && t.writer.pc == s.writer.pc + 1)
      && (e.BeginWrite? ==> s.writer.Idle? && t.writer.Busy? && t.writer.pc == 0)
      && (!e.WriterStep? && !e.BeginWrite? ==> t.writer == s.writer)
  {
  }

  lemma {:induction false} RunOn(s: State, a: seq<Event>, b: seq<Event>, atomic: bool, slack: nat)
    ensures Run(s, a + b, slack) == Run(Run(s, a, slack), b, slack)
    ensures Legal(s, a + b, atomic, slack) <==> Legal(s, a, atomic, slack) && Legal(Run(s, a, slack), b, atomic, slack)
  {
    if b == [] {
      assert a + b == a;
    } else {
      var last := |b| - 1;
      RunOn(s, a, b[..last], atomic, slack);
      assert (a + b)[..|a + b| - 1] == a + b[..last];
    }
  }

  /** A lookup that has not checked yet still looks at what it loaded. */
  lemma {:induction false} StillLooking(s: State, events: seq<Event>, atomic: bool, slack: nat)
    requires s.reader.Looking? && s.reader.value.Unread? && Legal(s, events, atomic, slack)
    requires forall e :: e in events ==> !e.Check?
    ensures var r := Run(s, events, slack).reader;
      r.Looking? && r.snap == s.reader.snap && r.i == s.reader.i && (r.value.Read? ==> r.found.Read?)
  {
    if events != [] {
      var last := |events| - 1;
      StillLooking(s, events[..last], atomic, slack);
      assert events[last] in events;
    }
  }

  /**
   A lookup is answered exactly when at most `slack` writes were published between its load of the version and its check,
   counting the writers' stores; otherwise it starts over.
   */
  lemma AnsweredExactly(c: Cell, before: seq<Event>, i: nat, during: seq<Event>, atomic: bool, slack: nat)
    requires Legal(State(c, Idle, Ready), before + [LoadVersion(i)] + during + [Check], atomic, slack)
    requires forall e :: e in during ==> !e.Check?
    ensures var s := Run(State(c, Idle, Ready), before + [LoadVersion(i)] + during + [Check], slack);
      var published := Stores(before + during) / 4 - Stores(before) / 4;
      && (published <= slack ==>
            s.reader.Answered? && s.reader.snap == Run(State(c, Idle, Ready), before, slack).cell && s.reader.i == i)
      && (published > slack ==> s.reader == Ready)
  {
    var s0 := State(c, Idle, Ready);
    var loading, all := before + [LoadVersion(i)], before + [LoadVersion(i)] + during;
    hide Run, Legal, Stores, Step, Enabled, WriterOk;
    Extend(s0, all, Check, atomic, slack);
    RunOn(s0, loading, during, atomic, slack);
    Extend(s0, before, LoadVersion(i), atomic, slack);
    Loads(Run(s0, before, slack), i, slack);
    StillLooking(Run(s0, loading, slack), during, atomic, slack);
    VersionCounts(c, before, atomic, slack);
    VersionCounts(c, all, atomic, slack);
    StoresDuring(before, i, during);
    Checks(Run(s0, all, slack), atomic, slack);
  }

  lemma Loads(s: State, i: nat, slack: nat)
    ensures Step(s, LoadVersion(i), slack).reader == Looking(s.cell, i, Unread, Unread)
  {
  }

  lemma Checks(s: State, atomic: bool, slack: nat)
    requires Enabled(s, Check, atomic) && s.reader.Looking? && (s.reader.value.Read? ==> s.reader.found.Read?)
    ensures var r := Step(s, Check, slack).reader;
      if s.cell.seqNo <= s.reader.snap.seqNo + slack then r.Answered? && r.snap == s.reader.snap && r.i == s.reader.i
      else r == Ready
  {
  }

  lemma StoresDuring(before: seq<Event>, i: nat, during: seq<Event>)
    ensures Stores(before + [LoadVersion(i)] + during) == Stores(before + during)
  {
    StoresOfTwo(before, [LoadVersion(i)]);
    StoresOfTwo(before + [LoadVersion(i)], during);
    StoresOfTwo(before, during);
    assert Stores([LoadVersion(i)]) == 0;
  }

  lemma {:induction false} StoresOfTwo(a: seq<Event>, b: seq<Event>)
    ensures Stores(a + b) == Stores(a) + Stores(b)
  {
    if b == [] {
      assert a + b == a;
    } else {
      StoresOfTwo(a, b[..|b| - 1]);
      assert (a + b)[..|a + b| - 1] == a + b[..|b| - 1];
    }
  }

  /** With no store of a writer in between, a lookup can go through, and answers with the record it matched. */
  lemma QuietLookup(s: State, i: nat, atomic: bool, slack: nat)
    requires !s.reader.Looking? && i < |s.cell.places| && s.cell.places[i].Live() && ReaderMay(s, atomic)
    ensures var events := [LoadVersion(i), ReadKey, ReadValue, Check];
      && Legal(s, events, atomic, slack)
      && Run(s, events, slack) == s.(reader := Answered(s.cell, i, s.cell.places[i].key, s.cell.places[i].value))
  {
    Extend(s, [], LoadVersion(i), atomic, slack);
    var e1 := [] + [LoadVersion(i)];
    Extend(s, e1, ReadKey, atomic, slack);
    var e2 := e1 + [ReadKey];
    Extend(s, e2, ReadValue, atomic, slack);
    var e3 := e2 + [ReadValue];
    Extend(s, e3, Check, atomic, slack);
    assert e3 + [Check] == [LoadVersion(i), ReadKey, ReadValue, Check];
  }

  /** A write may begin whenever none is under way; its four stores leave exactly the cell it was to leave. */
  lemma WriteGoesThrough(s: State, i: nat, after: Cell, atomic: bool, slack: nat)
    requires s.writer.Idle? && IsWrite(s.cell, i, after)
    ensures var events := [BeginWrite(i, after), WriterStep, WriterStep, WriterStep, WriterStep];
      Legal(s, events, atomic, slack) && Run(s, events, slack) == s.(cell := after)
  {
    Extend(s, [], BeginWrite(i, after), atomic, slack);
    var e1 := [] + [BeginWrite(i, after)];
    Extend(s, e1, WriterStep, atomic, slack);
    var e2 := e1 + [WriterStep];
    Extend(s, e2, WriterStep, atomic, slack);
    var e3 := e2 + [WriterStep];
    Extend(s, e3, WriterStep, atomic, slack);
    var e4 := e3 + [WriterStep];
    Extend(s, e4, WriterStep, atomic, slack);
    assert e4 + [WriterStep] == [BeginWrite(i, after), WriterStep, WriterStep, WriterStep, WriterStep];
  }

  // Slack one without atomic writes

  function Held(k: Key, v: Value): Place {
    Place(true, false, 0, 0, k, v)
  }

  /** Key 1 is bound to 10; an update moves it to 11 in the second place, and key 2 then takes the first. */
  const BOUND: Cell := Cell([Held(1, 10), EMPTY, EMPTY], 0)
  const UPDATED: Cell := Cell([Held(1, 10).(occupied := false), Held(1, 11), EMPTY], 1)
  const INSERTED: Cell := Cell([Held(2, 20), Held(1, 11), EMPTY], 2)

  /** The whole of an update passes by a reader that has matched the key. */
  lemma UpdatePasses() returns (events: seq<Event>)
    ensures Legal(State(BOUND, Idle, Ready), events, false, 1)
    ensures Run(State(BOUND, Idle, Ready), events, 1) == State(UPDATED, Idle, Looking(BOUND, 0, Read(1), Unread))
  {
    var s := State(BOUND, Idle, Ready);
    Extend(s, [], LoadVersion(0), false, 1);
    var e1 := [] + [LoadVersion(0)];
    Extend(s, e1, ReadKey, false, 1);
    var e2 := e1 + [ReadKey];
    Extend(s, e2, BeginWrite(1, UPDATED), false, 1);
    var e3 := e2 + [BeginWrite(1, UPDATED)];
    Extend(s, e3, WriterStep, false, 1);
    var e4 := e3 + [WriterStep];
    Extend(s, e4, WriterStep, false, 1);
    var e5 := e4 + [WriterStep];
    Extend(s, e5, WriterStep, false, 1);
    var e6 := e5 + [WriterStep];
    Extend(s, e6, WriterStep, false, 1);
    events := e6 + [WriterStep];
  }

  /**
   With slack one and stores visible one by one a lookup can answer with a value its key never had: the next
   write may already be filling the place that the first one freed, before its version is out.
   */
  lemma SlackOneCanTear() returns (events: seq<Event>)
    ensures Legal(State(BOUND, Idle, Ready), events, false, 1)
    ensures var r := Run(State(BOUND, Idle, Ready), events, 1).reader; r.Answered? && r.key == 1 && r.answer == 20
    ensures !Sound(Run(State(BOUND, Idle, Ready), events, 1))
  {
    var s := State(BOUND, Idle, Ready);
    var e0 := UpdatePasses();
    Extend(s, e0, BeginWrite(0, INSERTED), false, 1);
    var e1 := e0 + [BeginWrite(0, INSERTED)];
    Extend(s, e1, WriterStep, false, 1);
    var e2 := e1 + [WriterStep];
    Extend(s, e2, WriterStep, false, 1);
    var e3 := e2 + [WriterStep];
    Extend(s, e3, ReadValue, false, 1);
    var e4 := e3 + [ReadValue];
    Extend(s, e4, Check, false, 1);
    events := e4 + [Check];
  }

  /** So for slack zero or one, every run answers soundly exactly when the slack is zero or writes are atomic. */
  lemma SoundExactly(atomic: bool, slack: nat)
    requires slack <= 1
    ensures (forall c, events :: Legal(State(c, Idle, Ready), events, atomic, slack) ==> Sound(Run(State(c, Idle, Ready), events, slack)))
      <==> slack == 0 || atomic
  {
    if slack == 0 || atomic {
      forall c, events | Legal(State(c, Idle, Ready), events, atomic, slack)
        ensures Sound(Run(State(c, Idle, Ready), events, slack))
      {
        AnswersAreSound(c, events, atomic, slack);
      }
    } else {
      var events := SlackOneCanTear();
      assert !Sound(Run(State(BOUND, Idle, Ready), events, slack));
    }
  }
}
