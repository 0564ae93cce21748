/**
 The directory lock of Finger_EH: one 32-bit word whose top bit belongs to a writer and whose other bits
 count readers, one atomic access per step, for any number of threads in any order.
 */
module DirectoryLock {
  import opened Bags
  import opened Schedules

  const LOCK_SET: nat := 0x8000_0000

  datatype Pc =
    | Idle
    | TryRead(v: nat)
    | Reading
    | LockLoop(oldValue: nat)
    | Draining
    | Writing

  datatype Intent = Read | Write

  datatype State = State(word: nat, pc: seq<Pc>)

  predicate Owns(pc: Pc) {
    pc.Draining? || pc.Writing?
  }

  predicate Reads(pc: Pc) {
    pc.Reading?
  }

  ghost function Readers(s: State): nat {
    Tally(s.pc, Reads)
  }

  /** word & lockMask */
  function Masked(word: nat): nat {
    word % LOCK_SET
  }

  /** One atomic access by thread t. */
  function Step(s: State, t: nat, intent: Intent): State
    requires t < |s.pc|
  {
    match s.pc[t]
    case Idle => s.(pc := s.pc[t := if intent.Read? then TryRead(s.word) else LockLoop(Masked(s.word))])
    case TryRead(v) =>
      if s.word == Masked(v) then State((Masked(v) + 1) % LOCK_SET, s.pc[t := Reading])
      else s.(pc := s.pc[t := Idle])
    case Reading => State(if s.word == 0 then 2 * LOCK_SET - 1 else s.word - 1, s.pc[t := Idle])
    case LockLoop(oldValue) =>
      if s.word == oldValue then State(oldValue % LOCK_SET + LOCK_SET, s.pc[t := Draining])
      else s.(pc := s.pc[t := LockLoop(Masked(s.word))])
    case Draining => if Masked(s.word) == 0 then s.(pc := s.pc[t := Writing]) else s
    case Writing => State(0, s.pc[t := Idle])
  }

  ghost predicate Owned(s: State) {
    exists t :: 0 <= t < |s.pc| && Owns(s.pc[t])
  }

  /** The word is the writer bit plus the number of readers, and a writer that has drained them is alone. */
  ghost predicate Inv(s: State) {
    && |s.pc| < LOCK_SET
    && (forall t, u :: 0 <= t < |s.pc| && 0 <= u < |s.pc| && Owns(s.pc[t]) && Owns(s.pc[u]) ==> t == u)
    && s.word == Readers(s) + (if Owned(s) then LOCK_SET else 0)
    && (forall t :: 0 <= t < |s.pc| && s.pc[t].Writing? ==> Readers(s) == 0)
    && (forall t :: 0 <= t < |s.pc| && s.pc[t].LockLoop? ==> s.pc[t].oldValue < LOCK_SET)
  }

  function Start(threads: nat): State {
    State(0, seq(threads, _ => Idle))
  }

  lemma StartInv(threads: nat)
    requires threads < LOCK_SET
    ensures Inv(Start(threads))
  {
    TallyZero(Start(threads).pc, Reads);
  }

  lemma StepReaders(s: State, t: nat, intent: Intent)
    requires t < |s.pc|
    ensures var r := Step(s, t, intent);
      Readers(r) == Readers(s) + (if Reads(r.pc[t]) then 1 else 0) - (if Reads(s.pc[t]) then 1 else 0)
    ensures !Reads(s.pc[t]) ==> Readers(s) < |s.pc|
    ensures Readers(s) == 0 ==> !Reads(s.pc[t])
  {
    var r := Step(s, t, intent);
    TallyUpdate(s.pc, t, r.pc[t], Reads);
    TallyZero(s.pc, Reads);
    if !Reads(s.pc[t]) {
      TallyRoom(s, t);
    }
  }

  lemma StepInv(s: State, t: nat, intent: Intent)
    requires Inv(s) && t < |s.pc|
    ensures Inv(Step(s, t, intent))
  {
    StepReaders(s, t, intent);
    StepOwner(s, t, intent);
    WordParts(s);
    StepWord(s, t, intent);
    assert Owns(s.pc[t]) ==> Owned(s);
    assert !Owned(s) ==> forall u :: 0 <= u < |s.pc| ==> !Owns(s.pc[u]);
    hide Masked, Owned, Readers;
  }

  /** The word splits into its two fields. */
  lemma WordParts(s: State)
    requires Inv(s)
    ensures Masked(s.word) == Readers(s)
    ensures s.word == Masked(s.word) <==> !Owned(s)
  {
    assert Readers(s) < LOCK_SET;
  }

  lemma StepWord(s: State, t: nat, intent: Intent)
    requires Inv(s) && t < |s.pc|
    ensures Step(s, t, intent).pc[t].LockLoop? ==> Step(s, t, intent).pc[t].oldValue < LOCK_SET
    ensures s.pc[t].TryRead? && Readers(s) + 1 < LOCK_SET && s.word == Masked(s.pc[t].v) ==> Step(s, t, intent).word == s.word + 1
    ensures s.pc[t].LockLoop? && s.word == s.pc[t].oldValue ==> Step(s, t, intent).word == s.word + LOCK_SET
  {
  }

  /** A thread that is not reading leaves the reader count below the number of threads. */
  lemma TallyRoom(s: State, t: nat)
    requires t < |s.pc| && !Reads(s.pc[t])
    ensures Readers(s) < |s.pc|
  {
    TallyUpdate(s.pc, t, Reading, Reads);
  }

  lemma StepOwner(s: State, t: nat, intent: Intent)
    requires Inv(s) && t < |s.pc|
    ensures var r := Step(s, t, intent);
      forall u :: 0 <= u < |s.pc| && u != t ==> r.pc[u] == s.pc[u]
    ensures var r := Step(s, t, intent);
      Owned(r) <==> if Owns(s.pc[t]) then Owns(r.pc[t]) else Owns(r.pc[t]) || Owned(s)
  {
    var r := Step(s, t, intent);
    if u :| 0 <= u < |s.pc| && Owns(s.pc[u]) {
      assert u != t ==> Owns(r.pc[u]);
    }
  }

  /** One turn of a schedule: who moves, and what it starts if idle. */
  function Turn(s: State, a: (nat, Intent)): State {
    if a.0 < |s.pc| then Step(s, a.0, a.1) else s
  }

  function Run(s: State, schedule: seq<(nat, Intent)>): State {
    RunAll(Turn, s, schedule)
  }

  lemma RunInv(s: State, schedule: seq<(nat, Intent)>)
    requires Inv(s)
    ensures Inv(Run(s, schedule))
  {
    hide Inv, Step;
    forall r: State, a: (nat, Intent) | Inv(r)
      ensures Inv(Turn(r, a))
    {
      if a.0 < |r.pc| {
        StepInv(r, a.0, a.1);
      }
    }
    RunKeeps(Turn, Inv, s, schedule);
  }

  /**
   A writer past its drain loop is alone, no reader can enter while the writer bit is set, and without a writer the
   word is the number of readers.
   */
  lemma WriterExcludes(threads: nat, schedule: seq<(nat, Intent)>, t: nat, u: nat, intent: Intent)
    requires threads < LOCK_SET
    ensures var s := Run(Start(threads), schedule);
      && (t < |s.pc| && s.pc[t].Writing? ==> u < |s.pc| && u != t ==> !Reads(s.pc[u]) && !Owns(s.pc[u]))
      && (t < |s.pc| && Owns(s.pc[t]) ==>
            s.word == LOCK_SET + Readers(s) && (u < |s.pc| && !Reads(s.pc[u]) ==> !Reads(Step(s, u, intent).pc[u])))
      && ((forall v :: 0 <= v < |s.pc| ==> !Owns(s.pc[v])) ==> s.word == Readers(s))
  {
    var s := Run(Start(threads), schedule);
    StartInv(threads);
    RunInv(Start(threads), schedule);
    TallyZero(s.pc, Reads);
  }

  // What an attempt gets done

  /** A read attempt that nobody disturbs succeeds exactly when no writer owns the word. */
  lemma ReadGoesThrough(s: State, t: nat)
    requires t < |s.pc| && s.pc[t].Idle? && Inv(s)
    ensures var r := Run(s, [(t, Read), (t, Read)]);
      if Owned(s) then r == s else r == State(s.word + 1, s.pc[t := Reading])
  {
    StepReaders(s, t, Read);
    WordParts(s);
    TwoTurns(Turn, s, (t, Read), (t, Read));
    hide Masked, Owned, Readers;
    assert Step(s, t, Read) == State(s.word, s.pc[t := TryRead(s.word)]);
    assert s.pc[t := TryRead(s.word)][t := Idle] == s.pc;
    if !Owned(s) {
      SmallWord(s.word + 1);
    }
  }

  lemma SmallWord(x: nat)
    requires x < LOCK_SET
    ensures x % LOCK_SET == x
  {
  }

  lemma ReadEnds(s: State, t: nat, a: Intent)
    requires t < |s.pc| && s.pc[t].Reading? && s.word > 0
    ensures Run(s, [(t, a)]) == State(s.word - 1, s.pc[t := Idle])
  {
    OneTurn(Turn, s, (t, a));
  }

  /** A write attempt that nobody disturbs takes the writer bit exactly when nobody has it. */
  lemma WriteGoesThrough(s: State, t: nat)
    requires t < |s.pc| && s.pc[t].Idle? && Inv(s)
    ensures var r := Run(s, [(t, Write), (t, Write)]);
      if Owned(s) then r == State(s.word, s.pc[t := LockLoop(Masked(s.word))]) else r == State(s.word + LOCK_SET, s.pc[t := Draining])
  {
    WordParts(s);
    TwoTurns(Turn, s, (t, Write), (t, Write));
    StepReaders(s, t, Write);
    hide Owned, Readers;
  }

  /** The writer passes at its first turn after the last reader has left, and not before. */
  lemma DrainEnds(s: State, t: nat, a: Intent)
    requires t < |s.pc| && s.pc[t].Draining? && Inv(s)
    ensures Run(s, [(t, a)]) == if Readers(s) == 0 then State(s.word, s.pc[t := Writing]) else s
  {
    WordParts(s);
    OneTurn(Turn, s, (t, a));
  }

  lemma WriteEnds(s: State, t: nat, a: Intent)
    requires t < |s.pc| && s.pc[t].Writing?
    ensures Run(s, [(t, a)]) == State(0, s.pc[t := Idle])
  {
    OneTurn(Turn, s, (t, a));
  }
}
