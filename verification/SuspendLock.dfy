/**
 The shared/suspend semaphore of CCEH segments and directories, one atomic access per step, for any
 number of threads in any order.
 */
module SuspendLock {
  import opened Bags
  import opened Schedules

  /** Where a thread is; a value is what it last read from sema. */
  datatype Pc =
    | Idle
    | Locking(val: int)
    | Holding
    | Unlocking(val: int)
    | Suspending(val: int)
    | Waiting(val: int)
    | Exclusive

  /** What an idle thread starts next. */
  datatype Intent = Lock | Suspend

  datatype State = State(sema: int, pc: seq<Pc>)

  predicate Holds(pc: Pc) {
    pc.Holding? || pc.Unlocking?
  }

  predicate Suspends(pc: Pc) {
    pc.Waiting? || pc.Exclusive?
  }

  ghost function Holders(s: State): nat {
    Tally(s.pc, Holds)
  }

  /** One atomic access by thread t. */
  function Step(s: State, t: nat, intent: Intent): State
    requires t < |s.pc|
  {
    match s.pc[t]
    case Idle => s.(pc := s.pc[t := if intent.Lock? then Locking(s.sema) else Suspending(s.sema)])
    case Locking(val) =>
      if val <= -1 then s.(pc := s.pc[t := Idle])
      else if s.sema == val then State(val + 1, s.pc[t := Holding])
      else s.(pc := s.pc[t := Locking(s.sema)])
    case Holding => s.(pc := s.pc[t := Unlocking(s.sema)])
    case Unlocking(val) =>
      if s.sema == val then State(val - 1, s.pc[t := Idle]) else s.(pc := s.pc[t := Unlocking(s.sema)])
    case Suspending(val) =>
      if val < 0 then s.(pc := s.pc[t := Idle])
      else if s.sema == val then State(-1, s.pc[t := Waiting(val)])
      else s.(pc := s.pc[t := Suspending(s.sema)])
    case Waiting(val) => if MayPass(s, val) then s.(pc := s.pc[t := Exclusive]) else s
    case Exclusive => State(0, s.pc[t := Idle])
  }

  /** The exit condition of suspend's waiting loop. */
  predicate MayPass(s: State, val: int) {
    val == 0 || s.sema == 0 - val - 1
  }

  /** A suspended semaphore counts down from -1 by the readers that have left since; else it counts readers. */
  ghost predicate Inv(s: State) {
    && (forall t, u :: 0 <= t < |s.pc| && 0 <= u < |s.pc| && Suspends(s.pc[t]) && Suspends(s.pc[u]) ==> t == u)
    && ((forall t :: 0 <= t < |s.pc| ==> !Suspends(s.pc[t])) ==> s.sema == Holders(s))
    && (forall t :: 0 <= t < |s.pc| && s.pc[t].Waiting? ==>
          Holders(s) <= s.pc[t].val && s.sema == -1 - (s.pc[t].val - Holders(s)))
    && (forall t :: 0 <= t < |s.pc| && s.pc[t].Exclusive? ==> Holders(s) == 0 && s.sema < 0)
  }

  function Start(threads: nat): State {
    State(0, seq(threads, _ => Idle))
  }

  lemma StartInv(threads: nat)
    ensures Inv(Start(threads))
  {
    TallyZero(Start(threads).pc, Holds);
  }

  lemma StepInv(s: State, t: nat, intent: Intent)
    requires Inv(s) && t < |s.pc|
    ensures Inv(Step(s, t, intent))
  {
    var r := Step(s, t, intent);
    TallyUpdate(s.pc, t, r.pc[t], Holds);
    TallyZero(s.pc, Holds);
    SuspenderShown(s);
    if Suspends(s.pc[t]) || Suspends(r.pc[t]) {
      SuspenderStep(s, t, intent);
    } else {
      OtherStep(s, t, intent);
    }
  }

  lemma SuspenderStep(s: State, t: nat, intent: Intent)
    requires Inv(s) && t < |s.pc|
    requires Suspends(s.pc[t]) || Suspends(Step(s, t, intent).pc[t])
    requires s.sema >= 0 <==> forall u :: 0 <= u < |s.pc| ==> !Suspends(s.pc[u])
    requires Holders(Step(s, t, intent)) == Holders(s)
    ensures Inv(Step(s, t, intent))
  {
    var r := Step(s, t, intent);
    assert forall u :: 0 <= u < |s.pc| && u != t ==> r.pc[u] == s.pc[u] && !Suspends(s.pc[u]);
    assert s.pc[t].Suspending? ==> s.sema == Holders(s);
    assert s.pc[t].Exclusive? ==> Holders(r) == 0;
    assert !r.pc[t].Idle? ==> Suspends(r.pc[t]);
  }

  lemma OtherStep(s: State, t: nat, intent: Intent)
    requires Inv(s) && t < |s.pc|
    requires !Suspends(s.pc[t]) && !Suspends(Step(s, t, intent).pc[t])
    requires s.sema >= 0 <==> forall u :: 0 <= u < |s.pc| ==> !Suspends(s.pc[u])
    requires var r := Step(s, t, intent);
      Holders(r) == Holders(s) + (if Holds(r.pc[t]) then 1 else 0) - (if Holds(s.pc[t]) then 1 else 0)
    requires Holds(s.pc[t]) ==> Holders(s) > 0
    ensures Inv(Step(s, t, intent))
  {
    var r := Step(s, t, intent);
    assert forall u :: 0 <= u < |s.pc| && u != t ==> r.pc[u] == s.pc[u];
    assert r.sema - s.sema == Holders(r) - Holders(s);
    assert r.sema != s.sema && s.sema >= 0 ==> r.sema >= 0;
  }

  /** The sign of sema tells whether a suspender exists. */
  lemma SuspenderShown(s: State)
    requires Inv(s)
    ensures s.sema >= 0 <==> forall t :: 0 <= t < |s.pc| ==> !Suspends(s.pc[t])
  {
  }

  /** One turn of a schedule: who moves, and what it starts if idle. */
  function Turn(s: State, a: (nat, Intent)): State {
    if a.0 < |s.pc| then Step(s, a.0, a.1) else s
  }

  function Run(s: State, schedule: seq<(nat, Intent)>): State {
    RunAll(Turn, s, schedule)
  }

  lemma RunInv(s: State, schedule: seq<(nat, Intent)>)
    requires Inv(s)
    ensures Inv(Run(s, schedule))
  {
    hide Inv, Step;
    forall r: State, a: (nat, Intent) | Inv(r)
      ensures Inv(Turn(r, a))
    {
      if a.0 < |r.pc| {
        StepInv(r, a.0, a.1);
      }
    }
    RunKeeps(Turn, Inv, s, schedule);
  }

  /**
   Whoever has returned true from suspend is alone: no thread holds the shared lock, no other has suspended, and
   no lock attempt can succeed before the reset.  A waiting suspender may pass exactly when the last holder has left.
   */
  lemma SuspendExcludes(threads: nat, schedule: seq<(nat, Intent)>, t: nat, u: nat, intent: Intent)
    ensures var s := Run(Start(threads), schedule);
      && (t < |s.pc| && s.pc[t].Exclusive? ==>
            && (u < |s.pc| && u != t ==> !Holds(s.pc[u]) && !Suspends(s.pc[u]) && !Step(s, u, intent).pc[u].Holding?)
            && s.sema < 0)
      && (t < |s.pc| && s.pc[t].Waiting? ==> (MayPass(s, s.pc[t].val) <==> Holders(s) == 0))
  {
    var s := Run(Start(threads), schedule);
    StartInv(threads);
    RunInv(Start(threads), schedule);
    TallyZero(s.pc, Holds);
  }

  // What an attempt gets done

  /** A lock attempt that nobody disturbs succeeds exactly when nobody has suspended. */
  lemma LockGoesThrough(s: State, t: nat)
    requires t < |s.pc| && s.pc[t].Idle?
    ensures var r := Run(s, [(t, Lock), (t, Lock)]);
      if s.sema >= 0 then r == State(s.sema + 1, s.pc[t := Holding]) else r == s
  {
    TwoTurns(Turn, s, (t, Lock), (t, Lock));
    assert s.sema < 0 ==> Step(Step(s, t, Lock), t, Lock).pc == s.pc;
  }

  /** One that has been overtaken since it read the semaphore needs one more turn. */
  lemma LockCatchesUp(s: State, t: nat, a: Intent)
    requires t < |s.pc| && s.pc[t].Locking? && s.pc[t].val >= 0 && s.sema >= 0
    ensures s.sema == s.pc[t].val ==> Run(s, [(t, a)]) == State(s.sema + 1, s.pc[t := Holding])
    ensures s.sema != s.pc[t].val ==> Run(s, [(t, a), (t, a)]) == State(s.sema + 1, s.pc[t := Holding])
  {
    OneTurn(Turn, s, (t, a));
    TwoTurns(Turn, s, (t, a), (t, a));
  }

  lemma UnlockGoesThrough(s: State, t: nat, a: Intent)
    requires t < |s.pc| && s.pc[t].Holding?
    ensures Run(s, [(t, a), (t, a)]) == State(s.sema - 1, s.pc[t := Idle])
  {
    TwoTurns(Turn, s, (t, a), (t, a));
  }

  /** Suspending succeeds exactly when nobody else has; it passes at its next turn once the last holder has left. */
  lemma SuspendGoesThrough(s: State, t: nat)
    requires t < |s.pc| && s.pc[t].Idle?
    ensures var r := Run(s, [(t, Suspend), (t, Suspend)]);
      if s.sema >= 0 then r == State(-1, s.pc[t := Waiting(s.sema)]) else r == s
  {
    TwoTurns(Turn, s, (t, Suspend), (t, Suspend));
    assert s.sema < 0 ==> Step(Step(s, t, Suspend), t, Suspend).pc == s.pc;
  }

  lemma WaitEnds(s: State, t: nat, a: Intent)
    requires Inv(s) && t < |s.pc| && s.pc[t].Waiting?
    ensures Run(s, [(t, a)]) == if Holders(s) == 0 then State(s.sema, s.pc[t := Exclusive]) else s
  {
    OneTurn(Turn, s, (t, a));
    TallyZero(s.pc, Holds);
  }

  /** The reset leaves a semaphore that is free. */
  lemma ResetGoesThrough(s: State, t: nat, a: Intent)
    requires t < |s.pc| && s.pc[t].Exclusive?
    ensures Run(s, [(t, a)]) == State(0, s.pc[t := Idle])
  {
    OneTurn(Turn, s, (t, a));
  }
}
