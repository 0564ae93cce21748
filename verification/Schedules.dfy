/** Machines that run over a schedule, one turn after the other. */
module Schedules {

  function RunAll<S, A>(turn: (S, A) -> S, s: S, schedule: seq<A>): S
    decreases |schedule|
  {
    if schedule == [] then s else RunAll(turn, turn(s, schedule[0]), schedule[1..])
  }

  /** What every turn keeps, every run keeps. */
  lemma {:induction false} RunKeeps<S(!new), A(!new)>(turn: (S, A) -> S, inv: S -> bool, s: S, schedule: seq<A>)
    requires inv(s) && forall r, a :: inv(r) ==> inv(turn(r, a))
    ensures inv(RunAll(turn, s, schedule))
    decreases |schedule|
  {
    if schedule != [] {
      RunKeeps(turn, inv, turn(s, schedule[0]), schedule[1..]);
    }
  }

  /** A run goes on from where its first part has led. */
  lemma {:induction false} RunTwo<S, A>(turn: (S, A) -> S, s: S, a: seq<A>, b: seq<A>)
    ensures RunAll(turn, s, a + b) == RunAll(turn, RunAll(turn, s, a), b)
    decreases |a|
  {
    if a == [] {
      assert a + b == b;
    } else {
      assert (a + b)[0] == a[0] && (a + b)[1..] == a[1..] + b;
      RunTwo(turn, turn(s, a[0]), a[1..], b);
    }
  }

  lemma OneTurn<S, A>(turn: (S, A) -> S, s: S, a: A)
    ensures RunAll(turn, s, [a]) == turn(s, a)
  {
    assert RunAll(turn, turn(s, a), []) == turn(s, a);
  }

  lemma TwoTurns<S, A>(turn: (S, A) -> S, s: S, a: A, b: A)
    ensures RunAll(turn, s, [a, b]) == turn(turn(s, a), b)
  {
    OneTurn(turn, turn(s, a), b);
    assert [a, b][1..] == [b];
  }
}
