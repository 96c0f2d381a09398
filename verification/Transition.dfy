/**
 Labelled transition systems, shared by every thread protocol of the project.

 A protocol is a partial step function: `step(s, e)` is the state after event `e`, or `None`
 when `e` cannot happen in `s`.  A run is any finite sequence of events; since the events are
 chosen freely, a fact about all runs is a fact about every interleaving of the threads.
 */
module Transition {

  datatype Option<+T> = None | Some(value: T)

  /** The state reached by a run, or `None` when some event of the run was not enabled. */
  function Exec<S, E>(step: (S, E) -> Option<S>, s: S, run: seq<E>): Option<S>
  {
    if run == [] then Some(s)
    else
      match Exec(step, s, run[..|run| - 1])
      case None => None
      case Some(mid) => step(mid, run[|run| - 1])
  }

  /** A property that holds at the start and that every step keeps holds after every run. */
  lemma {:induction false} InvariantHolds<S(!new), E(!new)>(
    step: (S, E) -> Option<S>, inv: S -> bool, s: S, run: seq<E>)
    requires inv(s)
    requires forall x: S, e: E :: inv(x) && step(x, e).Some? ==> inv(step(x, e).value)
    ensures Exec(step, s, run).Some? ==> inv(Exec(step, s, run).value)
  {
    if run == [] {
    } else {
      InvariantHolds(step, inv, s, run[..|run| - 1]);
    }
  }

  /** When every step from a state with the invariant raises a potential, the potential bounds the run. */
  lemma {:induction false} PotentialBounds<S(!new), E(!new)>(
    step: (S, E) -> Option<S>, inv: S -> bool, pot: S -> nat, s: S, run: seq<E>)
    requires inv(s)
    requires forall x: S, e: E :: inv(x) && step(x, e).Some? ==> inv(step(x, e).value)
    requires forall x: S, e: E :: inv(x) && step(x, e).Some? ==> pot(step(x, e).value) >= pot(x) + 1
    ensures Exec(step, s, run).Some? ==>
              inv(Exec(step, s, run).value) && |run| + pot(s) <= pot(Exec(step, s, run).value)
  {
    if run == [] {
    } else {
      PotentialBounds(step, inv, pot, s, run[..|run| - 1]);
    }
  }

  /** Extends a run by four events, given the states in between. */
  lemma ExecFour<S, E>(step: (S, E) -> Option<S>, init: S, run: seq<E>, s: S,
                       e1: E, s1: S, e2: E, s2: S, e3: E, s3: S, e4: E, s4: S)
    requires Exec(step, init, run) == Some(s)
    requires step(s, e1) == Some(s1) && step(s1, e2) == Some(s2)
    requires step(s2, e3) == Some(s3) && step(s3, e4) == Some(s4)
    ensures Exec(step, init, run + [e1, e2, e3, e4]) == Some(s4)
  {
    ExecMore(step, init, run, s, e1, s1);
    ExecMore(step, init, run + [e1], s1, e2, s2);
    ExecMore(step, init, run + [e1] + [e2], s2, e3, s3);
    ExecMore(step, init, run + [e1] + [e2] + [e3], s3, e4, s4);
    assert run + [e1] + [e2] + [e3] + [e4] == run + [e1, e2, e3, e4];
  }

  lemma ExecMore<S, E>(step: (S, E) -> Option<S>, init: S, run: seq<E>, s: S, e: E, t: S)
    requires Exec(step, init, run) == Some(s) && step(s, e) == Some(t)
    ensures Exec(step, init, run + [e]) == Some(t)
  {
    assert (run + [e])[..|run|] == run;
  }
}
