/** Runs of a machine whose every step is a function of its state and an action.

    A machine is its step function, which answers nothing for an action the
    state does not allow. */
module Runs {
  import opened Wrappers

  /** The state a run ends in, or nothing when some action was not allowed. */
  ghost function After<S, A>(step: (S, A) -> Option<S>, st: S, run: seq<A>): Option<S>
    decreases |run|
  {
    if run == [] then Some(st)
    else match step(st, run[0])
         case None => None
         case Some(next) => After(step, next, run[1..])
  }

  /** What holds at first and is kept by every step holds after every run. */
  lemma {:induction false} Always<S(!new), A(!new)>(
      step: (S, A) -> Option<S>, inv: S -> bool, st: S, run: seq<A>)
    requires inv(st)
    requires forall s, a :: inv(s) && step(s, a).Some? ==> inv(step(s, a).value)
    ensures After(step, st, run).Some? ==> inv(After(step, st, run).value)
    decreases |run|
  {
    if run != [] && step(st, run[0]).Some? {
      Always(step, inv, step(st, run[0]).value, run[1..]);
    }
  }

  /** A run cut in two is the second part begun where the first ended. */
  lemma {:induction false} Join<S, A>(step: (S, A) -> Option<S>, st: S, first: seq<A>, second: seq<A>)
    ensures After(step, st, first + second) ==
            match After(step, st, first)
            case None => None
            case Some(mid) => After(step, mid, second)
    decreases |first|
  {
    if first == [] {
      assert first + second == second;
    } else {
      assert (first + second)[1..] == first[1..] + second;
      if step(st, first[0]).Some? {
        Join(step, step(st, first[0]).value, first[1..], second);
      }
    }
  }

  /** One more action on the end of a run. */
  lemma Then<S, A>(step: (S, A) -> Option<S>, st: S, run: seq<A>, s: S, a: A)
    returns (run': seq<A>, s': S)
    requires After(step, st, run) == Some(s) && step(s, a).Some?
    ensures run' == run + [a]
    ensures After(step, st, run') == Some(s') == step(s, a)
  {
    Join(step, st, run, [a]);
    run', s' := run + [a], step(s, a).value;
    assert After(step, s', []) == Some(s');
  }
}
