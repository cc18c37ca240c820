/** Sequences of calls, some of which fail and then change nothing. */
module Calls {

  /** A call leaves a new state and says whether it succeeded. */
  type Step<!S, !C> = (S, C) -> (S, bool)

  function Run<S, C>(step: Step<S, C>, s: S, calls: seq<C>): S {
    if calls == [] then s else step(Run(step, s, calls[..|calls| - 1]), calls[|calls| - 1]).0
  }

  /** The calls of a run that succeeded. */
  function Completed<S, C>(step: Step<S, C>, s: S, calls: seq<C>): seq<C> {
    if calls == [] then []
    else
      var front, last := calls[..|calls| - 1], calls[|calls| - 1];
      if step(Run(step, s, front), last).1 then Completed(step, s, front) + [last] else Completed(step, s, front)
  }

  /** When a failed call changes nothing, it might as well not have been made. */
  lemma {:induction false} FailedCallsInvisible<S, C>(step: Step<S, C>, s: S, calls: seq<C>)
    requires forall t, c :: !step(t, c).1 ==> step(t, c).0 == t
    ensures Run(step, s, Completed(step, s, calls)) == Run(step, s, calls)
  {
    if calls != [] {
      var front, last := calls[..|calls| - 1], calls[|calls| - 1];
      FailedCallsInvisible(step, s, front);
      assert (Completed(step, s, front) + [last])[..|Completed(step, s, front)|] == Completed(step, s, front);
    }
  }
}
