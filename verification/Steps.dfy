/** Runs of a system that moves by single actions, not all of them possible in every state. */
module Steps {
  import opened Common

  /** None for an action that is not possible. */
  type System<!S, !A> = (S, A) -> Option<S>

  function Run<S, A>(next: System<S, A>, s: S, actions: seq<A>): Option<S> {
    if actions == [] then Some(s)
    else
      match Run(next, s, actions[..|actions| - 1])
      case None => None
      case Some(before) => next(before, actions[|actions| - 1])
  }

  lemma RunEmpty<S, A>(next: System<S, A>, s: S)
    ensures Run(next, s, []) == Some(s)
  {
  }

  lemma RunLast<S, A>(next: System<S, A>, s: S, actions: seq<A>)
    requires actions != [] && Run(next, s, actions).Some?
    ensures var before := Run(next, s, actions[..|actions| - 1]);
            before.Some? && Run(next, s, actions) == next(before.value, actions[|actions| - 1])
  {
  }

  /** One more action at the end of a run. */
  lemma Take<S, A>(next: System<S, A>, start: S, actions: seq<A>, s: S, a: A) returns (after: S)
    requires Run(next, start, actions) == Some(s) && next(s, a).Some?
    ensures Run(next, start, actions + [a]) == Some(after) && Some(after) == next(s, a)
  {
    assert (actions + [a])[..|actions|] == actions;
    after := next(s, a).value;
  }
}
