/** Performing actions one after the other, for any transition system. */
module Schedule {
  import opened Prelude

  /** The state after the actions in order, if each is possible when its turn comes. */
  ghost function Perform<S, A>(next: (S, A) -> Option<S>, s: S, actions: seq<A>): Option<S>
    decreases |actions|
  {
    if actions == [] then Some(s)
    else if next(s, actions[0]).Some? then Perform(next, next(s, actions[0]).value, actions[1..])
    else None
  }

  lemma PerformFirst<S, A>(next: (S, A) -> Option<S>, s: S, action: A, rest: seq<A>)
    requires next(s, action).Some?
    ensures Perform(next, s, [action] + rest) == Perform(next, next(s, action).value, rest)
  {
    assert ([action] + rest)[1..] == rest;
  }

  lemma PerformOne<S, A>(next: (S, A) -> Option<S>, s: S, action: A)
    requires next(s, action).Some?
    ensures Perform(next, s, [action]) == next(s, action)
  {
    PerformFirst(next, s, action, []);
    assert [action] == [action] + [];
  }

  lemma PerformTwo<S, A>(next: (S, A) -> Option<S>, s: S, first: A, second: A)
    requires next(s, first).Some? && next(next(s, first).value, second).Some?
    ensures Perform(next, s, [first, second]) == next(next(s, first).value, second)
  {
    PerformFirst(next, s, first, [second]);
    PerformOne(next, next(s, first).value, second);
    assert [first, second] == [first] + [second];
  }

  lemma {:induction false} PerformThen<S, A>(next: (S, A) -> Option<S>, s: S, actions: seq<A>, more: seq<A>)
    requires Perform(next, s, actions).Some?
    ensures Perform(next, s, actions + more) == Perform(next, Perform(next, s, actions).value, more)
    decreases |actions|
  {
    if actions == [] {
      assert actions + more == more;
    } else {
      PerformThen(next, next(s, actions[0]).value, actions[1..], more);
      assert actions + more == [actions[0]] + (actions[1..] + more);
      PerformFirst(next, s, actions[0], actions[1..] + more);
    }
  }
}
