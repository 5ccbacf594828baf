/**
 Runs of a transition system. A system is given by its step function, which has no result for an action
 that is not enabled.
 */
module Transitions {
  import opened Options

  /** Taking `acts` one after another leads from s to t. */
  ghost predicate Run<S(!new), A(!new)>(step: (S, A) -> Option<S>, s: S, acts: seq<A>, t: S)
    decreases |acts|
  {
    if acts == [] then s == t
    else step(s, acts[0]).Some? && Run(step, step(s, acts[0]).value, acts[1..], t)
  }

  ghost predicate Reachable<S(!new), A(!new)>(step: (S, A) -> Option<S>, init: S, s: S) {
    exists acts :: Run(step, init, acts, s)
  }

  lemma {:induction false} RunConcat<S(!new), A(!new)>(
    step: (S, A) -> Option<S>, s: S, a: seq<A>, t: S, b: seq<A>, u: S)
    requires Run(step, s, a, t) && Run(step, t, b, u)
    ensures Run(step, s, a + b, u)
    decreases |a|
  {
    if a == [] {
      assert a + b == b;
    } else {
      assert (a + b)[1..] == a[1..] + b;
      RunConcat(step, step(s, a[0]).value, a[1..], t, b, u);
    }
  }

  lemma RunOne<S(!new), A(!new)>(step: (S, A) -> Option<S>, s: S, a: A, t: S)
    requires step(s, a) == Some(t)
    ensures Run(step, s, [a], t)
  {
    assert Run(step, t, [a][1..], t);
  }

  lemma RunSnoc<S(!new), A(!new)>(step: (S, A) -> Option<S>, s: S, acts: seq<A>, t: S, a: A, u: S)
    requires Run(step, s, acts, t) && step(t, a) == Some(u)
    ensures Run(step, s, acts + [a], u)
  {
    RunOne(step, t, a, u);
    RunConcat(step, s, acts, t, [a], u);
  }

  lemma ReachableRun<S(!new), A(!new)>(step: (S, A) -> Option<S>, init: S, s: S, acts: seq<A>, t: S)
    requires Reachable(step, init, s) && Run(step, s, acts, t)
    ensures Reachable(step, init, t)
  {
    var before :| Run(step, init, before, s);
    RunConcat(step, init, before, s, acts, t);
  }

  lemma ReachableStep<S(!new), A(!new)>(step: (S, A) -> Option<S>, init: S, s: S, a: A, t: S)
    requires Reachable(step, init, s) && step(s, a) == Some(t)
    ensures Reachable(step, init, t)
  {
    RunOne(step, s, a, t);
    ReachableRun(step, init, s, [a], t);
  }
}
