/**
 Runs of a state machine. A machine is a partial step function: `step(s, e)` is `None` when event `e` cannot
 happen in `s`. Every protocol below is such a machine, and every claim "in all runs" is about `Run`.
 */
module Machine {
  import opened Redis

  /** The state after the events `es`, or `None` if they are not a possible run from `s0`. */
  function Run<S, E>(step: (S, E) -> Option<S>, s0: S, es: seq<E>): Option<S>
    decreases |es|
  {
    if es == [] then Some(s0)
    else
      match Run(step, s0, es[..|es| - 1])
      case None => None
      case Some(s) => step(s, es[|es| - 1])
  }

  lemma {:induction false} Prefix<S, E>(step: (S, E) -> Option<S>, s0: S, es: seq<E>, n: nat)
    requires Run(step, s0, es).Some? && n <= |es|
    ensures Run(step, s0, es[..n]).Some?
    decreases |es|
  {
    if n < |es| {
      Prefix(step, s0, es[..|es| - 1], n);
      assert es[..|es| - 1][..n] == es[..n];
    } else {
      assert es[..n] == es;
    }
  }

  /** The state of a run before its `n`-th event. */
  function At<S, E>(step: (S, E) -> Option<S>, s0: S, es: seq<E>, n: nat): (s: S)
    requires Run(step, s0, es).Some? && n <= |es|
    ensures Run(step, s0, es[..n]) == Some(s)
  {
    Prefix(step, s0, es, n);
    Run(step, s0, es[..n]).value
  }

  /** Consecutive states of a run are related by the step of the event between them. */
  lemma StepAt<S, E>(step: (S, E) -> Option<S>, s0: S, es: seq<E>, n: nat)
    requires Run(step, s0, es).Some? && n < |es|
    ensures step(At(step, s0, es, n), es[n]) == Some(At(step, s0, es, n + 1))
  {
    assert es[..n + 1][..n] == es[..n];
    Prefix(step, s0, es, n + 1);
    assert es[..n + 1][|es[..n + 1]| - 1] == es[n];
  }

  lemma AtEnds<S, E>(step: (S, E) -> Option<S>, s0: S, es: seq<E>)
    requires Run(step, s0, es).Some?
    ensures At(step, s0, es, 0) == s0
    ensures At(step, s0, es, |es|) == Run(step, s0, es).value
  {
    assert es[..0] == [];
    assert es[..|es|] == es;
  }

  /** The empty run, for starting a concrete one. */
  lemma Start<S, E>(step: (S, E) -> Option<S>, s0: S) returns (es: seq<E>, s: S)
    ensures es == [] && s == s0 && Run(step, s0, es) == Some(s)
  {
    es, s := [], s0;
  }

  /** One more event at the end of a run, for building a concrete one. */
  lemma Extend<S, E>(step: (S, E) -> Option<S>, s0: S, es: seq<E>, e: E) returns (es': seq<E>, s': S)
    requires Run(step, s0, es).Some? && step(Run(step, s0, es).value, e).Some?
    ensures es' == es + [e] && Run(step, s0, es') == Some(s') == step(Run(step, s0, es).value, e)
  {
    es' := es + [e];
    assert es'[..|es'| - 1] == es;
    s' := step(Run(step, s0, es).value, e).value;
  }

  /** What every step keeps from `from` on holds at every later state of the run. */
  lemma {:induction false} Always<S(!new), E(!new)>(
    step: (S, E) -> Option<S>, inv: S -> bool, s0: S, es: seq<E>, from: nat, n: nat)
    requires Run(step, s0, es).Some? && from <= n <= |es|
    requires inv(At(step, s0, es, from))
    requires forall s, e :: inv(s) && step(s, e).Some? ==> inv(step(s, e).value)
    ensures inv(At(step, s0, es, n))
    decreases n
  {
    if from < n {
      Always(step, inv, s0, es, from, n - 1);
      StepAt(step, s0, es, n - 1);
    }
  }
}
