/** Finite runs of a state machine. */
module Traces {

  /** The states of a run in order; s is the last one. Every prefix of a run is a run, so what holds of
      the last state of every run holds of every reachable state. */
  datatype Trace<S> = Begin(s: S) | Then(prefix: Trace<S>, s: S) {

    function Steps(): nat {
      if Begin? then 0 else prefix.Steps() + 1
    }

    function First(): S {
      if Begin? then s else prefix.First()
    }
  }
  /** longer begins with all of run. */
  ghost predicate Extends<S>(longer: Trace<S>, run: Trace<S>) {
    longer == run || (longer.Then? && Extends(longer.prefix, run))
  }

  lemma {:induction false} ExtendsFurther<S>(longest: Trace<S>, longer: Trace<S>, run: Trace<S>)
    requires Extends(longest, longer) && Extends(longer, run)
    ensures Extends(longest, run)
  {
    if longest != longer {
      ExtendsFurther(longest.prefix, longer, run);
    }
  }
}
