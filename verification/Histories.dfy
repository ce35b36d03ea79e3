/** Finite histories of a step system, oldest step innermost. */
module Histories {

  datatype Run<+I, +S> = Start(init: I) | Then(before: Run<I, S>, step: S)

  /** `later` continues `run`. */
  predicate Extends<I(==), S(==)>(run: Run<I, S>, later: Run<I, S>) {
    later == run || (later.Then? && Extends(run, later.before))
  }

  /** Every name the steps of a run introduced. */
  function Used<I, S, X(==)>(run: Run<I, S>, names: S -> set<X>): set<X> {
    match run
    case Start(_) => {}
    case Then(before, step) => Used(before, names) + names(step)
  }

  /** No step introduces a name used before. */
  predicate Fresh<I, S, X(==)>(run: Run<I, S>, names: S -> set<X>) {
    match run
    case Start(_) => true
    case Then(before, step) => Fresh(before, names) && names(step) !! Used(before, names)
  }

  lemma {:induction false} UsedGrows<I, S, X>(run: Run<I, S>, later: Run<I, S>, names: S -> set<X>)
    requires Extends(run, later)
    ensures Used(run, names) <= Used(later, names)
  {
    if later != run { UsedGrows(run, later.before, names); }
  }

  lemma {:induction false} FreshBefore<I, S, X>(run: Run<I, S>, later: Run<I, S>, names: S -> set<X>)
    requires Extends(run, later) && Fresh(later, names)
    ensures Fresh(run, names)
  {
    if later != run { FreshBefore(run, later.before, names); }
  }
}
