// Runs of a state machine, and what its steps emit along the way.
module Runs {
  function RunFrom<S, A>(next: (S, A) -> S, s: S, steps: seq<A>): S {
    if steps == [] then s else next(RunFrom(next, s, steps[..|steps| - 1]), steps[|steps| - 1])
  }

  function EmitFrom<S, A, O>(next: (S, A) -> S, emit: (S, A) -> seq<O>, s: S, steps: seq<A>): seq<O> {
    if steps == [] then []
    else
      var front := steps[..|steps| - 1];
      EmitFrom(next, emit, s, front) + emit(RunFrom(next, s, front), steps[|steps| - 1])
  }

  lemma RunSnoc<S, A>(next: (S, A) -> S, s: S, steps: seq<A>, step: A)
    ensures RunFrom(next, s, steps + [step]) == next(RunFrom(next, s, steps), step)
  {
    assert (steps + [step])[..|steps|] == steps;
  }

  lemma EmitSnoc<S, A, O>(next: (S, A) -> S, emit: (S, A) -> seq<O>, s: S, steps: seq<A>, step: A)
    ensures EmitFrom(next, emit, s, steps + [step])
         == EmitFrom(next, emit, s, steps) + emit(RunFrom(next, s, steps), step)
  {
    assert (steps + [step])[..|steps|] == steps;
  }

  lemma {:induction false} RunConcat<S, A>(next: (S, A) -> S, s: S, a: seq<A>, b: seq<A>)
    ensures RunFrom(next, s, a + b) == RunFrom(next, RunFrom(next, s, a), b)
  {
    if b == [] {
      assert a + b == a;
    } else {
      RunConcat(next, s, a, b[..|b| - 1]);
      assert (a + b)[..|a + b| - 1] == a + b[..|b| - 1];
    }
  }

  lemma {:induction false} EmitConcat<S, A, O>(
      next: (S, A) -> S, emit: (S, A) -> seq<O>, s: S, a: seq<A>, b: seq<A>)
    ensures EmitFrom(next, emit, s, a + b)
         == EmitFrom(next, emit, s, a) + EmitFrom(next, emit, RunFrom(next, s, a), b)
  {
    if b == [] {
      assert a + b == a;
    } else {
      EmitConcat(next, emit, s, a, b[..|b| - 1]);
      RunConcat(next, s, a, b[..|b| - 1]);
      assert (a + b)[..|a + b| - 1] == a + b[..|b| - 1];
    }
  }

  lemma EmitCons<S, A, O>(next: (S, A) -> S, emit: (S, A) -> seq<O>, s: S, step: A, rest: seq<A>)
    ensures EmitFrom(next, emit, s, [step] + rest) == emit(s, step) + EmitFrom(next, emit, next(s, step), rest)
  {
    EmitConcat(next, emit, s, [step], rest);
    RunSnoc(next, s, [], step);
    EmitSnoc(next, emit, s, [], step);
    assert [] + [step] == [step];
  }

  // What a run emits, with one step picked out.
  lemma EmitAround<S, A, O>(next: (S, A) -> S, emit: (S, A) -> seq<O>, s: S, a: seq<A>, step: A, b: seq<A>)
    ensures EmitFrom(next, emit, s, a + ([step] + b))
         == EmitFrom(next, emit, s, a)
            + (emit(RunFrom(next, s, a), step) + EmitFrom(next, emit, next(RunFrom(next, s, a), step), b))
  {
    EmitConcat(next, emit, s, a, [step] + b);
    EmitCons(next, emit, RunFrom(next, s, a), step, b);
  }
}
