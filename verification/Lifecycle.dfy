// Start, StopManager and the background loops, interleaved between their atomic actions.
// StopManager is called when every Start has returned, and Start when no StopManager is under way.
module Lifecycle {
  import opened Sums
  import opened Runs

  // The loop is in its select, runs the size query, reports the answer, or has left the select.
  datatype LoopPc = Selecting | Querying | Reporting | Leaving

  // Recovery succeeded; the wait group counts the loop that is about to be spawned.
  datatype StartPc = Recovered | Counted

  // StopManager has cancelled the context and waits for the group, or is about to close the database.
  datatype StopPc = Waiting | Closing

  datatype State = State(
    open: bool, cancelled: bool, waitGroup: int, loops: map<nat, LoopPc>, starts: map<nat, StartPc>,
    stops: map<nat, StopPc>)

  datatype Step =
    | BeginStart(k: nat, countOk: bool)
    | AddToGroup(k: nat)
    | Spawn(k: nat, loop: nat)
    | Tick(loop: nat)
    | Query(loop: nat)
    | Report(loop: nat)
    | Leave(loop: nat)
    | Done(loop: nat)
    | Cancel(k: nat)
    | WaitReturns(k: nat)
    | Close(k: nat)

  const INITIAL := State(true, false, 0, map[], map[], map[])

  predicate LoopAt(s: State, loop: nat, pc: LoopPc) {
    loop in s.loops && s.loops[loop] == pc
  }

  // When the context is done and a tick is ready, the select may take either.
  predicate Enabled(s: State, step: Step) {
    match step
    case BeginStart(k, _) => k !in s.starts && s.stops == map[]
    case AddToGroup(k) => k in s.starts && s.starts[k].Recovered?
    case Spawn(k, loop) => k in s.starts && s.starts[k].Counted? && loop !in s.loops
    case Tick(loop) => LoopAt(s, loop, Selecting)
    case Query(loop) => LoopAt(s, loop, Querying)
    case Report(loop) => LoopAt(s, loop, Reporting)
    case Leave(loop) => LoopAt(s, loop, Selecting) && s.cancelled
    case Done(loop) => LoopAt(s, loop, Leaving)
    case Cancel(k) => k !in s.stops && s.starts == map[]
    case WaitReturns(k) => k in s.stops && s.stops[k].Waiting? && s.waitGroup == 0
    case Close(k) => k in s.stops && s.stops[k].Closing?
  }

  function Next(s: State, step: Step): State {
    if !Enabled(s, step) then s
    else
      match step
      // the count query fails on a closed database, and Start returns its error
      case BeginStart(k, countOk) => if s.open && countOk then s.(starts := s.starts[k := Recovered]) else s
      case AddToGroup(k) => s.(waitGroup := s.waitGroup + 1, starts := s.starts[k := Counted])
      case Spawn(k, loop) => s.(starts := s.starts - {k}, loops := s.loops[loop := Selecting])
      case Tick(loop) => s.(loops := s.loops[loop := Querying])
      case Query(loop) => s.(loops := s.loops[loop := Reporting])
      case Report(loop) => s.(loops := s.loops[loop := Selecting])
      case Leave(loop) => s.(loops := s.loops[loop := Leaving])
      case Done(loop) => s.(waitGroup := s.waitGroup - 1, loops := s.loops - {loop})
      case Cancel(k) => s.(cancelled := true, stops := s.stops[k := Waiting])
      case WaitReturns(k) => s.(stops := s.stops[k := Closing])
      case Close(k) => s.(open := false, stops := s.stops - {k})
  }

  function Run(steps: seq<Step>): State {
    RunFrom(Next, INITIAL, steps)
  }

  lemma RunCons(s: State, step: Step, rest: seq<Step>)
    ensures RunFrom(Next, s, [step] + rest) == RunFrom(Next, Next(s, step), rest)
  {
    RunConcat(Next, s, [step], rest);
    RunSnoc(Next, s, [], step);
    assert [] + [step] == [step];
  }

  // Safety

  function Promised(pc: StartPc): nat {
    if pc.Counted? then 1 else 0
  }

  ghost predicate Inv(s: State) {
    && s.waitGroup == |s.loops| + Total(s.starts, Promised)
    && (s.stops != map[] ==> s.starts == map[] && s.cancelled)
    && (forall k :: k in s.stops && s.stops[k].Closing? ==> s.loops == map[])
    && (!s.open ==> s.starts == map[] && s.loops == map[] && s.cancelled)
    && (forall loop :: loop in s.loops && s.loops[loop].Leaving? ==> s.cancelled)
  }

  lemma SizeOfUpdate<V>(m: map<nat, V>, k: nat, v: V)
    ensures |m[k := v]| == |m - {k}| + 1
    ensures k in m ==> |m| == |m - {k}| + 1
    ensures k !in m ==> m - {k} == m
  {
    Shrinks(m[k := v], k);
    assert m[k := v] - {k} == m - {k};
    if k in m {
      Shrinks(m, k);
    }
  }

  lemma StartStepKeepsInv(s: State, step: Step)
    requires Inv(s) && (step.BeginStart? || step.AddToGroup? || step.Spawn?)
    ensures Inv(Next(s, step))
  {
    match step
    case BeginStart(k, _) => TotalUpdate(s.starts, k, Recovered, Promised);
    case AddToGroup(k) => TotalUpdate(s.starts, k, Counted, Promised);
    case Spawn(k, loop) =>
      TotalUpdate(s.starts, k, Counted, Promised);
      SizeOfUpdate(s.loops, loop, Selecting);
  }

  lemma LoopStepKeepsInv(s: State, step: Step)
    requires Inv(s) && (step.Tick? || step.Query? || step.Report? || step.Leave? || step.Done?)
    ensures Inv(Next(s, step))
  {
    if step.loop in s.loops {
      SizeOfUpdate(s.loops, step.loop, Selecting);
      SizeOfUpdate(s.loops, step.loop, Querying);
      SizeOfUpdate(s.loops, step.loop, Reporting);
      SizeOfUpdate(s.loops, step.loop, Leaving);
    }
  }

  lemma StopStepKeepsInv(s: State, step: Step)
    requires Inv(s) && (step.Cancel? || step.WaitReturns? || step.Close?)
    ensures Inv(Next(s, step))
  {
  }

  lemma {:induction false} InvHolds(steps: seq<Step>)
    ensures Inv(Run(steps))
  {
    if steps != [] {
      var s, last := Run(steps[..|steps| - 1]), steps[|steps| - 1];
      InvHolds(steps[..|steps| - 1]);
      if last.BeginStart? || last.AddToGroup? || last.Spawn? {
        StartStepKeepsInv(s, last);
      } else if last.Cancel? || last.WaitReturns? || last.Close? {
        StopStepKeepsInv(s, last);
      } else {
        LoopStepKeepsInv(s, last);
      }
    }
  }

  // The i-th action is a size query of a live loop.
  predicate QueriesAt(steps: seq<Step>, i: nat)
    requires i < |steps|
  {
    steps[i].Query? && Enabled(Run(steps[..i]), steps[i])
  }

  // In every interleaving the group counts the live loops once each Start has returned, never goes
  // negative, and no size query runs after the database is closed; then no loop is left.
  lemma LoopsEndBeforeClose(steps: seq<Step>)
    ensures var s := Run(steps);
            && s.waitGroup >= |s.loops|
            && (s.starts == map[] ==> s.waitGroup == |s.loops|)
            && (!s.open ==> s.loops == map[])
    ensures forall i :: 0 <= i < |steps| && QueriesAt(steps, i) ==> Run(steps[..i]).open
  {
    InvHolds(steps);
    forall i | 0 <= i < |steps| && QueriesAt(steps, i)
      ensures Run(steps[..i]).open
    {
      InvHolds(steps[..i]);
    }
  }

  // Starts that recovered on an open database, and loops that called Done, counted from the steps.
  function Recoveries(steps: seq<Step>): nat {
    if steps == [] then 0
    else
      var front, last := steps[..|steps| - 1], steps[|steps| - 1];
      Recoveries(front) +
      if last.BeginStart? && last.countOk && Enabled(Run(front), last) && Run(front).open then 1 else 0
  }

  function LoopsDone(steps: seq<Step>): nat {
    if steps == [] then 0
    else
      var front, last := steps[..|steps| - 1], steps[|steps| - 1];
      LoopsDone(front) + if last.Done? && Enabled(Run(front), last) then 1 else 0
  }

  lemma StepAddsUp(s: State, step: Step)
    ensures var s' := Next(s, step);
            |s'.loops| + |s'.starts| + (if step.Done? && Enabled(s, step) then 1 else 0)
            == |s.loops| + |s.starts|
               + if step.BeginStart? && step.countOk && Enabled(s, step) && s.open then 1 else 0
  {
    match step
    case BeginStart(k, _) => SizeOfUpdate(s.starts, k, Recovered);
    case AddToGroup(k) => SizeOfUpdate(s.starts, k, Counted);
    case Spawn(k, loop) =>
      SizeOfUpdate(s.starts, k, Counted);
      SizeOfUpdate(s.loops, loop, Selecting);
    case Tick(loop) => SizeOfUpdate(s.loops, loop, Querying);
    case Query(loop) => SizeOfUpdate(s.loops, loop, Reporting);
    case Report(loop) => SizeOfUpdate(s.loops, loop, Selecting);
    case Leave(loop) => SizeOfUpdate(s.loops, loop, Leaving);
    case Done(loop) => SizeOfUpdate(s.loops, loop, Leaving);
    case _ =>
  }

  // Every recovered start becomes exactly one loop: loops and starts under way are the recoveries so
  // far without the loops that are done.
  lemma {:induction false} LoopsAddUp(steps: seq<Step>)
    ensures |Run(steps).loops| + |Run(steps).starts| == Recoveries(steps) - LoopsDone(steps)
  {
    if steps != [] {
      LoopsAddUp(steps[..|steps| - 1]);
      StepAddsUp(Run(steps[..|steps| - 1]), steps[|steps| - 1]);
    }
  }

  // A Start that recovers on an open database, and runs to its end, leaves one more live loop, and the
  // group counts it.
  lemma StartSpawnsLoop(s: State, k: nat, loop: nat)
    requires s.open && s.stops == map[] && k !in s.starts && loop !in s.loops
    ensures RunFrom(Next, s, [BeginStart(k, true), AddToGroup(k), Spawn(k, loop)])
         == s.(waitGroup := s.waitGroup + 1, loops := s.loops[loop := Selecting])
  {
    RunCons(s, BeginStart(k, true), [AddToGroup(k), Spawn(k, loop)]);
    var begun := s.(starts := s.starts[k := Recovered]);
    assert Next(s, BeginStart(k, true)) == begun;
    StartFinishes(begun, k, loop);
    assert [BeginStart(k, true)] + [AddToGroup(k), Spawn(k, loop)]
        == [BeginStart(k, true), AddToGroup(k), Spawn(k, loop)];
    assert s.starts[k := Recovered] - {k} == s.starts;
  }

  lemma StartFinishes(s: State, k: nat, loop: nat)
    requires k in s.starts && s.starts[k].Recovered? && loop !in s.loops
    ensures RunFrom(Next, s, [AddToGroup(k), Spawn(k, loop)])
         == s.(waitGroup := s.waitGroup + 1, starts := s.starts - {k}, loops := s.loops[loop := Selecting])
  {
    RunCons(s, AddToGroup(k), [Spawn(k, loop)]);
    RunCons(Next(s, AddToGroup(k)), Spawn(k, loop), []);
    assert [AddToGroup(k)] + [Spawn(k, loop)] == [AddToGroup(k), Spawn(k, loop)];
    assert [Spawn(k, loop)] + [] == [Spawn(k, loop)];
    assert s.starts[k := Counted] - {k} == s.starts - {k};
  }

  // A loop in its select can take a tick at any time: it queries the size, reports it and is back.
  lemma LoopReports(s: State, loop: nat)
    requires LoopAt(s, loop, Selecting)
    ensures LoopAt(RunFrom(Next, s, [Tick(loop)]), loop, Querying)
    ensures RunFrom(Next, s, [Tick(loop), Query(loop), Report(loop)]) == s
  {
    var queries := s.(loops := s.loops[loop := Querying]);
    var reports := s.(loops := s.loops[loop := Reporting]);
    RunCons(s, Tick(loop), []);
    assert [Tick(loop)] + [] == [Tick(loop)];
    RunCons(s, Tick(loop), [Query(loop), Report(loop)]);
    assert [Tick(loop)] + [Query(loop), Report(loop)] == [Tick(loop), Query(loop), Report(loop)];
    RunCons(queries, Query(loop), [Report(loop)]);
    assert [Query(loop)] + [Report(loop)] == [Query(loop), Report(loop)];
    RunCons(reports, Report(loop), []);
    assert [Report(loop)] + [] == [Report(loop)];
    assert Next(queries, Query(loop)) == reports;
    assert Next(reports, Report(loop)) == s by {
      assert s.loops[loop := Reporting][loop := Selecting] == s.loops;
    }
  }

  lemma LoopLivesOn(s: State, step: Step, loop: nat)
    requires Inv(s) && (loop in s.loops || s.cancelled)
    ensures loop in Next(s, step).loops || Next(s, step).cancelled
  {
  }

  // A loop that has been spawned lives at least until the context is cancelled.
  lemma {:induction false} LoopsLiveUntilCancel(steps: seq<Step>, more: seq<Step>, loop: nat)
    requires loop in Run(steps).loops
    ensures loop in Run(steps + more).loops || Run(steps + more).cancelled
  {
    if more == [] {
      assert steps + more == steps;
    } else {
      var front, last := more[..|more| - 1], more[|more| - 1];
      LoopsLiveUntilCancel(steps, front, loop);
      InvHolds(steps + front);
      RunSnoc(Next, INITIAL, steps + front, last);
      assert steps + more == steps + front + [last];
      LoopLivesOn(Run(steps + front), last, loop);
    }
  }

  // A closed database stays closed, and whatever happens later, no Start spawns another loop.
  lemma NoLoopAfterClose(steps: seq<Step>, more: seq<Step>)
    requires !Run(steps).open
    ensures var s := Run(steps + more); !s.open && s.loops == map[] && s.starts == map[] && s.waitGroup == 0
  {
    InvHolds(steps + more);
    StaysClosed(Run(steps), more);
    RunConcat(Next, INITIAL, steps, more);
  }

  lemma {:induction false} StaysClosed(s: State, more: seq<Step>)
    requires !s.open
    ensures !RunFrom(Next, s, more).open
  {
    if more != [] {
      StaysClosed(s, more[..|more| - 1]);
    }
  }

  // Progress

  // Steps that take a loop out, from wherever it is.
  function WayOut(loop: nat, pc: LoopPc): seq<Step> {
    match pc
    case Selecting => [Leave(loop), Done(loop)]
    case Querying => [Query(loop), Report(loop), Leave(loop), Done(loop)]
    case Reporting => [Report(loop), Leave(loop), Done(loop)]
    case Leaving => [Done(loop)]
  }

  lemma LoopLeaves(s: State, loop: nat)
    requires s.cancelled && s.open && loop in s.loops
    ensures RunFrom(Next, s, WayOut(loop, s.loops[loop]))
         == s.(waitGroup := s.waitGroup - 1, loops := s.loops - {loop})
    decreases match s.loops[loop] case Querying => 3 case Reporting => 2 case Selecting => 1 case Leaving => 0
  {
    var way := WayOut(loop, s.loops[loop]);
    RunCons(s, way[0], way[1..]);
    assert way == [way[0]] + way[1..];
    var s' := Next(s, way[0]);
    if !s.loops[loop].Leaving? {
      assert way[1..] == WayOut(loop, s'.loops[loop]);
      LoopLeaves(s', loop);
      assert s'.loops - {loop} == s.loops - {loop};
    }
  }

  // The steps take StopManager past its wait and close the database, at most four for each loop.
  ghost predicate Finishes(s: State, k: nat, more: seq<Step>) {
    var s' := RunFrom(Next, s, more);
    |more| <= 4 * |s.loops| + 2 && !s'.open && k !in s'.stops && s'.loops == map[]
  }

  // StopManager cannot get stuck: from every reachable state in which it is under way it can finish,
  // also when another call has closed the database meanwhile.
  lemma StopCanFinish(steps: seq<Step>, k: nat)
    requires k in Run(steps).stops
    ensures exists more :: Finishes(Run(steps), k, more)
  {
    InvHolds(steps);
    var more := FinishFrom(Run(steps), k);
    assert Finishes(Run(steps), k, more);
  }

  // Once every Start has returned, a StopManager can be called and run to its end.
  lemma StopCanRun(steps: seq<Step>, k: nat)
    requires Run(steps).starts == map[] && k !in Run(steps).stops
    ensures Run(steps + [Cancel(k)]).cancelled && k in Run(steps + [Cancel(k)]).stops
    ensures exists more :: Finishes(Run(steps + [Cancel(k)]), k, more)
  {
    RunSnoc(Next, INITIAL, steps, Cancel(k));
    StopCanFinish(steps + [Cancel(k)], k);
  }

  lemma LastSteps(s: State, k: nat)
    requires s.waitGroup == 0 && k in s.stops && s.stops[k].Waiting?
    ensures RunFrom(Next, s, [WaitReturns(k), Close(k)]) == s.(open := false, stops := s.stops - {k})
  {
    RunCons(s, WaitReturns(k), [Close(k)]);
    RunCons(Next(s, WaitReturns(k)), Close(k), []);
    assert [WaitReturns(k)] + [Close(k)] == [WaitReturns(k), Close(k)];
    assert [Close(k)] + [] == [Close(k)];
    assert s.stops[k := Closing] - {k} == s.stops - {k};
  }

  lemma LastStep(s: State, k: nat)
    requires k in s.stops && s.stops[k].Closing?
    ensures RunFrom(Next, s, [Close(k)]) == s.(open := false, stops := s.stops - {k})
  {
    RunCons(s, Close(k), []);
    assert [Close(k)] + [] == [Close(k)];
  }

  lemma InvWithoutLoop(s: State, loop: nat)
    requires Inv(s) && s.open && loop in s.loops
    ensures Inv(s.(waitGroup := s.waitGroup - 1, loops := s.loops - {loop}))
    ensures |s.loops - {loop}| == |s.loops| - 1
  {
    Shrinks(s.loops, loop);
  }

  lemma {:induction false} FinishFrom(s: State, k: nat) returns (more: seq<Step>)
    requires Inv(s) && k in s.stops
    ensures Finishes(s, k, more)
    decreases |s.loops|
  {
    if s.stops[k].Closing? {
      LastStep(s, k);
      more := [Close(k)];
    } else if s.loops == map[] {
      LastSteps(s, k);
      more := [WaitReturns(k), Close(k)];
    } else {
      var loop :| loop in s.loops;
      var way := WayOut(loop, s.loops[loop]);
      LoopLeaves(s, loop);
      InvWithoutLoop(s, loop);
      var rest := FinishFrom(s.(waitGroup := s.waitGroup - 1, loops := s.loops - {loop}), k);
      RunConcat(Next, s, way, rest);
      more := way + rest;
    }
  }
}
