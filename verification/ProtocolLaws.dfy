// What every interleaving of hook calls, compactions, crashes and restarts keeps.
module ProtocolLaws {
  import opened Words
  import opened Sums
  import opened Runs
  import opened Mqtt
  import opened Database
  import opened Metrics
  import opened Storage
  import opened StorageLaws
  import opened Retained
  import opened Protocol

  // With no call in flight the shared state is the one that the same operations produce one by one.
  lemma Serializable(steps: seq<Step>)
    requires Run(steps).calls == map[]
    ensures Run(steps).shared == Replay(Commits(steps))
  {
    Simulation(steps);
    SettledWhenIdle(Run(steps));
  }

  lemma TablesAreHistory(steps: seq<Step>)
    ensures Run(steps).shared.tables == Replay(Commits(steps)).tables
    ensures WellFormed(Run(steps).shared.tables)
  {
    Simulation(steps);
    ReplayWellFormed(Commits(steps));
  }

  // Calls and the packets they began with

  predicate MessageHolds(msg: Message, packet: Packet, retain: bool, client: string, now: int) {
    && msg.topic == packet.topicName && msg.payload == packet.payload && msg.qos == packet.qos
    && msg.retain == retain && msg.clientId == client && msg.timestamp == now
  }

  predicate CallHolds(call: Call, begin: Step) {
    match call
    case PublishCall(msg, _) =>
      begin.BeginPublish? && MessageHolds(msg, begin.packet, begin.packet.retain, begin.client, begin.now)
    case RetainCall(hook, msg, _) =>
      && begin.BeginRetain? && begin.hook == hook
      && MessageHolds(msg, begin.packet, true, begin.client, begin.now)
  }

  predicate Begins(s: State, step: Step, c: nat) {
    (step.BeginPublish? || step.BeginRetain?) && step.c == c && Enabled(s, step)
  }

  // The step with which the last call c began; Crash if there was none.
  function BeginOf(steps: seq<Step>, c: nat): Step {
    if steps == [] then Crash
    else
      var front, last := steps[..|steps| - 1], steps[|steps| - 1];
      if Begins(Run(front), last, c) then last else BeginOf(front, c)
  }

  lemma StepKeepsPacket(s: State, step: Step, c: nat, begin: Step)
    requires c in s.calls ==> CallHolds(s.calls[c], begin)
    ensures var calls := Next(s, step).calls;
            c in calls ==> CallHolds(calls[c], if Begins(s, step, c) then step else begin)
  {
  }

  // In every interleaving a call in flight holds what its own packet, client and clock gave it.
  lemma {:induction false} CallsKeepTheirPackets(steps: seq<Step>, c: nat)
    ensures c in Run(steps).calls ==> CallHolds(Run(steps).calls[c], BeginOf(steps, c))
  {
    if steps != [] {
      var front, last := steps[..|steps| - 1], steps[|steps| - 1];
      CallsKeepTheirPackets(front, c);
      StepKeepsPacket(Run(front), last, c, BeginOf(front, c));
    }
  }

  // Neither a crash nor the statement of call c is among the steps.
  predicate LetsWait(steps: seq<Step>, c: nat) {
    forall i :: 0 <= i < |steps| ==> !steps[i].Crash? && !(steps[i].Exec? && steps[i].c == c)
  }

  lemma WaitsOn(s: State, step: Step, c: nat)
    requires c in s.calls && CanExec(s.calls[c]) && LetsWait([step], c)
    ensures c in Next(s, step).calls && Next(s, step).calls[c] == s.calls[c]
  {
    assert [step][0] == step;
  }

  lemma {:induction false} WaitsThrough(s: State, steps: seq<Step>, c: nat)
    requires c in s.calls && CanExec(s.calls[c]) && LetsWait(steps, c)
    ensures var s' := RunFrom(Next, s, steps); c in s'.calls && s'.calls[c] == s.calls[c]
  {
    if steps != [] {
      var front, last := steps[..|steps| - 1], steps[|steps| - 1];
      assert forall i :: 0 <= i < |front| ==> front[i] == steps[i];
      WaitsThrough(s, front, c);
      WaitsOn(RunFrom(Next, s, front), last, c);
    }
  }

  // The call has begun, and other steps ran up to its statement.
  function UpToStatement(before: seq<Step>, begin: Step, between: seq<Step>): seq<Step> {
    before + [begin] + between
  }

  lemma BegunCall(s: State, begin: Step)
    requires (begin.BeginPublish? || begin.BeginRetain?) && Enabled(s, begin)
    ensures var calls := Next(s, begin).calls;
            && begin.c in calls && CanExec(calls[begin.c]) && CallHolds(calls[begin.c], begin)
            && (DrawsId(s, begin) ==> calls[begin.c].msg.id == Wrap64(s.shared.messageID + 1))
            && (begin.BeginPublish? || begin.packet.payload != [] ==> DrawsId(s, begin))
  {
  }

  lemma CallAtStatement(before: seq<Step>, begin: Step, between: seq<Step>)
    requires (begin.BeginPublish? || begin.BeginRetain?) && Enabled(Run(before), begin)
    requires LetsWait(between, begin.c)
    ensures var calls := Run(UpToStatement(before, begin, between)).calls;
            && begin.c in calls && CanExec(calls[begin.c]) && CallHolds(calls[begin.c], begin)
            && (begin.BeginPublish? || begin.packet.payload != [] ==>
                  calls[begin.c].msg.id == Wrap64(Run(before).shared.messageID + 1))
  {
    BegunCall(Run(before), begin);
    RunSnoc(Next, INITIAL, before, begin);
    RunConcat(Next, INITIAL, before + [begin], between);
    WaitsThrough(Next(Run(before), begin), between, begin.c);
  }

  // Counters

  // totalMessages is rows plus compacted rows, without the rows that recovery missed and the inserts
  // that are committed but not yet counted.
  lemma RowConservation(steps: seq<Step>)
    ensures TotalMessagesAddUp(Run(steps), Commits(steps))
  {
    Simulation(steps);
    RowConservationOf(Run(steps), Commits(steps));
  }

  ghost predicate TotalMessagesAddUp(s: State, ops: seq<Op>) {
    s.shared.totalMessages
    == Wrap64(|s.shared.tables.messages| + Compacted(ops) - Missed(ops) - AllDue(s.calls).messages)
  }

  lemma RowConservationOf(s: State, ops: seq<Op>)
    requires Replay(ops) == Settled(s)
    ensures TotalMessagesAddUp(s, ops)
  {
    TotalMessagesLaw(ops);
    WrapBack(s.shared.totalMessages, AllDue(s.calls).messages,
             |s.shared.tables.messages| + Compacted(ops) - Missed(ops));
  }

  // Recovery misses nothing in a process whose statistics query succeeded.
  lemma {:induction false} NothingMissed(before: seq<Op>, after: seq<Op>)
    requires forall i :: 0 <= i < |after| ==> !after[i].CrashOp?
    ensures Missed(before + [StartOp(true)] + after) == 0
  {
    var start := before + [StartOp(true)];
    if after == [] {
      assert start + after == start;
    } else {
      var front := after[..|after| - 1];
      NothingMissed(before, front);
      assert (start + after)[..|start + after| - 1] == start + front;
    }
  }

  // So, with no call in flight, totalMessages agrees with rows plus compacted rows exactly if a
  // statistics query has succeeded in this process or the log was empty (or held a multiple of 2^64
  // rows) when the process began.
  lemma RowsAgreeIffNothingMissed(steps: seq<Step>)
    requires Run(steps).calls == map[]
    ensures RowsAgree(Run(steps).shared, Commits(steps)) <==>
            LoadedSinceCrash(Commits(steps)) || RowsAtCrash(Commits(steps)) % 0x1_0000_0000_0000_0000 == 0
  {
    RowConservation(steps);
    var sh, ops := Run(steps).shared, Commits(steps);
    MissedExactly(ops);
    WrapEqual(|sh.tables.messages| + Compacted(ops), |sh.tables.messages| + Compacted(ops) - Missed(ops));
  }

  ghost predicate RowsAgree(sh: Shared, ops: seq<Op>) {
    sh.totalMessages == Wrap64(|sh.tables.messages| + Compacted(ops))
  }

  // Concrete runs

  const SAMPLE := Packet(PUBLISH, 0, false, "t", [1], [])

  function Steps(a: Step, b: Step, c: Step, d: Step): seq<Step> {
    [a] + [b] + [c] + [d]
  }

  lemma RunOfFour(a: Step, b: Step, c: Step, d: Step)
    ensures Run(Steps(a, b, c, d)) == Next(Next(Next(Next(INITIAL, a), b), c), d)
  {
    RunSnoc(Next, INITIAL, [], a);
    assert [] + [a] == [a];
    RunSnoc(Next, INITIAL, [a], b);
    RunSnoc(Next, INITIAL, [a] + [b], c);
    RunSnoc(Next, INITIAL, [a] + [b] + [c], d);
  }

  lemma FirstPublish()
    ensures var s := Next(Next(Next(INITIAL, Start(true, true)), BeginPublish(0, SAMPLE, "", 0)), Exec(0, true));
            s.up && s.shared.tables == Tables([MessageRow(1, "t", [1], 0, false, "", 0)], 1, [])
  {
  }

  // One row, a crash, and a start that goes on without its statistics: the counter says none.
  lemma RowsCanDisagree()
    ensures var steps := Steps(Start(true, true), BeginPublish(0, SAMPLE, "", 0), Exec(0, true), Crash)
                         + [Start(false, true)];
            var s := Run(steps);
            && s.up && s.calls == map[]
            && s.shared.totalMessages == 0 && |s.shared.tables.messages| == 1
            && !RowsAgree(s.shared, Commits(steps))
  {
    var publish := [Start(true, true)] + [BeginPublish(0, SAMPLE, "", 0)] + [Exec(0, true)];
    var crashed := Steps(Start(true, true), BeginPublish(0, SAMPLE, "", 0), Exec(0, true), Crash);
    RunOfFour(Start(true, true), BeginPublish(0, SAMPLE, "", 0), Exec(0, true), Crash);
    FirstPublish();
    RunSnoc(Next, INITIAL, crashed, Start(false, true));
    EmitSnoc(Next, OpOf, INITIAL, crashed, Start(false, true));
    EmitSnoc(Next, OpOf, INITIAL, publish, Crash);
    assert Commits(crashed + [Start(false, true)]) == Commits(publish) + [CrashOp] + [StartOp(false)];
    NothingCompacted(Commits(publish));
  }

  lemma NothingCompacted(ops: seq<Op>)
    ensures Compacted(ops + [CrashOp] + [StartOp(false)]) == 0
  {
    assert (ops + [CrashOp] + [StartOp(false)])[..|ops| + 1] == ops + [CrashOp];
  }

  predicate Restarts(step: Step) {
    step.Crash? || step.Start?
  }

  ghost predicate OneRun(steps: seq<Step>) {
    forall i :: 0 <= i < |steps| ==> !Restarts(steps[i])
  }

  lemma {:induction false} OneRunHasNoCrash(s: State, steps: seq<Step>)
    requires OneRun(steps)
    ensures forall i :: 0 <= i < |EmitFrom(Next, OpOf, s, steps)| ==> !EmitFrom(Next, OpOf, s, steps)[i].CrashOp?
  {
    if steps != [] {
      var front := steps[..|steps| - 1];
      assert forall i :: 0 <= i < |front| ==> front[i] == steps[i];
      OneRunHasNoCrash(s, front);
      assert !Restarts(steps[|steps| - 1]);
    }
  }

  // The operations of a run with one step picked out.
  lemma CommitsAround(before: seq<Step>, step: Step, after: seq<Step>)
    ensures var s := Run(before);
            Commits(before + ([step] + after))
            == Commits(before) + OpOf(s, step) + EmitFrom(Next, OpOf, Next(s, step), after)
  {
    EmitAround(Next, OpOf, INITIAL, before, step, after);
    Associative(Commits(before), OpOf(Run(before), step), EmitFrom(Next, OpOf, Next(Run(before), step), after));
  }

  lemma Associative(a: seq<Op>, b: seq<Op>, c: seq<Op>)
    ensures a + (b + c) == a + b + c
  {
  }

  lemma NothingMissedInRun(before: seq<Step>, after: seq<Step>)
    requires !Run(before).up && OneRun(after)
    ensures Missed(Commits(before + ([Start(true, true)] + after))) == 0
  {
    var s := Run(before);
    CommitsAround(before, Start(true, true), after);
    OneRunHasNoCrash(Next(s, Start(true, true)), after);
    NothingMissed(Commits(before), EmitFrom(Next, OpOf, Next(s, Start(true, true)), after));
  }

  // After a start whose statistics query succeeded, in every interleaving of that run: rows plus rows
  // compacted since the start are totalMessages plus the inserts committed but not yet counted.
  lemma RowConservationAfterStart(before: seq<Step>, after: seq<Step>)
    requires !Run(before).up && OneRun(after)
    ensures var steps := before + ([Start(true, true)] + after);
            var s, ops := Run(steps), Commits(steps);
            s.shared.totalMessages
            == Wrap64(|s.shared.tables.messages| + Compacted(ops) - AllDue(s.calls).messages)
  {
    NothingMissedInRun(before, after);
    RowConservation(before + ([Start(true, true)] + after));
  }

  // A publish call's INSERT commits.
  predicate Inserts(s: State, step: Step) {
    Enabled(s, step) && step.Exec? && step.ok && s.calls[step.c].PublishCall?
  }

  function BytesOf(begin: Step): nat {
    if begin.BeginPublish? then |begin.packet.payload| + |begin.packet.topicName| + |begin.client| else 0
  }

  // Payload, topic and client lengths of the publishes of this process whose insert committed.
  function InsertedBytes(steps: seq<Step>): nat {
    if steps == [] then 0
    else
      var front, last := steps[..|steps| - 1], steps[|steps| - 1];
      if last.Crash? then 0
      else InsertedBytes(front) + if Inserts(Run(front), last) then BytesOf(BeginOf(front, last.c)) else 0
  }

  lemma InsertedBytesStep(s: State, ops: seq<Op>, step: Step, begin: Step)
    requires Inserts(s, step) ==> CallHolds(s.calls[step.c], begin)
    ensures BytesSinceCrash(ops + OpOf(s, step))
         == if step.Crash? then 0 else BytesSinceCrash(ops) + if Inserts(s, step) then BytesOf(begin) else 0
  {
    var op := OpOf(s, step);
    if op == [] {
      assert ops + op == ops;
    } else {
      assert (ops + op)[..|ops|] == ops;
    }
  }

  lemma {:induction false} InsertedBytesLaw(steps: seq<Step>)
    ensures BytesSinceCrash(Commits(steps)) == InsertedBytes(steps)
  {
    if steps != [] {
      var front, last := steps[..|steps| - 1], steps[|steps| - 1];
      InsertedBytesLaw(front);
      var begin := if last.Exec? then BeginOf(front, last.c) else Crash;
      if last.Exec? {
        CallsKeepTheirPackets(front, last.c);
      }
      InsertedBytesStep(Run(front), Commits(front), last, begin);
    }
  }

  // totalBytes counts the publishes inserted since the process started, without those whose call has
  // not come to it yet. Compaction and recovery do not touch it.
  lemma ByteConservation(steps: seq<Step>)
    ensures TotalBytesAddUp(Run(steps), InsertedBytes(steps))
    ensures Run(steps).calls == map[] ==> Run(steps).shared.totalBytes == Wrap64(InsertedBytes(steps))
  {
    Simulation(steps);
    InsertedBytesLaw(steps);
    ByteConservationOf(Run(steps), Commits(steps));
    NothingOwedWhenIdle(Run(steps), InsertedBytes(steps));
  }

  ghost predicate TotalBytesAddUp(s: State, inserted: nat) {
    s.shared.totalBytes == Wrap64(inserted - AllDue(s.calls).bytes)
  }

  lemma NothingOwedWhenIdle(s: State, inserted: nat)
    requires TotalBytesAddUp(s, inserted)
    ensures s.calls == map[] ==> s.shared.totalBytes == Wrap64(inserted)
  {
    if s.calls == map[] {
      NothingDue(s.calls);
    }
  }

  // Inserted, and not yet counted in totalBytes.
  predicate OwesBytes(call: Call) {
    call.PublishCall? && !call.pc.Drawn? && (call.pc.MessageCounted? || call.pc.ok)
  }

  // What a call owes is what its own packet and client amount to.
  lemma OwedBytes(steps: seq<Step>, c: nat)
    requires c in Run(steps).calls
    ensures BytesDue(Run(steps).calls[c])
         == if OwesBytes(Run(steps).calls[c]) then BytesOf(BeginOf(steps, c)) else 0
  {
    CallsKeepTheirPackets(steps, c);
    BytesDueOf(Run(steps).calls[c], BeginOf(steps, c));
  }

  lemma BytesDueOf(call: Call, begin: Step)
    requires CallHolds(call, begin)
    ensures BytesDue(call) == if OwesBytes(call) then BytesOf(begin) else 0
  {
  }

  lemma NothingDue(calls: Calls)
    requires calls == map[]
    ensures AllDue(calls) == NOTHING
  {
  }

  lemma ByteConservationOf(s: State, ops: seq<Op>)
    requires Replay(ops) == Settled(s)
    ensures TotalBytesAddUp(s, BytesSinceCrash(ops))
  {
    TotalBytesLaw(ops);
    WrapBack(s.shared.totalBytes, AllDue(s.calls).bytes, BytesSinceCrash(ops));
  }

  // OnPublish calls for PUBLISH packets that began in this process.
  function PublishCalls(steps: seq<Step>): nat {
    if steps == [] then 0
    else
      var front, last := steps[..|steps| - 1], steps[|steps| - 1];
      if last.Crash? then 0
      else PublishCalls(front) + Bit(last.BeginPublish? && Enabled(Run(front), last))
  }

  predicate WaitsToInsert(call: Call) {
    call.PublishCall? && call.pc.Drawn?
  }

  ghost function Waiting(calls: Calls): set<nat> {
    set c | c in calls && WaitsToInsert(calls[c])
  }

  lemma WaitingStep(s: State, step: Step)
    ensures Enabled(s, step) && step.BeginPublish? ==>
              step.c !in Waiting(s.calls) && Waiting(Next(s, step).calls) == Waiting(s.calls) + {step.c}
    ensures Enabled(s, step) && step.Exec? && s.calls[step.c].PublishCall? ==>
              step.c in Waiting(s.calls) && Waiting(Next(s, step).calls) == Waiting(s.calls) - {step.c}
    ensures Enabled(s, step) && step.Exec? && s.calls[step.c].RetainCall? ==>
              Waiting(Next(s, step).calls) == Waiting(s.calls)
    ensures step.Advance? || step.BeginRetain? || step.CompactTopic? || step.Start? ==>
              Waiting(Next(s, step).calls) == Waiting(s.calls)
  {
  }

  // Every call that began is waiting to insert, or has committed, or has failed.
  ghost predicate CallsAddUp(begun: nat, s: State, ops: seq<Op>) {
    begun == PublishesSinceCrash(ops, true) + PublishesSinceCrash(ops, false) + |Waiting(s.calls)|
  }

  lemma PublishCallsStep(begun: nat, s: State, ops: seq<Op>, step: Step)
    requires CallsAddUp(begun, s, ops)
    ensures CallsAddUp(if step.Crash? then 0 else begun + Bit(step.BeginPublish? && Enabled(s, step)),
                       Next(s, step), ops + OpOf(s, step))
  {
    WaitingStep(s, step);
    var op := OpOf(s, step);
    assert op != [] ==> (ops + op)[..|ops|] == ops;
    assert op == [] ==> ops + op == ops;
  }

  lemma {:induction false} PublishCallsLaw(steps: seq<Step>)
    ensures CallsAddUp(PublishCalls(steps), Run(steps), Commits(steps))
  {
    if steps != [] {
      var front := steps[..|steps| - 1];
      PublishCallsLaw(front);
      PublishCallsStep(PublishCalls(front), Run(front), Commits(front), steps[|steps| - 1]);
    }
  }

  // The metrics server against the manager: latencies are observed for as many writes as have an
  // outcome, the error counter follows the error outcomes, and with no call in flight successes are
  // what totalMessages gained since recovery and outcomes are as many as the calls.
  ghost predicate WritesAddUp(s: State, ops: seq<Op>) {
    var w, p := s.shared.writes, AllDue(s.calls);
    && w.observed + p.observed == w.successes + p.successes + w.errorOps + p.errorOps
    && w.errors + p.errors == w.errorOps + p.errorOps
    && w.successes + p.successes == PublishesSinceCrash(ops, true)
    && w.errorOps + p.errorOps == PublishesSinceCrash(ops, false)
  }

  ghost predicate IdleCountersAgree(sh: Shared, ops: seq<Op>, begun: nat) {
    && sh.writes.observed == sh.writes.successes + sh.writes.errorOps == begun
    && sh.writes.errors == sh.writes.errorOps
    && sh.totalMessages == Wrap64(RecoveredCount(ops) + sh.writes.successes)
  }

  lemma MetricsAgree(steps: seq<Step>)
    ensures WritesAddUp(Run(steps), Commits(steps))
    ensures Run(steps).calls == map[] ==>
              IdleCountersAgree(Run(steps).shared, Commits(steps), PublishCalls(steps))
  {
    Simulation(steps);
    WritesAddUpOf(Run(steps), Commits(steps));
    if Run(steps).calls == map[] {
      Serializable(steps);
      PublishCallsLaw(steps);
      LoadedSinceStart(steps);
      IdleCountersAgreeOf(Run(steps), Commits(steps), PublishCalls(steps));
    }
  }

  lemma WritesAddUpOf(s: State, ops: seq<Op>)
    requires Replay(ops) == Settled(s)
    ensures WritesAddUp(s, ops)
  {
    WritesLaw(ops);
  }

  lemma IdleCountersAgreeOf(s: State, ops: seq<Op>, begun: nat)
    requires s.calls == map[] && Replay(ops) == s.shared && CallsAddUp(begun, s, ops)
    requires CommitsSinceLoad(ops) == PublishesSinceCrash(ops, true)
    ensures IdleCountersAgree(s.shared, ops, begun)
  {
    WritesLaw(ops);
    TotalMessagesLaw(ops);
    assert Waiting(map[]) == {};
  }

  // Publishes happen only after a start, so the counters are loaded before the first of them.
  ghost predicate LoadedFirst(s: State, ops: seq<Op>) {
    && CommitsSinceLoad(ops) == PublishesSinceCrash(ops, true)
    && (!s.up ==> s.calls == map[] && PublishesSinceCrash(ops, true) == 0)
  }

  lemma LoadedFirstOp(ops: seq<Op>, op: Op)
    requires CommitsSinceLoad(ops) == PublishesSinceCrash(ops, true)
    requires op.StartOp? ==> PublishesSinceCrash(ops, true) == 0
    ensures CommitsSinceLoad(ops + [op]) == PublishesSinceCrash(ops + [op], true)
    ensures !op.PublishOp? && PublishesSinceCrash(ops, true) == 0 ==> PublishesSinceCrash(ops + [op], true) == 0
    ensures op.CrashOp? ==> PublishesSinceCrash(ops + [op], true) == 0
  {
    assert (ops + [op])[..|ops|] == ops;
  }

  // What a step has to do with being up.
  lemma StepUp(s: State, step: Step)
    requires !s.up ==> s.calls == map[]
    ensures var s', op := Next(s, step), OpOf(s, step);
            && |op| <= 1
            && (!s'.up ==> s'.calls == map[])
            && (op != [] && op[0].StartOp? ==> !s.up)
            && (s.up && !s'.up ==> op == [CrashOp])
            && (!s.up ==> op == [] || op[0].StartOp? || op[0].CrashOp?)
  {
  }

  lemma LoadedFirstStep(s: State, ops: seq<Op>, step: Step)
    requires LoadedFirst(s, ops)
    ensures LoadedFirst(Next(s, step), ops + OpOf(s, step))
  {
    StepUp(s, step);
    if OpOf(s, step) == [] {
      assert ops + OpOf(s, step) == ops;
    } else {
      LoadedFirstOp(ops, OpOf(s, step)[0]);
      assert OpOf(s, step) == [OpOf(s, step)[0]];
    }
  }

  lemma {:induction false} LoadedSinceStart(steps: seq<Step>)
    ensures LoadedFirst(Run(steps), Commits(steps))
  {
    if steps != [] {
      var front := steps[..|steps| - 1];
      LoadedSinceStart(front);
      LoadedFirstStep(Run(front), Commits(front), steps[|steps| - 1]);
    }
  }

  // The order in which a call updates the counters shows at every moment: no outcome without its
  // latency, no error counted before its outcome, no message counted before its success, and no bytes
  // counted before their message.
  ghost predicate CountersOrdered(s: State, ops: seq<Op>) {
    var w, counted := s.shared.writes, PublishesSinceCrash(ops, true) - AllDue(s.calls).messages;
    && w.successes + w.errorOps <= w.observed
    && w.errors <= w.errorOps
    && counted <= w.successes && s.shared.totalMessages == Wrap64(RecoveredCount(ops) + counted)
    && (forall c :: c in s.calls && MessageDue(s.calls[c]) == 1 ==> OwesBytes(s.calls[c]))
  }

  lemma DueOrdered(call: Call)
    ensures var p := Due(call);
            p.observed <= p.successes + p.errorOps && p.successes <= p.messages && p.errorOps <= p.errors
  {
  }

  lemma {:induction false} AllDueOrdered(calls: Calls)
    ensures var p := AllDue(calls);
            p.observed <= p.successes + p.errorOps && p.successes <= p.messages && p.errorOps <= p.errors
    decreases |calls|
  {
    if calls == map[] {
      NothingDue(calls);
    } else {
      var c :| c in calls;
      Shrinks(calls, c);
      AllDueSet(calls, c, calls[c]);
      DueOrdered(calls[c]);
      AllDueOrdered(calls - {c});
    }
  }

  lemma CountersAreOrdered(steps: seq<Step>)
    ensures CountersOrdered(Run(steps), Commits(steps))
  {
    Simulation(steps);
    LoadedSinceStart(steps);
    WritesAddUpOf(Run(steps), Commits(steps));
    CountersOrderedOf(Run(steps), Commits(steps));
  }

  lemma CountersOrderedOf(s: State, ops: seq<Op>)
    requires Replay(ops) == Settled(s) && WritesAddUp(s, ops)
    requires CommitsSinceLoad(ops) == PublishesSinceCrash(ops, true)
    ensures CountersOrdered(s, ops)
  {
    AllDueOrdered(s.calls);
    TotalMessagesLaw(ops);
    WrapBack(s.shared.totalMessages, AllDue(s.calls).messages, RecoveredCount(ops) + CommitsSinceLoad(ops));
  }

  // Nothing is served before a start that returns without an error: until then no call begins and the
  // tables stay as they are.
  lemma FailedStartServesNothing(before: seq<Step>, statsOk: bool, after: seq<Step>)
    requires !Run(before).up
    requires forall i :: 0 <= i < |after| ==> after[i].Start? ==> !after[i].countOk
    ensures DownWith(Run(before + [Start(statsOk, false)] + after), Run(before).shared.tables)
  {
    var s := Run(before);
    DownMeansIdle(before);
    RunSnoc(Next, INITIAL, before, Start(statsOk, false));
    RunConcat(Next, INITIAL, before + [Start(statsOk, false)], after);
    DownStep(s, Start(statsOk, false), s.shared.tables);
    StaysDown(Next(s, Start(statsOk, false)), after, s.shared.tables);
  }

  // No call in flight and none can begin; the tables are the given ones.
  predicate DownWith(s: State, t: Tables) {
    !s.up && s.calls == map[] && s.shared.tables == t
  }

  lemma DownStep(s: State, step: Step, t: Tables)
    requires DownWith(s, t) && (step.Start? ==> !step.countOk)
    ensures DownWith(Next(s, step), t)
  {
  }

  lemma {:induction false} StaysDown(s: State, steps: seq<Step>, t: Tables)
    requires DownWith(s, t)
    requires forall i :: 0 <= i < |steps| ==> steps[i].Start? ==> !steps[i].countOk
    ensures DownWith(RunFrom(Next, s, steps), t)
  {
    if steps != [] {
      var front := steps[..|steps| - 1];
      assert forall i :: 0 <= i < |front| ==> front[i] == steps[i];
      StaysDown(s, front, t);
      DownStep(RunFrom(Next, s, front), steps[|steps| - 1], t);
    }
  }

  // Retained messages

  // Whatever the interleaving and the crashes, the broker recovers the fold of the retain operations.
  lemma RetainedAcrossRuns(steps: seq<Step>)
    ensures var rows, m := Run(steps).shared.tables.retained, RetainedFold(Commits(steps));
            && Represents(rows, m)
            && (forall r :: r in rows ==> r.payload != [])
            && (forall s :: s in ToStoredMessages(rows, {}) ==>
                  s.topicName in m && s == ToStoredMessage(m[s.topicName]))
            && (forall topic :: topic in m ==> ToStoredMessage(m[topic]) in ToStoredMessages(rows, {}))
            && |ToStoredMessages(rows, {})| == |rows|
  {
    TablesAreHistory(steps);
    TableIsFold(Commits(steps));
    RecoveryIsExact(Commits(steps));
    AllRowsStored(Run(steps).shared.tables.retained);
  }

  predicate ReadyToRetain(s: State, c: nat) {
    c in s.calls && s.calls[c].RetainCall? && s.calls[c].rpc.Ready?
  }

  // The operations that commit after the statement of call c.
  function CommitsAfter(s: State, c: nat, after: seq<Step>): seq<Op> {
    EmitFrom(Next, OpOf, Next(s, Exec(c, true)), after)
  }

  lemma LastRetainOfCallWins(before: seq<Step>, c: nat, after: seq<Step>)
    requires ReadyToRetain(Run(before), c)
    requires var later := CommitsAfter(Run(before), c, after);
             forall i :: 0 <= i < |later| ==> !RetainsOn(later[i], Run(before).calls[c].msg.topic)
    ensures var msg, rows := Run(before).calls[c].msg, Run(before + ([Exec(c, true)] + after)).shared.tables.retained;
            var stored := ToStoredMessages(rows, {});
            if msg.payload == [] then forall s :: s in stored ==> s.topicName != msg.topic
            else
              && (exists s :: s in stored && s.topicName == msg.topic)
              && (forall s :: s in stored && s.topicName == msg.topic ==> Carries(s, msg))
              && (forall r :: r in rows && r.topic == msg.topic ==> r == RetainedRowOf(msg))
  {
    var call := Run(before).calls[c];
    CommitsAround(before, Exec(c, true), after);
    TablesAreHistory(before + ([Exec(c, true)] + after));
    LastRetainWins(Commits(before), call.hook, call.msg, CommitsAfter(Run(before), c, after));
    FoldKeepsLast(Commits(before), call.hook, call.msg, CommitsAfter(Run(before), c, after));
    TableIsFold(Commits(before + ([Exec(c, true)] + after)));
  }

  // The rows of the packet's topic and what recovery makes of them: the packet with its client, its
  // time in whole seconds and the drawn id; or nothing after an empty payload.
  ghost predicate RetainedIs(rows: seq<RetainedRow>, packet: Packet, client: string, now: int, id: uint64) {
    var stored := ToStoredMessages(rows, {});
    if packet.payload == [] then forall s :: s in stored ==> s.topicName != packet.topicName
    else
      && (exists s :: s in stored && s.topicName == packet.topicName)
      && (forall s :: s in stored && s.topicName == packet.topicName ==> ComesBack(s, packet, client, now, id))
      && (forall r :: r in rows && r.topic == packet.topicName ==> RetainedRowHolds(r, packet, client, now, id))
  }

  // If nothing retains on its topic after a retain hook's statement, however the other calls, crashes
  // and restarts fall, the packet comes back as the hook got it, and a cleared topic stays without one.
  lemma LastRetainWinsInRuns(before: seq<Step>, c: nat, hook: RetainHook, packet: Packet, client: string, now: int,
                             between: seq<Step>, after: seq<Step>)
    requires Enabled(Run(before), BeginRetain(c, hook, packet, client, now)) && LetsWait(between, c)
    requires var s := Run(UpToStatement(before, BeginRetain(c, hook, packet, client, now), between));
             var later := CommitsAfter(s, c, after);
             forall i :: 0 <= i < |later| ==> !RetainsOn(later[i], packet.topicName)
    ensures var steps := UpToStatement(before, BeginRetain(c, hook, packet, client, now), between);
            RetainedIs(Run(steps + ([Exec(c, true)] + after)).shared.tables.retained, packet, client, now,
                       Wrap64(Run(before).shared.messageID + 1))
  {
    var begin := BeginRetain(c, hook, packet, client, now);
    var steps := UpToStatement(before, begin, between);
    CallAtStatement(before, begin, between);
    LastRetainOfCallWins(steps, c, after);
    TruncatedToSeconds(now);
  }

  // A retain call goes on to its read-back exactly if it upserted; otherwise it ends.
  lemma ReadBackFollowsUpsert(s: State, c: nat, ok: bool)
    requires ReadyToRetain(s, c)
    ensures var next, msg := Next(s, Exec(c, ok)).calls, s.calls[c].msg;
            if ok && msg.payload != [] then next == s.calls[c := RetainCall(s.calls[c].hook, msg, Upserted)]
            else next == s.calls - {c}
  {
  }

  // A read-back sees one row, or none: none exactly if the last retain operation on the topic that
  // committed after the upsert cleared it. In particular it sees its row if nothing ran in between.
  lemma ReadBack(before: seq<Step>, c: nat, after: seq<Step>)
    requires ReadyToRetain(Run(before), c) && Run(before).calls[c].msg.payload != []
    ensures var s, topic := Run(before), Run(before).calls[c].msg.topic;
            && CountRetained(Run(before + ([Exec(c, true)] + after)).shared.tables, topic)
               == (if LastClears(CommitsAfter(s, c, after), topic) then 0 else 1)
            && CountRetained(Run(before + ([Exec(c, true)] + [])).shared.tables, topic) == 1
            && c in Next(s, Exec(c, true)).calls && !CanExec(Next(s, Exec(c, true)).calls[c])
  {
    ReadBackFollowsUpsert(Run(before), c, true);
    ReadBackAt(before, c, after);
    ReadBackAt(before, c, []);
  }

  lemma ReadBackAt(before: seq<Step>, c: nat, after: seq<Step>)
    requires ReadyToRetain(Run(before), c) && Run(before).calls[c].msg.payload != []
    ensures var topic := Run(before).calls[c].msg.topic;
            CountRetained(Run(before + ([Exec(c, true)] + after)).shared.tables, topic)
            == if LastClears(CommitsAfter(Run(before), c, after), topic) then 0 else 1
  {
    var call := Run(before).calls[c];
    CommitsAround(before, Exec(c, true), after);
    TablesAreHistory(before + ([Exec(c, true)] + after));
    ReadBackLaw(Commits(before), call.hook, call.msg, CommitsAfter(Run(before), c, after));
  }

  lemma PublishOfCallIsFound(before: seq<Step>, c: nat, after: seq<Step>, limit: int)
    requires c in Run(before).calls && Run(before).calls[c].PublishCall? && CanExec(Run(before).calls[c])
    requires var msg, later := Run(before).calls[c].msg, CommitsAfter(Run(before), c, after);
             && Outlives(msg.topic, msg.timestamp, later)
             && (limit < 0 || |Survivors(later, msg.topic)| < limit)
    ensures FoundBehind(Run(before + ([Exec(c, true)] + after)).shared.tables, Run(before).calls[c].msg,
                        CommitsAfter(Run(before), c, after), limit)
  {
    var msg, later := Run(before).calls[c].msg, CommitsAfter(Run(before), c, after);
    CommitsAround(before, Exec(c, true), after);
    TablesAreHistory(before + ([Exec(c, true)] + after));
    assert OpOf(Run(before), Exec(c, true)) == [PublishOp(msg, true)];
    assert Commits(before) + [PublishOp(msg, true)] + later == Commits(before) + ([PublishOp(msg, true)] + later);
    PublishIsFound(Commits(before), msg, later, limit);
  }

  // A row with all that the packet, the client and the clock gave, behind the surviving later commits.
  predicate PacketFoundBehind(t: Tables, packet: Packet, client: string, now: int, later: seq<Op>, limit: int) {
    var answer, index := SelectByTopic(t, packet.topicName, limit), |Survivors(later, packet.topicName)|;
    index < |answer| && RowHolds(answer[index], packet, client, now)
  }

  // A publish whose insert committed, and which no later compaction removed, is found by a topic query
  // as the packet came in, whatever ran before, in between and after, crashes and restarts included,
  // at the index given by the surviving commits on its topic that came after it.
  lemma PublishIsFoundInRuns(before: seq<Step>, c: nat, packet: Packet, client: string, now: int,
                             between: seq<Step>, after: seq<Step>, limit: int)
    requires Enabled(Run(before), BeginPublish(c, packet, client, now)) && LetsWait(between, c)
    requires var s := Run(UpToStatement(before, BeginPublish(c, packet, client, now), between));
             var later := CommitsAfter(s, c, after);
             && Outlives(packet.topicName, now, later)
             && (limit < 0 || |Survivors(later, packet.topicName)| < limit)
    ensures var steps := UpToStatement(before, BeginPublish(c, packet, client, now), between);
            PacketFoundBehind(Run(steps + ([Exec(c, true)] + after)).shared.tables, packet, client, now,
                              CommitsAfter(Run(steps), c, after), limit)
  {
    var begin := BeginPublish(c, packet, client, now);
    CallAtStatement(before, begin, between);
    PublishOfCallIsFound(UpToStatement(before, begin, between), c, after, limit);
  }
}
