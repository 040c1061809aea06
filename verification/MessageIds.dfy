// The ids that the hooks draw from the shared counter, against each other and against stored ids.
module MessageIds {
  import opened Words
  import opened Runs
  import opened Sequences
  import opened Database
  import opened Storage
  import opened StorageLaws
  import opened Protocol
  import opened ProtocolLaws

  // Message ids within one run

  function DrawOf(s: State, step: Step): seq<uint64> {
    if DrawsId(s, step) then [Wrap64(s.shared.messageID + 1)] else []
  }

  // The ids drawn by the steps, in order.
  function Draws(s: State, steps: seq<Step>): seq<uint64> {
    EmitFrom(Next, DrawOf, s, steps)
  }

  lemma StepDraws(s: State, step: Step)
    requires !Restarts(step)
    ensures Next(s, step).shared.messageID
         == if DrawsId(s, step) then Wrap64(s.shared.messageID + 1) else s.shared.messageID
  {
  }

  // The k-th draw of a run takes the k-th number after the counter's value at its start.
  lemma {:induction false} DrawsCountUp(s: State, steps: seq<Step>)
    requires OneRun(steps)
    ensures |Draws(s, steps)| <= |steps|
    ensures forall i :: 0 <= i < |Draws(s, steps)| ==> Draws(s, steps)[i] == Wrap64(s.shared.messageID + 1 + i)
    ensures RunFrom(Next, s, steps).shared.messageID == Wrap64(s.shared.messageID + |Draws(s, steps)|)
  {
    if steps != [] {
      var front, last := steps[..|steps| - 1], steps[|steps| - 1];
      assert forall i :: 0 <= i < |front| ==> front[i] == steps[i];
      DrawsCountUp(s, front);
      var s' := RunFrom(Next, s, front);
      StepDraws(s', last);
      WrapAdd(s.shared.messageID + |Draws(s, front)|, 1);
    }
  }

  // Two ids drawn in one run are equal exactly if a multiple of 2^64 draws lies between them.
  lemma DrawsAreDistinct(s: State, steps: seq<Step>, i: nat, j: nat)
    requires OneRun(steps)
    requires i < j < |Draws(s, steps)|
    ensures Draws(s, steps)[i] == Draws(s, steps)[j] <==> (j - i) % 0x1_0000_0000_0000_0000 == 0
    ensures |Draws(s, steps)| <= 0x1_0000_0000_0000_0000 ==> Draws(s, steps)[i] != Draws(s, steps)[j]
  {
    DrawsCountUp(s, steps);
    WrapEqual(s.shared.messageID + 1 + j, s.shared.messageID + 1 + i);
  }

  predicate HasId(call: Call) {
    call.PublishCall? || call.msg.payload != []
  }

  ghost predicate HoldDistinctIds(calls: Calls, drawn: seq<uint64>) {
    && (forall c :: c in calls && HasId(calls[c]) ==> calls[c].msg.id in drawn)
    && (forall c, c' :: c in calls && c' in calls && c != c' && HasId(calls[c]) && HasId(calls[c']) ==>
          calls[c].msg.id != calls[c'].msg.id)
  }

  // A call that begins with a new id, and a call that goes on or ends.
  lemma HoldDistinctIdsWith(calls: Calls, drawn: seq<uint64>, c: nat, call: Call, more: seq<uint64>)
    requires HoldDistinctIds(calls, drawn)
    requires c in calls ==> call.msg == calls[c].msg && HasId(call) == HasId(calls[c])
    requires c !in calls && HasId(call) ==> more == [call.msg.id] && call.msg.id !in drawn
    ensures HoldDistinctIds(calls[c := call], drawn + more)
    ensures HoldDistinctIds(calls - {c}, drawn + more)
  {
  }

  lemma HoldDistinctIdsStep(s: State, drawn: seq<uint64>, step: Step)
    requires !Restarts(step) && HoldDistinctIds(s.calls, drawn)
    requires DrawsId(s, step) ==> Wrap64(s.shared.messageID + 1) !in drawn
    ensures HoldDistinctIds(Next(s, step).calls, drawn + DrawOf(s, step))
  {
    var calls := Next(s, step).calls;
    if calls == s.calls {
      assert drawn + DrawOf(s, step) == drawn;
    } else {
      var c := step.c;
      HoldDistinctIdsWith(s.calls, drawn, c, if c in calls then calls[c] else s.calls[c], DrawOf(s, step));
    }
  }

  // Up to 2^64 draws, the calls in flight hold pairwise distinct ids at every moment of a run.
  lemma {:induction false} CallsHoldDistinctIds(s: State, steps: seq<Step>)
    requires s.calls == map[] && OneRun(steps) && |Draws(s, steps)| <= 0x1_0000_0000_0000_0000
    ensures HoldDistinctIds(RunFrom(Next, s, steps).calls, Draws(s, steps))
  {
    if steps != [] {
      var front, last := steps[..|steps| - 1], steps[|steps| - 1];
      assert forall i :: 0 <= i < |front| ==> front[i] == steps[i];
      CallsHoldDistinctIds(s, front);
      if DrawsId(RunFrom(Next, s, front), last) {
        NextDrawIsNew(s, front);
      }
      HoldDistinctIdsStep(RunFrom(Next, s, front), Draws(s, front), last);
    }
  }

  lemma NextDrawIsNew(s: State, steps: seq<Step>)
    requires OneRun(steps) && |Draws(s, steps)| < 0x1_0000_0000_0000_0000
    ensures Wrap64(RunFrom(Next, s, steps).shared.messageID + 1) !in Draws(s, steps)
  {
    DrawsCountUp(s, steps);
    var n := |Draws(s, steps)|;
    WrapAdd(s.shared.messageID + n, 1);
    forall i | 0 <= i < n
      ensures Draws(s, steps)[i] != Wrap64(s.shared.messageID + 1 + n)
    {
      WrapDistinct(s.shared.messageID + 1 + i, s.shared.messageID + 1 + n);
    }
  }

  // Ids against row ids

  // Every id in the log is below the reported next_message_id.
  ghost predicate NextIdIsAhead(sh: Shared) {
    forall r :: r in sh.tables.messages ==> r.id < Wrap64(sh.messageID + 1)
  }

  lemma StepTables(s: State, step: Step)
    requires !s.up ==> s.calls == map[]
    ensures var op, t := OpOf(s, step), s.shared.tables;
            && Next(s, step).shared.tables == (if op == [] then t else ApplyToTables(t, op[0]))
            && |op| <= 1
            && (step.Start? || (Next(s, step).up ==> s.up))
            && (op != [] && (op[0].PublishOp? || op[0].RetainOp?) ==> s.up)
  {
  }

  // A process without compaction issues at least the largest row id, unless it found rows in the log
  // and no statistics query of its own has succeeded.
  lemma {:induction false} IssuedCoversIds(ops: seq<Op>)
    requires NeverCompacts(ops) && (LoadedSinceCrash(ops) || RowsAtCrash(ops) == 0)
    ensures Replay(ops).tables.lastId <= Issued(ops)
  {
    if ops != [] {
      var front, last := ops[..|ops| - 1], ops[|ops| - 1];
      assert forall i :: 0 <= i < |front| ==> front[i] == ops[i];
      NoGapWithoutCompaction(front);
      ReplayTables(ops);
      if !last.CrashOp? && last != StartOp(true) {
        IssuedCoversIds(front);
      }
    }
  }

  // In a history that never compacts, next_message_id exceeds every row id, provided that a statistics
  // query has succeeded in this process or the log was empty when it began.
  lemma NextIdLaw(steps: seq<Step>)
    requires NeverCompacts(Commits(steps))
    requires LoadedSinceCrash(Commits(steps)) || RowsAtCrash(Commits(steps)) == 0
    requires Issued(Commits(steps)) + AllDue(Run(steps).calls).drawn < 0xFFFF_FFFF_FFFF_FFFF
    ensures NextIdIsAhead(Run(steps).shared)
  {
    IssuedCoversIds(Commits(steps));
    TablesAreHistory(steps);
    Simulation(steps);
    MessageIdLaw(Commits(steps));
    var s := Run(steps);
    MessageIdOf(s.shared.messageID, AllDue(s.calls).drawn, Issued(Commits(steps)));
  }

  lemma MessageIdOf(messageID: uint64, drawn: nat, issued: nat)
    requires Wrap64(messageID - drawn) == Wrap64(issued)
    requires issued + drawn < 0xFFFF_FFFF_FFFF_FFFF
    ensures messageID == issued + drawn
    ensures Wrap64(messageID + 1) == issued + drawn + 1
  {
    WrapAdd(messageID - drawn, drawn);
    WrapAdd(issued, drawn);
  }

  // Without the restriction on compaction: the counter stays ahead in every continuation of the run
  // (short of 2^64 draws) exactly if it starts no lower than the largest row id ever used.

  ghost predicate StaysAhead(s: State) {
    forall more :: OneRun(more) && s.shared.messageID + |more| < 0xFFFF_FFFF_FFFF_FFFF ==>
                     NextIdIsAhead(RunFrom(Next, s, more).shared)
  }

  ghost predicate Covers(s: State) {
    && WellFormed(s.shared.tables)
    && s.shared.tables.lastId + |Waiting(s.calls)| <= s.shared.messageID
  }

  lemma CoversStep(s: State, step: Step)
    requires !Restarts(step) && s.up && Covers(s) && s.shared.messageID < 0xFFFF_FFFF_FFFF_FFFF
    ensures Covers(Next(s, step)) && Next(s, step).up
    ensures Next(s, step).shared.messageID <= s.shared.messageID + 1
  {
    StepTables(s, step);
    WaitingStep(s, step);
    var op := OpOf(s, step);
    if op != [] {
      ApplyWellFormed(s.shared.tables, op[0]);
    }
  }

  lemma {:induction false} CoversAlongRun(s: State, steps: seq<Step>)
    requires OneRun(steps) && s.up && Covers(s)
    requires s.shared.messageID + |steps| < 0xFFFF_FFFF_FFFF_FFFF
    ensures var s' := RunFrom(Next, s, steps);
            Covers(s') && s'.up && s'.shared.messageID <= s.shared.messageID + |steps|
  {
    if steps != [] {
      var front := steps[..|steps| - 1];
      assert forall i :: 0 <= i < |front| ==> front[i] == steps[i];
      CoversAlongRun(s, front);
      CoversStep(RunFrom(Next, s, front), steps[|steps| - 1]);
    }
  }

  // One publish from start to finish leaves its row id one above the largest ever used.
  lemma PublishOnce(s: State)
    requires s.up && s.calls == map[]
    ensures var s' := RunFrom(Next, s, [BeginPublish(0, SAMPLE, "", 0), Exec(0, true)]).shared;
            && s'.messageID == Wrap64(s.shared.messageID + 1)
            && exists r :: r in s'.tables.messages && r.id == s.shared.tables.lastId + 1
  {
    var first := BeginPublish(0, SAMPLE, "", 0);
    RunSnoc(Next, s, [], first);
    RunSnoc(Next, s, [first], Exec(0, true));
    assert [] + [first] == [first];
    assert [first] + [Exec(0, true)] == [first, Exec(0, true)];
    var s' := Next(Next(s, first), Exec(0, true)).shared;
    assert s'.tables.messages[|s.shared.tables.messages|].id == s.shared.tables.lastId + 1;
  }

  lemma CoveredStaysAhead(s: State)
    requires s.up && Covers(s)
    ensures StaysAhead(s)
  {
    forall more | OneRun(more) && s.shared.messageID + |more| < 0xFFFF_FFFF_FFFF_FFFF
      ensures NextIdIsAhead(RunFrom(Next, s, more).shared)
    {
      CoversAlongRun(s, more);
    }
  }

  lemma UncoveredFallsBehind(s: State)
    requires s.up && s.calls == map[] && s.shared.messageID < 0xFFFF_FFFF_FFFF_FFF0
    requires s.shared.messageID < s.shared.tables.lastId
    ensures !StaysAhead(s)
  {
    var more := [BeginPublish(0, SAMPLE, "", 0), Exec(0, true)];
    PublishOnce(s);
    assert !NextIdIsAhead(RunFrom(Next, s, more).shared);
  }

  lemma AheadIffCounterCovers(s: State)
    requires s.up && s.calls == map[] && WellFormed(s.shared.tables)
    requires s.shared.messageID < 0xFFFF_FFFF_FFFF_FFF0
    ensures StaysAhead(s) <==> s.shared.tables.lastId <= s.shared.messageID
  {
    if s.shared.tables.lastId <= s.shared.messageID {
      assert Waiting(s.calls) == {};
      CoveredStaysAhead(s);
    } else {
      UncoveredFallsBehind(s);
    }
  }

  // So a process that recovers its statistics reports a next_message_id above all row ids for its
  // whole life exactly if the row with the largest id ever used is still in the log when it starts.
  lemma AheadIffNewestRowKept(s: State)
    requires !s.up && s.calls == map[] && WellFormed(s.shared.tables)
    requires s.shared.tables.lastId < 0x8000_0000_0000_0000
    ensures StaysAhead(Next(s, Start(true, true))) <==> MaxId(s.shared.tables.messages) == s.shared.tables.lastId
  {
    var t := s.shared.tables;
    assert MaxId(t.messages) <= t.lastId;
    var started := Next(s, Start(true, true));
    assert started.shared == s.shared.(messageID := MaxId(t.messages), totalMessages := Wrap64(|t.messages|));
    AheadIffCounterCovers(started);
  }

  // A process whose statistics query fails keeps the counter it has, and no row is covered by a fresh one.
  lemma AheadAfterFailedQuery(s: State)
    requires !s.up && s.calls == map[] && WellFormed(s.shared.tables)
    requires s.shared.messageID < 0xFFFF_FFFF_FFFF_FFF0
    ensures StaysAhead(Next(s, Start(false, true))) <==> s.shared.tables.lastId <= s.shared.messageID
    ensures s.shared.messageID == 0 ==>
              (StaysAhead(Next(s, Start(false, true))) <==> s.shared.tables.lastId == 0)
  {
    var started := Next(s, Start(false, true));
    assert started.shared == s.shared;
    AheadIffCounterCovers(started);
  }

  // So in a history that never compacts, a restart stays ahead exactly if its statistics query succeeds
  // or the log is empty.
  lemma RestartIsAheadIff(steps: seq<Step>, statsOk: bool)
    requires NeverCompacts(Commits(steps)) && Run(steps).shared.tables.lastId < 0x8000_0000_0000_0000
    ensures StaysAhead(Next(Run(steps + [Crash]), Start(statsOk, true))) <==>
            statsOk || Run(steps).shared.tables.messages == []
  {
    TablesAreHistory(steps);
    NoGapWithoutCompaction(Commits(steps));
    RunSnoc(Next, INITIAL, steps, Crash);
    RestartOf(Run(steps), statsOk);
  }

  lemma RestartOf(s: State, statsOk: bool)
    requires WellFormed(s.shared.tables) && MaxId(s.shared.tables.messages) == s.shared.tables.lastId
    requires s.shared.tables.lastId < 0x8000_0000_0000_0000
    ensures StaysAhead(Next(Next(s, Crash), Start(statsOk, true))) <==> statsOk || s.shared.tables.messages == []
  {
    var crashed := Next(s, Crash);
    assert crashed == State(FRESH.(tables := s.shared.tables), map[], false);
    if statsOk {
      AheadIffNewestRowKept(crashed);
    } else {
      AheadAfterFailedQuery(crashed);
      if s.shared.tables.messages != [] {
        assert s.shared.tables.messages[0].id > 0;
      }
    }
  }

  lemma {:induction false} OnlyCompactTopicCompacts(steps: seq<Step>)
    requires forall i :: 0 <= i < |steps| ==> !steps[i].CompactTopic?
    ensures NeverCompacts(Commits(steps))
  {
    if steps != [] {
      var front := steps[..|steps| - 1];
      assert forall i :: 0 <= i < |front| ==> front[i] == steps[i];
      OnlyCompactTopicCompacts(front);
      assert !steps[|steps| - 1].CompactTopic?;
    }
  }

  // Without compaction and with the newest row kept, a failing statistics query at a restart is enough:
  // the new process reports the id of that row as the next one.
  lemma FailedQueryCanFallBehind()
    ensures var steps := Steps(Start(true, true), BeginPublish(0, SAMPLE, "", 0), Exec(0, true), Crash)
                         + [Start(false, true)];
            var s := Run(steps);
            && NeverCompacts(Commits(steps)) && MaxId(s.shared.tables.messages) == s.shared.tables.lastId
            && s.up && s.calls == map[] && !NextIdIsAhead(s.shared) && !StaysAhead(s)
  {
    var crashed := Steps(Start(true, true), BeginPublish(0, SAMPLE, "", 0), Exec(0, true), Crash);
    OnlyCompactTopicCompacts(crashed + [Start(false, true)]);
    RunOfFour(Start(true, true), BeginPublish(0, SAMPLE, "", 0), Exec(0, true), Crash);
    FirstPublish();
    RunSnoc(Next, INITIAL, crashed, Start(false, true));
    BehindAfterFailedQuery(Run(crashed));
  }

  lemma BehindAfterFailedQuery(s: State)
    requires !s.up && s.shared.messageID == 0
    requires s.shared.tables == Tables([MessageRow(1, "t", [1], 0, false, "", 0)], 1, [])
    ensures var s' := Next(s, Start(false, true));
            && MaxId(s'.shared.tables.messages) == s'.shared.tables.lastId
            && !NextIdIsAhead(s'.shared) && !StaysAhead(s')
  {
    var s' := Next(s, Start(false, true));
    assert s'.shared == s.shared;
    assert s'.shared.tables.messages[0].id == Wrap64(s'.shared.messageID + 1);
    assert RunFrom(Next, s', []) == s';
  }

  lemma CompactionDropsNewestRow()
    ensures var s := Run(Steps(Start(true, true), BeginPublish(0, SAMPLE, "", 0), Exec(0, true),
                               CompactTopic("t", 1, true)));
            s.up && s.shared.tables.messages == [] && s.shared.tables.lastId == 1
  {
    RunOfFour(Start(true, true), BeginPublish(0, SAMPLE, "", 0), Exec(0, true), CompactTopic("t", 1, true));
    FirstPublish();
    FilterNone([MessageRow(1, "t", [1], 0, false, "", 0)], NotExpired("t", 1));
  }

  // Compacting the only row before a restart is enough: the new process falls behind the row ids.
  lemma CompactionCanLoseNewestRow()
    ensures var s := Run(Steps(Start(true, true), BeginPublish(0, SAMPLE, "", 0), Exec(0, true),
                               CompactTopic("t", 1, true)) + [Crash]);
            var restarted := Next(s, Start(true, true));
            restarted.up && restarted.calls == map[] && !StaysAhead(restarted)
  {
    var steps := Steps(Start(true, true), BeginPublish(0, SAMPLE, "", 0), Exec(0, true),
                       CompactTopic("t", 1, true));
    CompactionDropsNewestRow();
    RunSnoc(Next, INITIAL, steps, Crash);
    TablesAreHistory(steps);
    RestartFallsBehind(Run(steps));
  }

  lemma RestartFallsBehind(s: State)
    requires WellFormed(s.shared.tables) && s.shared.tables.messages == [] && s.shared.tables.lastId == 1
    ensures var restarted := Next(Next(s, Crash), Start(true, true));
            restarted.up && restarted.calls == map[] && !StaysAhead(restarted)
  {
    AheadIffNewestRowKept(Next(s, Crash));
  }

  // Drawn ids against row ids

  // The INSERT of call c would give its row the id that the call drew.
  predicate RowTakesDrawnId(s: State, c: nat)
    requires Enabled(s, Exec(c, true)) && s.calls[c].PublishCall?
  {
    var rows, rows' := s.shared.tables.messages, Next(s, Exec(c, true)).shared.tables.messages;
    |rows'| == |rows| + 1 && rows'[|rows|].id == s.calls[c].msg.id
  }

  // Rows inserted by the steps.
  function InsertCount(s: State, steps: seq<Step>): nat {
    if steps == [] then 0
    else
      var front := steps[..|steps| - 1];
      InsertCount(s, front) + Bit(Inserts(RunFrom(Next, s, front), steps[|steps| - 1]))
  }

  lemma StepInserts(s: State, step: Step)
    ensures Next(s, step).shared.tables.lastId == s.shared.tables.lastId + Bit(Inserts(s, step))
  {
  }

  lemma {:induction false} InsertsCountUp(s: State, steps: seq<Step>)
    ensures RunFrom(Next, s, steps).shared.tables.lastId == s.shared.tables.lastId + InsertCount(s, steps)
  {
    if steps != [] {
      var front := steps[..|steps| - 1];
      InsertsCountUp(s, front);
      StepInserts(RunFrom(Next, s, front), steps[|steps| - 1]);
    }
  }

  // Call c, waiting to insert, is the one that began with the step publish.
  ghost predicate StillWaits(begun: State, publish: Step, s: State) {
    && publish.BeginPublish? && Enabled(begun, publish)
    && publish.c in s.calls && s.calls[publish.c] == NewCall(begun, publish)
  }

  // A logged message is reported under its row id. That is the id its call drew exactly if the counter
  // before the draw and the largest row id at the insert agree. When they agreed at the start, that
  // means: as many ids were drawn before its draw as rows were inserted before its insert.
  lemma RowTakesDrawnIdIff(start: State, before: seq<Step>, publish: Step, between: seq<Step>)
    requires OneRun(before)
    requires var begun := RunFrom(Next, start, before);
             StillWaits(begun, publish, RunFrom(Next, Next(begun, publish), between))
    ensures var begun := RunFrom(Next, start, before);
            var s := RunFrom(Next, Next(begun, publish), between);
            var inserts := InsertCount(start, before) + InsertCount(Next(begun, publish), between);
            var draws, drawn, used := |Draws(start, before)|, start.shared.messageID, start.shared.tables.lastId;
            && (RowTakesDrawnId(s, publish.c) <==> used + inserts + 1 == Wrap64(drawn + draws + 1))
            && (used == drawn && drawn + |before| < 0xFFFF_FFFF_FFFF_FFFF ==>
                  (RowTakesDrawnId(s, publish.c) <==> inserts == draws))
  {
    var begun := RunFrom(Next, start, before);
    DrawsCountUp(start, before);
    WrapAdd(start.shared.messageID + |Draws(start, before)|, 1);
    InsertsCountUp(start, before);
    StepInserts(begun, publish);
    InsertsCountUp(Next(begun, publish), between);
    InsertedId(RunFrom(Next, Next(begun, publish), between), publish.c);
  }

  lemma InsertedId(s: State, c: nat)
    requires Enabled(s, Exec(c, true)) && s.calls[c].PublishCall?
    ensures RowTakesDrawnId(s, c) <==> s.shared.tables.lastId + 1 == s.calls[c].msg.id
  {
  }

  // A retain hook before the publish, or a failed insert, is enough to separate them.
  lemma RowIdCanDiffer()
    ensures var s := Run(Steps(Start(true, true), BeginRetain(0, OnRetainMessageHook, SAMPLE, "", 0),
                               Exec(0, true), BeginPublish(1, SAMPLE, "", 0)));
            Enabled(s, Exec(1, true)) && s.calls[1].PublishCall? && !RowTakesDrawnId(s, 1)
    ensures var s := Run(Steps(Start(true, true), BeginPublish(0, SAMPLE, "", 0), Exec(0, false),
                               BeginPublish(1, SAMPLE, "", 0)));
            Enabled(s, Exec(1, true)) && s.calls[1].PublishCall? && !RowTakesDrawnId(s, 1)
  {
    RunOfFour(Start(true, true), BeginRetain(0, OnRetainMessageHook, SAMPLE, "", 0), Exec(0, true),
              BeginPublish(1, SAMPLE, "", 0));
    RunOfFour(Start(true, true), BeginPublish(0, SAMPLE, "", 0), Exec(0, false), BeginPublish(1, SAMPLE, "", 0));
  }

  // Ids against stored retained ids

  // No id drawn in any continuation of the run (short of 2^64 draws) is the id of a stored row.
  ghost predicate StoredIdsStayUnique(s: State) {
    forall more :: OneRun(more) && s.shared.messageID + |more| < 0x1_0000_0000_0000_0000 ==>
                     DrawsAvoid(Draws(s, more), s.shared.tables.retained)
  }

  ghost predicate DrawsAvoid(drawn: seq<uint64>, rows: seq<RetainedRow>) {
    forall r :: r in rows ==> r.msgId !in drawn
  }

  function Publishes(n: nat): seq<Step> {
    if n == 0 then [] else Publishes(n - 1) + [BeginPublish(n - 1, SAMPLE, "", 0)]
  }

  // Up, with only calls below n in flight.
  ghost predicate HasRoom(s: State, n: nat) {
    s.up && forall c :: c in s.calls ==> c < n
  }

  lemma OneMorePublish(s: State, n: nat)
    requires HasRoom(s, n)
    ensures |DrawOf(s, BeginPublish(n, SAMPLE, "", 0))| == 1
    ensures HasRoom(Next(s, BeginPublish(n, SAMPLE, "", 0)), n + 1)
  {
  }

  lemma {:induction false} PublishesAreOneRun(n: nat)
    ensures |Publishes(n)| == n && OneRun(Publishes(n))
  {
    if n > 0 {
      PublishesAreOneRun(n - 1);
    }
  }

  lemma {:induction false} PublishesLeaveRoom(s: State, n: nat)
    requires s.up && s.calls == map[]
    ensures HasRoom(RunFrom(Next, s, Publishes(n)), n)
  {
    if n > 0 {
      PublishesLeaveRoom(s, n - 1);
      RunSnoc(Next, s, Publishes(n - 1), BeginPublish(n - 1, SAMPLE, "", 0));
      OneMorePublish(RunFrom(Next, s, Publishes(n - 1)), n - 1);
    }
  }

  lemma NextPublishDraws(s: State, n: nat)
    requires s.up && s.calls == map[]
    ensures |DrawOf(RunFrom(Next, s, Publishes(n)), BeginPublish(n, SAMPLE, "", 0))| == 1
  {
    PublishesLeaveRoom(s, n);
    OneMorePublish(RunFrom(Next, s, Publishes(n)), n);
  }

  lemma OneMoreDraw(s: State, steps: seq<Step>, step: Step)
    requires |DrawOf(RunFrom(Next, s, steps), step)| == 1
    ensures |Draws(s, steps + [step])| == |Draws(s, steps)| + 1
  {
    EmitSnoc(Next, DrawOf, s, steps, step);
  }

  lemma {:induction false} PublishesDraw(s: State, n: nat)
    requires s.up && s.calls == map[]
    ensures |Draws(s, Publishes(n))| == n
  {
    if n > 0 {
      PublishesDraw(s, n - 1);
      NextPublishDraws(s, n - 1);
      OneMoreDraw(s, Publishes(n - 1), BeginPublish(n - 1, SAMPLE, "", 0));
    }
  }

  // Ids stay unique against the retained rows of earlier processes exactly if none of those is above
  // the counter that recovery loaded, which looks at the message log alone.
  lemma StoredIdsUniqueIffCovered(s: State)
    requires s.up && s.calls == map[]
    ensures StoredIdsStayUnique(s) <==> forall r :: r in s.shared.tables.retained ==> r.msgId <= s.shared.messageID
  {
    if forall r :: r in s.shared.tables.retained ==> r.msgId <= s.shared.messageID {
      forall more | OneRun(more) && s.shared.messageID + |more| < 0x1_0000_0000_0000_0000
        ensures DrawsAvoid(Draws(s, more), s.shared.tables.retained)
      {
        DrawsCountUp(s, more);
      }
    } else {
      var r :| r in s.shared.tables.retained && r.msgId > s.shared.messageID;
      var n := r.msgId - s.shared.messageID;
      PublishesAreOneRun(n);
      PublishesDraw(s, n);
      DrawsCountUp(s, Publishes(n));
      assert Draws(s, Publishes(n))[n - 1] == r.msgId;
      assert !DrawsAvoid(Draws(s, Publishes(n)), s.shared.tables.retained);
    }
  }

  // A retained message without a logged one is enough: after a restart its id is drawn again.
  lemma RetainedIdCanBeDrawnAgain()
    ensures var retain := BeginRetain(0, OnRetainMessageHook, SAMPLE, "", 0);
            var s := Run(Steps(Start(true, true), retain, Exec(0, true), Crash));
            var restarted := Next(s, Start(true, true));
            restarted.up && restarted.calls == map[] && !StoredIdsStayUnique(restarted)
  {
    var retain := BeginRetain(0, OnRetainMessageHook, SAMPLE, "", 0);
    RunOfFour(Start(true, true), retain, Exec(0, true), Crash);
    var s2 := Next(Next(INITIAL, Start(true, true)), retain);
    var s3 := Next(s2, Exec(0, true));
    var row := s3.shared.tables.retained[0];
    assert row.msgId == 1;
    var restarted := Next(Next(s3, Crash), Start(true, true));
    assert row in restarted.shared.tables.retained;
    StoredIdsUniqueIffCovered(restarted);
  }
}
