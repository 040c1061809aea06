// Any number of hook calls, interleaved between their atomic actions, with crashes and restarts.
module Protocol {
  import opened Words
  import opened Sums
  import opened Runs
  import opened Mqtt
  import opened Metrics
  import opened Storage

  // OnPublish: the id is drawn; the INSERT has run; its latency is observed; its outcome is counted;
  // totalMessages is incremented. The call ends with totalBytes, or with the error counter.
  datatype PublishPc =
    | Drawn
    | Executed(ok: bool)
    | Observed(ok: bool)
    | OutcomeCounted(ok: bool)
    | MessageCounted

  // A retain hook: its statement is still to run, or its upsert is still to be read back.
  datatype RetainPc = Ready | Upserted

  datatype Call =
    | PublishCall(msg: Message, pc: PublishPc)
    | RetainCall(hook: RetainHook, msg: Message, rpc: RetainPc)

  type Calls = map<nat, Call>

  // up: Start has returned without an error in this process.
  datatype State = State(shared: Shared, calls: Calls, up: bool)

  // A step of the call c, a compaction, a crash or a start. Whether a statement succeeds is chosen
  // by the environment. A step that is not enabled changes nothing, so that every sequence of steps
  // is an interleaving.
  datatype Step =
    | BeginPublish(c: nat, packet: Packet, client: string, now: int)
    | BeginRetain(c: nat, hook: RetainHook, packet: Packet, client: string, now: int)
    | Exec(c: nat, ok: bool)
    | Advance(c: nat)
    | CompactTopic(topic: string, before: int, execOk: bool)
    | Crash
    | Start(statsOk: bool, countOk: bool)

  const INITIAL := State(FRESH, map[], false)

  function MessageOf(id: uint64, packet: Packet, retain: bool, client: string, now: int): Message {
    Message(id, packet.topicName, packet.payload, packet.qos, retain, client, now)
  }

  predicate CanExec(call: Call) {
    match call
    case PublishCall(_, pc) => pc.Drawn?
    case RetainCall(_, _, rpc) => rpc.Ready?
  }

  predicate Enabled(s: State, step: Step) {
    match step
    case BeginPublish(c, packet, _, _) => s.up && c !in s.calls && packet.packetType == PUBLISH
    case BeginRetain(c, _, _, _, _) => s.up && c !in s.calls
    case Exec(c, _) => c in s.calls && CanExec(s.calls[c])
    case Advance(c) => c in s.calls && !CanExec(s.calls[c])
    case CompactTopic(_, _, _) => s.up
    case Crash => true
    case Start(_, _) => !s.up
  }

  predicate DrawsId(s: State, step: Step) {
    Enabled(s, step) &&
    (step.BeginPublish? || (step.BeginRetain? && step.packet.payload != []))
  }

  function NewCall(s: State, step: Step): Call
    requires step.BeginPublish? || step.BeginRetain?
  {
    var id := if DrawsId(s, step) then Wrap64(s.shared.messageID + 1) else 0;
    match step
    case BeginPublish(_, packet, client, now) =>
      PublishCall(MessageOf(id, packet, packet.retain, client, now), Drawn)
    case BeginRetain(_, hook, packet, client, now) =>
      RetainCall(hook, MessageOf(id, packet, true, client, now), Ready)
  }

  function Begin(s: State, step: Step): State
    requires step.BeginPublish? || step.BeginRetain?
    requires Enabled(s, step)
  {
    var id := if DrawsId(s, step) then Wrap64(s.shared.messageID + 1) else s.shared.messageID;
    s.(shared := s.shared.(messageID := id), calls := s.calls[step.c := NewCall(s, step)])
  }

  // The statement of a call commits or fails.
  function ExecOp(call: Call, ok: bool): Op {
    match call
    case PublishCall(msg, _) => PublishOp(msg, ok)
    case RetainCall(hook, msg, _) => RetainOp(hook, msg, ok)
  }

  function AfterExec(calls: Calls, c: nat, ok: bool): Calls
    requires c in calls
  {
    match calls[c]
    case PublishCall(msg, _) => calls[c := PublishCall(msg, Executed(ok))]
    case RetainCall(hook, msg, _) =>
      if ok && msg.payload != [] then calls[c := RetainCall(hook, msg, Upserted)] else calls - {c}
  }

  // The next action of a call after its statement.
  function AdvanceCall(s: State, c: nat): State
    requires Enabled(s, Advance(c))
  {
    var sh, w := s.shared, s.shared.writes;
    match s.calls[c]
    case PublishCall(msg, Executed(ok)) =>
      State(sh.(writes := w.(observed := w.observed + 1)), s.calls[c := PublishCall(msg, Observed(ok))], s.up)
    case PublishCall(msg, Observed(ok)) =>
      var w' := if ok then w.(successes := w.successes + 1) else w.(errorOps := w.errorOps + 1);
      State(sh.(writes := w'), s.calls[c := PublishCall(msg, OutcomeCounted(ok))], s.up)
    case PublishCall(msg, OutcomeCounted(ok)) =>
      if ok then
        State(sh.(totalMessages := Wrap64(sh.totalMessages + 1)), s.calls[c := PublishCall(msg, MessageCounted)], s.up)
      else
        State(sh.(writes := w.(errors := w.errors + 1)), s.calls - {c}, s.up)
    case PublishCall(msg, MessageCounted) =>
      State(sh.(totalBytes := Wrap64(sh.totalBytes + Size(msg))), s.calls - {c}, s.up)
    case RetainCall(_, _, _) => s.(calls := s.calls - {c})
  }

  function Next(s: State, step: Step): State {
    if !Enabled(s, step) then s
    else
      match step
      case BeginPublish(_, _, _, _) => Begin(s, step)
      case BeginRetain(_, _, _, _, _) => Begin(s, step)
      case Exec(c, ok) =>
        State(s.shared.(tables := ApplyToTables(s.shared.tables, ExecOp(s.calls[c], ok))),
              AfterExec(s.calls, c, ok), s.up)
      case Advance(c) => AdvanceCall(s, c)
      case CompactTopic(topic, before, ok) => s.(shared := Apply(s.shared, CompactOp(topic, before, ok)))
      case Crash => State(Apply(s.shared, CrashOp), map[], false)
      case Start(statsOk, countOk) => State(Apply(s.shared, StartOp(statsOk)), s.calls, countOk)
  }

  function Run(steps: seq<Step>): State {
    RunFrom(Next, INITIAL, steps)
  }

  // The operations of a run, in the order in which their statements committed or failed.

  function OpOf(s: State, step: Step): seq<Op> {
    if !Enabled(s, step) then []
    else
      match step
      case Exec(c, ok) => [ExecOp(s.calls[c], ok)]
      case CompactTopic(topic, before, ok) => [CompactOp(topic, before, ok)]
      case Crash => [CrashOp]
      case Start(statsOk, _) => [StartOp(statsOk)]
      case _ => []
  }

  function Commits(steps: seq<Step>): seq<Op> {
    EmitFrom(Next, OpOf, INITIAL, steps)
  }

  // What the calls in flight still owe

  datatype Pending = Pending(
    drawn: nat, messages: nat, bytes: nat, observed: nat, successes: nat, errorOps: nat, errors: nat)

  function Bit(b: bool): nat {
    if b then 1 else 0
  }

  // Ids drawn for a statement that has not run yet
  function DrawnDue(call: Call): nat {
    Bit(CanExec(call) && (call.PublishCall? || call.msg.payload != []))
  }

  // Committed inserts that totalMessages does not count yet
  function MessageDue(call: Call): nat {
    Bit(call.PublishCall? && !call.pc.Drawn? && !call.pc.MessageCounted? && call.pc.ok)
  }

  function BytesDue(call: Call): nat {
    if call.PublishCall? && (call.pc.MessageCounted? || (!call.pc.Drawn? && call.pc.ok)) then Size(call.msg) else 0
  }

  function ObservedDue(call: Call): nat {
    Bit(call.PublishCall? && call.pc.Executed?)
  }

  function SuccessDue(call: Call): nat {
    Bit(call.PublishCall? && (call.pc.Executed? || call.pc.Observed?) && call.pc.ok)
  }

  function ErrorOpDue(call: Call): nat {
    Bit(call.PublishCall? && (call.pc.Executed? || call.pc.Observed?) && !call.pc.ok)
  }

  function ErrorDue(call: Call): nat {
    Bit(call.PublishCall? && !call.pc.Drawn? && !call.pc.MessageCounted? && !call.pc.ok)
  }

  function Due(call: Call): Pending {
    Pending(DrawnDue(call), MessageDue(call), BytesDue(call), ObservedDue(call), SuccessDue(call),
            ErrorOpDue(call), ErrorDue(call))
  }

  const NOTHING := Pending(0, 0, 0, 0, 0, 0, 0)

  function Plus(p: Pending, q: Pending): Pending {
    Pending(p.drawn + q.drawn, p.messages + q.messages, p.bytes + q.bytes, p.observed + q.observed,
            p.successes + q.successes, p.errorOps + q.errorOps, p.errors + q.errors)
  }

  ghost function AllDue(calls: Calls): Pending {
    Sum(calls, Due, Plus, NOTHING)
  }

  lemma AllDueSet(calls: Calls, c: nat, call: Call)
    ensures AllDue(calls[c := call]) == Plus(Due(call), AllDue(calls - {c}))
    ensures c in calls ==> AllDue(calls) == Plus(Due(calls[c]), AllDue(calls - {c}))
    ensures c !in calls ==> calls - {c} == calls
  {
    SumUpdate(calls, c, call, Due, Plus, NOTHING);
  }

  // The shared state as if no call were in flight: draws without a statement are taken back, and the
  // counters catch up with the statements that have run.
  function Settle(sh: Shared, p: Pending): Shared {
    var w := sh.writes;
    Shared(sh.tables, Wrap64(sh.messageID - p.drawn), Wrap64(sh.totalMessages + p.messages),
           Wrap64(sh.totalBytes + p.bytes),
           WriteStats(w.observed + p.observed, w.successes + p.successes, w.errorOps + p.errorOps,
                      w.errors + p.errors))
  }

  ghost function Settled(s: State): Shared {
    Settle(s.shared, AllDue(s.calls))
  }

  lemma SettledWhenIdle(s: State)
    requires s.calls == map[]
    ensures Settled(s) == s.shared
  {
  }

  lemma {:induction false} DownMeansIdle(steps: seq<Step>)
    ensures !Run(steps).up ==> Run(steps).calls == map[]
  {
    if steps != [] {
      DownMeansIdle(steps[..|steps| - 1]);
    }
  }

  // How one action of a call shows in the settled state; p is what the other calls owe.

  lemma DrawSettles(sh: Shared, p: Pending)
    ensures Settle(sh.(messageID := Wrap64(sh.messageID + 1)), p.(drawn := p.drawn + 1)) == Settle(sh, p)
  {
    WrapAdd(sh.messageID + 1, -(p.drawn + 1));
  }

  function OwedAfterInsert(p: Pending, msg: Message, ok: bool): Pending {
    if ok then
      p.(messages := p.messages + 1, bytes := p.bytes + Size(msg), observed := p.observed + 1,
         successes := p.successes + 1)
    else p.(observed := p.observed + 1, errorOps := p.errorOps + 1, errors := p.errors + 1)
  }

  lemma PublishSettles(sh: Shared, p: Pending, msg: Message, ok: bool)
    ensures Settle(sh.(tables := ApplyToTables(sh.tables, PublishOp(msg, ok))), OwedAfterInsert(p, msg, ok))
         == Apply(Settle(sh, p.(drawn := p.drawn + 1)), PublishOp(msg, ok))
  {
    WrapAdd(sh.messageID - (p.drawn + 1), 1);
    if ok {
      WrapAdd(sh.totalMessages + p.messages, 1);
      WrapAdd(sh.totalBytes + p.bytes, Size(msg));
    }
  }

  function OwedBeforeRetain(p: Pending, msg: Message): Pending {
    if msg.payload == [] then p else p.(drawn := p.drawn + 1)
  }

  lemma RetainSettles(sh: Shared, p: Pending, hook: RetainHook, msg: Message, ok: bool)
    ensures Settle(sh.(tables := ApplyToTables(sh.tables, RetainOp(hook, msg, ok))), p)
         == Apply(Settle(sh, OwedBeforeRetain(p, msg)), RetainOp(hook, msg, ok))
  {
    WrapAdd(sh.messageID - (p.drawn + 1), 1);
  }

  lemma CountMessageSettles(sh: Shared, p: Pending)
    ensures Settle(sh.(totalMessages := Wrap64(sh.totalMessages + 1)), p)
         == Settle(sh, p.(messages := p.messages + 1))
  {
    WrapAdd(sh.totalMessages + 1, p.messages);
  }

  lemma CountBytesSettles(sh: Shared, p: Pending, n: nat)
    ensures Settle(sh.(totalBytes := Wrap64(sh.totalBytes + n)), p) == Settle(sh, p.(bytes := p.bytes + n))
  {
    WrapAdd(sh.totalBytes + n, p.bytes);
  }

  // What a single call adds to what the others owe.
  lemma PublishDue(msg: Message, p: Pending, ok: bool)
    ensures Plus(Due(PublishCall(msg, Drawn)), p) == p.(drawn := p.drawn + 1)
    ensures Plus(Due(PublishCall(msg, Executed(ok))), p) == OwedAfterInsert(p, msg, ok)
  {
  }

  lemma RetainDue(hook: RetainHook, msg: Message, p: Pending)
    ensures Plus(Due(RetainCall(hook, msg, Ready)), p) == OwedBeforeRetain(p, msg)
    ensures Plus(Due(RetainCall(hook, msg, Upserted)), p) == p
  {
  }

  lemma NewCallDue(calls: Calls, c: nat, call: Call)
    requires c !in calls && CanExec(call)
    ensures var p := AllDue(calls);
            AllDue(calls[c := call]) ==
            if call.PublishCall? then p.(drawn := p.drawn + 1) else OwedBeforeRetain(p, call.msg)
  {
    AllDueSet(calls, c, call);
    match call
    case PublishCall(msg, _) => PublishDue(msg, AllDue(calls), true);
    case RetainCall(hook, msg, _) => RetainDue(hook, msg, AllDue(calls));
  }

  lemma BeginDue(s: State, step: Step)
    requires step.BeginPublish? || step.BeginRetain?
    requires Enabled(s, step)
    ensures var p := AllDue(s.calls);
            AllDue(Begin(s, step).calls) == if DrawsId(s, step) then p.(drawn := p.drawn + 1) else p
  {
    NewCallDue(s.calls, step.c, NewCall(s, step));
  }

  lemma BeginSettles(s: State, step: Step)
    requires step.BeginPublish? || step.BeginRetain?
    requires Enabled(s, step)
    ensures Settled(Begin(s, step)) == Settled(s)
  {
    BeginDue(s, step);
    DrawSettles(s.shared, AllDue(s.calls));
  }

  lemma ExecDue(calls: Calls, c: nat, ok: bool)
    requires c in calls && CanExec(calls[c])
    ensures var p, msg := AllDue(calls - {c}), calls[c].msg;
            if calls[c].PublishCall? then
              && AllDue(calls) == p.(drawn := p.drawn + 1)
              && AllDue(AfterExec(calls, c, ok)) == OwedAfterInsert(p, msg, ok)
            else
              && AllDue(calls) == OwedBeforeRetain(p, msg)
              && AllDue(AfterExec(calls, c, ok)) == p
  {
    var p, msg := AllDue(calls - {c}), calls[c].msg;
    match calls[c]
    case PublishCall(_, _) =>
      AllDueSet(calls, c, PublishCall(msg, Executed(ok)));
      PublishDue(msg, p, ok);
    case RetainCall(hook, _, _) =>
      AllDueSet(calls, c, RetainCall(hook, msg, Upserted));
      RetainDue(hook, msg, p);
  }

  lemma ExecSettles(s: State, c: nat, ok: bool)
    requires Enabled(s, Exec(c, ok))
    ensures Settled(Next(s, Exec(c, ok))) == Apply(Settled(s), ExecOp(s.calls[c], ok))
  {
    var p := AllDue(s.calls - {c});
    ExecDue(s.calls, c, ok);
    match s.calls[c]
    case PublishCall(msg, _) => PublishSettles(s.shared, p, msg, ok);
    case RetainCall(hook, msg, _) => RetainSettles(s.shared, p, hook, msg, ok);
  }

  function OwedBeforeAdvance(p: Pending, call: Call): Pending {
    match call
    case PublishCall(_, Executed(_)) => p.(observed := p.observed + 1)
    case PublishCall(_, Observed(ok)) =>
      if ok then p.(successes := p.successes + 1) else p.(errorOps := p.errorOps + 1)
    case PublishCall(_, OutcomeCounted(ok)) =>
      if ok then p.(messages := p.messages + 1) else p.(errors := p.errors + 1)
    case PublishCall(msg, MessageCounted) => p.(bytes := p.bytes + Size(msg))
    case _ => p
  }

  lemma AdvancedDue(msg: Message, p: Pending, ok: bool)
    ensures var call := PublishCall(msg, Executed(ok));
            Plus(Due(call), p) == OwedBeforeAdvance(Plus(Due(PublishCall(msg, Observed(ok))), p), call)
    ensures var call := PublishCall(msg, Observed(ok));
            Plus(Due(call), p) == OwedBeforeAdvance(Plus(Due(PublishCall(msg, OutcomeCounted(ok))), p), call)
    ensures var call := PublishCall(msg, OutcomeCounted(true));
            Plus(Due(call), p) == OwedBeforeAdvance(Plus(Due(PublishCall(msg, MessageCounted)), p), call)
    ensures var call := PublishCall(msg, OutcomeCounted(false));
            Plus(Due(call), p) == OwedBeforeAdvance(p, call)
    ensures var call := PublishCall(msg, MessageCounted);
            Plus(Due(call), p) == OwedBeforeAdvance(p, call)
  {
  }

  lemma AdvanceDue(s: State, c: nat)
    requires Enabled(s, Advance(c))
    ensures AllDue(s.calls) == OwedBeforeAdvance(AllDue(AdvanceCall(s, c).calls), s.calls[c])
  {
    var call, p, next := s.calls[c], AllDue(s.calls - {c}), AdvanceCall(s, c).calls;
    AllDueSet(s.calls, c, if c in next then next[c] else call);
    match call
    case PublishCall(msg, pc) => AdvancedDue(msg, p, if pc.MessageCounted? then true else pc.ok);
    case RetainCall(hook, msg, _) => RetainDue(hook, msg, p);
  }

  lemma AdvanceSettles(s: State, c: nat)
    requires Enabled(s, Advance(c))
    ensures Settled(AdvanceCall(s, c)) == Settled(s)
  {
    AdvanceDue(s, c);
    var p := AllDue(AdvanceCall(s, c).calls);
    match s.calls[c]
    case PublishCall(_, OutcomeCounted(ok)) =>
      if ok {
        CountMessageSettles(s.shared, p);
      }
    case PublishCall(msg, MessageCounted) => CountBytesSettles(s.shared, p, Size(msg));
    case _ =>
  }

  lemma StepSettles(s: State, step: Step)
    requires Enabled(s, step) && (!s.up ==> s.calls == map[])
    ensures var op := OpOf(s, step);
            Settled(Next(s, step)) == if op == [] then Settled(s) else Apply(Settled(s), op[0])
  {
    match step
    case BeginPublish(_, _, _, _) => BeginSettles(s, step);
    case BeginRetain(_, _, _, _, _) => BeginSettles(s, step);
    case Exec(c, ok) => ExecSettles(s, c, ok);
    case Advance(c) => AdvanceSettles(s, c);
    case CompactTopic(_, _, _) =>
    case Crash => SettledWhenIdle(Next(s, step));
    case Start(_, _) =>
      SettledWhenIdle(s);
      SettledWhenIdle(Next(s, step));
  }

  // Every interleaving is equivalent to running its operations one after another, in the order of
  // their statements, up to what the calls in flight still owe.
  lemma {:induction false} Simulation(steps: seq<Step>)
    ensures Replay(Commits(steps)) == Settled(Run(steps))
  {
    if steps == [] {
      SettledWhenIdle(INITIAL);
    } else {
      var front, last := steps[..|steps| - 1], steps[|steps| - 1];
      Simulation(front);
      DownMeansIdle(front);
      var s := Run(front);
      if Enabled(s, last) {
        StepSettles(s, last);
        if OpOf(s, last) != [] {
          ReplaySnoc(Commits(front), OpOf(s, last)[0]);
          assert OpOf(s, last) == [OpOf(s, last)[0]];
        }
      }
      assert OpOf(s, last) == [] ==> Commits(steps) == Commits(front);
    }
  }
}
