// An interleaving against the manager's own calls, one after another.
module Serialization {
  import opened Words
  import opened Runs
  import opened Mqtt
  import opened Metrics
  import opened Sequences
  import opened Database
  import opened Storage
  import opened Protocol
  import opened ProtocolLaws

  // The operation as the manager runs it alone: it draws the next value of the counter.
  function Numbered(messageID: uint64, op: Op): Op {
    match op
    case PublishOp(msg, ok) => PublishOp(msg.(id := Wrap64(messageID + 1)), ok)
    case RetainOp(hook, msg, ok) =>
      RetainOp(hook, msg.(id := if msg.payload == [] then 0 else Wrap64(messageID + 1)), ok)
    case _ => op
  }

  function Renumbered(ops: seq<Op>): seq<Op> {
    if ops == [] then []
    else
      var front := Renumbered(ops[..|ops| - 1]);
      front + [Numbered(Replay(front).messageID, ops[|ops| - 1])]
  }

  // Only retained rows keep a drawn id.
  function WithoutIds(rows: seq<RetainedRow>): (r: seq<RetainedRow>)
    ensures |r| == |rows|
    ensures forall i :: 0 <= i < |rows| ==> r[i] == rows[i].(msgId := 0)
  {
    seq(|rows|, i requires 0 <= i < |rows| => rows[i].(msgId := 0))
  }

  ghost predicate SameUpToIds(s: Shared, s': Shared) {
    s.(tables := s.tables.(retained := WithoutIds(s.tables.retained)))
    == s'.(tables := s'.tables.(retained := WithoutIds(s'.tables.retained)))
  }

  lemma {:induction false} FilterWithoutIds(rows: seq<RetainedRow>, topic: string)
    ensures WithoutIds(Filter(rows, NotRetainedFor(topic))) == Filter(WithoutIds(rows), NotRetainedFor(topic))
  {
    if rows != [] {
      var front, last := rows[..|rows| - 1], rows[|rows| - 1];
      FilterWithoutIds(front, topic);
      assert WithoutIds(rows)[..|rows| - 1] == WithoutIds(front);
      var kept := Filter(front, NotRetainedFor(topic));
      assert WithoutIds(kept + [last]) == WithoutIds(kept) + [last.(msgId := 0)];
    }
  }

  lemma RetainUpToIds(t: Tables, t': Tables, msg: Message, msg': Message)
    requires WithoutIds(t.retained) == WithoutIds(t'.retained)
    requires msg'.(id := 0) == msg.(id := 0)
    ensures WithoutIds(Retain(t, msg).retained) == WithoutIds(Retain(t', msg').retained)
  {
    FilterWithoutIds(t.retained, msg.topic);
    FilterWithoutIds(t'.retained, msg.topic);
    var kept, kept' := DeleteRetained(t, msg.topic).retained, DeleteRetained(t', msg.topic).retained;
    var row, row' := RetainedRowOf(msg), RetainedRowOf(msg');
    assert WithoutIds(kept + [row]) == WithoutIds(kept) + [row.(msgId := 0)];
    assert WithoutIds(kept' + [row']) == WithoutIds(kept') + [row'.(msgId := 0)];
  }

  lemma ApplyUpToIds(s: Shared, s': Shared, op: Op)
    requires SameUpToIds(s, s')
    ensures SameUpToIds(Apply(s, op), Apply(s', Numbered(s'.messageID, op)))
  {
    match op
    case RetainOp(hook, msg, _) => RetainUpToIds(s.tables, s'.tables, msg, Numbered(s'.messageID, op).msg);
    case _ =>
  }

  lemma {:induction false} RenumberingIsHarmless(ops: seq<Op>)
    ensures SameUpToIds(Replay(ops), Replay(Renumbered(ops)))
  {
    if ops != [] {
      var front, last := ops[..|ops| - 1], ops[|ops| - 1];
      RenumberingIsHarmless(front);
      ReplaySnoc(Renumbered(front), Numbered(Replay(Renumbered(front)).messageID, last));
      ApplyUpToIds(Replay(front), Replay(Renumbered(front)), last);
    }
  }

  // Once no call is in flight, an interleaving has done what the manager does when it runs the same
  // operations one by one in the order of their statements, except for the ids in retained rows.
  lemma SerializableByManager(steps: seq<Step>)
    requires Run(steps).calls == map[]
    ensures SameUpToIds(Run(steps).shared, Replay(Renumbered(Commits(steps))))
  {
    Serializable(steps);
    RenumberingIsHarmless(Commits(steps));
  }

  // The atomic actions of a publish that runs alone add up to the operation, with the id drawn from
  // the counter. (After a failed insert the last step finds the call gone and changes nothing.)
  lemma SoloPublish(s: State, packet: Packet, client: string, now: int, ok: bool)
    requires s.up && s.calls == map[] && packet.packetType == PUBLISH
    ensures var drawn := Next(s, BeginPublish(0, packet, client, now));
            var executed := Next(drawn, Exec(0, ok));
            var end := Next(Next(Next(Next(executed, Advance(0)), Advance(0)), Advance(0)), Advance(0));
            var msg := MessageOf(Wrap64(s.shared.messageID + 1), packet, packet.retain, client, now);
            end == s.(shared := Apply(s.shared, PublishOp(msg, ok)))
  {
    var msg := MessageOf(Wrap64(s.shared.messageID + 1), packet, packet.retain, client, now);
    var drawn := Next(s, BeginPublish(0, packet, client, now));
    var executed := Next(drawn, Exec(0, ok));
    assert executed.calls == map[0 := PublishCall(msg, Executed(ok))];
    var observed := Next(executed, Advance(0));
    assert observed.calls == map[0 := PublishCall(msg, Observed(ok))];
    var counted := Next(observed, Advance(0));
    assert counted.calls == map[0 := PublishCall(msg, OutcomeCounted(ok))];
  }

  // Likewise for a retain hook: its statement and, after an upsert, its read-back.
  lemma SoloRetain(s: State, hook: RetainHook, packet: Packet, client: string, now: int, ok: bool)
    requires s.up && s.calls == map[]
    ensures var begun := Next(s, BeginRetain(0, hook, packet, client, now));
            var end := Next(Next(begun, Exec(0, ok)), Advance(0));
            var id := if packet.payload == [] then 0 else Wrap64(s.shared.messageID + 1);
            end == s.(shared := Apply(s.shared, RetainOp(hook, MessageOf(id, packet, true, client, now), ok)))
  {
  }

  // A packet of another type begins no publish call.
  lemma OtherPacketsPass(s: State, c: nat, packet: Packet, client: string, now: int)
    requires packet.packetType != 3
    ensures Next(s, BeginPublish(c, packet, client, now)) == s
  {
  }

  // A compaction removes the rows of its topic before the cutoff if its statement succeeds, and changes
  // nothing else.
  lemma SoloCompact(s: State, topic: string, before: int, ok: bool)
    requires s.up
    ensures var s' := Next(s, CompactTopic(topic, before, ok));
            && s' == s.(shared := s.shared.(tables := s.shared.tables.(messages := s'.shared.tables.messages)))
            && (forall row :: row in s'.shared.tables.messages <==>
                  row in s.shared.tables.messages && !(ok && row.topic == topic && row.timestamp < before))
  {
    FilterMembers(s.shared.tables.messages, NotExpired(topic, before));
  }

  predicate Fails(step: Step) {
    (step.Exec? ==> !step.ok) && (step.CompactTopic? ==> !step.execOk)
  }

  lemma FailureLeavesTables(s: State, step: Step)
    requires Fails(step)
    ensures Next(s, step).shared.tables == s.shared.tables
  {
  }

  // However calls, crashes and starts are interleaved, as long as every statement fails both tables
  // stay as they are.
  lemma {:induction false} FailuresLeaveTables(s: State, steps: seq<Step>)
    requires forall i :: 0 <= i < |steps| ==> Fails(steps[i])
    ensures RunFrom(Next, s, steps).shared.tables == s.shared.tables
  {
    if steps != [] {
      var front := steps[..|steps| - 1];
      assert forall i :: 0 <= i < |front| ==> front[i] == steps[i];
      FailuresLeaveTables(s, front);
      FailureLeavesTables(RunFrom(Next, s, front), steps[|steps| - 1]);
    }
  }
}
