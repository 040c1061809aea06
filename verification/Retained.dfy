// Retained messages: the table as a fold over the history (section 3.3.1.3 of MQTT Version 5.0).
module Retained {
  import opened Words
  import opened Sequences
  import opened Database
  import opened Storage
  import opened Mqtt

  type RetainedMap = map<string, RetainedRow>

  // A non-empty payload replaces what is retained for the topic, an empty payload removes it.
  function RetainedFold(ops: seq<Op>): RetainedMap {
    if ops == [] then map[]
    else
      var m := RetainedFold(ops[..|ops| - 1]);
      match ops[|ops| - 1]
      case RetainOp(_, msg, ok) =>
        if !ok then m
        else if msg.payload == [] then m - {msg.topic}
        else m[msg.topic := RetainedRowOf(msg)]
      case _ => m
  }

  // The table holds exactly the map's rows, one for each topic.
  ghost predicate Represents(rows: seq<RetainedRow>, m: RetainedMap) {
    && OneRowPerTopic(rows)
    && (forall r :: r in rows ==> r.topic in m && m[r.topic] == r)
    && (forall topic :: topic in m ==> m[topic] in rows && m[topic].topic == topic)
  }

  lemma DeleteRepresents(t: Tables, m: RetainedMap, topic: string)
    requires Represents(t.retained, m)
    ensures Represents(DeleteRetained(t, topic).retained, m - {topic})
  {
    FilterOneRowPerTopic(t.retained, NotRetainedFor(topic));
    FilterMembers(t.retained, NotRetainedFor(topic));
  }

  lemma UpsertRepresents(t: Tables, m: RetainedMap, row: RetainedRow)
    requires Represents(t.retained, m)
    ensures Represents(Upsert(t, row).retained, m[row.topic := row])
  {
    DeleteRepresents(t, m, row.topic);
    var kept := DeleteRetained(t, row.topic).retained;
    forall i | 0 <= i < |kept|
      ensures kept[i].topic != row.topic
    {
      assert kept[i] in kept;
    }
    assert forall r :: r in kept + [row] <==> r in kept || r == row;
    forall topic | topic in m && topic != row.topic
      ensures m[topic] in kept
    {
      assert m[topic] == (m - {row.topic})[topic];
    }
  }

  // Over any history, crashes and restarts included, the table is the fold.
  lemma {:induction false} TableIsFold(ops: seq<Op>)
    ensures Represents(Replay(ops).tables.retained, RetainedFold(ops))
    ensures forall topic :: topic in RetainedFold(ops) ==> RetainedFold(ops)[topic].payload != []
  {
    if ops != [] {
      var front := ops[..|ops| - 1];
      var t, m := Replay(front).tables, RetainedFold(front);
      TableIsFold(front);
      match ops[|ops| - 1]
      case RetainOp(_, msg, ok) =>
        if msg.payload == [] {
          DeleteRepresents(t, m, msg.topic);
        } else {
          UpsertRepresents(t, m, RetainedRowOf(msg));
        }
      case _ =>
    }
  }

  lemma CountIsMembership(ops: seq<Op>, topic: string)
    ensures CountRetained(Replay(ops).tables, topic) == if topic in RetainedFold(ops) then 1 else 0
  {
    TableIsFold(ops);
    var rows := Replay(ops).tables.retained;
    CountIsAtMostOne(rows, topic);
    if topic in RetainedFold(ops) {
      assert RetainedFold(ops)[topic] in rows;
    }
  }

  predicate RetainsOn(op: Op, topic: string) {
    op.RetainOp? && op.ok && op.msg.topic == topic
  }

  // The last retain operation on the topic removed its row.
  predicate LastClears(ops: seq<Op>, topic: string) {
    ops != [] &&
    var last := ops[|ops| - 1];
    if RetainsOn(last, topic) then last.msg.payload == [] else LastClears(ops[..|ops| - 1], topic)
  }

  // Between an upsert and its read-back the row can only vanish if the last operation on the topic
  // in between cleared it; in particular it is there if nothing ran in between.
  lemma ReadBackLaw(earlier: seq<Op>, hook: RetainHook, msg: Message, between: seq<Op>)
    requires msg.payload != []
    ensures var ops := earlier + [RetainOp(hook, msg, true)] + between;
            CountRetained(Replay(ops).tables, msg.topic) == if LastClears(between, msg.topic) then 0 else 1
  {
    RowSurvives(earlier, hook, msg, between);
    CountIsMembership(earlier + [RetainOp(hook, msg, true)] + between, msg.topic);
  }

  lemma {:induction false} RowSurvives(earlier: seq<Op>, hook: RetainHook, msg: Message, between: seq<Op>)
    requires msg.payload != []
    ensures msg.topic in RetainedFold(earlier + [RetainOp(hook, msg, true)] + between) <==>
            !LastClears(between, msg.topic)
  {
    var start := earlier + [RetainOp(hook, msg, true)];
    if between == [] {
      assert start + between == start;
      assert start[..|start| - 1] == earlier;
    } else {
      var front := between[..|between| - 1];
      RowSurvives(earlier, hook, msg, front);
      assert (start + between)[..|start + between| - 1] == start + front;
    }
  }

  // Recovery into the MQTT server

  datatype StoredMessage = StoredMessage(
    id: string, kind: string, payload: seq<byte>, topicName: string, origin: string,
    created: int, sent: int, packetId: nat, packetType: byte, qos: byte, retain: bool)

  function ToStoredMessage(r: RetainedRow): StoredMessage {
    StoredMessage(
      r.topic, "retained", r.payload, r.topic, r.clientId,
      Truncate(r.timestamp, 1000000000), Truncate(r.timestamp, 1000000000), r.msgId % 0x1_0000,
      PUBLISH, r.qos, true)
  }

  // One message for each row, except the rows that cannot be scanned.
  function ToStoredMessages(rows: seq<RetainedRow>, unreadable: set<nat>): seq<StoredMessage> {
    if rows == [] then []
    else
      var n := |rows| - 1;
      ToStoredMessages(rows[..n], unreadable) + if n in unreadable then [] else [ToStoredMessage(rows[n])]
  }

  lemma {:induction false} AllRowsStored(rows: seq<RetainedRow>)
    ensures |ToStoredMessages(rows, {})| == |rows|
    ensures forall i :: 0 <= i < |rows| ==> ToStoredMessages(rows, {})[i] == ToStoredMessage(rows[i])
  {
    if rows != [] {
      AllRowsStored(rows[..|rows| - 1]);
    }
  }

  // Rows before the n-th that can be scanned.
  function Readable(unreadable: set<nat>, n: nat): nat {
    if n == 0 then 0 else Readable(unreadable, n - 1) + if n - 1 in unreadable then 0 else 1
  }

  ghost predicate FromReadable(rows: seq<RetainedRow>, unreadable: set<nat>, s: StoredMessage) {
    exists i :: 0 <= i < |rows| && i !in unreadable && s == ToStoredMessage(rows[i])
  }

  lemma ReadableRowsStep(rows: seq<RetainedRow>, row: RetainedRow, unreadable: set<nat>, s: StoredMessage)
    requires s in ToStoredMessages(rows, unreadable) ==> FromReadable(rows, unreadable, s)
    ensures s in ToStoredMessages(rows + [row], unreadable) ==> FromReadable(rows + [row], unreadable, s)
  {
    var more := rows + [row];
    assert more[..|rows|] == rows;
    if s in ToStoredMessages(rows, unreadable) {
      var i :| 0 <= i < |rows| && i !in unreadable && s == ToStoredMessage(rows[i]);
      assert more[i] == rows[i];
    } else if s in ToStoredMessages(more, unreadable) {
      assert more[|rows|] == row;
    }
  }

  lemma {:induction false} StoredRowsAreReadable(rows: seq<RetainedRow>, unreadable: set<nat>, s: StoredMessage)
    ensures s in ToStoredMessages(rows, unreadable) ==> FromReadable(rows, unreadable, s)
  {
    if rows != [] {
      var n := |rows| - 1;
      StoredRowsAreReadable(rows[..n], unreadable, s);
      ReadableRowsStep(rows[..n], rows[n], unreadable, s);
      assert rows == rows[..n] + [rows[n]];
    }
  }

  lemma {:induction false} ReadableRowIsStored(rows: seq<RetainedRow>, unreadable: set<nat>, i: nat)
    ensures |ToStoredMessages(rows, unreadable)| == Readable(unreadable, |rows|)
    ensures i < |rows| && i !in unreadable ==>
              && Readable(unreadable, i) < |ToStoredMessages(rows, unreadable)|
              && ToStoredMessages(rows, unreadable)[Readable(unreadable, i)] == ToStoredMessage(rows[i])
  {
    if rows != [] {
      ReadableRowIsStored(rows[..|rows| - 1], unreadable, i);
    }
  }

  // Exactly the rows that can be scanned come back, in their order.
  lemma ReadableRowsStored(rows: seq<RetainedRow>, unreadable: set<nat>)
    ensures |ToStoredMessages(rows, unreadable)| == Readable(unreadable, |rows|)
    ensures forall i :: 0 <= i < |rows| && i !in unreadable ==>
              && Readable(unreadable, i) < |ToStoredMessages(rows, unreadable)|
              && ToStoredMessages(rows, unreadable)[Readable(unreadable, i)] == ToStoredMessage(rows[i])
    ensures forall s :: s in ToStoredMessages(rows, unreadable) ==> FromReadable(rows, unreadable, s)
  {
    ReadableRowIsStored(rows, unreadable, 0);
    forall i | 0 <= i < |rows| && i !in unreadable
      ensures Readable(unreadable, i) < |ToStoredMessages(rows, unreadable)|
      ensures ToStoredMessages(rows, unreadable)[Readable(unreadable, i)] == ToStoredMessage(rows[i])
    {
      ReadableRowIsStored(rows, unreadable, i);
    }
    forall s | s in ToStoredMessages(rows, unreadable)
      ensures FromReadable(rows, unreadable, s)
    {
      StoredRowsAreReadable(rows, unreadable, s);
    }
  }

  // The server gets exactly one message for each topic that still retains one, as last published.
  lemma RecoveryIsExact(ops: seq<Op>)
    ensures var stored, m := ToStoredMessages(Replay(ops).tables.retained, {}), RetainedFold(ops);
            && (forall i, j :: 0 <= i < j < |stored| ==> stored[i].topicName != stored[j].topicName)
            && (forall s :: s in stored ==> s.topicName in m && s == ToStoredMessage(m[s.topicName]))
            && (forall topic :: topic in m ==> ToStoredMessage(m[topic]) in stored)
            && (forall s :: s in stored ==> s.payload != [] && s.retain)
  {
    TableIsFold(ops);
    var rows, m := Replay(ops).tables.retained, RetainedFold(ops);
    AllRowsStored(rows);
    var stored := ToStoredMessages(rows, {});
    forall s | s in stored
      ensures s.topicName in m && s == ToStoredMessage(m[s.topicName])
    {
      var i :| 0 <= i < |stored| && stored[i] == s;
      assert rows[i] in rows;
    }
    forall topic | topic in m
      ensures ToStoredMessage(m[topic]) in stored
    {
      var i :| 0 <= i < |rows| && rows[i] == m[topic];
      assert stored[i] == ToStoredMessage(m[topic]);
    }
  }

  lemma {:induction false} FoldKeepsLast(earlier: seq<Op>, hook: RetainHook, msg: Message, later: seq<Op>)
    requires forall i :: 0 <= i < |later| ==> !RetainsOn(later[i], msg.topic)
    ensures var m := RetainedFold(earlier + [RetainOp(hook, msg, true)] + later);
            && (msg.topic in m <==> msg.payload != [])
            && (msg.topic in m ==> m[msg.topic] == RetainedRowOf(msg))
  {
    var start := earlier + [RetainOp(hook, msg, true)];
    if later == [] {
      assert start + later == start;
      assert start[..|start| - 1] == earlier;
    } else {
      var front := later[..|later| - 1];
      assert !RetainsOn(later[|later| - 1], msg.topic);
      FoldKeepsLast(earlier, hook, msg, front);
      assert (start + later)[..|start + later| - 1] == start + front;
    }
  }

  // A retained message as the server gets it from storage.
  predicate Carries(s: StoredMessage, msg: Message) {
    && s.topicName == s.id == msg.topic
    && s.payload == msg.payload
    && s.qos == msg.qos
    && s.origin == msg.clientId
    && s.retain && s.packetType == PUBLISH && s.kind == "retained"
    && s.created == s.sent == Truncate(msg.timestamp, 1000000000)
    && s.packetId == msg.id as int % 0x1_0000
  }

  // Nanoseconds cut to whole seconds, towards zero.
  predicate WholeSeconds(seconds: int, nanoseconds: int) {
    if nanoseconds >= 0 then seconds * 1000000000 <= nanoseconds < (seconds + 1) * 1000000000
    else (seconds - 1) * 1000000000 < nanoseconds <= seconds * 1000000000
  }

  lemma TruncatedToSeconds(nanoseconds: int)
    ensures WholeSeconds(Truncate(nanoseconds, 1000000000), nanoseconds)
  {
  }

  // A packet as the server gets it back from storage; 3 is the type of a PUBLISH packet.
  predicate ComesBack(s: StoredMessage, packet: Packet, client: string, now: int, id: uint64) {
    && s.id == s.topicName == packet.topicName
    && s.payload == packet.payload && s.qos == packet.qos && s.origin == client
    && WholeSeconds(s.created, now) && s.sent == s.created
    && s.packetId == id as int % 65536
    && s.retain && s.packetType == 3 && s.kind == "retained"
  }

  // The last retain operation on a topic decides: its message comes back with all its fields, or, if
  // its payload is empty, nothing comes back for the topic.
  lemma LastRetainWins(earlier: seq<Op>, hook: RetainHook, msg: Message, later: seq<Op>)
    requires forall i :: 0 <= i < |later| ==> !RetainsOn(later[i], msg.topic)
    ensures var stored := ToStoredMessages(Replay(earlier + [RetainOp(hook, msg, true)] + later).tables.retained, {});
            if msg.payload == [] then forall s :: s in stored ==> s.topicName != msg.topic
            else
              && (exists s :: s in stored && s.topicName == msg.topic)
              && (forall s :: s in stored && s.topicName == msg.topic ==> Carries(s, msg))
  {
    var ops := earlier + [RetainOp(hook, msg, true)] + later;
    FoldKeepsLast(earlier, hook, msg, later);
    RecoveryIsExact(ops);
    if msg.payload != [] {
      var s := ToStoredMessage(RetainedFold(ops)[msg.topic]);
      assert s in ToStoredMessages(Replay(ops).tables.retained, {}) && s.topicName == msg.topic;
    }
  }

  // The recovered time is within a second below the stored one for exactly the times that are not
  // negative or are whole seconds; it keeps the order of all of them.
  lemma CreatedTime(timestamp: int)
    ensures var created := Truncate(timestamp, 1000000000);
            (created * 1000000000 <= timestamp < created * 1000000000 + 1000000000) <==>
            timestamp >= 0 || timestamp % 1000000000 == 0
  {
  }

  lemma CreatedKeepsOrder(earlier: int, later: int)
    requires earlier <= later
    ensures Truncate(earlier, 1000000000) <= Truncate(later, 1000000000)
  {
  }

  // Distinct ids that span fewer than 65536 give distinct packet ids.
  lemma PacketIds(a: RetainedRow, b: RetainedRow)
    ensures ToStoredMessage(a).packetId == ToStoredMessage(b).packetId <==> (a.msgId - b.msgId) % 0x1_0000 == 0
    ensures a.msgId != b.msgId && -0x1_0000 < a.msgId - b.msgId < 0x1_0000 ==>
              ToStoredMessage(a).packetId != ToStoredMessage(b).packetId
  {
  }

  // Messages the broker retains again when it publishes them

  type RetainedView = map<string, (seq<byte>, byte)>

  // Topic, payload and QoS; without client, time and id.
  function View(m: RetainedMap): RetainedView {
    map topic | topic in m :: (m[topic].payload, m[topic].qos)
  }

  function RetainView(v: RetainedView, msg: Message): RetainedView {
    if msg.payload == [] then v - {msg.topic} else v[msg.topic := (msg.payload, msg.qos)]
  }

  // The operation stores, or clears, what the topic already has.
  predicate Confirms(msg: Message, m: RetainedMap) {
    if msg.payload == [] then msg.topic !in m
    else msg.topic in m && m[msg.topic].payload == msg.payload && m[msg.topic].qos == msg.qos
  }

  function Original(): Op -> bool {
    (op: Op) => !(op.RetainOp? && op.hook.OnRetainPublishedHook?)
  }

  predicate RepublishesOnlyConfirm(ops: seq<Op>) {
    ops == [] ||
    var front, last := ops[..|ops| - 1], ops[|ops| - 1];
    && RepublishesOnlyConfirm(front)
    && (last.RetainOp? && last.ok && last.hook.OnRetainPublishedHook? ==> Confirms(last.msg, RetainedFold(front)))
  }

  ghost predicate RepublishesAreInvisible(ops: seq<Op>) {
    View(RetainedFold(ops)) == View(RetainedFold(Filter(ops, Original())))
  }

  lemma RetainViewStep(m: RetainedMap, msg: Message)
    ensures View(m - {msg.topic}) == View(m) - {msg.topic}
    ensures View(m[msg.topic := RetainedRowOf(msg)]) == View(m)[msg.topic := (msg.payload, msg.qos)]
    ensures RetainView(View(m), msg) == View(m) <==> Confirms(msg, m)
  {
    var v, v' := View(m), RetainView(View(m), msg);
    if v' == v {
      assert msg.topic in v' <==> msg.topic in v;
    }
  }

  lemma FoldViewStep(ops: seq<Op>, op: Op)
    ensures View(RetainedFold(ops + [op]))
         == if op.RetainOp? && op.ok then RetainView(View(RetainedFold(ops)), op.msg) else View(RetainedFold(ops))
  {
    assert (ops + [op])[..|ops|] == ops;
    if op.RetainOp? {
      RetainViewStep(RetainedFold(ops), op.msg);
    }
  }

  // After every operation of the history.
  ghost predicate AlwaysInvisible(ops: seq<Op>) {
    RepublishesAreInvisible(ops) && (ops == [] || AlwaysInvisible(ops[..|ops| - 1]))
  }

  // OnRetainPublished leaves no trace in topics, payloads and QoS all along a history exactly when
  // it only ever confirms what is stored.
  lemma {:induction false} RepublishLaw(ops: seq<Op>)
    ensures AlwaysInvisible(ops) <==> RepublishesOnlyConfirm(ops)
  {
    if ops != [] {
      var front, last := ops[..|ops| - 1], ops[|ops| - 1];
      RepublishLaw(front);
      assert ops == front + [last];
      FoldViewStep(front, last);
      FoldViewStep(Filter(front, Original()), last);
      if last.RetainOp? {
        RetainViewStep(RetainedFold(front), last.msg);
      }
    }
  }
}
