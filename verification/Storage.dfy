// What one storage operation after another does to the shared state of the manager.
module Storage {
  import opened Words
  import opened Mqtt
  import opened Database
  import opened Metrics

  datatype Message = Message(
    id: uint64, topic: string, payload: seq<byte>, qos: byte, retain: bool, clientId: string, timestamp: int)

  datatype RetainHook = OnRetainMessageHook | OnRetainPublishedHook

  // The database, the manager's three atomic counters and the write statistics of the metrics server.
  datatype Shared = Shared(
    tables: Tables, messageID: uint64, totalMessages: uint64, totalBytes: uint64, writes: WriteStats)

  const FRESH := Shared(EMPTY, 0, 0, 0, NO_WRITES)

  // One operation from start to finish. ok tells whether its statement succeeded; a message carries
  // the id it drew.
  datatype Op =
    | PublishOp(msg: Message, ok: bool)
    | RetainOp(hook: RetainHook, msg: Message, ok: bool)
    | CompactOp(topic: string, before: int, ok: bool)
    | CrashOp
    | StartOp(statsOk: bool)

  function Size(msg: Message): nat {
    |msg.payload| + |msg.topic| + |msg.clientId|
  }

  function RetainedRowOf(msg: Message): RetainedRow {
    RetainedRow(msg.topic, msg.payload, msg.qos, msg.clientId, msg.timestamp, msg.id)
  }

  // What a row of either table has from the packet, its client and the clock.

  predicate RowHolds(row: MessageRow, packet: Packet, client: string, now: int) {
    && row.topic == packet.topicName && row.payload == packet.payload
    && row.qos == packet.qos && row.retain == packet.retain
    && row.clientId == client && row.timestamp == now
  }

  predicate RetainedRowHolds(row: RetainedRow, packet: Packet, client: string, now: int, id: uint64) {
    && row.topic == packet.topicName && row.payload == packet.payload && row.qos == packet.qos
    && row.clientId == client && row.timestamp == now && row.msgId == id
  }

  function InsertMessage(t: Tables, msg: Message): Tables {
    Insert(t, msg.topic, msg.payload, msg.qos, msg.retain, msg.clientId, msg.timestamp)
  }

  // A retained publish with an empty payload clears its topic, any other replaces the topic's row.
  function Retain(t: Tables, msg: Message): Tables {
    if msg.payload == [] then DeleteRetained(t, msg.topic) else Upsert(t, RetainedRowOf(msg))
  }

  function ApplyToTables(t: Tables, op: Op): Tables {
    match op
    case PublishOp(msg, ok) => if ok then InsertMessage(t, msg) else t
    case RetainOp(_, msg, ok) => if ok then Retain(t, msg) else t
    case CompactOp(topic, before, ok) => if ok then Compact(t, topic, before) else t
    case CrashOp => t
    case StartOp(_) => t
  }

  function Apply(s: Shared, op: Op): Shared {
    var t := ApplyToTables(s.tables, op);
    match op
    case PublishOp(msg, ok) =>
      Shared(t, Wrap64(s.messageID + 1),
             if ok then Wrap64(s.totalMessages + 1) else s.totalMessages,
             if ok then Wrap64(s.totalBytes + Size(msg)) else s.totalBytes,
             RecordWrite(s.writes, ok))
    case RetainOp(_, msg, _) =>
      s.(tables := t, messageID := if msg.payload == [] then s.messageID else Wrap64(s.messageID + 1))
    case CompactOp(_, _, _) => s.(tables := t)
    case CrashOp => FRESH.(tables := t)
    case StartOp(statsOk) =>
      if statsOk then s.(messageID := Wrap64(MaxId(t.messages)), totalMessages := Wrap64(|t.messages|)) else s
  }

  function Replay(ops: seq<Op>): Shared {
    if ops == [] then FRESH else Apply(Replay(ops[..|ops| - 1]), ops[|ops| - 1])
  }

  lemma ReplaySnoc(ops: seq<Op>, op: Op)
    ensures Replay(ops + [op]) == Apply(Replay(ops), op)
  {
    assert (ops + [op])[..|ops|] == ops;
  }

  lemma ReplayTables(ops: seq<Op>)
    requires ops != []
    ensures Replay(ops).tables == ApplyToTables(Replay(ops[..|ops| - 1]).tables, ops[|ops| - 1])
  {
  }

  lemma RetainWellFormed(t: Tables, msg: Message)
    requires WellFormed(t)
    ensures WellFormed(Retain(t, msg))
    ensures CountRetained(Retain(t, msg), msg.topic) == if msg.payload == [] then 0 else 1
  {
    if msg.payload == [] {
      DeleteRetainedWellFormed(t, msg.topic);
    } else {
      UpsertWellFormed(t, RetainedRowOf(msg));
    }
  }

  lemma ApplyWellFormed(t: Tables, op: Op)
    requires WellFormed(t)
    ensures WellFormed(ApplyToTables(t, op))
  {
    match op
    case PublishOp(msg, _) =>
      InsertWellFormed(t, msg.topic, msg.payload, msg.qos, msg.retain, msg.clientId, msg.timestamp);
    case RetainOp(_, msg, _) => RetainWellFormed(t, msg);
    case CompactOp(topic, before, _) => CompactWellFormed(t, topic, before);
    case CrashOp =>
    case StartOp(_) =>
  }

  // Every history keeps the log's ids ascending and the retained topics unique.
  lemma {:induction false} ReplayWellFormed(ops: seq<Op>)
    ensures WellFormed(Replay(ops).tables)
  {
    if ops != [] {
      ReplayWellFormed(ops[..|ops| - 1]);
      ApplyWellFormed(Replay(ops[..|ops| - 1]).tables, ops[|ops| - 1]);
    }
  }
}

// What the counters hold after a history, in terms of the history.
module StorageLaws {
  import opened Words
  import opened Sequences
  import opened Database
  import opened Metrics
  import opened Storage

  // Inserts that succeeded since the counters were last loaded or lost.
  function CommitsSinceLoad(ops: seq<Op>): nat {
    if ops == [] then 0
    else
      var n := CommitsSinceLoad(ops[..|ops| - 1]);
      match ops[|ops| - 1]
      case PublishOp(_, ok) => if ok then n + 1 else n
      case CrashOp => 0
      case StartOp(statsOk) => if statsOk then 0 else n
      case _ => n
  }

  // The row count that recovery loaded; zero in a process whose statistics query failed.
  function RecoveredCount(ops: seq<Op>): nat {
    if ops == [] then 0
    else
      var front := ops[..|ops| - 1];
      match ops[|ops| - 1]
      case CrashOp => 0
      case StartOp(statsOk) => if statsOk then |Replay(front).tables.messages| else RecoveredCount(front)
      case _ => RecoveredCount(front)
  }

  // Rows that compaction has removed since the counters were last loaded or lost.
  function Compacted(ops: seq<Op>): nat {
    if ops == [] then 0
    else
      var front := ops[..|ops| - 1];
      var t := Replay(front).tables;
      match ops[|ops| - 1]
      case CompactOp(topic, before, ok) =>
        ReplayWellFormed(front);
        CompactWellFormed(t, topic, before);
        Compacted(front) + if ok then |t.messages| - |Compact(t, topic, before).messages| else 0
      case CrashOp => 0
      case StartOp(statsOk) => if statsOk then 0 else Compacted(front)
      case _ => Compacted(front)
  }

  // Rows left over from earlier processes that the counters of this one do not know about.
  function Missed(ops: seq<Op>): nat {
    if ops == [] then 0
    else
      var front := ops[..|ops| - 1];
      match ops[|ops| - 1]
      case CrashOp => |Replay(front).tables.messages|
      case StartOp(statsOk) => if statsOk then 0 else Missed(front)
      case _ => Missed(front)
  }

  // A statistics query has succeeded in this process.
  predicate LoadedSinceCrash(ops: seq<Op>) {
    if ops == [] then false
    else
      match ops[|ops| - 1]
      case CrashOp => false
      case StartOp(statsOk) => statsOk || LoadedSinceCrash(ops[..|ops| - 1])
      case _ => LoadedSinceCrash(ops[..|ops| - 1])
  }

  // The rows this process found in the log.
  function RowsAtCrash(ops: seq<Op>): nat {
    if ops == [] then 0
    else if ops[|ops| - 1].CrashOp? then |Replay(ops[..|ops| - 1]).tables.messages|
    else RowsAtCrash(ops[..|ops| - 1])
  }

  // A process misses all the rows it found, or none once a statistics query has succeeded.
  lemma {:induction false} MissedExactly(ops: seq<Op>)
    ensures Missed(ops) == if LoadedSinceCrash(ops) then 0 else RowsAtCrash(ops)
  {
    if ops != [] {
      MissedExactly(ops[..|ops| - 1]);
    }
  }

  // Rows in the log plus rows compacted, without the missed ones, are what totalMessages counts.
  lemma {:induction false} TotalMessagesLaw(ops: seq<Op>)
    ensures var s := Replay(ops);
            && |s.tables.messages| + Compacted(ops) == RecoveredCount(ops) + CommitsSinceLoad(ops) + Missed(ops)
            && s.totalMessages == Wrap64(RecoveredCount(ops) + CommitsSinceLoad(ops))
  {
    if ops != [] {
      TotalMessagesLaw(ops[..|ops| - 1]);
      match ops[|ops| - 1]
      case PublishOp(_, _) => WrapAdd(RecoveredCount(ops[..|ops| - 1]) + CommitsSinceLoad(ops[..|ops| - 1]), 1);
      case CompactOp(_, _, _) =>
      case _ =>
    }
  }

  // Payload, topic and client lengths of the messages inserted since the process started.
  function BytesSinceCrash(ops: seq<Op>): nat {
    if ops == [] then 0
    else
      var n := BytesSinceCrash(ops[..|ops| - 1]);
      match ops[|ops| - 1]
      case PublishOp(msg, ok) => if ok then n + |msg.payload| + |msg.topic| + |msg.clientId| else n
      case CrashOp => 0
      case _ => n
  }

  lemma {:induction false} TotalBytesLaw(ops: seq<Op>)
    ensures Replay(ops).totalBytes == Wrap64(BytesSinceCrash(ops))
  {
    if ops != [] {
      TotalBytesLaw(ops[..|ops| - 1]);
      match ops[|ops| - 1]
      case PublishOp(msg, _) => WrapAdd(BytesSinceCrash(ops[..|ops| - 1]), Size(msg));
      case _ =>
    }
  }

  // Publishes of this process, by the outcome of their insert.
  function PublishesSinceCrash(ops: seq<Op>, outcome: bool): nat {
    if ops == [] then 0
    else
      var n := PublishesSinceCrash(ops[..|ops| - 1], outcome);
      match ops[|ops| - 1]
      case PublishOp(_, ok) => if ok == outcome then n + 1 else n
      case CrashOp => 0
      case _ => n
  }

  lemma {:induction false} WritesLaw(ops: seq<Op>)
    ensures var w := Replay(ops).writes;
            && w.successes == PublishesSinceCrash(ops, true)
            && w.errorOps == w.errors == PublishesSinceCrash(ops, false)
            && w.observed == w.successes + w.errorOps
  {
    if ops != [] {
      WritesLaw(ops[..|ops| - 1]);
    }
  }

  // The unbounded value that messageID holds modulo 2^64.
  function Issued(ops: seq<Op>): nat {
    if ops == [] then 0
    else
      var front := ops[..|ops| - 1];
      match ops[|ops| - 1]
      case PublishOp(_, _) => Issued(front) + 1
      case RetainOp(_, msg, _) => Issued(front) + if msg.payload == [] then 0 else 1
      case CompactOp(_, _, _) => Issued(front)
      case CrashOp => 0
      case StartOp(statsOk) => if statsOk then MaxId(Replay(front).tables.messages) else Issued(front)
  }

  lemma {:induction false} MessageIdLaw(ops: seq<Op>)
    ensures Replay(ops).messageID == Wrap64(Issued(ops))
  {
    if ops != [] {
      var front := ops[..|ops| - 1];
      MessageIdLaw(front);
      if ops[|ops| - 1].PublishOp? || ops[|ops| - 1].RetainOp? {
        WrapAdd(Issued(front), 1);
      }
    }
  }

  // Without compaction the log keeps the row with the largest id ever used.

  ghost predicate NeverCompacts(ops: seq<Op>) {
    forall i :: 0 <= i < |ops| ==> !(ops[i].CompactOp? && ops[i].ok)
  }

  lemma NoGapStep(t: Tables, op: Op)
    requires MaxId(t.messages) == t.lastId
    requires !(op.CompactOp? && op.ok)
    ensures var t' := ApplyToTables(t, op); MaxId(t'.messages) == t'.lastId
  {
    if op.PublishOp? {
      assert InsertMessage(t, op.msg).messages[..|t.messages|] == t.messages;
    }
  }

  lemma {:induction false} NoGapWithoutCompaction(ops: seq<Op>)
    requires NeverCompacts(ops)
    ensures var t := Replay(ops).tables; MaxId(t.messages) == t.lastId
  {
    if ops != [] {
      var front := ops[..|ops| - 1];
      assert forall i :: 0 <= i < |front| ==> front[i] == ops[i];
      NoGapWithoutCompaction(front);
      ReplayTables(ops);
      NoGapStep(Replay(front).tables, ops[|ops| - 1]);
    }
  }

  // What a topic query answers

  datatype Content = Content(
    topic: string, payload: seq<byte>, qos: byte, retain: bool, clientId: string, timestamp: int)

  function RowContent(r: MessageRow): Content {
    Content(r.topic, r.payload, r.qos, r.retain, r.clientId, r.timestamp)
  }

  function MessageContent(m: Message): Content {
    Content(m.topic, m.payload, m.qos, m.retain, m.clientId, m.timestamp)
  }

  function Contents(rows: seq<MessageRow>): (r: seq<Content>)
    ensures |r| == |rows|
    ensures forall i :: 0 <= i < |rows| ==> r[i] == RowContent(rows[i])
  {
    seq(|rows|, i requires 0 <= i < |rows| => RowContent(rows[i]))
  }

  predicate Expires(op: Op, topic: string, timestamp: int) {
    op.CompactOp? && op.ok && op.topic == topic && timestamp < op.before
  }

  predicate Outlives(topic: string, timestamp: int, later: seq<Op>) {
    forall i :: 0 <= i < |later| ==> !Expires(later[i], topic, timestamp)
  }

  // The messages inserted on a topic that no later compaction removed, oldest first.
  function Survivors(ops: seq<Op>, topic: string): seq<Content> {
    if ops == [] then []
    else
      var op, rest := ops[0], Survivors(ops[1..], topic);
      if op.PublishOp? && op.ok && op.msg.topic == topic && Outlives(topic, op.msg.timestamp, ops[1..]) then
        [MessageContent(op.msg)] + rest
      else rest
  }

  function Unexpired(op: Op, topic: string): Content -> bool {
    (c: Content) => !Expires(op, topic, c.timestamp)
  }

  function Inserted(op: Op, topic: string): seq<Content> {
    if op.PublishOp? && op.ok && op.msg.topic == topic then [MessageContent(op.msg)] else []
  }

  // One more operation: it may expire messages of the topic, or add one.
  function Evolve(contents: seq<Content>, op: Op, topic: string): seq<Content> {
    Filter(contents, Unexpired(op, topic)) + Inserted(op, topic)
  }

  function TopicContents(t: Tables, topic: string): seq<Content> {
    Contents(Filter(t.messages, OnTopic(topic)))
  }

  lemma OutlivesSnoc(topic: string, timestamp: int, later: seq<Op>, op: Op)
    ensures Outlives(topic, timestamp, later + [op]) <==>
            Outlives(topic, timestamp, later) && !Expires(op, topic, timestamp)
  {
    assert (later + [op])[|later|] == op;
    assert forall i :: 0 <= i < |later| ==> (later + [op])[i] == later[i];
  }

  lemma EvolveCons(content: Content, rest: seq<Content>, op: Op, topic: string)
    ensures Evolve([content] + rest, op, topic)
         == (if Expires(op, topic, content.timestamp) then [] else [content]) + Evolve(rest, op, topic)
  {
    FilterConcat([content], rest, Unexpired(op, topic));
    FilterSnoc([], content, Unexpired(op, topic));
    assert [] + [content] == [content];
  }

  lemma {:induction false} SurvivorsSnoc(ops: seq<Op>, op: Op, topic: string)
    ensures Survivors(ops + [op], topic) == Evolve(Survivors(ops, topic), op, topic)
  {
    if ops == [] {
      assert ops + [op] == [op];
    } else {
      var first, rest := ops[0], ops[1..];
      SurvivorsSnoc(rest, op, topic);
      assert (ops + [op])[0] == first;
      assert (ops + [op])[1..] == rest + [op];
      if first.PublishOp? {
        OutlivesSnoc(topic, first.msg.timestamp, rest, op);
        EvolveCons(MessageContent(first.msg), Survivors(rest, topic), op, topic);
      }
    }
  }

  lemma {:induction false} ContentsOfUnexpired(rows: seq<MessageRow>, topic: string, before: int)
    requires forall r :: r in rows ==> r.topic == topic
    ensures Contents(Filter(rows, NotExpired(topic, before)))
         == Filter(Contents(rows), Unexpired(CompactOp(topic, before, true), topic))
  {
    if rows != [] {
      var front, last := rows[..|rows| - 1], rows[|rows| - 1];
      ContentsOfUnexpired(front, topic, before);
      assert rows == front + [last];
      assert last in rows;
      assert Contents(rows) == Contents(front) + [RowContent(last)];
      FilterSnoc(Contents(front), RowContent(last), Unexpired(CompactOp(topic, before, true), topic));
      assert Contents(Filter(front, NotExpired(topic, before)) + [last])
          == Contents(Filter(front, NotExpired(topic, before))) + [RowContent(last)];
    }
  }

  // How one operation changes the rows of a topic.
  lemma TopicContentsStep(t: Tables, op: Op, topic: string)
    ensures TopicContents(ApplyToTables(t, op), topic) == Evolve(TopicContents(t, topic), op, topic)
  {
    var rows := Filter(t.messages, OnTopic(topic));
    FilterMembers(t.messages, OnTopic(topic));
    if op.CompactOp? && op.ok {
      FilterSwap(t.messages, NotExpired(op.topic, op.before), OnTopic(topic));
      if op.topic == topic {
        ContentsOfUnexpired(rows, topic, op.before);
      } else {
        FilterAll(rows, NotExpired(op.topic, op.before));
        FilterAll(Contents(rows), Unexpired(op, topic));
      }
    } else {
      FilterAll(Contents(rows), Unexpired(op, topic));
      if op.PublishOp? && op.ok {
        InsertContents(t, op.msg, topic);
      }
    }
  }

  lemma InsertContents(t: Tables, msg: Message, topic: string)
    ensures TopicContents(InsertMessage(t, msg), topic)
         == TopicContents(t, topic) + Inserted(PublishOp(msg, true), topic)
  {
    var row := InsertMessage(t, msg).messages[|t.messages|];
    FilterSnoc(t.messages, row, OnTopic(topic));
  }

  lemma {:induction false} TopicRowsAreSurvivors(ops: seq<Op>, topic: string)
    ensures TopicContents(Replay(ops).tables, topic) == Survivors(ops, topic)
  {
    if ops != [] {
      var front, last := ops[..|ops| - 1], ops[|ops| - 1];
      TopicRowsAreSurvivors(front, topic);
      ReplayTables(ops);
      TopicContentsStep(Replay(front).tables, last, topic);
      SurvivorsSnoc(front, last, topic);
      assert ops == front + [last];
    }
  }

  lemma ReverseContents(rows: seq<MessageRow>)
    ensures Contents(Reverse(rows)) == Reverse(Contents(rows))
  {
  }

  // An unlimited topic query returns exactly the surviving messages of the history, newest first.
  lemma QueryReturnsSurvivors(ops: seq<Op>, topic: string)
    ensures Contents(SelectByTopic(Replay(ops).tables, topic, -1)) == Reverse(Survivors(ops, topic))
  {
    ReplayWellFormed(ops);
    SelectIsNewestFirst(Replay(ops).tables, topic, -1);
    TopicRowsAreSurvivors(ops, topic);
    ReverseContents(Filter(Replay(ops).tables.messages, OnTopic(topic)));
  }

  // The topics that are counted are those with a surviving message.
  lemma DistinctTopicsLaw(ops: seq<Op>, topic: string)
    ensures topic in DistinctTopics(Replay(ops).tables) <==> Survivors(ops, topic) != []
  {
    var rows := Replay(ops).tables.messages;
    TopicRowsAreSurvivors(ops, topic);
    FilterMembers(rows, OnTopic(topic));
    var mine := Filter(rows, OnTopic(topic));
    if mine != [] {
      assert mine[0] in mine && mine[0].topic == topic;
    } else {
      assert forall r :: r in rows ==> r.topic != topic;
    }
  }

  lemma {:induction false} LaterSurvivorsComeLast(earlier: seq<Op>, later: seq<Op>, topic: string)
    ensures var all, tail := Survivors(earlier + later, topic), Survivors(later, topic);
            |tail| <= |all| && all[|all| - |tail|..] == tail
  {
    if earlier == [] {
      assert earlier + later == later;
    } else {
      LaterSurvivorsComeLast(earlier[1..], later, topic);
      assert (earlier + later)[1..] == earlier[1..] + later;
    }
  }

  // The message, with every field as published, at the index given by the surviving later commits.
  predicate FoundBehind(t: Tables, msg: Message, later: seq<Op>, limit: int) {
    var answer, index := SelectByTopic(t, msg.topic, limit), |Survivors(later, msg.topic)|;
    index < |answer| && RowContent(answer[index]) == MessageContent(msg)
  }

  // A committed publish that no later compaction removed sits at the index given by the number of
  // surviving later commits on its topic, with every field as published.
  lemma PublishIsFound(earlier: seq<Op>, msg: Message, later: seq<Op>, limit: int)
    requires Outlives(msg.topic, msg.timestamp, later)
    requires limit < 0 || |Survivors(later, msg.topic)| < limit
    ensures FoundBehind(Replay(earlier + ([PublishOp(msg, true)] + later)).tables, msg, later, limit)
  {
    var suffix := [PublishOp(msg, true)] + later;
    var index := |Survivors(later, msg.topic)|;
    assert Survivors(suffix, msg.topic) == [MessageContent(msg)] + Survivors(later, msg.topic) by {
      assert suffix[1..] == later;
    }
    LaterSurvivorsComeLast(earlier, suffix, msg.topic);
    var all := Survivors(earlier + suffix, msg.topic);
    assert all[|all| - index - 1] == MessageContent(msg) by {
      assert all[|all| - index - 1..][0] == all[|all| - index - 1];
    }
    QueryReturnsSurvivors(earlier + suffix, msg.topic);
    LimitKeepsIndex(Replay(earlier + suffix).tables, msg.topic, limit, index);
  }

  lemma LimitKeepsIndex(t: Tables, topic: string, limit: int, index: nat)
    requires index < |SelectByTopic(t, topic, -1)|
    requires limit < 0 || index < limit
    ensures index < |SelectByTopic(t, topic, limit)|
    ensures SelectByTopic(t, topic, limit)[index] == SelectByTopic(t, topic, -1)[index]
  {
  }
}
