// The storage manager, one call at a time. Whether a statement or a query succeeds, and what the
// clock shows, are arguments; a closed database fails every statement.
module StorageManager {
  import opened Words
  import opened Mqtt
  import opened Database
  import opened Metrics
  import opened MetricsServer
  import opened Storage
  import opened Protocol
  import opened Retained

  datatype Error =
    | StatementFailed
    | RowsAffectedFailed
    | QueryFailed
    | ScanFailed
    | IterationFailed
    | WrongCount(count: nat)

  datatype Outcome = Pass | Fail(error: Error)

  datatype Result<T> = Success(value: T) | Failure(error: Error)

  datatype Stats = Stats(
    totalMessages: uint64, totalBytes: uint64, topicCount: nat, retainedCount: nat, nextMessageId: uint64,
    databaseSize: int)

  // How a cursor behaves: how many of the rows it delivers before rows.Next returns false, which of
  // them rows.Scan cannot read, and whether it ends without an error.
  datatype Cursor = Cursor(delivers: nat, unreadable: set<nat>, complete: bool)

  function Delivered(cursor: Cursor, rows: nat): nat {
    if cursor.complete || cursor.delivers > rows then rows else cursor.delivers
  }

  class Manager {
    const metrics: Server
    var db: Tables
    var open: bool
    var messageID: uint64
    var totalMessages: uint64
    var totalBytes: uint64
    var wg: nat

    ghost predicate Valid()
      reads this
    {
      WellFormed(db)
    }

    ghost function View(): Shared
      reads this, metrics
    {
      Shared(db, messageID, totalMessages, totalBytes, metrics.WriteState())
    }

    // A new process on an existing database.
    constructor NewWithMetrics(stored: Tables, metrics: Server)
      requires WellFormed(stored)
      ensures Valid() && open && wg == 0
      ensures this.metrics == metrics
      ensures View() == FRESH.(tables := stored, writes := metrics.WriteState())
    {
      this.metrics := metrics;
      db, open, wg := stored, true, 0;
      messageID, totalMessages, totalBytes := 0, 0, 0;
    }

    method RecoverRetainedMessages(statsOk: bool, countOk: bool) returns (err: Outcome)
      requires Valid()
      modifies `messageID, `totalMessages, metrics`recoveryCount
      ensures Valid()
      ensures View() == Apply(old(View()), StartOp(open && statsOk))
      ensures err == if open && countOk then Pass else Fail(QueryFailed)
      ensures metrics.recoveryCount == old(metrics.recoveryCount) + if err.Pass? then 1 else 0
    {
      if open && statsOk {
        var maxID, messageCount := MaxId(db.messages), |db.messages|;
        messageID := Wrap64(maxID);
        totalMessages := Wrap64(messageCount);
      }
      if !(open && countOk) {
        return Fail(QueryFailed);
      }
      metrics.RecordRecovery();
      return Pass;
    }

    // Registers one background loop, or none if recovery fails.
    method Start(statsOk: bool, countOk: bool) returns (err: Outcome)
      requires Valid()
      modifies `messageID, `totalMessages, `wg, metrics`recoveryCount
      ensures Valid()
      ensures View() == Apply(old(View()), StartOp(open && statsOk))
      ensures err.Pass? <==> open && countOk
      ensures wg == old(wg) + if err.Pass? then 1 else 0
    {
      err := RecoverRetainedMessages(statsOk, countOk);
      if err.Pass? {
        wg := wg + 1;
      }
    }

    method PersistMessage(msg: Message, execOk: bool) returns (err: Outcome)
      requires Valid()
      modifies `db, `totalMessages, `totalBytes,
               metrics`writeLatencyCount, metrics`writeSuccesses, metrics`writeErrorOps, metrics`writeErrorsTotal
      ensures Valid()
      ensures err == if open && execOk then Pass else Fail(StatementFailed)
      ensures db == if err.Pass? then InsertMessage(old(db), msg) else old(db)
      ensures totalMessages == if err.Pass? then Wrap64(old(totalMessages) + 1) else old(totalMessages)
      ensures totalBytes == if err.Pass?
                            then Wrap64(old(totalBytes) + |msg.payload| + |msg.topic| + |msg.clientId|)
                            else old(totalBytes)
      ensures metrics.WriteState() == RecordWrite(old(metrics.WriteState()), err.Pass?)
    {
      if !(open && execOk) {
        metrics.RecordSQLiteWrite(false);
        return Fail(StatementFailed);
      }
      InsertWellFormed(db, msg.topic, msg.payload, msg.qos, msg.retain, msg.clientId, msg.timestamp);
      db := Insert(db, msg.topic, msg.payload, msg.qos, msg.retain, msg.clientId, msg.timestamp);
      metrics.RecordSQLiteWrite(true);
      totalMessages := Wrap64(totalMessages + 1);
      totalBytes := Wrap64(totalBytes + |msg.payload| + |msg.topic| + |msg.clientId|);
      return Pass;
    }

    // Packets of another type pass through. The packet comes back unchanged, also on an error.
    method OnPublish(pk: Packet, client: string, now: int, execOk: bool) returns (out: Packet, err: Outcome)
      requires Valid()
      modifies `db, `messageID, `totalMessages, `totalBytes,
               metrics`writeLatencyCount, metrics`writeSuccesses, metrics`writeErrorOps, metrics`writeErrorsTotal
      ensures Valid()
      ensures out == pk
      ensures err.Pass? <==> pk.packetType != PUBLISH || (open && execOk)
      ensures View() ==
              if pk.packetType != PUBLISH then old(View())
              else
                var msg := MessageOf(Wrap64(old(messageID) + 1), pk, pk.retain, client, now);
                Apply(old(View()), PublishOp(msg, open && execOk))
      ensures pk.packetType == PUBLISH && err.Pass? ==>
                var n := |old(db.messages)|;
                && |db.messages| == n + 1 && db.messages[..n] == old(db.messages)
                && RowHolds(db.messages[n], pk, client, now)
    {
      if pk.packetType != PUBLISH {
        return pk, Pass;
      }
      messageID := Wrap64(messageID + 1);
      var msg := Message(messageID, pk.topicName, pk.payload, pk.qos, pk.retain, client, now);
      err := PersistMessage(msg, execOk);
      return pk, err;
    }

    // The read-back always finds the row it looks for: an error means that a statement failed.
    method PersistRetainedToDB(msg: Message, execOk: bool, queryOk: bool) returns (err: Outcome)
      requires Valid()
      modifies `db
      ensures msg.payload != [] ==> Valid()
      ensures db == if open && execOk then Upsert(old(db), RetainedRowOf(msg)) else old(db)
      ensures err == if !(open && execOk) then Fail(StatementFailed) else if !queryOk then Fail(QueryFailed) else Pass
    {
      if !(open && execOk) {
        return Fail(StatementFailed);
      }
      UpsertWellFormed(db, RetainedRowOf(msg));
      db := Upsert(db, RetainedRowOf(msg));
      if !queryOk {
        return Fail(QueryFailed);
      }
      var count := CountRetained(db, msg.topic);
      if count != 1 {
        return Fail(WrongCount(count));
      }
      return Pass;
    }

    // When the number of deleted rows is not reported, the row is gone in spite of the error.
    method DeleteRetainedFromDB(topic: string, execOk: bool, affectedOk: bool) returns (err: Outcome)
      requires Valid()
      modifies `db
      ensures Valid()
      ensures db == if open && execOk then DeleteRetained(old(db), topic) else old(db)
      ensures err == if !(open && execOk) then Fail(StatementFailed)
                     else if !affectedOk then Fail(RowsAffectedFailed)
                     else Pass
    {
      if !(open && execOk) {
        return Fail(StatementFailed);
      }
      DeleteRetainedWellFormed(db, topic);
      db := DeleteRetained(db, topic);
      if !affectedOk {
        return Fail(RowsAffectedFailed);
      }
      return Pass;
    }

    // checkOk: the read-back after an upsert, or the row count after a delete, is delivered.
    method OnRetainMessage(pk: Packet, client: string, now: int, execOk: bool, checkOk: bool)
      requires Valid()
      modifies `db, `messageID
      ensures Valid()
      ensures var id := if pk.payload == [] then 0 else Wrap64(old(messageID) + 1);
              var msg := MessageOf(id, pk, true, client, now);
              View() == Apply(old(View()), RetainOp(OnRetainMessageHook, msg, open && execOk))
      ensures pk.payload != [] && open && execOk ==>
                && db.retained != []
                && RetainedRowHolds(db.retained[|db.retained| - 1], pk, client, now, Wrap64(old(messageID) + 1))
    {
      if |pk.payload| == 0 {
        var _ := DeleteRetainedFromDB(pk.topicName, execOk, checkOk);
        return;
      }
      messageID := Wrap64(messageID + 1);
      var msg := Message(messageID, pk.topicName, pk.payload, pk.qos, true, client, now);
      var _ := PersistRetainedToDB(msg, execOk, checkOk);
    }

    method OnRetainPublished(pk: Packet, client: string, now: int, execOk: bool, checkOk: bool)
      requires Valid()
      modifies `db, `messageID
      ensures Valid()
      ensures var id := if pk.payload == [] then 0 else Wrap64(old(messageID) + 1);
              var msg := MessageOf(id, pk, true, client, now);
              View() == Apply(old(View()), RetainOp(OnRetainPublishedHook, msg, open && execOk))
      ensures pk.payload != [] && open && execOk ==>
                && db.retained != []
                && RetainedRowHolds(db.retained[|db.retained| - 1], pk, client, now, Wrap64(old(messageID) + 1))
    {
      if |pk.payload| == 0 {
        var _ := DeleteRetainedFromDB(pk.topicName, execOk, checkOk);
        return;
      }
      messageID := Wrap64(messageID + 1);
      var msg := Message(messageID, pk.topicName, pk.payload, pk.qos, true, client, now);
      var _ := PersistRetainedToDB(msg, execOk, checkOk);
    }

    method CompactTopic(topic: string, before: int, execOk: bool, affectedOk: bool) returns (err: Outcome)
      requires Valid()
      modifies `db
      ensures Valid()
      ensures View() == Apply(old(View()), CompactOp(topic, before, open && execOk))
      ensures err == if !(open && execOk) then Fail(StatementFailed)
                     else if !affectedOk then Fail(RowsAffectedFailed)
                     else Pass
    {
      if !(open && execOk) {
        return Fail(StatementFailed);
      }
      CompactWellFormed(db, topic, before);
      db := Compact(db, topic, before);
      if !affectedOk {
        return Fail(RowsAffectedFailed);
      }
      return Pass;
    }

    // The query's rows in order, unless a row cannot be read or the cursor breaks.
    method GetMessagesByTopic(topic: string, limit: int, queryOk: bool, cursor: Cursor)
      returns (r: Result<seq<MessageRow>>)
      requires Valid()
      ensures var rows := SelectByTopic(db, topic, limit);
              var n := Delivered(cursor, |rows|);
              && (r.Success? <==>
                    open && queryOk && cursor.complete && forall i :: 0 <= i < |rows| ==> i !in cursor.unreadable)
              && (r.Success? ==> r.value == rows)
              && (r == Failure(QueryFailed) <==> !(open && queryOk))
              && (r == Failure(ScanFailed) <==>
                    open && queryOk && exists i :: 0 <= i < n && i in cursor.unreadable)
              && (r == Failure(IterationFailed) <==>
                    open && queryOk && !cursor.complete && forall i :: 0 <= i < n ==> i !in cursor.unreadable)
    {
      if !(open && queryOk) {
        return Failure(QueryFailed);
      }
      var rows := SelectByTopic(db, topic, limit);
      var n := Delivered(cursor, |rows|);
      var messages: seq<MessageRow> := [];
      for i := 0 to n
        invariant messages == rows[..i]
        invariant forall j :: 0 <= j < i ==> j !in cursor.unreadable
      {
        if i in cursor.unreadable {
          return Failure(ScanFailed);
        }
        messages := messages + [rows[i]];
      }
      if !cursor.complete {
        return Failure(IterationFailed);
      }
      return Success(messages);
    }

    // A row that cannot be read is skipped; a broken cursor returns what it delivered, and an error.
    method StoredRetainedMessages(queryOk: bool, cursor: Cursor)
      returns (messages: seq<StoredMessage>, err: Outcome)
      requires Valid()
      ensures err == if !(open && queryOk) then Fail(QueryFailed)
                     else if !cursor.complete then Fail(IterationFailed)
                     else Pass
      ensures !(open && queryOk) ==> messages == []
      ensures err.Pass? ==> messages == ToStoredMessages(db.retained, cursor.unreadable)
      ensures err == Fail(IterationFailed) && cursor.delivers <= |db.retained| ==>
                messages == ToStoredMessages(db.retained[..cursor.delivers], cursor.unreadable)
    {
      if !(open && queryOk) {
        return [], Fail(QueryFailed);
      }
      var rows := db.retained;
      var n := Delivered(cursor, |rows|);
      messages := [];
      for i := 0 to n
        invariant messages == ToStoredMessages(rows[..i], cursor.unreadable)
      {
        assert rows[..i + 1][..i] == rows[..i];
        if i in cursor.unreadable {
          continue;
        }
        var row := rows[i];
        var created := Truncate(row.timestamp, 1000000000);
        messages := messages + [
          StoredMessage(row.topic, "retained", row.payload, row.topic, row.clientId, created, created,
                        row.msgId % 0x1_0000, PUBLISH, row.qos, true)];
      }
      assert n == |rows| ==> rows[..n] == rows;
      if !cursor.complete {
        return messages, Fail(IterationFailed);
      }
      return messages, Pass;
    }

    // A failed query shows as zero. size is what the page count and page size of the file give.
    method GetStats(topicsOk: bool, sizeOk: bool, size: int, retainedOk: bool) returns (stats: Stats)
      ensures stats.totalMessages == totalMessages && stats.totalBytes == totalBytes
      ensures stats.topicCount == if open && topicsOk then |DistinctTopics(db)| else 0
      ensures stats.retainedCount == if open && retainedOk then |db.retained| else 0
      ensures stats.nextMessageId == Wrap64(messageID + 1)
      ensures stats.databaseSize == if open && sizeOk then size else 0
    {
      var topicCount := if open && topicsOk then |DistinctTopics(db)| else 0;
      var dbSize := if open && sizeOk then size else 0;
      var retainedCount := if open && retainedOk then |db.retained| else 0;
      return Stats(totalMessages, totalBytes, topicCount, retainedCount, Wrap64(messageID + 1), dbSize);
    }

    // The gauge shows the size that GetStats would give.
    method ReportMetrics(sizeOk: bool, size: int)
      modifies metrics`storageUsage
      ensures metrics.storageUsage == if open && sizeOk then size else 0
    {
      var dbSize := if open && sizeOk then size else 0;
      metrics.RecordStorageUsage(dbSize);
    }
  }
}
