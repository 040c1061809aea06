// The metrics server: hooks that update its counters in place.
// Clock readings, latencies and runtime statistics are arguments.
module MetricsServer {
  import opened Words
  import opened Mqtt
  import opened Metrics

  datatype RuntimeStats = RuntimeStats(alloc: nat, goroutines: nat, pauseTotal: nat, uptime: int)

  class Server {
    var connectionsCurrent: int
    var connectionsTotal: nat
    var disconnectionsTotal: nat
    var durationCount: nat
    var durationSum: int
    var connectionStartTimes: map<string, nat>

    var messagesPublishedTotal: nat
    var bytesPublishedTotal: nat
    var messageSizeCount: nat
    var messageSizeSum: nat
    var qos0MessagesTotal: nat
    var qos1MessagesTotal: nat
    var qos2MessagesTotal: nat
    var topicMessageCounts: map<string, nat>
    var topicByteCounts: map<string, nat>
    var processingLatencyCount: nat

    var topicSubscriberGauge: Gauges

    var writeLatencyCount: nat
    var writeSuccesses: nat
    var writeErrorOps: nat
    var writeErrorsTotal: nat
    var storageUsage: int
    var recoveryCount: nat

    var memoryUsage: nat
    var goroutineCount: nat
    var uptime: int
    var lastGCPause: nat
    var gcDurationCount: nat
    var gcDurationSum: real

    // The values the specification speaks about

    ghost function ConnectionState(): Connections
      reads this
    {
      Connections(connectionsCurrent, connectionsTotal, disconnectionsTotal, durationCount, durationSum,
                  connectionStartTimes)
    }

    ghost function PublishState(): Publishes
      reads this
    {
      Publishes(Sizes(messagesPublishedTotal, bytesPublishedTotal, messageSizeCount, messageSizeSum),
                QosCounts(qos0MessagesTotal, qos1MessagesTotal, qos2MessagesTotal),
                TopicCounts(topicMessageCounts, topicByteCounts),
                processingLatencyCount)
    }

    ghost function WriteState(): WriteStats
      reads this
    {
      WriteStats(writeLatencyCount, writeSuccesses, writeErrorOps, writeErrorsTotal)
    }

    ghost function PauseState(): Pauses
      reads this
    {
      Pauses(lastGCPause, gcDurationCount, gcDurationSum)
    }

    constructor ()
      ensures ConnectionState() == AfterEvents([])
      ensures PublishState() == AfterPublishes([])
      ensures topicSubscriberGauge == AfterSubscriptions([])
      ensures WriteState() == NO_WRITES
      ensures PauseState() == AfterPauses(0, [])
    {
      connectionsCurrent, connectionsTotal, disconnectionsTotal := 0, 0, 0;
      durationCount, durationSum, connectionStartTimes := 0, 0, map[];
      messagesPublishedTotal, bytesPublishedTotal, messageSizeCount, messageSizeSum := 0, 0, 0, 0;
      qos0MessagesTotal, qos1MessagesTotal, qos2MessagesTotal := 0, 0, 0;
      topicMessageCounts, topicByteCounts, processingLatencyCount := map[], map[], 0;
      topicSubscriberGauge := map[];
      writeLatencyCount, writeSuccesses, writeErrorOps, writeErrorsTotal := 0, 0, 0, 0;
      storageUsage, recoveryCount := 0, 0;
      memoryUsage, goroutineCount, uptime := 0, 0, 0;
      lastGCPause, gcDurationCount, gcDurationSum := 0, 0, 0.0;
    }

    method OnConnect(client: string, now: nat)
      modifies `connectionsCurrent, `connectionsTotal, `connectionStartTimes
      ensures ConnectionState() == Connect(old(ConnectionState()), client, now)
    {
      connectionsCurrent := WrapSigned64(connectionsCurrent + 1);
      connectionsTotal := connectionsTotal + 1;
      connectionStartTimes := connectionStartTimes[client := now];
    }

    method OnDisconnect(client: string, now: nat)
      modifies `connectionsCurrent, `disconnectionsTotal, `durationCount, `durationSum, `connectionStartTimes
      ensures ConnectionState() == Close(old(ConnectionState()), client, now)
    {
      connectionsCurrent := WrapSigned64(connectionsCurrent - 1);
      disconnectionsTotal := disconnectionsTotal + 1;
      if client in connectionStartTimes {
        var duration := now - connectionStartTimes[client];
        durationCount, durationSum := durationCount + 1, durationSum + duration;
        connectionStartTimes := connectionStartTimes - {client};
      }
    }

    method OnClientExpired(client: string, now: nat)
      modifies `connectionsCurrent, `disconnectionsTotal, `durationCount, `durationSum, `connectionStartTimes
      ensures ConnectionState() == Close(old(ConnectionState()), client, now)
    {
      connectionsCurrent := WrapSigned64(connectionsCurrent - 1);
      disconnectionsTotal := disconnectionsTotal + 1;
      if client in connectionStartTimes {
        var duration := now - connectionStartTimes[client];
        durationCount, durationSum := durationCount + 1, durationSum + duration;
        connectionStartTimes := connectionStartTimes - {client};
      }
    }

    static method ContainsWildcard(topic: string) returns (found: bool)
      ensures found <==> HasWildcard(topic)
    {
      for i := 0 to |topic|
        invariant forall j :: 0 <= j < i ==> topic[j] != '+' && topic[j] != '#'
      {
        if topic[i] == '+' || topic[i] == '#' {
          return true;
        }
      }
      return false;
    }

    method OnSubscribe(pk: Packet) returns (out: Packet)
      modifies `topicSubscriberGauge
      ensures out == pk
      ensures topicSubscriberGauge == Adjust(old(topicSubscriberGauge), pk.filters, 1)
    {
      for i := 0 to |pk.filters|
        invariant topicSubscriberGauge == Adjust(old(topicSubscriberGauge), pk.filters[..i], 1)
      {
        assert pk.filters[..i + 1] == pk.filters[..i] + [pk.filters[i]];
        assert pk.filters[..i + 1][..i] == pk.filters[..i];
        var filter := pk.filters[i];
        var wildcard := ContainsWildcard(filter);
        if !wildcard && |filter| < 100 {
          topicSubscriberGauge := topicSubscriberGauge[filter := GaugeOf(topicSubscriberGauge, filter) + 1];
        }
      }
      assert pk.filters[..|pk.filters|] == pk.filters;
      return pk;
    }

    method OnUnsubscribe(pk: Packet) returns (out: Packet)
      modifies `topicSubscriberGauge
      ensures out == pk
      ensures topicSubscriberGauge == Adjust(old(topicSubscriberGauge), pk.filters, -1)
    {
      for i := 0 to |pk.filters|
        invariant topicSubscriberGauge == Adjust(old(topicSubscriberGauge), pk.filters[..i], -1)
      {
        assert pk.filters[..i + 1] == pk.filters[..i] + [pk.filters[i]];
        assert pk.filters[..i + 1][..i] == pk.filters[..i];
        var filter := pk.filters[i];
        var wildcard := ContainsWildcard(filter);
        if !wildcard && |filter| < 100 {
          topicSubscriberGauge := topicSubscriberGauge[filter := GaugeOf(topicSubscriberGauge, filter) - 1];
        }
      }
      assert pk.filters[..|pk.filters|] == pk.filters;
      return pk;
    }

    // The per-topic part of OnPublish.
    method CountTopicLabel(topic: string, messageSize: nat)
      modifies `topicMessageCounts, `topicByteCounts
      ensures TopicCounts(topicMessageCounts, topicByteCounts)
           == CountTopic(old(TopicCounts(topicMessageCounts, topicByteCounts)), topic, messageSize)
    {
      var wildcard := ContainsWildcard(topic);
      if !wildcard && |topic| < 100 {
        topicMessageCounts := topicMessageCounts[topic := CountOf(topicMessageCounts, topic) + 1];
        topicByteCounts := topicByteCounts[topic := CountOf(topicByteCounts, topic) + messageSize];
      }
    }

    method OnPublish(pk: Packet) returns (out: Packet)
      modifies `messagesPublishedTotal, `bytesPublishedTotal, `messageSizeCount, `messageSizeSum,
               `qos0MessagesTotal, `qos1MessagesTotal, `qos2MessagesTotal,
               `topicMessageCounts, `topicByteCounts, `processingLatencyCount
      ensures out == pk
      ensures PublishState() == CountPublish(old(PublishState()), pk)
    {
      messagesPublishedTotal := messagesPublishedTotal + 1;
      var messageSize := |pk.payload|;
      bytesPublishedTotal := bytesPublishedTotal + messageSize;
      messageSizeCount, messageSizeSum := messageSizeCount + 1, messageSizeSum + messageSize;
      match pk.qos {
        case 0 => qos0MessagesTotal := qos0MessagesTotal + 1;
        case 1 => qos1MessagesTotal := qos1MessagesTotal + 1;
        case 2 => qos2MessagesTotal := qos2MessagesTotal + 1;
        case _ =>
      }
      CountTopicLabel(pk.topicName, messageSize);
      processingLatencyCount := processingLatencyCount + 1;
      return pk;
    }

    method RecordSQLiteWrite(success: bool)
      modifies `writeLatencyCount, `writeSuccesses, `writeErrorOps, `writeErrorsTotal
      ensures WriteState() == RecordWrite(old(WriteState()), success)
    {
      writeLatencyCount := writeLatencyCount + 1;
      if success {
        writeSuccesses := writeSuccesses + 1;
      } else {
        writeErrorOps := writeErrorOps + 1;
        writeErrorsTotal := writeErrorsTotal + 1;
      }
    }

    method RecordStorageUsage(bytes: int)
      modifies `storageUsage
      ensures storageUsage == bytes
    {
      storageUsage := bytes;
    }

    method RecordRecovery()
      modifies `recoveryCount
      ensures recoveryCount == old(recoveryCount) + 1
    {
      recoveryCount := recoveryCount + 1;
    }

    method UpdateSystemMetrics(stats: RuntimeStats)
      modifies `memoryUsage, `goroutineCount, `uptime, `lastGCPause, `gcDurationCount, `gcDurationSum
      ensures PauseState() == ObservePause(old(PauseState()), stats.pauseTotal)
      ensures memoryUsage == stats.alloc && goroutineCount == stats.goroutines && uptime == stats.uptime
    {
      memoryUsage := stats.alloc;
      goroutineCount := stats.goroutines;
      var currentGCPause := stats.pauseTotal;
      if currentGCPause > lastGCPause {
        var gcDuration := (currentGCPause - lastGCPause) as real / 1000000000.0;
        gcDurationCount, gcDurationSum := gcDurationCount + 1, gcDurationSum + gcDuration;
        lastGCPause := currentGCPause;
      }
      uptime := stats.uptime;
    }

    // The collection loop, from its first reading to the last tick before the context ends.
    method CollectSystemMetrics(first: nat, ticks: seq<RuntimeStats>)
      modifies `memoryUsage, `goroutineCount, `uptime, `lastGCPause, `gcDurationCount, `gcDurationSum
      ensures lastGCPause == AfterPauses(first, PauseReadings(ticks)).last
      ensures forall t :: t in ticks ==> t.pauseTotal <= lastGCPause
      ensures gcDurationCount == old(gcDurationCount) + |NewMaxima(first, PauseReadings(ticks))|
      ensures gcDurationSum == old(gcDurationSum) + (lastGCPause - first) as real / 1000000000.0
    {
      lastGCPause := first;
      ghost var readings := PauseReadings(ticks);
      for i := 0 to |ticks|
        invariant lastGCPause == AfterPauses(first, readings[..i]).last
        invariant gcDurationCount == old(gcDurationCount) + AfterPauses(first, readings[..i]).observations
        invariant gcDurationSum == old(gcDurationSum) + AfterPauses(first, readings[..i]).seconds
      {
        assert readings[..i + 1][..i] == readings[..i];
        UpdateSystemMetrics(ticks[i]);
      }
      assert readings[..|ticks|] == readings;
      PauseLaw(first, readings);
      forall t | t in ticks
        ensures t.pauseTotal <= lastGCPause
      {
        var i :| 0 <= i < |ticks| && ticks[i] == t;
        assert readings[i] in readings;
      }
    }
  }

  ghost function PauseReadings(ticks: seq<RuntimeStats>): (readings: seq<nat>)
    ensures |readings| == |ticks|
    ensures forall i :: 0 <= i < |ticks| ==> readings[i] == ticks[i].pauseTotal
  {
    seq(|ticks|, i requires 0 <= i < |ticks| => ticks[i].pauseTotal)
  }
}
