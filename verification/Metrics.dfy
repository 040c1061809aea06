// What the metrics server's counters hold after any sequence of hook calls.
module Metrics {
  import opened Words
  import opened Sequences
  import opened Sums
  import opened Mqtt

  // SQLite writes

  datatype WriteStats = WriteStats(observed: nat, successes: nat, errorOps: nat, errors: nat)

  const NO_WRITES := WriteStats(0, 0, 0, 0)

  function RecordWrite(w: WriteStats, ok: bool): WriteStats {
    if ok then w.(observed := w.observed + 1, successes := w.successes + 1)
    else w.(observed := w.observed + 1, errorOps := w.errorOps + 1, errors := w.errors + 1)
  }

  // Connections. Times are clock readings in nanoseconds.

  datatype Connections = Connections(
    current: int, total: nat, disconnections: nat, durations: nat, durationSum: int, startTimes: map<string, nat>)

  const NO_CONNECTIONS := Connections(0, 0, 0, 0, 0, map[])

  datatype ConnectionEvent =
    | Connected(client: string, now: nat)
    | Disconnected(client: string, now: nat)
    | Expired(client: string, now: nat)

  function Connect(s: Connections, client: string, now: nat): Connections {
    s.(current := WrapSigned64(s.current + 1), total := s.total + 1, startTimes := s.startTimes[client := now])
  }

  function Close(s: Connections, client: string, now: nat): Connections {
    var s' := s.(current := WrapSigned64(s.current - 1), disconnections := s.disconnections + 1);
    if client in s.startTimes then
      s'.(durations := s.durations + 1,
          durationSum := s.durationSum + (now - s.startTimes[client]),
          startTimes := s.startTimes - {client})
    else s'
  }

  function AfterEvents(events: seq<ConnectionEvent>): Connections {
    if events == [] then NO_CONNECTIONS
    else
      var s := AfterEvents(events[..|events| - 1]);
      match events[|events| - 1]
      case Connected(client, now) => Connect(s, client, now)
      case Disconnected(client, now) => Close(s, client, now)
      case Expired(client, now) => Close(s, client, now)
  }

  // The events alone say who is connected: a client is live if its last event is a connect.
  predicate Live(events: seq<ConnectionEvent>, client: string) {
    events != [] &&
    var last := events[|events| - 1];
    if last.client == client then last.Connected? else Live(events[..|events| - 1], client)
  }

  // The time of that connect.
  function LiveSince(events: seq<ConnectionEvent>, client: string): nat
    requires Live(events, client)
  {
    var last := events[|events| - 1];
    if last.client == client then last.now else LiveSince(events[..|events| - 1], client)
  }

  // The server keeps a start time for exactly the live clients: that of the last connect, also when a
  // client reconnects without a close.
  lemma {:induction false} StartTimesLaw(events: seq<ConnectionEvent>, client: string)
    ensures client in AfterEvents(events).startTimes <==> Live(events, client)
    ensures Live(events, client) ==> AfterEvents(events).startTimes[client] == LiveSince(events, client)
  {
    if events != [] {
      StartTimesLaw(events[..|events| - 1], client);
    }
  }

  function Connects(events: seq<ConnectionEvent>): nat {
    if events == [] then 0
    else Connects(events[..|events| - 1]) + if events[|events| - 1].Connected? then 1 else 0
  }

  // Connects of a live client: the earlier start time is lost.
  function Overwrites(events: seq<ConnectionEvent>): nat {
    if events == [] then 0
    else
      var front, last := events[..|events| - 1], events[|events| - 1];
      Overwrites(front) + if last.Connected? && Live(front, last.client) then 1 else 0
  }

  // Disconnects and expiries of a client that is not live: there is no duration to observe.
  function Unmatched(events: seq<ConnectionEvent>): nat {
    if events == [] then 0
    else
      var front, last := events[..|events| - 1], events[|events| - 1];
      Unmatched(front) + if !last.Connected? && !Live(front, last.client) then 1 else 0
  }

  lemma Grows<K, V>(m: map<K, V>, k: K, v: V)
    ensures |m[k := v]| == |m| + if k in m then 0 else 1
  {
    assert m[k := v].Keys == m.Keys + {k};
    assert |m.Keys| == |m|;
    assert |m[k := v].Keys| == |m[k := v]|;
  }

  // Conservation over every event sequence.
  lemma {:induction false} ConnectionLaw(events: seq<ConnectionEvent>)
    ensures var s := AfterEvents(events);
            && s.total == Connects(events) == s.durations + |s.startTimes| + Overwrites(events)
            && s.disconnections == s.durations + Unmatched(events)
            && s.total + s.disconnections == |events|
  {
    if events != [] {
      var front, last := events[..|events| - 1], events[|events| - 1];
      ConnectionLaw(front);
      StartTimesLaw(front, last.client);
      var s := AfterEvents(front);
      if last.Connected? {
        Grows(s.startTimes, last.client, last.now);
      } else if last.client in s.startTimes {
        Shrinks(s.startTimes, last.client);
      }
    }
  }

  lemma {:induction false} GaugeLaw(events: seq<ConnectionEvent>)
    ensures var s := AfterEvents(events); s.current == WrapSigned64(s.total - s.disconnections)
  {
    if events != [] {
      var s := AfterEvents(events[..|events| - 1]);
      GaugeLaw(events[..|events| - 1]);
      WrapSignedAdd(s.total - s.disconnections, if events[|events| - 1].Connected? then 1 else -1);
    }
  }

  // Below 2^63 events the gauge is the number of live entries, plus the connects that overwrote one,
  // minus the closes that found none; so it is negative exactly when those closes prevail.
  lemma CurrentConnections(events: seq<ConnectionEvent>)
    requires |events| < 0x8000_0000_0000_0000
    ensures var s := AfterEvents(events);
            && s.current == s.total - s.disconnections
            && s.current == |s.startTimes| + Overwrites(events) - Unmatched(events)
            && (s.current < 0 <==> Unmatched(events) > |s.startTimes| + Overwrites(events))
  {
    GaugeLaw(events);
    ConnectionLaw(events);
  }

  // Live client ids are distinct and every connection is closed once.
  ghost predicate Paired(events: seq<ConnectionEvent>) {
    events == [] ||
    var front, last := events[..|events| - 1], events[|events| - 1];
    && Paired(front)
    && (last.Connected? <==> !Live(front, last.client))
  }

  lemma {:induction false} PairedHasNoStrays(events: seq<ConnectionEvent>)
    requires Paired(events)
    ensures Overwrites(events) == Unmatched(events) == 0
  {
    if events != [] {
      PairedHasNoStrays(events[..|events| - 1]);
    }
  }

  ghost predicate GaugeMatches(events: seq<ConnectionEvent>) {
    AfterEvents(events).current == |AfterEvents(events).startTimes|
  }

  // The first event that is out of place puts the gauge off by one.
  lemma StrayShows(events: seq<ConnectionEvent>)
    requires 0 < |events| < 0x8000_0000_0000_0000
    requires Paired(events[..|events| - 1])
    ensures GaugeMatches(events) <==> Paired(events)
  {
    PairedHasNoStrays(events[..|events| - 1]);
    CurrentConnections(events);
  }

  // After every event of the run.
  ghost predicate GaugeMatchesThroughout(events: seq<ConnectionEvent>) {
    GaugeMatches(events) && (events == [] || GaugeMatchesThroughout(events[..|events| - 1]))
  }

  // The gauge equals the number of live entries all along a run exactly when the run is paired.
  lemma {:induction false} GaugeIsExact(events: seq<ConnectionEvent>)
    requires |events| < 0x8000_0000_0000_0000
    ensures GaugeMatchesThroughout(events) <==> Paired(events)
  {
    if events != [] {
      GaugeIsExact(events[..|events| - 1]);
      if Paired(events[..|events| - 1]) {
        StrayShows(events);
      }
    }
  }

  // A disconnect followed by an expiry of the same client decrements the gauge twice.
  lemma GaugeCanBeNegative(client: string, now: nat)
    ensures AfterEvents([Connected(client, now), Disconnected(client, now), Expired(client, now)]).current == -1
  {
    var one := [Connected(client, now)];
    var two := one + [Disconnected(client, now)];
    assert AfterEvents(one) == Connect(NO_CONNECTIONS, client, now) by {
      assert one[..0] == [];
    }
    assert AfterEvents(two) == Close(AfterEvents(one), client, now) by {
      assert two[..1] == one;
    }
    var three := two + [Expired(client, now)];
    assert AfterEvents(three) == Close(AfterEvents(two), client, now) by {
      assert three[..2] == two;
    }
    assert three == [Connected(client, now), Disconnected(client, now), Expired(client, now)];
  }

  function StartTime(t: nat): nat { t }

  function ConnectTimes(events: seq<ConnectionEvent>): nat {
    if events == [] then 0
    else ConnectTimes(events[..|events| - 1]) +
         if events[|events| - 1].Connected? then events[|events| - 1].now else 0
  }

  function CloseTimes(events: seq<ConnectionEvent>): nat {
    if events == [] then 0
    else CloseTimes(events[..|events| - 1]) +
         if events[|events| - 1].Connected? then 0 else events[|events| - 1].now
  }

  // Closes of a live client, and the time that passed since its connect, over all of them.
  function MatchedCloses(events: seq<ConnectionEvent>): nat {
    if events == [] then 0
    else
      var front, last := events[..|events| - 1], events[|events| - 1];
      MatchedCloses(front) + if !last.Connected? && Live(front, last.client) then 1 else 0
  }

  function TimeConnected(events: seq<ConnectionEvent>): int {
    if events == [] then 0
    else
      var front, last := events[..|events| - 1], events[|events| - 1];
      TimeConnected(front) +
      if !last.Connected? && Live(front, last.client) then last.now - LiveSince(front, last.client) else 0
  }

  // Over every event sequence a duration is observed for each close of a live client: the time since
  // its last connect.
  lemma {:induction false} DurationLaw(events: seq<ConnectionEvent>)
    ensures AfterEvents(events).durations == MatchedCloses(events)
    ensures AfterEvents(events).durationSum == TimeConnected(events)
  {
    if events != [] {
      DurationLaw(events[..|events| - 1]);
      StartTimesLaw(events[..|events| - 1], events[|events| - 1].client);
    }
  }

  // In a paired run the observed durations add up to all close times minus all connect times, once
  // the connections still open are taken out.
  lemma {:induction false} DurationsTelescope(events: seq<ConnectionEvent>)
    requires Paired(events)
    ensures var s := AfterEvents(events);
            s.durationSum == CloseTimes(events) - (ConnectTimes(events) - Total(s.startTimes, StartTime))
  {
    if events != [] {
      var front, last := events[..|events| - 1], events[|events| - 1];
      DurationsTelescope(front);
      StartTimesLaw(front, last.client);
      var s := AfterEvents(front);
      if last.Connected? {
        TotalUpdate(s.startTimes, last.client, last.now, StartTime);
      } else {
        TotalUpdate(s.startTimes, last.client, 0, StartTime);
      }
    }
  }

  // Topics with their own label

  predicate HasWildcard(topic: string) {
    exists i :: 0 <= i < |topic| && (topic[i] == '+' || topic[i] == '#')
  }

  predicate Tracked(topic: string) {
    !HasWildcard(topic) && |topic| < 100
  }

  lemma TrackedMeans(topic: string)
    ensures Tracked(topic) <==> '+' !in topic && '#' !in topic && |topic| <= 99
  {
    if !HasWildcard(topic) {
      assert forall i :: 0 <= i < |topic| ==> topic[i] != '+' && topic[i] != '#';
    }
  }

  // A label is created at zero when it is first used.
  function CountOf(m: map<string, nat>, topic: string): nat {
    if topic in m then m[topic] else 0
  }

  function GaugeOf(g: map<string, int>, topic: string): int {
    if topic in g then g[topic] else 0
  }

  // Publishes

  datatype Sizes = Sizes(published: nat, bytes: nat, histogramCount: nat, histogramSum: nat)

  datatype QosCounts = QosCounts(qos0: nat, qos1: nat, qos2: nat)

  datatype TopicCounts = TopicCounts(messages: map<string, nat>, bytes: map<string, nat>)

  datatype Publishes = Publishes(sizes: Sizes, qos: QosCounts, topics: TopicCounts, latencies: nat)

  const NO_PUBLISHES := Publishes(Sizes(0, 0, 0, 0), QosCounts(0, 0, 0), TopicCounts(map[], map[]), 0)

  function CountSize(s: Sizes, size: nat): Sizes {
    Sizes(s.published + 1, s.bytes + size, s.histogramCount + 1, s.histogramSum + size)
  }

  function CountQos(s: QosCounts, qos: byte): QosCounts {
    match qos
    case 0 => s.(qos0 := s.qos0 + 1)
    case 1 => s.(qos1 := s.qos1 + 1)
    case 2 => s.(qos2 := s.qos2 + 1)
    case _ => s
  }

  function CountTopic(s: TopicCounts, topic: string, size: nat): TopicCounts {
    if Tracked(topic) then
      TopicCounts(s.messages[topic := CountOf(s.messages, topic) + 1],
                  s.bytes[topic := CountOf(s.bytes, topic) + size])
    else s
  }

  function CountPublish(s: Publishes, pk: Packet): Publishes {
    Publishes(CountSize(s.sizes, |pk.payload|), CountQos(s.qos, pk.qos),
              CountTopic(s.topics, pk.topicName, |pk.payload|), s.latencies + 1)
  }

  function AfterPublishes(packets: seq<Packet>): Publishes {
    if packets == [] then NO_PUBLISHES
    else CountPublish(AfterPublishes(packets[..|packets| - 1]), packets[|packets| - 1])
  }

  function PayloadBytes(packets: seq<Packet>): nat {
    if packets == [] then 0
    else PayloadBytes(packets[..|packets| - 1]) + |packets[|packets| - 1].payload|
  }

  function WithQos(lo: int, hi: int): Packet -> bool {
    (pk: Packet) => lo <= pk.qos as int <= hi
  }

  function OnShortTopic(): Packet -> bool {
    (pk: Packet) => '+' !in pk.topicName && '#' !in pk.topicName && |pk.topicName| <= 99
  }

  function To(topic: string): Packet -> bool {
    (pk: Packet) => pk.topicName == topic
  }

  function Count(n: nat): nat { n }

  // The totals and the size histogram count every publish and its payload bytes.
  lemma {:induction false} PublishLaw(packets: seq<Packet>)
    ensures var s := AfterPublishes(packets);
            && s.sizes.published == s.sizes.histogramCount == s.latencies == |packets|
            && s.sizes.bytes == s.sizes.histogramSum == PayloadBytes(packets)
  {
    if packets != [] {
      PublishLaw(packets[..|packets| - 1]);
    }
  }

  // Each QoS counter counts its own level; a publish above level 2 is in none of them.
  lemma {:induction false} QosLaw(packets: seq<Packet>)
    ensures var s := AfterPublishes(packets).qos;
            && s.qos0 == |Filter(packets, WithQos(0, 0))|
            && s.qos1 == |Filter(packets, WithQos(1, 1))|
            && s.qos2 == |Filter(packets, WithQos(2, 2))|
            && AfterPublishes(packets).sizes.published
               == s.qos0 + s.qos1 + s.qos2 + |Filter(packets, WithQos(3, 255))|
  {
    if packets != [] {
      QosLaw(packets[..|packets| - 1]);
    }
  }

  lemma TotalBump(m: map<string, nat>, topic: string, n: nat)
    ensures Total(m[topic := CountOf(m, topic) + n], Count) == Total(m, Count) + n
  {
    var bumped: nat := CountOf(m, topic) + n;
    TotalUpdate(m, topic, bumped, Count);
  }

  lemma CountTopicTotals(s: TopicCounts, topic: string, size: nat)
    ensures Total(CountTopic(s, topic, size).messages, Count)
         == Total(s.messages, Count) + if Tracked(topic) then 1 else 0
    ensures Total(CountTopic(s, topic, size).bytes, Count)
         == Total(s.bytes, Count) + if Tracked(topic) then size else 0
  {
    TotalBump(s.messages, topic, 1);
    TotalBump(s.bytes, topic, size);
  }

  lemma PayloadBytesSnoc(packets: seq<Packet>, pk: Packet)
    ensures PayloadBytes(packets + [pk]) == PayloadBytes(packets) + |pk.payload|
  {
    assert (packets + [pk])[..|packets|] == packets;
  }

  // Summed over all labels, the per-topic counts are exactly the publishes to topics that are short and
  // without wildcards.
  lemma {:induction false} TopicTotals(packets: seq<Packet>)
    ensures Total(AfterPublishes(packets).topics.messages, Count) == |Filter(packets, OnShortTopic())|
    ensures Total(AfterPublishes(packets).topics.bytes, Count) == PayloadBytes(Filter(packets, OnShortTopic()))
  {
    if packets != [] {
      var front, last := packets[..|packets| - 1], packets[|packets| - 1];
      TopicTotals(front);
      TrackedMeans(last.topicName);
      CountTopicTotals(AfterPublishes(front).topics, last.topicName, |last.payload|);
      PayloadBytesSnoc(Filter(front, OnShortTopic()), last);
    }
  }

  // A topic has a label exactly if it was published to, is shorter than 100 bytes and has no wildcard;
  // the label counts the publishes to its topic and their payload bytes.
  lemma {:induction false} TopicLabels(packets: seq<Packet>, topic: string)
    ensures var s, mine := AfterPublishes(packets).topics, Filter(packets, To(topic));
            && (topic in s.messages <==> topic in s.bytes)
            && (topic in s.messages <==> mine != [] && '+' !in topic && '#' !in topic && |topic| <= 99)
            && (topic in s.messages ==> s.messages[topic] == |mine| && s.bytes[topic] == PayloadBytes(mine))
  {
    if packets != [] {
      var front, last := packets[..|packets| - 1], packets[|packets| - 1];
      TopicLabels(front, topic);
      TrackedMeans(last.topicName);
      PayloadBytesSnoc(Filter(front, To(topic)), last);
    }
  }

  // Subscriber gauges

  type Gauges = map<string, int>

  datatype SubscriptionEvent = Subscribed(filters: seq<string>) | Unsubscribed(filters: seq<string>)

  // Adds delta to the gauge of every tracked filter, once for each occurrence.
  function Adjust(g: Gauges, filters: seq<string>, delta: int): Gauges {
    if filters == [] then g
    else
      var g' := Adjust(g, filters[..|filters| - 1], delta);
      var topic := filters[|filters| - 1];
      if Tracked(topic) then g'[topic := GaugeOf(g', topic) + delta] else g'
  }

  function AfterSubscriptions(events: seq<SubscriptionEvent>): Gauges {
    if events == [] then map[]
    else
      var g := AfterSubscriptions(events[..|events| - 1]);
      match events[|events| - 1]
      case Subscribed(filters) => Adjust(g, filters, 1)
      case Unsubscribed(filters) => Adjust(g, filters, -1)
  }

  // How often events of one kind mention a topic.
  function Mentions(events: seq<SubscriptionEvent>, topic: string, subscribed: bool): nat {
    if events == [] then 0
    else
      var last := events[|events| - 1];
      Mentions(events[..|events| - 1], topic, subscribed) +
      if last.Subscribed? == subscribed then multiset(last.filters)[topic] else 0
  }

  lemma {:induction false} AdjustLaw(g: Gauges, filters: seq<string>, delta: int, topic: string)
    ensures GaugeOf(Adjust(g, filters, delta), topic)
         == GaugeOf(g, topic) + if Tracked(topic) then delta * multiset(filters)[topic] else 0
    ensures topic in Adjust(g, filters, delta) <==> topic in g || (Tracked(topic) && topic in filters)
  {
    if filters != [] {
      var front, last := filters[..|filters| - 1], filters[|filters| - 1];
      AdjustLaw(g, front, delta, topic);
      assert filters == front + [last];
      assert multiset(filters) == multiset(front) + multiset{last};
      if topic == last {
        assert multiset(filters)[topic] == multiset(front)[topic] + 1;
        assert delta * (multiset(front)[topic] + 1) == delta * multiset(front)[topic] + delta;
      }
    }
  }

  // A gauge is its topic's tracked subscribe occurrences minus its unsubscribe occurrences.
  lemma {:induction false} SubscriberLaw(events: seq<SubscriptionEvent>, topic: string)
    ensures GaugeOf(AfterSubscriptions(events), topic)
         == if '+' !in topic && '#' !in topic && |topic| <= 99 then
              Mentions(events, topic, true) - Mentions(events, topic, false)
            else 0
  {
    TrackedMeans(topic);
    if events != [] {
      SubscriberLaw(events[..|events| - 1], topic);
      var g := AfterSubscriptions(events[..|events| - 1]);
      match events[|events| - 1]
      case Subscribed(filters) => AdjustLaw(g, filters, 1, topic);
      case Unsubscribed(filters) => AdjustLaw(g, filters, -1, topic);
    }
  }

  // Neither the order of the filters nor their split into packets matters.
  lemma FilterOrderIsIrrelevant(g: Gauges, a: seq<string>, b: seq<string>, delta: int)
    requires multiset(a) == multiset(b)
    ensures Adjust(g, a, delta) == Adjust(g, b, delta)
  {
    forall topic
      ensures topic in Adjust(g, a, delta) <==> topic in Adjust(g, b, delta)
      ensures GaugeOf(Adjust(g, a, delta), topic) == GaugeOf(Adjust(g, b, delta), topic)
    {
      AdjustLaw(g, a, delta, topic);
      AdjustLaw(g, b, delta, topic);
      assert topic in a <==> topic in multiset(a);
      assert topic in b <==> topic in multiset(b);
    }
    var ga, gb := Adjust(g, a, delta), Adjust(g, b, delta);
    forall topic | topic in ga
      ensures ga[topic] == gb[topic]
    {
      assert GaugeOf(ga, topic) == GaugeOf(gb, topic);
    }
  }

  lemma {:induction false} PacketSplitIsIrrelevant(g: Gauges, a: seq<string>, b: seq<string>, delta: int)
    ensures Adjust(g, a + b, delta) == Adjust(Adjust(g, a, delta), b, delta)
  {
    if b == [] {
      assert a + b == a;
    } else {
      var front := b[..|b| - 1];
      PacketSplitIsIrrelevant(g, a, front, delta);
      assert (a + b)[..|a + b| - 1] == a + front;
    }
  }

  // Unsubscribing a packet's filters undoes subscribing it; what remains is at most a label at zero.
  lemma UnsubscribeUndoesSubscribe(g: Gauges, filters: seq<string>)
    ensures var g' := Adjust(Adjust(g, filters, 1), filters, -1);
            && (forall topic :: GaugeOf(g', topic) == GaugeOf(g, topic))
            && (g' == g <==> forall topic :: topic in filters && Tracked(topic) ==> topic in g)
  {
    var g' := Adjust(Adjust(g, filters, 1), filters, -1);
    forall topic
      ensures GaugeOf(g', topic) == GaugeOf(g, topic)
      ensures topic in g' <==> topic in g || (Tracked(topic) && topic in filters)
    {
      AdjustLaw(g, filters, 1, topic);
      AdjustLaw(Adjust(g, filters, 1), filters, -1, topic);
    }
    if forall topic :: topic in filters && Tracked(topic) ==> topic in g {
      forall topic | topic in g
        ensures g'[topic] == g[topic]
      {
        assert GaugeOf(g', topic) == GaugeOf(g, topic);
      }
    }
  }

  // Garbage collection pauses, in nanoseconds; the histogram is in seconds.

  datatype Pauses = Pauses(last: nat, observations: nat, seconds: real)

  function ObservePause(s: Pauses, pause: nat): Pauses {
    if pause > s.last then
      Pauses(pause, s.observations + 1, s.seconds + (pause - s.last) as real / 1000000000.0)
    else s
  }

  function AfterPauses(first: nat, readings: seq<nat>): Pauses {
    if readings == [] then Pauses(first, 0, 0.0)
    else ObservePause(AfterPauses(first, readings[..|readings| - 1]), readings[|readings| - 1])
  }

  // The i-th reading is above the first and all others before it.
  predicate NewMaximum(first: nat, readings: seq<nat>, i: nat)
    requires i < |readings|
  {
    first < readings[i] && forall j :: 0 <= j < i ==> readings[j] < readings[i]
  }

  ghost function NewMaxima(first: nat, readings: seq<nat>): set<nat> {
    set i: nat | i < |readings| && NewMaximum(first, readings, i)
  }

  lemma NewMaximaSnoc(first: nat, readings: seq<nat>)
    requires readings != []
    ensures var n := |readings| - 1;
            |NewMaxima(first, readings)|
            == |NewMaxima(first, readings[..n])| + if NewMaximum(first, readings, n) then 1 else 0
  {
    var n := |readings| - 1;
    assert forall i: nat :: i < n ==> (NewMaximum(first, readings, i) <==> NewMaximum(first, readings[..n], i));
    assert NewMaxima(first, readings)
        == NewMaxima(first, readings[..n]) + if NewMaximum(first, readings, n) then {n} else {};
  }

  // Over any readings, monotone or not, last is the maximum, the histogram's sum telescopes, and it has
  // one observation for every reading above all earlier ones.
  lemma {:induction false} PauseLaw(first: nat, readings: seq<nat>)
    ensures var s := AfterPauses(first, readings);
            && s.last >= first
            && (forall r :: r in readings ==> r <= s.last)
            && (s.last == first || s.last in readings)
            && s.seconds == (s.last - first) as real / 1000000000.0
            && s.observations == |NewMaxima(first, readings)|
  {
    if readings == [] {
      assert NewMaxima(first, readings) == {};
    } else {
      var front, last := readings[..|readings| - 1], readings[|readings| - 1];
      PauseLaw(first, front);
      NewMaximaSnoc(first, readings);
      assert readings == front + [last];
      assert forall j :: 0 <= j < |front| ==> readings[j] in front;
    }
  }
}
