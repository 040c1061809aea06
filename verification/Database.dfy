// The two SQLite tables and the statements the storage manager runs against them.
// A statement is atomic; a failed one leaves the tables as they were.
module Database {
  import opened Words
  import opened Sequences

  datatype MessageRow = MessageRow(
    id: nat, topic: string, payload: seq<byte>, qos: byte, retain: bool, clientId: string, timestamp: int)

  datatype RetainedRow = RetainedRow(
    topic: string, payload: seq<byte>, qos: byte, clientId: string, timestamp: int, msgId: uint64)

  // lastId is the largest id the AUTOINCREMENT column has ever handed out.
  datatype Tables = Tables(messages: seq<MessageRow>, lastId: nat, retained: seq<RetainedRow>)

  const EMPTY := Tables([], 0, [])

  // WHERE clauses

  function OnTopic(topic: string): MessageRow -> bool {
    (r: MessageRow) => r.topic == topic
  }

  function NotExpired(topic: string, before: int): MessageRow -> bool {
    (r: MessageRow) => !(r.topic == topic && r.timestamp < before)
  }

  function RetainedFor(topic: string): RetainedRow -> bool {
    (r: RetainedRow) => r.topic == topic
  }

  function NotRetainedFor(topic: string): RetainedRow -> bool {
    (r: RetainedRow) => r.topic != topic
  }

  // Statements on the message log

  function Insert(t: Tables, topic: string, payload: seq<byte>, qos: byte, retain: bool,
                  clientId: string, timestamp: int): Tables
  {
    var row := MessageRow(t.lastId + 1, topic, payload, qos, retain, clientId, timestamp);
    t.(messages := t.messages + [row], lastId := t.lastId + 1)
  }

  function Compact(t: Tables, topic: string, before: int): Tables {
    t.(messages := Filter(t.messages, NotExpired(topic, before)))
  }

  // COALESCE(MAX(id), 0)
  function MaxId(rows: seq<MessageRow>): (max: nat)
    ensures forall r :: r in rows ==> r.id <= max
    ensures max == 0 || exists r :: r in rows && r.id == max
  {
    if rows == [] then 0
    else
      var front, last := rows[..|rows| - 1], rows[|rows| - 1];
      assert rows == front + [last];
      if MaxId(front) <= last.id then last.id else MaxId(front)
  }

  // ORDER BY id DESC, as an insertion sort
  function SortDescending(rows: seq<MessageRow>): seq<MessageRow> {
    if rows == [] then [] else InsertDescending(SortDescending(rows[..|rows| - 1]), rows[|rows| - 1])
  }

  function InsertDescending(sorted: seq<MessageRow>, row: MessageRow): seq<MessageRow> {
    if sorted == [] || sorted[0].id <= row.id then [row] + sorted
    else [sorted[0]] + InsertDescending(sorted[1..], row)
  }

  // LIMIT; a negative limit is no limit
  function Limit(rows: seq<MessageRow>, limit: int): (r: seq<MessageRow>)
    ensures r <= rows
    ensures |r| == if 0 <= limit < |rows| then limit else |rows|
  {
    if 0 <= limit < |rows| then rows[..limit] else rows
  }

  function SelectByTopic(t: Tables, topic: string, limit: int): seq<MessageRow> {
    Limit(SortDescending(Filter(t.messages, OnTopic(topic))), limit)
  }

  function DistinctTopics(t: Tables): set<string> {
    set r | r in t.messages :: r.topic
  }

  // Statements on the retained table; INSERT OR REPLACE drops the conflicting row first

  function Upsert(t: Tables, row: RetainedRow): Tables {
    t.(retained := Filter(t.retained, NotRetainedFor(row.topic)) + [row])
  }

  function DeleteRetained(t: Tables, topic: string): Tables {
    t.(retained := Filter(t.retained, NotRetainedFor(topic)))
  }

  function CountRetained(t: Tables, topic: string): nat {
    |Filter(t.retained, RetainedFor(topic))|
  }

  // What every reachable database satisfies

  ghost predicate Ascending(rows: seq<MessageRow>) {
    forall i, j :: 0 <= i < j < |rows| ==> rows[i].id < rows[j].id
  }

  ghost predicate Descending(rows: seq<MessageRow>) {
    forall i, j :: 0 <= i < j < |rows| ==> rows[i].id > rows[j].id
  }

  ghost predicate OneRowPerTopic(rows: seq<RetainedRow>) {
    forall i, j :: 0 <= i < j < |rows| ==> rows[i].topic != rows[j].topic
  }

  ghost predicate WellFormed(t: Tables) {
    && Ascending(t.messages)
    && (forall r :: r in t.messages ==> 0 < r.id <= t.lastId)
    && OneRowPerTopic(t.retained)
    && (forall r :: r in t.retained ==> r.payload != [])
  }

  lemma {:induction false} FilterAscending(rows: seq<MessageRow>, keep: MessageRow -> bool)
    requires Ascending(rows)
    ensures Ascending(Filter(rows, keep))
  {
    if rows != [] {
      var front := rows[..|rows| - 1];
      FilterAscending(front, keep);
      FilterMembers(front, keep);
      forall r | r in Filter(front, keep)
        ensures r.id < rows[|rows| - 1].id
      {
        assert r in front;
      }
    }
  }

  lemma {:induction false} FilterOneRowPerTopic(rows: seq<RetainedRow>, keep: RetainedRow -> bool)
    requires OneRowPerTopic(rows)
    ensures OneRowPerTopic(Filter(rows, keep))
  {
    if rows != [] {
      var front := rows[..|rows| - 1];
      FilterOneRowPerTopic(front, keep);
      FilterMembers(front, keep);
      forall r | r in Filter(front, keep)
        ensures r.topic != rows[|rows| - 1].topic
      {
        assert r in front;
      }
    }
  }

  lemma InsertWellFormed(t: Tables, topic: string, payload: seq<byte>, qos: byte, retain: bool,
                         clientId: string, timestamp: int)
    requires WellFormed(t)
    ensures WellFormed(Insert(t, topic, payload, qos, retain, clientId, timestamp))
  {
    forall i | 0 <= i < |t.messages|
      ensures t.messages[i].id <= t.lastId
    {
      assert t.messages[i] in t.messages;
    }
  }

  lemma CompactWellFormed(t: Tables, topic: string, before: int)
    requires WellFormed(t)
    ensures WellFormed(Compact(t, topic, before))
    ensures |Compact(t, topic, before).messages| <= |t.messages|
  {
    FilterAscending(t.messages, NotExpired(topic, before));
    FilterMembers(t.messages, NotExpired(topic, before));
  }

  lemma DeleteRetainedWellFormed(t: Tables, topic: string)
    requires WellFormed(t)
    ensures WellFormed(DeleteRetained(t, topic))
    ensures CountRetained(DeleteRetained(t, topic), topic) == 0
  {
    FilterOneRowPerTopic(t.retained, NotRetainedFor(topic));
    FilterMembers(t.retained, NotRetainedFor(topic));
    FilterNone(DeleteRetained(t, topic).retained, RetainedFor(topic));
  }

  // The read-back after an upsert with nothing in between counts exactly one row.
  lemma UpsertWellFormed(t: Tables, row: RetainedRow)
    requires WellFormed(t)
    ensures row.payload != [] ==> WellFormed(Upsert(t, row))
    ensures CountRetained(Upsert(t, row), row.topic) == 1
  {
    DeleteRetainedWellFormed(t, row.topic);
    FilterMembers(t.retained, NotRetainedFor(row.topic));
    var kept := Filter(t.retained, NotRetainedFor(row.topic));
    forall i | 0 <= i < |kept|
      ensures kept[i].topic != row.topic
    {
      assert kept[i] in kept;
    }
    FilterSnoc(kept, row, RetainedFor(row.topic));
  }

  // A primary key lets a count by topic see no row or one row.
  lemma {:induction false} CountIsAtMostOne(rows: seq<RetainedRow>, topic: string)
    requires OneRowPerTopic(rows)
    ensures |Filter(rows, RetainedFor(topic))| == if exists r :: r in rows && r.topic == topic then 1 else 0
  {
    if rows != [] {
      var front, last := rows[..|rows| - 1], rows[|rows| - 1];
      CountIsAtMostOne(front, topic);
      assert forall r :: r in rows <==> r in front || r == last;
      if last.topic == topic {
        assert forall r :: r in front ==> r.topic != topic;
      }
    }
  }

  // Topic queries

  lemma {:induction false} SortAscending(rows: seq<MessageRow>)
    requires Ascending(rows)
    ensures SortDescending(rows) == Reverse(rows)
  {
    if rows != [] {
      var front := rows[..|rows| - 1];
      SortAscending(front);
      if front != [] {
        assert Reverse(front)[0] == front[|front| - 1];
      }
    }
  }

  // The answer is the topic's rows, newest first, cut at the limit.
  lemma SelectIsNewestFirst(t: Tables, topic: string, limit: int)
    requires WellFormed(t)
    ensures SelectByTopic(t, topic, limit) == Limit(Reverse(Filter(t.messages, OnTopic(topic))), limit)
    ensures Descending(SelectByTopic(t, topic, limit))
    ensures limit >= 0 ==>
              |SelectByTopic(t, topic, limit)| ==
              var n := |Filter(t.messages, OnTopic(topic))|; if limit < n then limit else n
  {
    FilterAscending(t.messages, OnTopic(topic));
    SortAscending(Filter(t.messages, OnTopic(topic)));
  }

  lemma ReverseMembers<T>(s: seq<T>, x: T)
    ensures x in Reverse(s) <==> x in s
  {
    if x in s {
      var i :| 0 <= i < |s| && s[i] == x;
      assert Reverse(s)[|s| - 1 - i] == x;
    }
  }

  // What a limit cuts off is older than everything it leaves.
  lemma LimitMembers(rows: seq<MessageRow>, limit: int, row: MessageRow)
    requires Ascending(rows)
    ensures row in Limit(Reverse(rows), limit) ==> row in rows
    ensures row in rows && row !in Limit(Reverse(rows), limit) ==>
              && |Limit(Reverse(rows), limit)| == limit
              && forall newer :: newer in Limit(Reverse(rows), limit) ==> newer.id > row.id
  {
    var answer := Limit(Reverse(rows), limit);
    ReverseMembers(rows, row);
    if row in rows && row !in answer {
      var cut := Reverse(rows)[|answer|..];
      assert Reverse(rows) == answer + cut;
      var i :| 0 <= i < |cut| && cut[i] == row;
      forall newer | newer in answer
        ensures newer.id > row.id
      {
        var j :| 0 <= j < |answer| && answer[j] == newer;
      }
    }
  }

  // A row is in the answer only if it is on the topic; a row on the topic is missing from the answer
  // only if there is a limit and the answer is full of newer rows.
  lemma SelectMembers(t: Tables, topic: string, limit: int, row: MessageRow)
    requires WellFormed(t)
    ensures row in SelectByTopic(t, topic, limit) ==> row in t.messages && row.topic == topic
    ensures row in t.messages && row.topic == topic && row !in SelectByTopic(t, topic, limit) ==>
              && |SelectByTopic(t, topic, limit)| == limit
              && forall newer :: newer in SelectByTopic(t, topic, limit) ==> newer.id > row.id
  {
    SelectIsNewestFirst(t, topic, limit);
    FilterMembers(t.messages, OnTopic(topic));
    FilterAscending(t.messages, OnTopic(topic));
    LimitMembers(Filter(t.messages, OnTopic(topic)), limit, row);
  }

  // Compaction algebra

  // After a compaction an unlimited query on its topic is the old answer without the rows before
  // the cutoff; a query on any other topic, with any limit, and the retained table do not change.
  lemma CompactQueries(t: Tables, topic: string, before: int, other: string, limit: int)
    requires WellFormed(t)
    ensures SelectByTopic(Compact(t, topic, before), topic, -1)
         == Filter(SelectByTopic(t, topic, -1), NotExpired(topic, before))
    ensures other != topic ==>
              SelectByTopic(Compact(t, topic, before), other, limit) == SelectByTopic(t, other, limit)
    ensures Compact(t, topic, before).retained == t.retained
  {
    var kept := NotExpired(topic, before);
    CompactWellFormed(t, topic, before);
    SelectIsNewestFirst(t, topic, -1);
    SelectIsNewestFirst(Compact(t, topic, before), topic, -1);
    FilterSwap(t.messages, kept, OnTopic(topic));
    FilterReverse(Filter(t.messages, OnTopic(topic)), kept);
    if other != topic {
      SelectIsNewestFirst(t, other, limit);
      SelectIsNewestFirst(Compact(t, topic, before), other, limit);
      FilterSwap(t.messages, kept, OnTopic(other));
      FilterMembers(t.messages, OnTopic(other));
      FilterAll(Filter(t.messages, OnTopic(other)), kept);
    }
  }

  lemma FilterSwap<T>(s: seq<T>, p: T -> bool, q: T -> bool)
    ensures Filter(Filter(s, p), q) == Filter(Filter(s, q), p)
  {
    var both := x => p(x) && q(x);
    FilterBoth(s, p, q, both);
    FilterBoth(s, q, p, both);
  }

  lemma {:induction false} FilterReverse<T>(s: seq<T>, keep: T -> bool)
    ensures Filter(Reverse(s), keep) == Reverse(Filter(s, keep))
  {
    if s != [] {
      var front, last := s[..|s| - 1], s[|s| - 1];
      FilterReverse(front, keep);
      FilterConcat([last], Reverse(front), keep);
      FilterSnoc([], last, keep);
      assert Reverse(Filter(front, keep) + [last]) == [last] + Reverse(Filter(front, keep));
    }
  }

  // Two compactions of a topic are one with the later cutoff, and any two compactions commute.
  lemma CompactTwice(t: Tables, topic: string, before: int, topic': string, before': int)
    ensures Compact(Compact(t, topic, before), topic, before')
         == Compact(t, topic, if before <= before' then before' else before)
    ensures Compact(Compact(t, topic, before), topic', before')
         == Compact(Compact(t, topic', before'), topic, before)
  {
    FilterBoth(t.messages, NotExpired(topic, before), NotExpired(topic, before'),
               NotExpired(topic, if before <= before' then before' else before));
    FilterSwap(t.messages, NotExpired(topic, before), NotExpired(topic', before'));
  }
}
