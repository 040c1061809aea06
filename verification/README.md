# PromptMQ storage and metrics: a verified model

PromptMQ keeps two kinds of state of its own: the storage manager, which logs every published message
and persists retained messages in SQLite while hook calls arrive from many goroutines, and the metrics
server, a set of counters that the same hooks update. This project models both, the configuration
check and the printer of the SQLite data source name, and proves what they keep over whole runs.
`dafny verify dfyconfig.toml` checks everything.

## How it is organised

| file | what it holds |
|---|---|
| `Words.dfy`, `Sequences.dfy`, `Sums.dfy`, `Runs.dfy` | machine words, filters, sums over maps, runs of a state machine |
| `Mqtt.dfy`, `Config.dfy`, `Dsn.dfy` | packets, the configuration and its validation, the data source name and a reader for it |
| `Database.dfy` | the two tables, the SQL statements on them, and the algebra of queries and compactions |
| `Storage.dfy` | `Apply`, what one finished operation does to database, counters and write statistics; `Replay`, a history of them; the laws of histories |
| `Retained.dfy` | the retained table as a fold over the history, and recovery from it |
| `Manager.dfy` | the storage manager as a class, each method proved against `Apply` |
| `Protocol.dfy` | unboundedly many calls interleaved between their atomic actions, with crashes and restarts; the simulation theorem |
| `ProtocolLaws.dfy`, `Serialization.dfy`, `MessageIds.dfy` | what every interleaving keeps, how it relates to the manager's calls one by one, and what the shared id counter guarantees |
| `Lifecycle.dfy` | `Start`, `StopManager` and the background loops, interleaved |
| `Metrics.dfy`, `MetricsServer.dfy` | the metrics counters after any event sequence, and the server class that keeps them |

The two levels of the storage model meet in `Apply`. A method of the class leaves the state that `Apply`
gives for its operation. The transition system lets any call pause between drawing its id, its
statement, each counter update and its read-back; `Protocol.Simulation` shows that at every moment its
state is the one that the same operations give one by one, in the order of their statements, up to what
the calls in flight still owe. Every law about histories therefore holds in every interleaving. A step
that is not enabled changes nothing, so every sequence of steps is an interleaving.

## Assumptions

- Each SQL statement is atomic, a failed statement changes nothing, and a committed one survives a crash.
- AUTOINCREMENT gives one more than the largest id ever used in the log.
- `INSERT OR REPLACE` on the retained table removes the row with the same topic and adds the new one.
- `atomic.Uint64.Add` is atomic; counters wrap modulo 2^64 and the laws say so.
- Hook calls happen only between a `Start` that returned without an error and the end of the process,
  as the broker arranges (internal/broker/broker.go:86, internal/broker/broker.go:103).
- A `Start` comes only when no earlier one is serving, and a clean stop is a crash with no call in flight:
  both keep the tables and lose the counters.
- `StopManager` is called when every `Start` has returned, and `Start` when no `StopManager` is under way;
  the laws of `Lifecycle.dfy` rest on this order.
- The SELECT of the retained messages has no ORDER BY (internal/storage/hooks.go:151): the model returns
  them in table order. Which messages come back, and how often, does not depend on it
  (`Retained.RecoveryIsExact`).
- Whether a statement or query succeeds, and whether a committed one reports its affected rows, clock
  readings and latencies are chosen by the environment.
- A Go string is a byte string; a `string` here holds one `char` for each byte.
- Control packet type 3 is PUBLISH (section 2.1.2 of MQTT Version 5.0); the packets library itself is
  not part of this model.

## Where the code does not keep a natural claim

- `next_message_id` above all row ids: without compaction it holds for the life of a restarted process
  exactly if its statistics query succeeds or the log is empty (`MessageIds.RestartIsAheadIff`;
  `MessageIds.FailedQueryCanFallBehind` is a run that violates it). With compaction and a statistics query
  that succeeds it holds exactly if the row with the largest id ever used is still in the log at the start
  (`MessageIds.AheadIffNewestRowKept`; `MessageIds.CompactionCanLoseNewestRow` is a run whose restart
  violates it); with one that fails, exactly if no row id was ever above the counter
  (`MessageIds.AheadAfterFailedQuery`).
- Ids distinct from stored retained ids: recovery looks at the log alone, so it holds for the life of a
  process exactly if no retained row's id is above the recovered counter
  (`MessageIds.StoredIdsUniqueIffCovered`; `MessageIds.RetainedIdCanBeDrawnAgain` is a run that violates it).
- The id of a logged message is the id its hook drew: a topic query reports the row id instead, and the
  two coincide exactly if the counter before the draw equals the largest row id at the insert
  (`MessageIds.RowTakesDrawnIdIff`; `MessageIds.RowIdCanDiffer` has a run with a retain hook and one with a
  failed insert that separate them).
- `connectionsCurrent` non-negative: the exact excess is in `Metrics.CurrentConnections`; the gauge is
  right all along a run exactly if live client ids are distinct and each connection is closed once.
- `totalMessages` against the log after a restart: they agree exactly if a statistics query has succeeded
  in this process or the log was empty when it began, modulo 2^64 (`ProtocolLaws.RowsAgreeIffNothingMissed`;
  `ProtocolLaws.RowsCanDisagree` is a run in which they differ).
- A data source name that tells its settings apart: `Dsn.ReadDSN` takes the text after the last `?` as pairs
  with exactly one `=` each, with nothing but decimal numerals and `ON` or `OFF` where those belong. It gives
  path and settings back exactly if the free-text settings hold none of `?`, `&` and `=`
  (`Dsn.RoundTripIffClean`), which validation ensures (`Dsn.AcceptedIsClean`). Another reader may do with
  less; `Dsn.AmbiguousWithoutValidation` shows that some condition is needed.
- Recovered times: within one second below the stored time exactly if that is not negative or a whole
  second (`Retained.CreatedTime`).

## Model

| member | source | states |
|---|---|---|
| Protocol.Simulation | internal/storage/storage.go:177-211 | in every interleaving of publishes, retain hooks, compactions, crashes and starts, replaying the operations in statement order gives the current state with the owed counter updates settled |
| ProtocolLaws.Serializable | internal/storage/storage.go:300-332 | with no call in flight, database, counters and write statistics are exactly those of the operations run one by one |
| Serialization.SerializableByManager | internal/storage/hooks.go:238-275 | the same against the manager drawing its own ids: only the ids kept in retained rows may differ |
| Serialization.SoloPublish | internal/storage/storage.go:300-332 | the atomic actions of a publish that runs alone add up to the manager's OnPublish, for a succeeding and a failing insert |
| Serialization.SoloRetain | internal/storage/hooks.go:238-275 | the same for a retain hook with its statement and read-back |
| Serialization.SoloCompact | internal/storage/storage.go:422-425 | a compaction amid other calls removes exactly the rows of its topic before the cutoff, or nothing if its statement fails |
| Serialization.FailuresLeaveTables | internal/storage/storage.go:186-191 | in every interleaving in which all statements fail both tables stay as they are |
| Serialization.OtherPacketsPass | internal/storage/storage.go:302-305 | a packet whose type is not 3 begins no publish call |
| ProtocolLaws.RowConservation | internal/storage/storage.go:177-211 | totalMessages is rows plus compacted rows minus missed rows minus inserts committed but not yet counted, modulo 2^64 |
| ProtocolLaws.RowConservationAfterStart | internal/storage/storage.go:577-588 | in the run after a start whose statistics query succeeded nothing is missed, whatever happened before |
| ProtocolLaws.RowsAgreeIffNothingMissed | internal/storage/storage.go:577-588 | with no call in flight, totalMessages agrees with rows plus compacted rows if and only if a statistics query has succeeded since the last crash or the log held no rows then (modulo 2^64) |
| ProtocolLaws.RowsCanDisagree | internal/storage/storage.go:577-588 | a run that ends up, idle, with one row and totalMessages zero: a restart whose statistics query fails |
| ProtocolLaws.ByteConservation | internal/storage/storage.go:199-201 | totalBytes is the payload, topic and client lengths of the packets and clients of this process whose insert committed, minus those of calls still to count them; compaction and recovery leave it alone |
| ProtocolLaws.OwedBytes | internal/storage/storage.go:199-201 | a call that has inserted and not yet counted owes exactly the lengths of the packet and client it began with |
| ProtocolLaws.MetricsAgree | internal/metrics/metrics.go:417-428 | observations, outcomes and errors of writes match at every moment; with no call in flight outcomes equal the PUBLISH calls and successes equal totalMessages minus the recovered count |
| ProtocolLaws.CountersAreOrdered | internal/storage/storage.go:177-211 | at every moment of every interleaving: no outcome without its latency, no error counted before its outcome, no message counted before its success, no bytes before their message |
| ProtocolLaws.FailedStartServesNothing | internal/storage/storage.go:132-148 | after a start that fails no call begins and both tables stay as they are, until a start succeeds |
| ProtocolLaws.CallsKeepTheirPackets | internal/storage/storage.go:307-316 | in every interleaving the message of a call holds topic, payload, QoS, retain flag, client and time of the packet that its own hook call got |
| ProtocolLaws.RetainedAcrossRuns | internal/storage/storage.go:489-564 | across crashes and restarts the retained table is the fold of the committed retain operations, one non-empty row per topic, and recovery returns one message for each |
| ProtocolLaws.LastRetainWinsInRuns | internal/storage/hooks.go:147-203 | from the hook call to recovery: if nothing retains on the topic after its statement, its packet comes back with topic, payload, QoS, client, time in whole seconds and packet id, its row holds the drawn id, and after an empty payload nothing comes back |
| ProtocolLaws.ReadBack | internal/storage/storage.go:509-527 | the read-back counts one row, or none exactly if the last retain operation on the topic since the upsert cleared it; never none when nothing ran in between; the call waits for it after every upsert |
| ProtocolLaws.PublishIsFoundInRuns | internal/storage/storage.go:348-376 | from the hook call to the query: a publish whose insert committed, uncompacted, is found in every interleaving at the index given by later surviving commits on its topic, with every field of its packet, client and time |
| MessageIds.DrawsCountUp | internal/storage/storage.go:308 | the k-th id drawn in a run is the k-th number after the counter's value at its start, for publishes and both retain hooks together |
| MessageIds.DrawsAreDistinct | internal/storage/hooks.go:90 | two ids of one run are equal exactly if a multiple of 2^64 draws lies between them |
| MessageIds.CallsHoldDistinctIds | internal/storage/hooks.go:258 | up to 2^64 draws the calls in flight hold pairwise distinct ids at every moment |
| MessageIds.NextIdLaw | internal/storage/storage.go:409 | in histories that never compact, restarts and starts without statistics included, the reported next_message_id exceeds every row id in a process that has loaded its statistics or found the log empty |
| MessageIds.AheadIffCounterCovers | internal/storage/storage.go:577-588 | the same in every continuation of a run, compacting or not, if and only if the counter starts at or above the largest id ever used |
| MessageIds.AheadIffNewestRowKept | internal/storage/storage.go:577-588 | for a process that recovers its statistics that means: the row with the largest id ever used is still in the log |
| MessageIds.AheadAfterFailedQuery | internal/storage/storage.go:580-582 | for a process whose statistics query fails it means that no row id above the counter it has was ever used; for a counter at zero, that the log never had a row |
| MessageIds.RestartIsAheadIff | internal/storage/storage.go:577-588 | after any compaction-free run, a crash and a start, the counter stays ahead in every continuation if and only if the statistics query succeeds or the log is empty |
| MessageIds.FailedQueryCanFallBehind | internal/storage/storage.go:580-582 | a compaction-free run that keeps its newest row and, after a restart with a failing statistics query, reports the id of that row as the next one |
| MessageIds.CompactionCanLoseNewestRow | internal/storage/storage.go:422-442 | a run with a compaction and a restart that recovers its statistics, after which next_message_id falls behind a row id |
| MessageIds.StoredIdsUniqueIffCovered | internal/storage/hooks.go:89-97 | no later draw meets a stored retained id if and only if none of those is above the recovered counter |
| MessageIds.RetainedIdCanBeDrawnAgain | internal/storage/storage.go:577-588 | a run after which a stored retained id is drawn again |
| MessageIds.RowTakesDrawnIdIff | internal/storage/storage.go:348-376 | in every interleaving, a publish is logged under the id it drew if and only if the ids drawn before its draw and the rows inserted before its insert bring counter and largest row id to the same value; from an equal start, if and only if they are equally many |
| MessageIds.RowIdCanDiffer | internal/storage/storage.go:308 | a run with a retain hook and one with a failed insert, each followed by a publish whose row gets another id than it drew |
| Lifecycle.LoopsEndBeforeClose | internal/storage/storage.go:151-174 | in every interleaving the wait group counts the live loops once each Start has returned, and every size query runs on an open database, although the select may take ticks after the cancel |
| Lifecycle.LoopsAddUp | internal/storage/storage.go:138-144 | in every interleaving live loops and starts under way are the starts that recovered on an open database minus the loops that are done, counted from the actions |
| Lifecycle.StartSpawnsLoop | internal/storage/storage.go:132-148 | on an open database a Start that recovers and runs to its end leaves exactly one more live loop and one more in the group |
| Lifecycle.LoopReports | internal/storage/storage.go:464-471 | a loop in its select can take a tick at any time, query the size, report it and be back in its select |
| Lifecycle.LoopsLiveUntilCancel | internal/storage/storage.go:464-471 | a spawned loop is still live unless the context has been cancelled |
| Lifecycle.NoLoopAfterClose | internal/storage/storage.go:597-602 | once the database is closed no later Start leaves a loop or a wait-group count behind |
| Lifecycle.StopCanFinish | internal/storage/storage.go:151-174 | from every reachable state a StopManager under way can finish within four actions of each loop and two of its own, also after another one has closed the database |
| Lifecycle.StopCanRun | internal/storage/storage.go:151-174 | once every Start has returned a StopManager can be called: it cancels the context, and can run to its end |
| StorageLaws.MissedExactly | internal/storage/storage.go:577-588 | the rows a process does not count are all it found in the log until a statistics query succeeds, and none from then on |
| StorageLaws.TotalMessagesLaw | internal/storage/storage.go:199-201 | over any history, rows plus compacted rows equal recovered plus inserted plus missed rows, and totalMessages holds recovered plus inserted |
| StorageLaws.TotalBytesLaw | internal/storage/storage.go:199-201 | over any history totalBytes holds the payload, topic and client lengths of the inserts since the process started, modulo 2^64 |
| StorageLaws.WritesLaw | internal/metrics/metrics.go:417-428 | over any history successes and errors count the succeeding and failing inserts of the process and observations are their sum |
| StorageLaws.NoGapWithoutCompaction | internal/storage/storage.go:577-580 | without compaction MAX(id) is the largest id ever used |
| StorageLaws.QueryReturnsSurvivors | internal/storage/storage.go:348-376 | an unlimited topic query returns exactly the inserted messages that no later compaction expired, newest first |
| StorageLaws.PublishIsFound | internal/storage/storage.go:348-376 | index and fields of a surviving publish in the answer, for every sufficient limit |
| StorageLaws.DistinctTopicsLaw | internal/storage/storage.go:381-386 | the topics that GetStats counts are exactly those with a surviving message |
| Storage.ReplayWellFormed | internal/storage/storage.go:217-243 | every history keeps ids strictly ascending, at most one retained row per topic and no empty retained payload |
| Database.SelectIsNewestFirst | internal/storage/storage.go:349-351 | the answer is in strictly descending id, of length min(limit, count) for a non-negative limit |
| Database.SelectMembers | internal/storage/storage.go:349-351 | the answer holds only rows of the topic, and what a limit cuts off is older than all it keeps |
| Database.CompactQueries | internal/storage/storage.go:422-425 | after a compaction its topic's answer is the old one without the expired rows; other topics and the retained table are unchanged |
| Database.CompactTwice | internal/storage/storage.go:422-425 | two compactions of a topic are one with the later cutoff, and all compactions commute |
| Database.CountIsAtMostOne | internal/storage/storage.go:511-512 | the verifying count of a topic is one if the topic has a row and zero otherwise |
| Retained.TableIsFold | internal/storage/storage.go:489-564 | the table of rows represents the map that the retain operations fold to |
| Retained.RecoveryIsExact | internal/storage/hooks.go:147-203 | exactly one recovered message per retained topic |
| Retained.ReadableRowsStored | internal/storage/hooks.go:166-170 | with rows that cannot be scanned, exactly the others come back, in their order |
| Retained.LastRetainWins | internal/storage/hooks.go:172-186 | fields of the recovered message in terms of the last retained publish |
| Retained.ReadBackLaw | internal/storage/storage.go:509-527 | the read-back count after any operations following an upsert |
| Retained.RepublishLaw | internal/storage/hooks.go:70-107 | OnRetainPublished is invisible in topics, payloads and QoS all along a history if and only if it only confirms what is stored |
| Retained.CreatedTime | internal/storage/hooks.go:178-179 | when the truncated second is within one second below the stored time, both directions |
| Retained.TruncatedToSeconds | internal/storage/hooks.go:178-179 | the recovered time is the whole second next to the stored time in the direction of zero |
| Retained.CreatedKeepsOrder | internal/storage/hooks.go:178-179 | truncation keeps the order of all times |
| Retained.PacketIds | internal/storage/hooks.go:180 | packet ids coincide exactly for ids congruent modulo 65536, so ids spanning fewer stay distinct |
| StorageManager.Manager.RecoverRetainedMessages | internal/storage/storage.go:567-625 | loads messageID and totalMessages from the log if the statistics query succeeds, and fails only on the retained count |
| StorageManager.Manager.Start | internal/storage/storage.go:132-148 | one more loop registered if and only if recovery succeeds, never on a closed database |
| StorageManager.Manager.PersistMessage | internal/storage/storage.go:177-211 | row, counters and write statistics after a succeeding and after a failing insert; totalBytes grows by payload, topic and client length |
| StorageManager.Manager.OnPublish | internal/storage/storage.go:300-332 | the packet comes back unchanged; the state is that of the publish operation, with one more row that has every field of packet, client and time, or untouched for another packet type |
| StorageManager.Manager.PersistRetainedToDB | internal/storage/storage.go:489-534 | alone, the read-back never reports a wrong count |
| StorageManager.Manager.DeleteRetainedFromDB | internal/storage/storage.go:537-564 | removes the topic's row and nothing else, also when the error is only that the affected rows are not reported |
| StorageManager.Manager.OnRetainMessage | internal/storage/hooks.go:238-275 | the state is that of the retain operation: delete without a draw, or draw and upsert of a row with every field of packet, client and time and the drawn id |
| StorageManager.Manager.OnRetainPublished | internal/storage/hooks.go:70-107 | the same for the republishing hook |
| StorageManager.Manager.CompactTopic | internal/storage/storage.go:422-442 | the state is that of the compaction, also when the error is only that the affected rows are not reported |
| StorageManager.Manager.GetMessagesByTopic | internal/storage/storage.go:348-376 | all rows of the query in order, or the error of the query, of a scan or of the iteration, and which of them when |
| StorageManager.Manager.StoredRetainedMessages | internal/storage/hooks.go:147-203 | one message per delivered readable row; unreadable rows are skipped and a broken cursor returns what it delivered with an error |
| StorageManager.Manager.GetStats | internal/storage/storage.go:379-419 | counters, distinct topics, retained rows, database size and next id; a failed query shows as zero |
| StorageManager.Manager.ReportMetrics | internal/storage/storage.go:475-486 | the storage gauge shows the database size, or zero if its query fails, and nothing else changes |
| Metrics.ConnectionLaw | internal/metrics/hooks.go:50-82 | connections equal durations plus live entries plus overwrites; disconnections equal durations plus unmatched closes |
| Metrics.CurrentConnections | internal/metrics/hooks.go:271-281 | the gauge is live entries plus overwrites minus unmatched closes, and when it is negative |
| Metrics.GaugeIsExact | internal/metrics/hooks.go:50-82 | the gauge equals the live entries all along a run if and only if the run is paired |
| Metrics.GaugeCanBeNegative | internal/metrics/hooks.go:271-281 | connect, disconnect, expire leaves it at minus one |
| Metrics.StartTimesLaw | internal/metrics/hooks.go:55-56 | over every event sequence a client has a start time if and only if its last event is a connect, and it is the time of that connect, also after a reconnect without a close |
| Metrics.DurationLaw | internal/metrics/hooks.go:71-76 | over every event sequence one duration is observed for each close of a client whose last event was a connect, and their sum is the time since those connects |
| Metrics.DurationsTelescope | internal/metrics/hooks.go:71-76 | in a paired run the observed durations telescope to close times minus connect times of the closed connections |
| Metrics.PublishLaw | internal/metrics/hooks.go:124-133 | published messages, bytes, size histogram and latency count over any publish sequence |
| Metrics.QosLaw | internal/metrics/hooks.go:136-143 | each QoS counter counts its level and published is their sum plus the publishes above level 2 |
| Metrics.TopicTotals | internal/metrics/hooks.go:146-150 | summed over all labels, messages and bytes are exactly those of publishes to topics without wildcard characters and shorter than 100 bytes |
| Metrics.TopicLabels | internal/metrics/hooks.go:146-150 | a topic has a label if and only if it was published to, has no wildcard character and is shorter than 100 bytes; the label counts its publishes and their bytes |
| Metrics.SubscriberLaw | internal/metrics/hooks.go:85-121 | a gauge is its topic's subscribe minus unsubscribe occurrences over any packets, and zero for a wildcard or 100 bytes and more |
| Metrics.FilterOrderIsIrrelevant | internal/metrics/hooks.go:87-93 | packets with the same filters in another order leave the same gauges |
| Metrics.PacketSplitIsIrrelevant | internal/metrics/hooks.go:87-93 | so does any split of the filters into packets |
| Metrics.UnsubscribeUndoesSubscribe | internal/metrics/hooks.go:105-121 | unsubscribing a packet's filters restores every value, and the very same gauges if and only if it created no label |
| Metrics.PauseLaw | internal/metrics/metrics.go:403-409 | over any readings lastGCPause is the maximum, the histogram's sum telescopes and its count is the number of readings above all earlier ones |
| MetricsServer.Server.OnConnect | internal/metrics/hooks.go:50-63 | the connection state is that of a connect event |
| MetricsServer.Server.OnDisconnect | internal/metrics/hooks.go:66-82 | the connection state is that of a close event |
| MetricsServer.Server.OnClientExpired | internal/metrics/hooks.go:271-281 | the connection state is that of a close event |
| MetricsServer.Server.OnSubscribe | internal/metrics/hooks.go:85-102 | the loop over filters adds one for every tracked occurrence |
| MetricsServer.Server.OnUnsubscribe | internal/metrics/hooks.go:105-121 | the loop over filters takes one off for every tracked occurrence |
| MetricsServer.Server.OnPublish | internal/metrics/hooks.go:124-157 | all publish counters and labels advance by one packet |
| MetricsServer.Server.ContainsWildcard | internal/metrics/hooks.go:327-334 | the scan finds a wildcard if and only if the topic has one |
| MetricsServer.Server.RecordSQLiteWrite | internal/metrics/metrics.go:417-428 | the write statistics advance by one outcome |
| MetricsServer.Server.UpdateSystemMetrics | internal/metrics/metrics.go:393-414 | the pause state after one reading; the gauges show the last one |
| MetricsServer.Server.CollectSystemMetrics | internal/metrics/metrics.go:374-390 | over the whole loop no reading exceeds lastGCPause, and the histogram grows by the rise since the first reading, in as many observations as there are new maxima |
| Config.CorrectionsReachAcceptance | internal/config/config.go:160-212 | correcting the setting that validation names, then the one named next and so on ends in acceptance and corrects exactly the settings that would be rejected alone, each once, in checking order |
| Config.AcceptedRanges | internal/config/config.go:160-212 | what an otherwise accepted configuration may have in each setting, both directions |
| Dsn.ValidatedRoundTrip | internal/storage/storage.go:22-38 | path and all seven settings of an accepted configuration can be read back from its data source name |
| Dsn.PrintIntIsCanonical | internal/storage/storage.go:28-36 | the numeral of every integer is the one canonical text with its value: digits without a leading zero, after a minus sign exactly for a negative number |
| Dsn.DefaultName | internal/storage/storage_test.go:158-170 | the data source name of the default settings for every path |
| Dsn.AcceptedIsClean | internal/config/config.go:184-198 | the free-text settings of an accepted configuration hold no structuring character |
| Dsn.Injective | internal/storage/storage.go:22-38 | no two paths or configurations with clean settings, accepted or not, share a data source name |
| Dsn.RoundTripIffClean | internal/storage/storage.go:22-38 | path and settings of any configuration, validated or not, can be read back if and only if its free-text settings hold no structuring character |
| Dsn.AmbiguousWithoutValidation | internal/config/config.go:184-198 | without the check of the enumerated settings two configurations can |

## Left out

- MQTT packet handling, sessions, subscription matching and QoS flows, which belong to the server library: hook calls are arbitrary events.
- SQLite internals, PRAGMA effects, ForceFlush and its checkpoint, page sizes and the connection pool: replaced by the tables and the assumptions above.
- The largest rowid and the driver's refusal of ids from 2^63 on: such a statement may fail here too, but is not forced to.
- Prometheus registration, buckets, exposition and float64 rounding: counters are unbounded naturals, histograms their count and sum, seconds are reals.
- Wall-clock latencies and throughput, the HTTP server, health endpoint, logging, command line and configuration loading: input and output.
- bytesReceivedTotal and messagesReceivedTotal: single increments; the code adds bytes sent to the former, contrary to its description.
- The metrics hooks are modelled one call at a time, because connectionStartTimes is a plain map without a lock.
- NewWithMetrics and createTables: their failing file and database operations, and the no-op metrics variant.
- StopManager as a method of the class: its blocking wait is modelled in the transition system of `Lifecycle.dfy`.
- Hook calls after the database is closed: the broker stops the MQTT server first; the class fails their statements.
- The constant strings in GetStats and the no-op and pass-through hooks: nothing to prove beyond one line.
- How the database file grows: its size is a value the environment gives.
- The cluster stubs and the write-ahead log, buffer and compaction designs of the documentation, which the code does not implement.
