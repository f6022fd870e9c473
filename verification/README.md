# Bottled Water, from PostgreSQL to Kafka

Bottled Water captures the row changes of a PostgreSQL database and keeps them in Kafka. A
server extension turns each change into an Avro frame, announcing a table's schemas when the
client may not have them. A client reads the frames from a consistent snapshot and then from
a replication slot, and hands the rows to a Kafka producer. The producer keeps the
transactions in flight in a ring of 1000 slots and tells the server, through status updates,
up to which position everything is safely in Kafka.

This project models that pipeline in Dafny 4.11 and proves what it is for: **what a consumer
reads from Kafka is the database**, after any number of crashes and restarts and while tables
come, change and get new columns. Where that fails, because a table or its key index is
renamed or a row cannot be written, the exact condition is proved together with an input.

`dafny verify dfyconfig.toml` checks everything.

## How it is organised

| modules | part of the system |
|---|---|
| `InFlightRing`, `RingRefinement`, `KafkaProducer` | the ring as values, the unbounded queue it refines, and the producer's callbacks updating it in place |
| `KafkaLog` | Kafka's log as the consumers of keyed topics read it |
| `Pipeline`, `PipelineInvariant`, `PipelineSafety`, `PipelineDelivery`, `PipelineTheorems` | server, slot, client, producer and log as one step machine with restarts; its invariant; results about whole behaviours |
| `SnapshotPhase` | runs that end before their snapshot is acknowledged, and the runs after them |
| `BigEndian`, `Replication`, `Handoff` | the replication protocol, and the client driving the producer from the snapshot to the stream |
| `AvroModel`, `Conversion`, `Rows`, `SchemaNames` | types, columns, rows and keys as Avro schemas and values |
| `SchemaCaching`, `RetryingWriter`, `Frames`, `Server` | the extension: schema cache, writer, frames, changes |
| `Client`, `Mapper` | the client's frame reader, and the producer's tables with the schema registry |
| `SchemaFlow`, `SchemaAgreement` | the three schema caches together, over whole runs |
| `ChangeLog`, `EndToEnd`, `SnapshotExport` | changes as messages, replay, and the snapshot |
| `Assumptions`, `Renaming`, `LongRow` | the assumptions about library and registry can be met; inputs for which replay or delivery fails |

Code that updates state in place is a class or a method with loops, proved equal to a
function on values; the results are proved about those functions. A deep result has its
parts proved separately: `PipelineDelivery.StepInv`, for instance, is put together from one
lemma per part of the invariant and step.

## What is assumed of the surroundings

- Transactions arrive as begin, rows, commit, with ids other than 0 and with commit positions
  that are positive and increase.
- The server ignores a flush position of 0. After a restart it resends every transaction
  committed after a position it had confirmed; it may have lost its latest confirmations.
- Kafka stores the records of one key in the order they were produced. Records of different
  keys may overtake each other.
- A slot counts as confirmed at its consistent point, which is positive, as soon as it is
  created. Restarts in the pipeline happen once the snapshot is complete; runs that end
  earlier are in `SnapshotPhase` and `Handoff`.
- Rows under one key schema have unique keys after every row change. An update without an old
  tuple has not changed the key. Old tuples carry the old key; deletes on keyed tables have one.
  A new tuple carries every column.
- A message of the stream that carries a commit has a position at or past that commit; other
  messages may have any position.
- The Avro library is lossless: a value written with a schema is read back with it, and a
  schema the extension generates is read back from its JSON text exactly if its names are in
  order, as section "Names" of the Avro 1.7.7 specification requires. Names are Avro identifiers.
- The registry accepts finitely many schema texts, gives each one id, and different ones
  different ids. Avro output always has one (`00-bottledwater-pg/kafka/bottledwater.c:220`).
  `Assumptions.EnvExists` shows that library and registry can be as assumed.
- Kafka reports a message as delivered only while it is outstanding.
- What libpq, librdkafka and the clock answer otherwise is an input, and every answer is allowed.

## Where the code differs from what it says or what one might expect

- The comment at `00-bottledwater-pg/ext/protocol_server.c:111` says that an old tuple comes
  with an update that did *not* change the key. The code is right under the opposite reading,
  which is the one used here.
- A process that ends with status 0 during the snapshot keeps the slot, and rows not yet
  sent are lost (`SnapshotPhase.KeptSlotRecoversIff` gives the exact condition,
  `SnapshotPhase.KeptSlotCanLoseRow` an input).
- The snapshot flag is set before the slot is created, so an error in creating the slot also
  issues the drop (`Handoff.Capture`).
- A retried snapshot leaves rows behind that were deleted between the two attempts
  (`SnapshotPhase.RetryRepairsIff` gives the exact condition, `SnapshotPhase.RetryCanLeaveRow`
  an input).
- A change the server cannot write, such as a row beyond the writer's limit of 1 MB, is met
  again after every restart, and nothing after it ever reaches Kafka
  (`SchemaAgreement.ChangePassesIff` says exactly which changes get through,
  `SchemaAgreement.BlockedForever` which never do, `LongRow.LongRowBlocks` gives an input).
- On a new slot a status update can claim more as flushed than as received, because the
  received position starts at 0 (`PipelineTheorems.FlushWithinReceivedIff` gives the exact
  condition, `PipelineTheorems.FlushCanExceedReceived` an input).
- Converting NUMERIC is not implemented: all numbers become the same value, so replay needs
  keys without such columns (`Rows.KeysDistinguishIff`).
- The key's schema contains the name of the index, and the topic is the table's name. After
  renaming the index, like after any other change of the key's schema, or after renaming the
  table, a row that is updated or deleted leaves its old record (`ChangeLog.ChangeHoldsIff` and
  `ChangeLog.ReplayHoldsIff` give the exact condition, `Renaming.RenamedIndexFails` and
  `Renaming.RenamedTableFails` inputs).
- The enumeration of infinite dates has no namespace, and clashes with a table of the same
  name, which the client then cannot read (`SchemaNames.NamesOkIff`,
  `SchemaAgreement.IllNamedStep`).
- A key index on a system column silently takes the first column (`Rows.FindKeyColumn`).
- A stale error number can make a successful produce call wait for backpressure once; the
  producer's attempts allow it (`KafkaProducer.Producer.SendKafkaMsg`).

## Model

| member | source | states |
|---|---|---|
| `EndToEnd.DatabaseReachesKafka` | 00-bottledwater-pg/kafka/bottledwater.c:471-531 | If all changes get through to the producer, every behaviour of the pipeline extends, without further commits or restarts, to one after which Kafka's log is the database; a change that never gets through is in `SchemaAgreement.BlockedForever` |
| `EndToEnd.FlatIsMessages` | 00-bottledwater-pg/ext/logdecoder.c:68-151 | The records that server, client and mapper emit for the transactions, one after another, are the messages of their changes, one after another |
| `EndToEnd.KafkaIsDatabase` | 00-bottledwater-pg/kafka/bottledwater.c:293-531 | Whenever the pipeline has caught up, after any crashes, restarts, re-deliveries and reorderings across keys, Kafka's log read as a table is the database: every row of a keyed table under its key with its current values, and nothing else, as long as all changes get through, rows are changed under the table name and key schema they were written with, and leftovers of earlier attempts have been written again |
| `EndToEnd.StreamIsDatabase` | 00-bottledwater-pg/ext/protocol_server.c:78-165 | Through frames, client, mapper and registry, with any new caches and reconnections between events, for rows changed under the name and key schema they were written with: a run that is not cut short leaves the database in the log, and only a change that explains it cuts a run short |
| `EndToEnd.EmitsIff` | 00-bottledwater-pg/ext/protocol_server.c:78-165 | Whatever was handled before and however often the client reconnected: what the pipeline emits for changes that get through is exactly their messages |
| `EndToEnd.BlockedTransaction` | 00-bottledwater-pg/ext/logdecoder.c:144-151 | A transaction that contains such a change is never handed over as a whole, whatever happened before and whatever caches are replaced in between |
| `ChangeLog.RowReadsBack` | 00-bottledwater-pg/kafka/registry.c:62-86 | A row's message and its key both decode to the row's own values under the schemas their prefixes name |
| `ChangeLog.ChangeHoldsIff` | 00-bottledwater-pg/ext/protocol_server.c:78-165 | A change keeps the consumer's table equal to the database if and only if the row it replaces or removes, if there is one, was written under the name and the key schema the table has now |
| `ChangeLog.ReplayIsDatabase` | 00-bottledwater-pg/ext/protocol_server.c:78-165 | For every history of inserts, updates (key-changing or not) and deletes over any number of tables in which rows are changed under their own table name and key schema, folding the emitted messages as last-write-wins gives exactly the rows by key |
| `ChangeLog.ReplayHoldsIff` | 00-bottledwater-pg/ext/protocol_server.c:78-165 | The condition is exact: replay gives the database after every change of a history if and only if no row is changed under another table name or key schema |
| `ChangeLog.ReplayReadsBack` | 00-bottledwater-pg/kafka/registry.c:62-86 | What the consumer finds under a row's key names, by its id, only the schema it was encoded with, and decodes to that row's values |
| `ChangeLog.RowKeyExact` | 00-bottledwater-pg/ext/protocol_server.c:50-68 | Two rows have the same Kafka key if and only if they have the same key under the same table name and key schema |
| `ChangeLog.KeyKeptIff` | 00-bottledwater-pg/kafka/registry.c:75-86 | One primary key under two descriptions of its table is one Kafka key if and only if their names and key schemas are equal |
| `ChangeLog.RekeyedTableKeepsOldRecords` | 00-bottledwater-pg/ext/oid2avro.c:94-105 | An insert and an update that leaves the key alone, under two descriptions of the table: replay gives the database if and only if their names and key schemas are equal |
| `ChangeLog.UniqueColumnsUniqueKeys` | 00-bottledwater-pg/ext/oid2avro.c:177-216 | Unique key columns, none numeric, give unique keys, also for rows written under different descriptions of their table |
| `ChangeLog.NewRowHolds` | 00-bottledwater-pg/kafka/bottledwater.c:361-374 | A row that comes into the database keeps the consumer's table equal to it |
| `ChangeLog.UpdatedRowHolds` | 00-bottledwater-pg/kafka/bottledwater.c:368-374 | So does a row that is updated, whether that overwrites a key or erases one and writes another |
| `ChangeLog.DeletedRowHolds` | 00-bottledwater-pg/kafka/bottledwater.c:376-384 | So does a deleted row, as a tombstone |
| `ChangeLog.RekeyedRowStays` | 00-bottledwater-pg/ext/protocol_server.c:125-132 | A row changed under another table name or key schema leaves its old record behind, and the tables differ |
| `ChangeLog.UnkeyedHolds` | 00-bottledwater-pg/kafka/bottledwater.c:376-384 | Changes to a table without a key leave every keyed row alone |
| `Renaming.RenamingBreaksReplay` | 00-bottledwater-pg/ext/oid2avro.c:94-105 | For any names of a table and its key index before and after: an insert and an update of the row, in an environment that meets every assumption, leave the database in the log if and only if neither was renamed |
| `Renaming.RenamedIndexFails` | 00-bottledwater-pg/ext/oid2avro.c:94-105 | The failing input: a primary key's index is renamed between an insert and an update |
| `Renaming.RenamedTableFails` | 00-bottledwater-pg/kafka/table_mapper.c:139-150 | The other one: the table is renamed between them, and the old record stays in the old topic |
| `LongRow.LongRowBlocks` | 00-bottledwater-pg/ext/io_util.c:13-35 | The failing input: one row with a text of 1 MB or more, in a table everybody takes and an environment that meets every assumption; no run gets past it |
| `Assumptions.EnvExists` | 00-bottledwater-pg/kafka/bottledwater.c:220-221 | The assumptions can be met: for any finite number of schemas there are a lossless library and a registry that has taken them all |
| `PipelineTheorems.AtLeastOnce` | 00-bottledwater-pg/kafka/bottledwater.c:293-340 | For every flush position ever sent, at any moment of any run with any restarts: each transaction at or below it has had all its messages acknowledged, and they are in Kafka from then on |
| `PipelineTheorems.FsyncExact` | 00-bottledwater-pg/kafka/bottledwater.c:493-531 | The reported position covers a transaction of this run if and only if that one and all before it are committed and acknowledged |
| `PipelineTheorems.FsyncNeverDecreases` | 00-bottledwater-pg/kafka/bottledwater.c:505-519 | Within a run no step lowers the reported position |
| `PipelineTheorems.EnvelopeConservation` | 00-bottledwater-pg/kafka/bottledwater.c:391-400 | In every reachable state a live slot's counter is the number of unacknowledged envelopes of its transaction, and every envelope points at that transaction's slot inside the window from tail to head |
| `PipelineTheorems.CommitMatchesBegin` | 00-bottledwater-pg/kafka/bottledwater.c:331-335 | The exit for mismatched begin and commit is unreachable |
| `PipelineTheorems.SnapshotFlagExact` | 00-bottledwater-pg/kafka/bottledwater.c:521-524 | The snapshot flag is up if and only if this run takes the snapshot and it is not yet committed and acknowledged |
| `PipelineTheorems.FlushWithinReceivedIff` | 00-bottledwater-pg/client/replication.c:326-351 | The flush position is at most the received one if and only if the run is on an existing slot, nothing is flushed yet, or something at or past the snapshot's position was received |
| `PipelineTheorems.Progress` | 00-bottledwater-pg/kafka/bottledwater.c:308-312 | A state that has not caught up always allows a step of the client, the producer or Kafka, and that step leaves less to do |
| `PipelineTheorems.CanCatchUp` | 00-bottledwater-pg/kafka/bottledwater.c:539-554 | From every reachable state the pipeline can send, store and acknowledge every transaction whose records the server can hand over |
| `PipelineTheorems.FullRingHasMessages` | 00-bottledwater-pg/kafka/bottledwater.c:308-312 | A full ring waits for a message that is queued or stored and unreported |
| `PipelineTheorems.LogIsDatabase` | 00-bottledwater-pg/kafka/bottledwater.c:493-531 | Once everything committed has been stored, the log folds to the same table as what it held before followed by the transactions' records in commit order |
| `PipelineTheorems.FlushCanExceedReceived` | 00-bottledwater-pg/client/replication.c:300-311 | The failing input: on a new slot, after an empty snapshot, the first message carries a smaller position |
| `PipelineDelivery.StepInv` | 00-bottledwater-pg/kafka/bottledwater.c:293-531 | Every step of the pipeline keeps the invariant |
| `PipelineDelivery.InitInv` | 00-bottledwater-pg/kafka/bottledwater.c:579-603 | A first run and a run on an existing slot both start in it |
| `PipelineSafety.CoversAny` | 00-bottledwater-pg/kafka/bottledwater.c:505-519 | Crash safety: dropping everything in flight and resending from any covered position still ends in the database's table |
| `PipelineSafety.ReportRing` | 00-bottledwater-pg/kafka/bottledwater.c:471-486 | A delivery report credits its own transaction's slot, and never loses ground |
| `SnapshotPhase.RetryRepairsIff` | 00-bottledwater-pg/kafka/bottledwater.c:632-640 | After a failed snapshot whose slot was dropped: whenever the next run has caught up, the log is the database if and only if every row the failed attempt left has been written again |
| `SnapshotPhase.KeptSlotRecoversIff` | 00-bottledwater-pg/kafka/bottledwater.c:632-640 | For every state of every attempt in which a run ends and keeps the slot: whenever the next run has caught up, the log is the database if and only if the log's last word on each snapshot key is the snapshot's record or the key has been written again, and every other row left in the log has been written again too |
| `SnapshotPhase.KeptSlotCanLoseRow` | 00-bottledwater-pg/kafka/bottledwater.c:635 | The failing input: one row that was not sent when the run ended |
| `SnapshotPhase.FirstAttemptRecoversIff` | 00-bottledwater-pg/kafka/bottledwater.c:632-640 | For a first attempt: if and only if every snapshot record was stored already or its key has been written again |
| `SnapshotPhase.RetryCanLeaveRow` | 00-bottledwater-pg/kafka/bottledwater.c:632-640 | The failing input: a first attempt stores one row, the slot is dropped, the row is deleted, and the next snapshot is empty |
| `KafkaLog.Redelivery` | 00-bottledwater-pg/kafka/bottledwater.c:498-519 | Messages left by an interrupted earlier sending of a batch make no difference once the batch has been sent |
| `KafkaLog.FoldIsLast` | 00-bottledwater-pg/kafka/bottledwater.c:376-384 | A consumer's table has exactly the keys whose last record carries a value, with that value |
| `RingRefinement.CheckpointTracks` | 00-bottledwater-pg/kafka/bottledwater.c:493-531 | Whatever it starts from, the checkpoint walk ends exactly at the longest prefix of the queue that is committed and acknowledged |
| `RingRefinement.InitTracks` | 00-bottledwater-pg/kafka/bottledwater.c:579-603 | The zero-filled ring is the queue of one transaction: the snapshot, or the dummy of an existing slot |
| `RingRefinement.BeginTracks` | 00-bottledwater-pg/kafka/bottledwater.c:310-318 | Taking the next slot appends to the queue and moves nothing else |
| `RingRefinement.RowTracks` | 00-bottledwater-pg/kafka/bottledwater.c:391-393 | Reserving a message counts it for the newest transaction |
| `RingRefinement.CommitTracks` | 00-bottledwater-pg/kafka/bottledwater.c:337-338 | A commit keeps ring and queue in step, and the durable position never falls |
| `RingRefinement.AckTracks` | 00-bottledwater-pg/kafka/bottledwater.c:471-486 | So does an acknowledgement of any outstanding transaction, in any order |
| `RingRefinement.FullRingWaitsForTail` | 00-bottledwater-pg/kafka/bottledwater.c:308-312 | When the next transaction finds the ring full, the tail transaction is committed and still waits for Kafka |
| `RingRefinement.DrainingTailMakesRoom` | 00-bottledwater-pg/kafka/bottledwater.c:308-312 | Acknowledging what the tail waits for makes room |
| `KafkaProducer.Producer.constructor` | 00-bottledwater-pg/kafka/bottledwater.c:579-603 | A new process has a zero-filled ring |
| `KafkaProducer.Producer.MaybeCheckpoint` | 00-bottledwater-pg/kafka/bottledwater.c:493-531 | The loop in place computes the walk, and terminates because the tail gets closer to the head |
| `KafkaProducer.Producer.OnBeginTxn` | 00-bottledwater-pg/kafka/bottledwater.c:293-320 | Waits while the ring is full, then takes the next slot; id 0 exits unless the ring is untouched |
| `KafkaProducer.Producer.OnCommitTxn` | 00-bottledwater-pg/kafka/bottledwater.c:322-340 | Records the commit and checkpoints, or exits on a mismatched id |
| `KafkaProducer.Producer.SendKafkaMsg` | 00-bottledwater-pg/kafka/bottledwater.c:387-466 | Reserves the slot before producing, and produces until the message is accepted, with deliveries in between |
| `KafkaProducer.Producer.OnDeliverMsg` | 00-bottledwater-pg/kafka/bottledwater.c:471-486 | One acknowledgement and a checkpoint, or an exit when delivery failed |
| `KafkaProducer.Producer.Backpressure` | 00-bottledwater-pg/kafka/bottledwater.c:539-554 | The delivery reports of one poll in order, then shutdown or a failed keepalive |
| `KafkaProducer.WaitForRoom` | 00-bottledwater-pg/kafka/bottledwater.c:308 | When the wait ends normally the ring has room |
| `KafkaProducer.ReportsTrack` | 00-bottledwater-pg/kafka/bottledwater.c:471-486 | Any burst of reports for messages their slots wait for keeps the ring equal to the queue |
| `KafkaProducer.WaitTracks` | 00-bottledwater-pg/kafka/bottledwater.c:308 | So does waiting for room, with whatever is reported meanwhile |
| `KafkaProducer.LoopTracks` | 00-bottledwater-pg/kafka/bottledwater.c:443-463 | So does the produce loop, with whatever is reported meanwhile |
| `Handoff.Capture` | 00-bottledwater-pg/kafka/bottledwater.c:658-692 | For every sequence of answers: on a new slot all snapshot rows come between the snapshot's begin and commit and both before the stream starts; the exits for a late snapshot and for mismatched commits are never taken; the slot is dropped if and only if the run ends with an error while its snapshot is not both committed and acknowledged |
| `Handoff.Client.Start` | 00-bottledwater-pg/client/connect.c:57-79 | A new slot begins the snapshot's transaction, an existing one starts the stream from its position; each error leaves the actions up to it |
| `Handoff.Client.SnapshotStart` | 00-bottledwater-pg/client/connect.c:293-331 | The snapshot's begin is called only once the query has been dispatched, and finds an untouched ring |
| `Handoff.Client.ReadTuples` | 00-bottledwater-pg/client/connect.c:362-393 | Each tuple's frame is handed on once, in order, until one is malformed, fails or ends the run |
| `Handoff.Client.FinishSnapshot` | 00-bottledwater-pg/client/connect.c:339-353 | The end of the rows is the snapshot's commit, which finds the snapshot's slot at the head |
| `Handoff.Client.PollSnapshot` | 00-bottledwater-pg/client/connect.c:91-105 | The stream is started in the poll that finds the snapshot finished, and not before |
| `Handoff.Client.PollStream` | 00-bottledwater-pg/client/connect.c:107-110 | A frame of the stream makes its calls, and keeps ring, queue and actions in step |
| `Handoff.Client.MakeCalls` | 00-bottledwater-pg/client/protocol_client.c:41-79 | Any calls a well-formed server makes, with any reports in between, keep the ring equal to the queue and take neither impossible exit |
| `Handoff.Client.FlagExact` | 00-bottledwater-pg/kafka/bottledwater.c:521-524 | The snapshot flag is up if and only if the run is on a new slot and its snapshot is not both committed and acknowledged |
| `Handoff.Client.TakeTurns` | 00-bottledwater-pg/kafka/bottledwater.c:676-684 | Through any turns of the main loop the slot is dropped if and only if an error ends the run while the flag is up |
| `Replication.StatusRoundTrip` | 00-bottledwater-pg/client/replication.c:326-351 | Every status update decodes to the positions it was built from, for all 64-bit values |
| `Replication.StatusOverclaimsIff` | 00-bottledwater-pg/client/replication.c:326-351 | In every reachable state the update built from the current positions decodes to them, and claims no more flushed than received if and only if the run is on an existing slot, nothing is flushed yet, or the snapshot's position has been passed |
| `Replication.Int64RoundTrip` | 00-bottledwater-pg/client/replication.c:376-395 | Writing and reading a 64-bit integer is the identity |
| `Replication.Int64RoundTripBack` | 00-bottledwater-pg/client/replication.c:376-395 | And so is reading and writing one |
| `Replication.ReplicationStream.SendCheckpoint` | 00-bottledwater-pg/client/replication.c:326-351 | What is sent reads back as the current positions; a failed send changes nothing |
| `Replication.ReplicationStream.Keepalive` | 00-bottledwater-pg/client/replication.c:230-239 | Never sends before anything was received or within ten seconds of the last update, and never leaves an update overdue |
| `Replication.ReplicationStream.ParseKeepalive` | 00-bottledwater-pg/client/replication.c:252-279 | Raises the received position to the server's, and answers at once if asked to |
| `Replication.ReplicationStream.ParseXlogData` | 00-bottledwater-pg/client/replication.c:292-313 | Hands the frame on and counts its position as received, also when the frame fails; updates sent while the frame is handled carry the positions held at that moment |
| `Replication.ReplicationStream.Poll` | 00-bottledwater-pg/client/replication.c:184-224 | The received position is the largest seen, frames are handed on unchanged, every update sent, also while a frame is handled, reads back as the positions held, and each error has its code |
| `BigEndian.Be32RoundTrip` | 00-bottledwater-pg/client/replication.c:376-395 | Network byte order reads back |
| `SchemaAgreement.RecordReadsBack` | 00-bottledwater-pg/kafka/registry.c:62-86 | The prefix of each key and value names the schema its bytes were encoded with, and they decode to the table's values |
| `SchemaAgreement.RowsReachKafka` | 00-bottledwater-pg/ext/protocol_server.c:78-165 | Once a table is known, each change to it becomes exactly the records it means |
| `SchemaAgreement.KnownTableStep` | 00-bottledwater-pg/ext/protocol_server.c:83-92 | A frame without an announcement is read with the schemas it was written with |
| `SchemaAgreement.AnnouncedAgrees` | 00-bottledwater-pg/client/protocol_client.c:109-150 | After an announcement the client and the mapper hold what the server's cache holds, for every table |
| `SchemaAgreement.KeyBytesExact` | 00-bottledwater-pg/ext/protocol_server.c:125-132 | Comparing key bytes is comparing keys |
| `SchemaAgreement.RunAgrees` | 00-bottledwater-pg/ext/schema_cache.c:45-70 | Over every run with arbitrary changes to the catalog, new server caches and reconnections: server, client and mapper agree on every table after every event, the registry has taken every schema in use, no row meets an unknown table or another schema, and the log is what the changes mean; a run fails only at a change that is too long, whose names clash, or whose table is refused |
| `SchemaAgreement.PassableRunSucceeds` | 00-bottledwater-pg/ext/schema_cache.c:45-70 | Runs of changes that are none of these do not fail |
| `SchemaAgreement.NewTableStep` | 00-bottledwater-pg/ext/protocol_server.c:170-199 | A frame that announces its table is read with the announced schemas, and fails if and only if the mapper does |
| `SchemaAgreement.IllNamedStep` | 00-bottledwater-pg/client/protocol_client.c:109-150 | A table whose names clash is refused by the client |
| `SchemaAgreement.WellNamedIff` | 00-bottledwater-pg/ext/oid2avro.c:412-435 | Names clash if and only if a table or its key index is called SpecialTime and has a live date or timestamp column |
| `SchemaAgreement.RegisteredIff` | 00-bottledwater-pg/kafka/table_mapper.c:77-101 | The mapper takes a table if and only if Kafka opens its topic and the registry accepts its schemas |
| `SchemaAgreement.ChangePassesIff` | 00-bottledwater-pg/ext/logdecoder.c:101-151 | In every state a run can be in, a change gets through if and only if its frame is not too long, its names are in order, and Kafka and the registry take its table |
| `SchemaAgreement.BlockedForever` | 00-bottledwater-pg/ext/logdecoder.c:144-151 | A change that fits into a frame neither with nor without its schema, whose names clash, or whose table is refused, ends every run that comes to it, whatever came before |
| `SchemaCaching.SchemaCache.Lookup` | 00-bottledwater-pg/ext/schema_cache.c:45-70 | 0 if and only if the cached entry is entirely the one the catalog gives now, 2 if and only if the table was never seen, 1 otherwise; afterwards the entry is that one |
| `SchemaCaching.EntryChanged` | 00-bottledwater-pg/ext/schema_cache.c:120-146 | A consistent entry is reported changed if and only if it differs from the fresh one |
| `SchemaCaching.EntryUpdate` | 00-bottledwater-pg/ext/schema_cache.c:73-113 | Regenerates the entry from the catalog |
| `SchemaCaching.TableKeyIndex` | 00-bottledwater-pg/ext/oid2avro.c:55-89 | The replica identity index, or the first usable primary key |
| `Mapper.UpdateTablesExact` | 00-bottledwater-pg/kafka/table_mapper.c:77-101 | After a successful update there is one entry per table: this one as announced, the others as they were |
| `Mapper.UpdateMetaExact` | 00-bottledwater-pg/kafka/table_mapper.c:139-240 | Whatever the table's history, a successful update leaves exactly what this announcement says |
| `Mapper.UpdateMetaOkIff` | 00-bottledwater-pg/kafka/table_mapper.c:139-240 | An update succeeds if and only if the topic is usable and the registry accepts both schemas |
| `Mapper.UpdateSchemaExact` | 00-bottledwater-pg/kafka/table_mapper.c:189-240 | Keeping the schema when the id is unchanged is the same as parsing the new one |
| `Mapper.PrefixRoundTrip` | 00-bottledwater-pg/kafka/registry.c:75-86 | The 5-byte prefix gives back the id and the data, for every 32-bit id |
| `Mapper.TableMapper.Lookup` | 00-bottledwater-pg/kafka/table_mapper.c:59-65 | The entry of the table, if any |
| `Mapper.TableMapper.MetadataNew` | 00-bottledwater-pg/kafka/table_mapper.c:120-136 | Adds a blank entry, growing the array and keeping every entry |
| `Mapper.TableMapper.MetadataUpdate` | 00-bottledwater-pg/kafka/table_mapper.c:89-100 | Topic, key schema and row schema in turn; succeeds if and only if all three do |
| `Mapper.TableMapper.Update` | 00-bottledwater-pg/kafka/table_mapper.c:77-101 | In place, the update the functions describe |
| `Mapper.RegistryExists` | 00-bottledwater-pg/kafka/registry.c:92-137 | There is a registry with one id for each of any finite number of texts, which accepts exactly them |
| `Server.UpdateFrameWithInsert` | 00-bottledwater-pg/ext/protocol_server.c:78-97 | The frame grows by exactly the messages of the insert |
| `Server.UpdateFrameWithUpdate` | 00-bottledwater-pg/ext/protocol_server.c:101-139 | By exactly those of the update |
| `Server.UpdateFrameWithDelete` | 00-bottledwater-pg/ext/protocol_server.c:143-165 | By exactly those of the delete |
| `Server.UpdateRowMsgs` | 00-bottledwater-pg/ext/protocol_server.c:111-132 | A delete and an insert if the old key is there and its bytes differ, otherwise one update |
| `Server.UpdateFrameWithTableSchema` | 00-bottledwater-pg/ext/protocol_server.c:170-199 | Announces the entry's schemas, or fails when one is too long |
| `Server.BeginFrame` | 00-bottledwater-pg/ext/protocol_server.c:83-86 | Leaves the cache up to date, and announces the schema if and only if it was not |
| `Server.ExtractTupleKey` | 00-bottledwater-pg/ext/protocol_server.c:50-68 | The key's bytes, none without a key, independent of the tuple's layout |
| `Server.OutputChange` | 00-bottledwater-pg/ext/logdecoder.c:101-171 | One frame per change, in bytes: the schema if the cache is not up to date, then the row messages; none if a part or the whole is too long |
| `Frames.ParseBuild` | 00-bottledwater-pg/client/protocol_client.c:81-271 | Every message reads back as it was built: ids, nullable keys and rows, schema texts with their terminators |
| `Frames.Frame.AppendAll` | 00-bottledwater-pg/ext/protocol_server.c:202-283 | Several messages are appended in order |
| `Frames.FrameInhabits` | 00-bottledwater-pg/ext/protocol.c:16-57 | Every frame the builders make inhabits the frame's schema |
| `Client.FrameRoundTrip` | 00-bottledwater-pg/client/protocol_client.c:41-79 | Reading a frame the builders made is handling its messages in order |
| `Client.PutThenFind` | 00-bottledwater-pg/client/protocol_client.c:291-327 | Replacing one table's entry changes what is found for that table only |
| `Client.FrameReader.ProcessMessage` | 00-bottledwater-pg/client/protocol_client.c:41-271 | One message: its call and its effect on the list, or its error |
| `Client.FrameReader.SchemaListLookup` | 00-bottledwater-pg/client/protocol_client.c:291-297 | The first entry of the table, if any |
| `Client.FrameReader.SchemaListEntryNew` | 00-bottledwater-pg/client/protocol_client.c:313-327 | Adds a place, growing the array and keeping every entry |
| `Client.FrameReader.SchemaListReplace` | 00-bottledwater-pg/client/protocol_client.c:302-310 | Finds or adds the place of a table |
| `Client.WireRoundTrip` | 00-bottledwater-pg/client/protocol_client.c:33-38 | Reading the bytes of a frame is handling its messages in order |
| `Client.FrameReader.ProcessFrame` | 00-bottledwater-pg/client/protocol_client.c:41-79 | The calls and list updates of the messages in order; at an error, the calls before it and its code |
| `Client.FrameReader.ParseFrame` | 00-bottledwater-pg/client/protocol_client.c:33-38 | Reads the frame with the frame's schema, then handles it; the calls made are those of the messages before the first error, also when there is one |
| `RetryingWriter.TryWriting` | 00-bottledwater-pg/ext/io_util.c:13-35 | Terminates; succeeds with exactly the encoder's bytes and a terminator if and only if they fit below the limit with the header, otherwise reports no space |
| `RetryingWriter.AvroWrite` | 00-bottledwater-pg/ext/io_util.c:17-26 | One attempt at one size, including the exact fit where only the terminator overflows |
| `SnapshotExport.Export` | 00-bottledwater-pg/ext/snapshot.c:101-179 | The calls together emit every row of every table once, in table order, and close every relation once |
| `SnapshotExport.ExportState.Next` | 00-bottledwater-pg/ext/snapshot.c:138-172 | Each call emits the next remaining row; the end comes when every table is closed |
| `SnapshotExport.ExportState.FetchRow` | 00-bottledwater-pg/ext/snapshot.c:141-164 | Fetching takes the first of the remaining rows unless the table is finished |
| `SnapshotExport.ExportState.NextTable` | 00-bottledwater-pg/ext/snapshot.c:143-146 | Moving to the next table loses and repeats nothing |
| `SnapshotExport.ExportState.constructor` | 00-bottledwater-pg/ext/snapshot.c:108-133 | The first call starts with every row remaining, and with no cursor if there are no tables |
| `SnapshotExport.GetTableList` | 00-bottledwater-pg/ext/snapshot.c:189-288 | Fails if and only if a table is listed twice, or one has no key and that is not allowed; otherwise the listed tables are distinct and in order |
| `SnapshotExport.SnapshotHistory` | 00-bottledwater-pg/ext/snapshot.c:229-272 | Inserting the rows of a consistent snapshot is a possible history and gives its tables |
| `SnapshotExport.SnapshotReachesKafka` | 00-bottledwater-pg/ext/snapshot.c:320-341 | The whole snapshot leaves exactly the keyed tables in Kafka, or fails at a row that explains it |
| `SnapshotExport.SnapshotRunCompletes` | 00-bottledwater-pg/ext/snapshot.c:101-179 | If all rows of the snapshot get through, a run that has just created its slot is a behaviour of the pipeline, and one that can leave exactly the snapshot in Kafka |
| `SnapshotExport.SnapshotGivesRecords` | 00-bottledwater-pg/ext/snapshot.c:229-272 | The messages of a consistent snapshot of distinct rows all carry values, and no key comes twice |
| `Rows.RowConforms` | 00-bottledwater-pg/ext/oid2avro.c:109-169 | A converted row inhabits the schema generated for its table |
| `Rows.SchemaForTableRow` | 00-bottledwater-pg/ext/oid2avro.c:109-138 | One field per live column, in order |
| `Rows.TupleToAvroRow` | 00-bottledwater-pg/ext/oid2avro.c:143-169 | Field n is the n-th live column |
| `Rows.LayoutIrrelevant` | 00-bottledwater-pg/ext/oid2avro.c:143-169 | Tuples with and without dropped columns convert alike |
| `Rows.FindKeyColumn` | 00-bottledwater-pg/ext/oid2avro.c:188-203 | For any layout that leaves out some dropped columns, the loop lands on the column the index names and never reads past the descriptor |
| `Rows.TupleToAvroKey` | 00-bottledwater-pg/ext/oid2avro.c:177-216 | For live key columns the error is unreachable and the key is the named columns in the index's order, in every layout |
| `Rows.KeyConforms` | 00-bottledwater-pg/ext/oid2avro.c:94-105 | The key inhabits the schema generated from the index |
| `Rows.KeysDistinguishIff` | 00-bottledwater-pg/ext/oid2avro.c:366 | Different keys convert to different keys if and only if no key column is numeric |
| `Rows.KeyField` | 00-bottledwater-pg/ext/oid2avro.c:177-216 | One field of the key, in any layout of the tuple; the error for a missing attribute is unreachable |
| `Conversion.ColumnConforms` | 00-bottledwater-pg/ext/oid2avro.c:322-406 | A converted value inhabits the schema of its type, null as branch 0 |
| `Conversion.ColumnInjective` | 00-bottledwater-pg/ext/oid2avro.c:322-406 | Conversion loses nothing, numeric apart |
| `Conversion.PredefSchema.SchemaForOid` | 00-bottledwater-pg/ext/oid2avro.c:221-318 | The schema of a type: null first, a named type defined at its first use and linked afterwards |
| `Conversion.SimpleSchema` | 00-bottledwater-pg/ext/oid2avro.c:221-318 | The primitive schemas; types not listed are text |
| `Conversion.PredefSchema.SchemaForSpecialTimes` | 00-bottledwater-pg/ext/oid2avro.c:412-435 | The enumeration of infinities is defined once |
| `Conversion.PredefSchema.SchemaForDate` | 00-bottledwater-pg/ext/oid2avro.c:469-478 | The date record, defined at its first use, with the enumeration of infinities |
| `Conversion.PredefSchema.SchemaForTimestamp` | 00-bottledwater-pg/ext/oid2avro.c:570-597 | Likewise for timestamps with and without a time zone, which are two records |
| `SchemaNames.NamesOkIff` | 00-bottledwater-pg/ext/oid2avro.c:412-435 | Every name is defined once and before its use, as section "Names" of the Avro 1.7.7 specification requires, if and only if the table is not called SpecialTime with a live date or timestamp column |
| `SchemaNames.ScanColumn` | 00-bottledwater-pg/ext/oid2avro.c:469-665 | Each column defines exactly the predefined names it is the first to use |

## Left out

- KafkaProducer.Producer.SendKafkaMsg: counts events with unbounded integers, so the 32-bit wrap-around of a transaction's counters is not modelled; encoding the message is the input `encoded`.
- Mapper.TableMapper.MetadataUpdate: says nothing about the fields of an entry whose update failed, because the process ends there.
- Handoff.Client.PollStream: the messages that carry the stream's frames are modelled in `Replication`; here a poll yields a frame, and the calls the frame makes, as an input.
- SnapshotExport.GetTableList: the catalog query is an input, reduced to relation ids and index names.
- DROP TABLE and TRUNCATE: they remove rows without a row change, and the rows stay in Kafka.
- The JSON output format: it sends other bytes for the same keys and rows.
- The schema registry's HTTP protocol and its response codes: an answer is accepted or refused.
- Row schemas that change while old records stay: each record keeps the schema it was written with, and compatibility between versions is the registry's business.
- A registry that renumbers or forgets schemas.
- Table and column names that are not Avro identifiers.
- Calendar arithmetic and type output functions, which are PostgreSQL's own.
- Memory management, reference counts, error texts, option parsing, signals and sockets.
- The printing test client, the scripts and the web application of the repository.
