/**
 The whole pipeline as a step machine: PostgreSQL's committed transactions, the
 replication slot, the producer's ring and its messages in flight, and Kafka's log.

 One `Step` is one event. Deliveries interleave freely with the receipt of a
 transaction, also between a row's reservation in the ring and its acceptance by the
 producer's queue, which is where `send_kafka_msg` waits under backpressure. A restart
 may happen between any two steps once the snapshot is complete.

 Environment: commit positions are positive and increase; the stream is begin, rows,
 commit with non-zero transaction ids; Kafka stores records of one key in the order they
 were produced; the server ignores a zero flush position, and after a restart resends
 every transaction committed after a position it had confirmed (it may have lost its
 latest confirmations). A new slot is confirmed at its consistent point, before the
 snapshot taken there has been sent anywhere.
 */
module Pipeline {
  import opened Basics
  import opened KafkaLog
  import opened InFlightRing
  import opened RingRefinement

  /** A committed transaction and the records its rows become. Transaction 0 is the snapshot. */
  datatype Tx = Tx(xid: nat, commit: Lsn, records: Log)

  type Wal = seq<Tx>

  /** An envelope: which record it is for, and the ring slot it points at. */
  datatype Env = Env(txn: nat, row: nat, slot: nat)

  /**
   wal, confirmed: the server's transactions and the slot's confirmed flush position.
   log: what Kafka has stored.
   ring, recvd, flushSent: the client's ring, received position, and last flush position sent.
   base, resumed: the transaction in ring element 0, and whether it only stands for the
     transactions confirmed before this run.
   cur, sent, isOpen: the transaction being received, its rows sent so far, and whether
     its commit is still to come.
   sending, queued, awaiting: the envelope being produced, those accepted by the producer's
     queue, and those stored by Kafka but not yet reported.
   queue, past: the unbounded queue the ring is compared with, and what the log held before
     this history; no step depends on them.
   */
  datatype Sys = Sys(
    wal: Wal, confirmed: Lsn, log: Log,
    ring: Ring, recvd: Lsn, flushSent: Lsn,
    base: nat, resumed: bool, cur: nat, sent: nat, isOpen: bool,
    sending: Option<Env>, queued: seq<Env>, awaiting: seq<Env>,
    queue: Queue, past: Log)

  // ---- Transactions and their records

  predicate Earlier(wal: Wal, m: nat, n: nat)
    requires m < n < |wal|
  {
    wal[m].commit < wal[n].commit
  }

  ghost predicate Increasing(wal: Wal) {
    forall m, n {:trigger Earlier(wal, m, n)} :: 0 <= m < n < |wal| ==> Earlier(wal, m, n)
  }

  ghost predicate WalOk(wal: Wal) {
    && |wal| > 0
    && wal[0].xid == 0 && wal[0].commit > 0
    && (forall n :: 1 <= n < |wal| ==> wal[n].xid != 0)
    && Increasing(wal)
  }

  /** The records of all transactions, in order. */
  function Flat(wal: Wal): Log {
    if |wal| == 0 then [] else Flat(wal[..|wal|-1]) + wal[|wal|-1].records
  }

  /** How many transactions a position covers: all up to the last one committed at or before it. */
  function Below(wal: Wal, l: Lsn): (c: nat)
    ensures c <= |wal|
    ensures c > 0 ==> wal[c-1].commit <= l
    ensures c < |wal| ==> l < wal[c].commit
  {
    if |wal| == 0 then 0
    else if wal[|wal|-1].commit <= l then |wal|
    else Below(wal[..|wal|-1], l)
  }

  // ---- Envelopes

  function SendingSeq(s: Sys): seq<Env> {
    if s.sending.Some? then [s.sending.value] else []
  }

  /** Envelopes whose record is not in the log yet, in the order they were produced. */
  function Unstored(s: Sys): seq<Env> {
    s.queued + SendingSeq(s)
  }

  function Count(es: seq<Env>, t: nat): nat {
    if |es| == 0 then 0
    else Count(es[..|es|-1], t) + (if es[|es|-1].txn == t then 1 else 0)
  }

  /** Unacknowledged envelopes of transaction t. */
  function Outstanding(s: Sys, t: nat): nat {
    Count(s.awaiting, t) + Count(Unstored(s), t)
  }

  predicate Refers(wal: Wal, e: Env) {
    e.txn < |wal| && e.row < |wal[e.txn].records|
  }

  predicate AllRefer(wal: Wal, es: seq<Env>) {
    forall i :: 0 <= i < |es| ==> Refers(wal, es[i])
  }

  function RecordOf(wal: Wal, e: Env): Record
    requires Refers(wal, e)
  {
    wal[e.txn].records[e.row]
  }

  function RecordsOf(wal: Wal, es: seq<Env>): (log: Log)
    requires AllRefer(wal, es)
    ensures |log| == |es|
  {
    seq(|es|, i requires 0 <= i < |es| => RecordOf(wal, es[i]))
  }

  function Without<T>(s: seq<T>, i: nat): seq<T>
    requires i < |s|
  {
    s[..i] + s[i+1..]
  }

  // ---- Steps

  datatype Step =
    | DbCommit(tx: Tx)      // PostgreSQL commits another transaction
    | BeginTxn              // on_begin_txn, once the ring has room
    | SendRow               // send_kafka_msg up to its produce loop
    | Enqueue               // the produce call is accepted
    | Store(i: nat)         // Kafka stores a queued record
    | Report(i: nat)        // on_deliver_msg for a stored record
    | CommitTxn             // on_commit_txn
    | Received(pos: Lsn)    // any other message that moves the received position
    | SendStatus            // a standby status update is sent
    | Confirm               // the server processes the last one sent
    | Restart(from: nat)    // the client dies, and comes back on the existing slot

  ghost predicate Takes(s: Sys, step: Step, s': Sys) {
    Wf(s.ring) &&
    match step
    case DbCommit(tx) => DbCommits(s, tx, s')
    case BeginTxn => Begins(s, s')
    case SendRow => SendsRow(s, s')
    case Enqueue => Enqueues(s, s')
    case Store(i) => Stores(s, i, s')
    case Report(i) => Reports(s, i, s')
    case CommitTxn => Commits(s, s')
    case Received(pos) =>
      Streaming(s) && s' == s.(recvd := Max(s.recvd, pos))
    case SendStatus => s.recvd != 0 && s' == s.(flushSent := s.ring.fsync)
    case Confirm => s' == s.(confirmed := if s.flushSent == 0 then s.confirmed else s.flushSent)
    case Restart(from) => Restarts(s, from, s')
  }

  /** START_REPLICATION has been sent: the snapshot is not being read any more. */
  predicate Streaming(s: Sys) {
    |s.wal| > 0 && (s.resumed || s.cur > 0 || !s.isOpen)
  }

  ghost predicate DbCommits(s: Sys, tx: Tx, s': Sys) {
    && |s.wal| > 0 && tx.xid != 0 && tx.commit > s.wal[|s.wal|-1].commit
    && s' == s.(wal := s.wal + [tx])
  }

  ghost predicate Begins(s: Sys, s': Sys)
    requires Wf(s.ring)
  {
    && !s.isOpen && s.cur + 1 < |s.wal| && !Full(s.ring)
    && s' == s.(cur := s.cur + 1, sent := 0, isOpen := true,
                ring := Begin(s.ring, s.wal[s.cur+1].xid), queue := QBegin(s.queue, s.wal[s.cur+1].xid))
  }

  ghost predicate SendsRow(s: Sys, s': Sys)
    requires Wf(s.ring)
  {
    && s.isOpen && s.sending.None? && s.cur < |s.wal| && s.sent < |s.wal[s.cur].records| && |s.queue| > 0
    && s' == s.(sent := s.sent + 1, sending := Some(Env(s.cur, s.sent, s.ring.head)),
                ring := Reserve(s.ring), queue := QRow(s.queue))
  }

  ghost predicate Enqueues(s: Sys, s': Sys) {
    && s.sending.Some?
    && s' == s.(queued := s.queued + [s.sending.value], sending := None)
  }

  /** The first queued record of its key (or one without a key) reaches Kafka. */
  ghost predicate Stores(s: Sys, i: nat, s': Sys) {
    && i < |s.queued| && AllRefer(s.wal, s.queued)
    && var r := RecordOf(s.wal, s.queued[i]);
    && (r.key.Some? ==> Last(RecordsOf(s.wal, s.queued)[..i], LogKey(r.topic, r.key.value)).None?)
    && s' == s.(queued := Without(s.queued, i), awaiting := s.awaiting + [s.queued[i]], log := s.log + [r])
  }

  ghost predicate Reports(s: Sys, i: nat, s': Sys)
    requires Wf(s.ring)
  {
    && i < |s.awaiting|
    && var e := s.awaiting[i];
    && e.slot < 1000 && s.base <= e.txn < s.base + |s.queue|
    && s' == s.(awaiting := Without(s.awaiting, i),
                ring := Deliver(s.ring, e.slot), queue := QAck(s.queue, e.txn - s.base))
  }

  ghost predicate Commits(s: Sys, s': Sys)
    requires Wf(s.ring)
  {
    && s.isOpen && s.sending.None? && s.cur < |s.wal| && s.sent == |s.wal[s.cur].records| && |s.queue| > 0
    && s.ring.slots[s.ring.head].xid == s.wal[s.cur].xid
    && var lsn := s.wal[s.cur].commit;
    && s' == s.(isOpen := false, ring := Commit(s.ring, lsn), queue := QCommit(s.queue, lsn),
                recvd := if s.cur == 0 then s.recvd else Max(s.recvd, lsn))
  }

  ghost predicate Restarts(s: Sys, from: nat, s': Sys) {
    && !s.ring.takingSnapshot
    && 1 <= from <= Below(s.wal, s.confirmed)
    && s' == Resume(s, from)
  }

  /** A fresh process on the existing slot, sent everything from transaction `from` on. */
  function Resume(s: Sys, from: nat): Sys
    requires 1 <= from <= |s.wal|
  {
    s.(confirmed := s.wal[from-1].commit,
       ring := InitRing(false), recvd := 0, flushSent := 0,
       base := from - 1, resumed := true, cur := from - 1, sent := |s.wal[from-1].records|, isOpen := false,
       sending := None, queued := [], awaiting := [], queue := [DUMMY])
  }

  /**
   A first run: the slot has just been created, and the snapshot transaction is open. The log
   may hold what an earlier attempt left, whose slot was dropped.
   */
  ghost predicate InitFresh(s: Sys) {
    && WalOk(s.wal) && |s.wal| == 1
    && s == Sys(s.wal, s.wal[0].commit, s.past, InitRing(true), 0, 0, 0, false, 0, 0, true, None, [], [], [SNAPSHOT], s.past)
  }

  /** A run on a slot left by earlier ones, whose confirmed history (transaction 0) is in the log. */
  ghost predicate InitExisting(s: Sys) {
    && WalOk(s.wal) && |s.wal| == 1
    && (forall k :: Last(s.log, k) == Last(s.past + s.wal[0].records, k))
    && (forall r :: r in s.wal[0].records ==> r in s.log)
    && s == Resume(s, 1)
  }

  ghost predicate Init(s: Sys) {
    InitFresh(s) || InitExisting(s)
  }

  /** A finite behaviour of the pipeline. */
  ghost predicate Behaviour(trace: seq<Sys>, steps: seq<Step>) {
    && |trace| == |steps| + 1
    && Init(trace[0])
    && forall i :: 0 <= i < |steps| ==> Takes(trace[i], steps[i], trace[i+1])
  }
}
