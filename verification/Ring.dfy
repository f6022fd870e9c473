/**
 The circular buffer of in-flight transactions (kafka/bottledwater.c), as a value.

 `Ring` holds what `producer_context` and the replication stream hold: the slots,
 the head and tail indexes, the position reported as durable, and the snapshot flag.
 The functions below are the callbacks' effects on it. Class `Producer` updates the
 same state in place, and module `RingRefinement` relates it to an unbounded queue.
 */
module InFlightRing {
  import opened Basics

  // MAX_IN_FLIGHT_TRANSACTIONS is 1000. It is written out, so that every remainder below is by a literal.

  /** `transaction_info`. `pending` is signed, as in the source. */
  datatype Xact = Xact(xid: nat, recvd: nat, pending: int, commitLsn: Lsn)

  datatype Ring = Ring(slots: seq<Xact>, head: nat, tail: nat, fsync: Lsn, takingSnapshot: bool)

  predicate Wf(r: Ring) {
    |r.slots| == 1000 && r.head < 1000 && r.tail < 1000
  }

  function Next(i: nat): nat {
    (i + 1) % 1000
  }

  predicate Full(r: Ring) {
    Next(r.head) == r.tail
  }

  /** How many slots the tail is behind the head, around the ring. */
  function Distance(r: Ring): nat
    requires Wf(r)
  {
    if r.tail <= r.head then r.head - r.tail else r.head + 1000 - r.tail
  }

  const ZERO_XACT := Xact(0, 0, 0, 0)

  /** The memset-to-zero state of a new process. */
  function InitRing(takingSnapshot: bool): Ring {
    Ring(seq(1000, _ => ZERO_XACT), 0, 0, 0, takingSnapshot)
  }

  /** The guard of the checkpoint loop. */
  predicate Complete(x: Xact) {
    x.pending == 0 && (x.commitLsn > 0 || x.xid == 0)
  }

  /** One iteration's assignments, before the tail moves. */
  function Settle(r: Ring, x: Xact): Ring {
    r.(fsync := x.commitLsn,
       takingSnapshot := if x.xid == 0 && x.commitLsn > 0 then false else r.takingSnapshot)
  }

  /** `maybe_checkpoint`: walk the tail over complete transactions, never past the head. */
  function Checkpoint(r: Ring): (r': Ring)
    requires Wf(r)
    ensures Wf(r') && r'.slots == r.slots && r'.head == r.head
    decreases Distance(r)
  {
    var x := r.slots[r.tail];
    if !Complete(x) then r
    else if r.tail == r.head then Settle(r, x)
    else Checkpoint(Settle(r, x).(tail := Next(r.tail)))
  }

  /** `on_begin_txn` for a streamed transaction, once the buffer has room. */
  function Begin(r: Ring, xid: nat): (r': Ring)
    requires Wf(r)
    ensures Wf(r')
  {
    var h := Next(r.head);
    r.(head := h, slots := r.slots[h := Xact(xid, 0, 0, 0)])
  }

  /** The counters `send_kafka_msg` bumps before the message is produced. */
  function Reserve(r: Ring): (r': Ring)
    requires Wf(r)
    ensures Wf(r')
  {
    var x := r.slots[r.head];
    r.(slots := r.slots[r.head := x.(recvd := x.recvd + 1, pending := x.pending + 1)])
  }

  /** `on_commit_txn` when the transaction ids agree. */
  function Commit(r: Ring, lsn: Lsn): (r': Ring)
    requires Wf(r)
    ensures Wf(r')
  {
    Checkpoint(r.(slots := r.slots[r.head := r.slots[r.head].(commitLsn := lsn)]))
  }

  /** `on_deliver_msg` for a message whose envelope points at slot `i`. */
  function Deliver(r: Ring, i: nat): (r': Ring)
    requires Wf(r) && i < 1000
    ensures Wf(r') && r'.head == r.head
  {
    Checkpoint(r.(slots := r.slots[i := r.slots[i].(pending := r.slots[i].pending - 1)]))
  }
}
