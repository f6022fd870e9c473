/**
 The ring refines an unbounded queue of transactions.

 The queue remembers every transaction of the run, how many row messages it has
 produced and had acknowledged, and its commit position. Queue element `n` lives in
 slot `n % 1000` while `tail <= n <= head`. Element 0 is the snapshot transaction, or,
 when the replication slot already existed, the zero-filled slot the process starts
 with, which counts as committed at position 0.
 */
module RingRefinement {
  import opened Basics
  import opened InFlightRing

  datatype Txn = Txn(xid: nat, rows: nat, acked: nat, commit: Option<Lsn>)

  type Queue = seq<Txn>

  const DUMMY := Txn(0, 0, 0, Some(0))

  const SNAPSHOT := Txn(0, 0, 0, None)

  predicate Done(t: Txn) {
    t.commit.Some? && t.acked == t.rows
  }

  /** The first transaction from k on that is not done. */
  function NotDoneFrom(q: Queue, k: nat): (n: nat)
    requires k <= |q|
    ensures k <= n <= |q|
    ensures forall i :: k <= i < n ==> Done(q[i])
    ensures n < |q| ==> !Done(q[n])
    decreases |q| - k
  {
    if k < |q| && Done(q[k]) then NotDoneFrom(q, k + 1) else k
  }

  /** Length of the longest prefix of committed and fully acknowledged transactions. */
  function DonePrefix(q: Queue): (k: nat)
    ensures k <= |q|
    ensures forall n :: 0 <= n < k ==> Done(q[n])
    ensures k < |q| ==> !Done(q[k])
  {
    NotDoneFrom(q, 0)
  }

  /** Commit position of the k-th transaction, 0 when there is none. */
  function CommitAt(q: Queue, k: nat): Lsn
    requires k <= |q|
    requires k > 0 ==> q[k-1].commit.Some?
  {
    if k == 0 then 0 else q[k-1].commit.value
  }

  /** The position up to which everything received is safely in Kafka. */
  function Durable(q: Queue): Lsn {
    CommitAt(q, DonePrefix(q))
  }

  // The queue's own steps.

  function QBegin(q: Queue, xid: nat): Queue {
    q + [Txn(xid, 0, 0, None)]
  }

  function QRow(q: Queue): Queue
    requires |q| > 0
  {
    q[|q|-1 := q[|q|-1].(rows := q[|q|-1].rows + 1)]
  }

  function QCommit(q: Queue, lsn: Lsn): Queue
    requires |q| > 0
  {
    q[|q|-1 := q[|q|-1].(commit := Some(lsn))]
  }

  function QAck(q: Queue, n: nat): Queue
    requires n < |q|
  {
    q[n := q[n].(acked := q[n].acked + 1)]
  }

  /** What a well-formed server makes true of the queue. */
  ghost predicate Shape(q: Queue) {
    && |q| > 0
    && q[0].xid == 0
    && (q[0].commit == Some(0) ==> q[0].rows == 0)
    && (forall n :: 0 <= n < |q| ==> q[n].acked <= q[n].rows)
    && (forall n :: 1 <= n < |q| ==> q[n].xid != 0)
    && (forall n :: 0 <= n < |q| - 1 ==> q[n].commit.Some?)
    && (forall m, n {:trigger InOrder(q, m, n)} :: 0 <= m < n < |q| && q[n].commit.Some? ==> InOrder(q, m, n))
  }

  predicate InOrder(q: Queue, m: nat, n: nat)
    requires m < n < |q| && q[m].commit.Some? && q[n].commit.Some?
  {
    q[m].commit.value < q[n].commit.value
  }

  predicate Encodes(x: Xact, t: Txn) {
    && x.xid == t.xid
    && x.recvd == t.rows
    && x.pending == t.rows - t.acked
    && x.commitLsn == (if t.commit.Some? then t.commit.value else 0)
  }

  /** Queue element n is held by slot n % 1000. */
  predicate Held(r: Ring, q: Queue, n: nat)
    requires Wf(r) && n < |q|
  {
    Encodes(r.slots[n % 1000], q[n])
  }

  /** Queue elements t, t+1, ... are the slots from the tail to the head. */
  ghost predicate Window(r: Ring, q: Queue, t: nat) {
    && Wf(r)
    && t < |q| <= t + 1000
    && r.tail == t % 1000
    && r.head == (|q| - 1) % 1000
    && (forall n :: t <= n < |q| ==> Held(r, q, n))
    && (forall n :: 0 <= n < t ==> Done(q[n]))
  }

  /** The refinement relation that holds between callbacks, with `t` the tail's queue index. */
  ghost predicate Tracks(r: Ring, q: Queue, t: nat) {
    && Shape(q)
    && Window(r, q, t)
    && r.fsync == Durable(q)
    && r.takingSnapshot == !Done(q[0])
    && DonePrefix(q) <= t + 1
    && (q[|q|-1].commit.Some? ==> t == Min(DonePrefix(q), |q| - 1))
  }

  /** A prefix of done transactions followed by one that is not is the longest one. */
  lemma DonePrefixIs(q: Queue, k: nat)
    requires k <= |q|
    requires forall n :: 0 <= n < k ==> Done(q[n])
    requires k < |q| ==> !Done(q[k])
    ensures DonePrefix(q) == k
  {
    var d := DonePrefix(q);
    assert d < |q| ==> !Done(q[d]);
  }

  /** Two elements of one window never share a slot. */
  lemma SlotsDiffer(m: nat, n: nat)
    requires m < n < m + 1000
    ensures m % 1000 != n % 1000
  {
  }

  /** The slot after an element's is the next element's. */
  lemma NextSlot(n: nat)
    ensures Next(n % 1000) == (n + 1) % 1000
  {
  }

  /** Changing one element together with its slot leaves the rest of the window alone. */
  lemma WindowUpdate(r: Ring, q: Queue, t: nat, n: nat, x: Xact, e: Txn)
    requires Window(r, q, t) && t <= n < |q| && Encodes(x, e)
    ensures Window(r.(slots := r.slots[n % 1000 := x]), q[n := e], t)
  {
    var r', q' := r.(slots := r.slots[n % 1000 := x]), q[n := e];
    forall m | t <= m < |q'|
      ensures Held(r', q', m)
    {
      assert Held(r, q, m);
      if m < n { SlotsDiffer(m, n); }
      if n < m { SlotsDiffer(n, m); }
    }
  }

  /** The start of a run, on an existing replication slot or on a new one. */
  lemma InitTracks(takingSnapshot: bool)
    ensures Tracks(InitRing(takingSnapshot), [if takingSnapshot then SNAPSHOT else DUMMY], 0)
  {
    var q := [if takingSnapshot then SNAPSHOT else DUMMY];
    DonePrefixIs(q, if takingSnapshot then 0 else 1);
  }

  /** What a checkpoint walk may start from: the slots have changed, the position has not. */
  ghost predicate Walkable(r: Ring, q: Queue, t: nat) {
    && Shape(q)
    && Window(r, q, t)
    && (r.fsync == CommitAt(q, t) || (Done(q[t]) && r.fsync == CommitAt(q, t + 1)))
    && (r.takingSnapshot ==> t == 0 && q[0].commit != Some(0))
    && (!r.takingSnapshot ==> Done(q[0]))
  }

  /** The tail catches the head only at the newest transaction. */
  lemma TailAtHead(r: Ring, q: Queue, t: nat)
    requires Window(r, q, t)
    ensures r.tail == r.head <==> t == |q| - 1
  {
    if t < |q| - 1 { SlotsDiffer(t, |q| - 1); }
  }

  /** One iteration of the walk over a done transaction that is not the newest. */
  lemma WalkStep(r: Ring, q: Queue, t: nat)
    requires Walkable(r, q, t) && Done(q[t]) && t < |q| - 1
    ensures r.tail != r.head && Complete(r.slots[r.tail])
    ensures Walkable(Settle(r, r.slots[r.tail]).(tail := Next(r.tail)), q, t + 1)
  {
    var r1 := Settle(r, r.slots[r.tail]).(tail := Next(r.tail));
    TailAtHead(r, q, t);
    NextSlot(t);
    assert Held(r, q, t);
    assert t > 0 ==> InOrder(q, t - 1, t);
    forall n | t + 1 <= n < |q|
      ensures Held(r1, q, n)
    {
      assert Held(r, q, n);
    }
  }

  /** The walk stops at the first transaction that is not done, or at the newest. */
  lemma WalkEnd(r: Ring, q: Queue, t: nat)
    requires Walkable(r, q, t) && (Done(q[t]) ==> t == |q| - 1)
    ensures Tracks(Checkpoint(r), q, t) && t == Min(DonePrefix(q), |q| - 1)
  {
    TailAtHead(r, q, t);
    assert Held(r, q, t);
    DonePrefixIs(q, if Done(q[t]) then t + 1 else t);
    var r' := Checkpoint(r);
    assert r'.tail == r.tail;
    assert t > 0 && Done(q[t]) ==> InOrder(q, t - 1, t);
    forall n | t <= n < |q|
      ensures Held(r', q, n)
    {
      assert Held(r, q, n);
    }
  }

  /** A walk ends exactly at the longest done prefix, whatever it started from. */
  lemma {:induction false} CheckpointTracks(r: Ring, q: Queue, t: nat)
    requires Walkable(r, q, t)
    ensures Tracks(Checkpoint(r), q, Min(DonePrefix(q), |q| - 1))
    decreases |q| - t
  {
    if Done(q[t]) && t < |q| - 1 {
      WalkStep(r, q, t);
      CheckpointTracks(Settle(r, r.slots[r.tail]).(tail := Next(r.tail)), q, t + 1);
    } else {
      WalkEnd(r, q, t);
    }
  }

  lemma NotFull(r: Ring, q: Queue, t: nat)
    requires Window(r, q, t)
    ensures Full(r) <==> |q| == t + 1000
  {
    if |q| < t + 1000 { SlotsDiffer(t, |q|); }
  }

  lemma BeginWindow(r: Ring, q: Queue, t: nat, xid: nat)
    requires Window(r, q, t) && !Full(r)
    ensures Window(Begin(r, xid), QBegin(q, xid), t)
  {
    NotFull(r, q, t);
    var r', q' := Begin(r, xid), QBegin(q, xid);
    NextSlot(|q| - 1);
    forall n | t <= n < |q'|
      ensures Held(r', q', n)
    {
      if n < |q| {
        assert Held(r, q, n);
        SlotsDiffer(n, |q|);
      }
    }
  }

  lemma BeginTracks(r: Ring, q: Queue, t: nat, xid: nat)
    requires Tracks(r, q, t)
    requires q[|q|-1].commit.Some? && !Full(r) && xid != 0
    ensures Tracks(Begin(r, xid), QBegin(q, xid), t)
    ensures DonePrefix(QBegin(q, xid)) == DonePrefix(q)
  {
    var q' := QBegin(q, xid);
    BeginWindow(r, q, t, xid);
    forall i, j | 0 <= i < j < |q'| && q'[j].commit.Some?
      ensures InOrder(q', i, j)
    {
      assert InOrder(q, i, j);
    }
    assert forall n :: 0 <= n < |q| ==> q'[n] == q[n];
    DonePrefixIs(q', DonePrefix(q));
  }

  lemma RowShape(q: Queue)
    requires Shape(q) && q[|q|-1].commit.None?
    ensures Shape(QRow(q)) && DonePrefix(QRow(q)) == DonePrefix(q) < |q|
  {
    var q' := QRow(q);
    forall i, j | 0 <= i < j < |q'| && q'[j].commit.Some?
      ensures InOrder(q', i, j)
    {
      assert InOrder(q, i, j);
    }
    assert forall m :: 0 <= m < |q| - 1 ==> q'[m] == q[m];
    DonePrefixIs(q', DonePrefix(q));
  }

  lemma RowWindow(r: Ring, q: Queue, t: nat)
    requires Window(r, q, t) && q[|q|-1].commit.None?
    ensures Window(Reserve(r), QRow(q), t)
  {
    var n := |q| - 1;
    assert Held(r, q, n);
    var x := r.slots[r.head];
    WindowUpdate(r, q, t, n, x.(recvd := x.recvd + 1, pending := x.pending + 1), QRow(q)[n]);
  }

  lemma RowTracks(r: Ring, q: Queue, t: nat)
    requires Tracks(r, q, t)
    requires q[|q|-1].commit.None?
    ensures Tracks(Reserve(r), QRow(q), t)
    ensures DonePrefix(QRow(q)) == DonePrefix(q)
  {
    RowShape(q);
    RowWindow(r, q, t);
    assert forall m :: 0 <= m < |q| - 1 ==> QRow(q)[m] == q[m];
  }

  /** A queue whose done transactions are all still done has not lost ground. */
  lemma DurableGrows(q: Queue, q': Queue)
    requires Shape(q) && Shape(q') && |q| <= |q'|
    requires forall n :: 0 <= n < DonePrefix(q) ==> q'[n] == q[n]
    ensures DonePrefix(q) <= DonePrefix(q') && Durable(q) <= Durable(q')
  {
    var k, k' := DonePrefix(q), DonePrefix(q');
    assert k' < |q'| ==> !Done(q'[k']);
    assert k > 0 ==> q'[k-1] == q[k-1];
    if 0 < k < k' { assert InOrder(q', k - 1, k' - 1); }
  }

  /** Re-establishing the relation after one element below the done prefix's end changed. */
  lemma UpdateTracks(r: Ring, q: Queue, t: nat, n: nat, x: Xact, e: Txn)
    requires Tracks(r, q, t) && DonePrefix(q) <= n < |q| && Encodes(x, e)
    requires Shape(q[n := e]) && e.commit != Some(0)
    ensures t <= n
    ensures var q' := q[n := e];
            && Tracks(Checkpoint(r.(slots := r.slots[n % 1000 := x])), q', Min(DonePrefix(q'), |q| - 1))
            && Durable(q) <= Durable(q') && DonePrefix(q) <= DonePrefix(q')
  {
    var q', k := q[n := e], DonePrefix(q);
    assert k < |q| ==> !Done(q[k]);
    WindowUpdate(r, q, t, n, x, e);
    assert forall m :: 0 <= m < k ==> q'[m] == q[m];
    CheckpointTracks(r.(slots := r.slots[n % 1000 := x]), q', t);
    DurableGrows(q, q');
  }

  lemma CommitShape(q: Queue, lsn: Lsn)
    requires Shape(q) && q[|q|-1].commit.None? && lsn > 0
    requires forall n :: 0 <= n < |q| - 1 ==> q[n].commit.value < lsn
    ensures Shape(QCommit(q, lsn))
  {
    var q' := QCommit(q, lsn);
    forall m, n | 0 <= m < n < |q'|
      ensures q'[m].commit.Some? && (q'[n].commit.Some? ==> InOrder(q', m, n))
    {
      if n < |q| - 1 { assert InOrder(q, m, n); }
    }
  }

  lemma AckShape(q: Queue, n: nat)
    requires Shape(q) && n < |q| && q[n].acked < q[n].rows
    ensures Shape(QAck(q, n))
  {
    var q' := QAck(q, n);
    forall i, j | 0 <= i < j < |q'| && q'[j].commit.Some?
      ensures InOrder(q', i, j)
    {
      assert InOrder(q, i, j);
    }
  }

  lemma CommitTracks(r: Ring, q: Queue, t: nat, lsn: Lsn)
    requires Tracks(r, q, t)
    requires q[|q|-1].commit.None? && lsn > 0
    requires forall n :: 0 <= n < |q| - 1 ==> q[n].commit.value < lsn
    ensures Tracks(Commit(r, lsn), QCommit(q, lsn), Min(DonePrefix(QCommit(q, lsn)), |q| - 1))
    ensures Durable(q) <= Durable(QCommit(q, lsn)) && DonePrefix(q) <= DonePrefix(QCommit(q, lsn))
  {
    var q', n := QCommit(q, lsn), |q| - 1;
    assert Held(r, q, n);
    assert forall m :: 0 <= m < n ==> q'[m] == q[m];
    CommitShape(q, lsn);
    UpdateTracks(r, q, t, n, r.slots[r.head].(commitLsn := lsn), q'[n]);
  }

  /** A transaction that waits for Kafka is in the window, and not the zero-filled slot. */
  lemma Pending(r: Ring, q: Queue, t: nat, n: nat)
    requires Tracks(r, q, t) && n < |q| && q[n].acked < q[n].rows
    ensures t <= n && DonePrefix(q) <= n && Held(r, q, n) && q[n].commit != Some(0)
  {
    assert !Done(q[n]);
    if n > 0 && q[n].commit.Some? { assert InOrder(q, 0, n); }
  }

  lemma AckTracks(r: Ring, q: Queue, t: nat, n: nat)
    requires Tracks(r, q, t)
    requires n < |q| && q[n].acked < q[n].rows
    ensures t <= n
    ensures Tracks(Deliver(r, n % 1000), QAck(q, n), Min(DonePrefix(QAck(q, n)), |q| - 1))
    ensures Durable(q) <= Durable(QAck(q, n)) && DonePrefix(q) <= DonePrefix(QAck(q, n))
  {
    var x := r.slots[n % 1000];
    var x' := x.(pending := x.pending - 1);
    var e := q[n].(acked := q[n].acked + 1);
    assert t <= n && DonePrefix(q) <= n && Encodes(x', e) && e.commit != Some(0) by { Pending(r, q, t, n); }
    assert Shape(q[n := e]) by { AckShape(q, n); }
    assert Deliver(r, n % 1000) == Checkpoint(r.(slots := r.slots[n % 1000 := x']));
    UpdateTracks(r, q, t, n, x', e);
  }

  /**
   A full buffer is never stuck: whenever `on_begin_txn` finds it full, the tail
   transaction has been committed and still waits for Kafka.
   */
  lemma FullRingWaitsForTail(r: Ring, q: Queue, t: nat)
    requires Tracks(r, q, t) && q[|q|-1].commit.Some? && Full(r)
    ensures |q| == t + 1000
    ensures q[t].commit.Some? && q[t].acked < q[t].rows
  {
    NotFull(r, q, t);
    assert DonePrefix(q) == t;
  }

  function DeliverTimes(r: Ring, i: nat, k: nat): (r': Ring)
    requires Wf(r) && i < 1000
    ensures Wf(r')
    decreases k
  {
    if k == 0 then r else DeliverTimes(Deliver(r, i), i, k - 1)
  }

  /** Acknowledging what the tail transaction waits for makes room for the next one. */
  lemma {:induction false} DrainingTailMakesRoom(r: Ring, q: Queue, t: nat)
    requires Tracks(r, q, t) && q[|q|-1].commit.Some? && Full(r)
    ensures !Full(DeliverTimes(r, r.tail, q[t].rows - q[t].acked))
    decreases q[t].rows - q[t].acked
  {
    FullRingWaitsForTail(r, q, t);
    AckTracks(r, q, t, t);
    var q', r' := QAck(q, t), Deliver(r, r.tail);
    if q[t].rows - q[t].acked == 1 {
      DoneElementPassed(q', t);
      NotFull(r', q', Min(DonePrefix(q'), |q| - 1));
      assert DeliverTimes(r', r.tail, 0) == r';
    } else {
      DonePrefixIs(q', t);
      NotFull(r', q', t);
      DrainingTailMakesRoom(r', q', t);
    }
  }

  lemma DoneElementPassed(q: Queue, t: nat)
    requires t < |q| && forall n :: 0 <= n <= t ==> Done(q[n])
    ensures DonePrefix(q) > t
  {
    assert DonePrefix(q) < |q| ==> !Done(q[DonePrefix(q)]);
  }

  lemma FsyncIsLastDone(r: Ring, q: Queue, t: nat)
    requires Tracks(r, q, t)
    ensures r.fsync > 0 || DonePrefix(q) > 0 ==> DonePrefix(q) > 0 && q[DonePrefix(q)-1].commit == Some(r.fsync)
    ensures r.takingSnapshot ==> r.fsync == 0
  {
    if DonePrefix(q) > 0 { assert Done(q[DonePrefix(q)-1]) && Done(q[0]); }
  }
}
