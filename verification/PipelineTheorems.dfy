/** The results about whole behaviours, with any number of restarts. */
module PipelineTheorems {
  import opened Basics
  import opened KafkaLog
  import opened InFlightRing
  import opened RingRefinement
  import opened Pipeline
  import opened PipelineInvariant
  import opened PipelineSafety
  import opened PipelineDelivery

  lemma {:induction false} BehaviourInv(trace: seq<Sys>, steps: seq<Step>, i: nat)
    requires Behaviour(trace, steps) && i < |trace|
    ensures Inv(trace[i])
    decreases i
  {
    if i == 0 {
      InitInv(trace[0]);
    } else {
      BehaviourInv(trace, steps, i - 1);
      StepInv(trace[i-1], steps[i-1], trace[i]);
    }
  }

  /** Neither the server's transactions nor Kafka's log ever lose anything. */
  lemma StepGrows(s: Sys, step: Step, s': Sys)
    requires WalOk(s.wal) && Takes(s, step, s')
    ensures WalOk(s'.wal) && s.wal <= s'.wal && s.log <= s'.log && s'.past == s.past
  {
    WalKeeps(s, step, s');
  }

  lemma PrefixOfPrefix<T>(a: seq<T>, b: seq<T>, c: seq<T>)
    requires a <= b && b <= c
    ensures a <= c
  {
  }

  lemma {:induction false} HistoryGrowsFrom(trace: seq<Sys>, steps: seq<Step>, i: nat, j: nat)
    requires Behaviour(trace, steps) && i <= j < |trace| && WalOk(trace[i].wal)
    ensures trace[i].wal <= trace[j].wal && trace[i].log <= trace[j].log && trace[j].past == trace[i].past
    decreases j - i
  {
    if i < j {
      StepGrows(trace[i], steps[i], trace[i+1]);
      HistoryGrowsFrom(trace, steps, i + 1, j);
      PrefixOfPrefix(trace[i].wal, trace[i+1].wal, trace[j].wal);
      PrefixOfPrefix(trace[i].log, trace[i+1].log, trace[j].log);
    }
  }

  lemma HistoryGrows(trace: seq<Sys>, steps: seq<Step>, i: nat, j: nat)
    requires Behaviour(trace, steps) && i <= j < |trace|
    ensures trace[i].wal <= trace[j].wal && trace[i].log <= trace[j].log && trace[j].past == trace[i].past
  {
    BehaviourInv(trace, steps, i);
    HistoryGrowsFrom(trace, steps, i, j);
  }

  /** Every record of a transaction is in the log. */
  ghost predicate InLog(log: Log, tx: Tx) {
    forall j :: 0 <= j < |tx.records| ==> tx.records[j] in log
  }

  /** A transaction the ring has passed is in the log, and nothing of it is outstanding. */
  lemma PassedIsSafe(s: Sys, t: nat)
    requires Inv(s) && t < s.base + DonePrefix(s.queue)
    ensures t < |s.wal| && InLog(s.log, s.wal[t]) && Outstanding(s, t) == 0
  {
    PassedIsLogged(s, t);
    NoEnvelopeBelow(s, t);
    CountNone(s.awaiting, t);
    CountNone(Unstored(s), t);
  }

  lemma BelowCovers(wal: Wal, t: nat, l: Lsn)
    requires Increasing(wal) && t < |wal| && wal[t].commit <= l
    ensures t < Below(wal, l)
  {
    var b := Below(wal, l);
    assert b < t ==> Earlier(wal, b, t);
  }

  /**
   At-least-once delivery. Whatever flush position was sent to the server at any moment of
   the run, every transaction at or below it has all its records in Kafka from then on, and
   had them acknowledged when the position was sent. The same holds of the position the
   server restarts from, once the snapshot is complete. Resending only later transactions
   therefore loses nothing.
   */
  lemma AtLeastOnce(trace: seq<Sys>, steps: seq<Step>, i: nat, j: nat, t: nat)
    requires Behaviour(trace, steps) && i <= j < |trace| && t < |trace[i].wal|
    requires trace[i].wal[t].commit <= trace[i].flushSent
             || (trace[i].wal[t].commit <= trace[i].confirmed && !trace[i].ring.takingSnapshot)
    ensures Outstanding(trace[i], t) == 0
    ensures t < |trace[j].wal| && trace[j].wal[t] == trace[i].wal[t] && InLog(trace[j].log, trace[j].wal[t])
  {
    var s := trace[i];
    BehaviourInv(trace, steps, i);
    if s.wal[t].commit <= s.flushSent {
      BelowCovers(s.wal, t, s.flushSent);
    } else {
      BelowCovers(s.wal, t, s.confirmed);
    }
    PassedIsSafe(s, t);
    HistoryGrows(trace, steps, i, j);
  }

  // ---- The position the ring reports

  /** The first transaction this run sends. */
  function First(s: Sys): nat {
    if s.resumed then s.base + 1 else s.base
  }

  /** Received with its commit, and every row acknowledged. */
  predicate Acknowledged(s: Sys, t: nat) {
    CommitSeen(s, t) && Outstanding(s, t) == 0
  }

  lemma DoneIsAcknowledged(s: Sys, t: nat)
    requires Inv(s) && First(s) <= t <= s.cur
    ensures Done(s.queue[t - s.base]) <==> Acknowledged(s, t)
  {
    assert QueueAt(s, t - s.base);
  }

  /**
   The reported position is exact: it covers a transaction of this run if and only if that
   transaction and all before it in the run have been acknowledged.
   */
  lemma FsyncExact(trace: seq<Sys>, steps: seq<Step>, i: nat, t: nat)
    requires Behaviour(trace, steps) && i < |trace|
    requires First(trace[i]) <= t <= trace[i].cur
    ensures t < |trace[i].wal|
    ensures trace[i].wal[t].commit <= trace[i].ring.fsync
            <==> forall u :: First(trace[i]) <= u <= t ==> Acknowledged(trace[i], u)
  {
    var s := trace[i];
    BehaviourInv(trace, steps, i);
    var k := DonePrefix(s.queue);
    FsyncIsCommit(s);
    forall u | First(s) <= u <= t
      ensures Done(s.queue[u - s.base]) <==> Acknowledged(s, u)
    {
      DoneIsAcknowledged(s, u);
    }
    if t < s.base + k {
      FsyncOfPassed(s, t);
    } else {
      var u := s.base + k;
      assert First(s) <= u by { assert QueueAt(s, 0); }
      assert !Acknowledged(s, u) by { assert !Done(s.queue[u - s.base]); }
      FsyncBelowUnpassed(s, t);
    }
  }

  lemma FsyncIsLastPassed(s: Sys)
    requires WalOk(s.wal) && PositionOk(s) && QueueOk(s) && RingOk(s) && First(s) < s.base + DonePrefix(s.queue)
    ensures s.base + DonePrefix(s.queue) <= |s.wal|
    ensures s.ring.fsync == s.wal[s.base + DonePrefix(s.queue) - 1].commit
  {
    var n := DonePrefix(s.queue) - 1;
    assert s.queue[n].commit == Some(s.ring.fsync) by {
      var t :| Tracks(s.ring, s.queue, t);
      FsyncIsLastDone(s.ring, s.queue, t);
    }
    assert QueueAt(s, n);
  }

  lemma FsyncOfPassed(s: Sys, t: nat)
    requires WalOk(s.wal) && PositionOk(s) && QueueOk(s) && RingOk(s)
    requires First(s) <= t < s.base + DonePrefix(s.queue)
    ensures t < |s.wal| && s.wal[t].commit <= s.ring.fsync
  {
    FsyncIsLastPassed(s);
    var c := s.base + DonePrefix(s.queue) - 1;
    if t < c { assert Earlier(s.wal, t, c); }
  }

  lemma FsyncBelowUnpassed(s: Sys, t: nat)
    requires Inv(s) && s.base + DonePrefix(s.queue) <= t <= s.cur
    ensures s.ring.fsync < s.wal[t].commit
  {
    FsyncIsCommit(s);
    CommitsBetween(s.wal, t);
    if s.ring.fsync > 0 {
      assert Earlier(s.wal, s.base + DonePrefix(s.queue) - 1, t);
    }
  }

  lemma FsyncGrows(s: Sys, s': Sys)
    requires WalOk(s.wal) && PositionOk(s) && QueueOk(s) && RingOk(s) && Inv(s')
    requires s.wal <= s'.wal && s'.base == s.base && s'.resumed == s.resumed
    requires DonePrefix(s.queue) <= DonePrefix(s'.queue)
    ensures s.ring.fsync <= s'.ring.fsync
  {
    if s.ring.fsync > 0 {
      FsyncIsCommit(s);
      assert QueueAt(s, 0);
      FsyncOfPassed(s', s.base + DonePrefix(s.queue) - 1);
    }
  }

  /** Within a run the reported position never decreases. */
  lemma FsyncNeverDecreases(trace: seq<Sys>, steps: seq<Step>, i: nat)
    requires Behaviour(trace, steps) && i < |steps| && !steps[i].Restart?
    ensures trace[i].ring.fsync <= trace[i+1].ring.fsync
  {
    BehaviourInv(trace, steps, i);
    BehaviourInv(trace, steps, i + 1);
    BookkeepingKeeps(trace[i], steps[i], trace[i+1]);
    WalKeeps(trace[i], steps[i], trace[i+1]);
    FsyncGrows(trace[i], trace[i+1]);
  }

  /** A live slot's counter is the number of unacknowledged envelopes of its transaction. */
  ghost predicate CountersExact(s: Sys, tail: nat)
    requires Wf(s.ring)
  {
    forall n :: tail <= n < |s.queue| && First(s) <= s.base + n ==>
      s.ring.slots[n % 1000].pending == Outstanding(s, s.base + n)
  }

  /** Every envelope points at its transaction's slot, inside the window from tail to head. */
  ghost predicate EnvelopesInWindow(s: Sys, tail: nat) {
    forall e :: e in s.awaiting || e in Unstored(s) ==>
      s.base + tail <= e.txn <= s.cur && e.slot == (e.txn - s.base) % 1000
  }

  lemma CountersAreExact(s: Sys, tail: nat)
    requires QueueOk(s) && Tracks(s.ring, s.queue, tail)
    ensures CountersExact(s, tail)
  {
    forall n | tail <= n < |s.queue| && First(s) <= s.base + n
      ensures s.ring.slots[n % 1000].pending == Outstanding(s, s.base + n)
    {
      assert Held(s.ring, s.queue, n) && QueueAt(s, n);
    }
  }

  lemma EnvelopesAreInWindow(s: Sys, tail: nat)
    requires PositionOk(s) && EnvelopesOk(s) && QueueOk(s) && tail <= DonePrefix(s.queue)
    ensures EnvelopesInWindow(s, tail)
  {
    forall e | e in s.awaiting || e in Unstored(s)
      ensures s.base + tail <= e.txn <= s.cur && e.slot == (e.txn - s.base) % 1000
    {
      if e.txn < s.base + tail { NoEnvelopeBelow(s, e.txn); }
      assert EnvAt(s, e);
    }
  }

  /**
   Envelope conservation: counters are exact, and no envelope points outside the window from
   tail to head. `tail` is the queue index of the tail slot.
   */
  lemma EnvelopeConservation(trace: seq<Sys>, steps: seq<Step>, i: nat) returns (tail: nat)
    requires Behaviour(trace, steps) && i < |trace|
    ensures var s := trace[i];
            && Wf(s.ring) && tail < |s.queue| <= tail + 1000
            && s.ring.tail == tail % 1000 && s.ring.head == (s.cur - s.base) % 1000
            && CountersExact(s, tail) && EnvelopesInWindow(s, tail)
  {
    var s := trace[i];
    BehaviourInv(trace, steps, i);
    tail :| Tracks(s.ring, s.queue, tail);
    CountersAreExact(s, tail);
    TailWithinPrefix(s.ring, s.queue, tail);
    EnvelopesAreInWindow(s, tail);
  }

  lemma TailWithinPrefix(r: Ring, q: Queue, tail: nat)
    requires Tracks(r, q, tail)
    ensures tail <= DonePrefix(q)
  {
  }

  /** The transaction ids of begin and commit always agree, so that exit is never taken. */
  lemma CommitMatchesBegin(trace: seq<Sys>, steps: seq<Step>, i: nat)
    requires Behaviour(trace, steps) && i < |trace| && trace[i].isOpen
    ensures Wf(trace[i].ring) && trace[i].cur < |trace[i].wal|
    ensures trace[i].ring.slots[trace[i].ring.head].xid == trace[i].wal[trace[i].cur].xid
  {
    var s := trace[i];
    BehaviourInv(trace, steps, i);
    var t :| Tracks(s.ring, s.queue, t);
    var n := |s.queue| - 1;
    assert Held(s.ring, s.queue, n) && QueueAt(s, n);
  }

  /** The snapshot flag is up exactly while the first run's snapshot is not acknowledged. */
  lemma SnapshotFlagExact(trace: seq<Sys>, steps: seq<Step>, i: nat)
    requires Behaviour(trace, steps) && i < |trace|
    ensures trace[i].ring.takingSnapshot <==> !trace[i].resumed && !Acknowledged(trace[i], 0)
  {
    var s := trace[i];
    BehaviourInv(trace, steps, i);
    FlagIsPrefix(s);
    assert QueueAt(s, 0);
    if DonePrefix(s.queue) > 0 { assert Done(s.queue[0]); }
  }

  /**
   Exactly when the flush position is within the received one: on an existing slot always; on
   a new one, where the snapshot's commit counts as flushed before anything was received from
   the stream, once the stream has brought a position at or past the consistent point.
   */
  lemma FlushWithinReceivedIff(trace: seq<Sys>, steps: seq<Step>, i: nat)
    requires Behaviour(trace, steps) && i < |trace|
    ensures var s := trace[i];
            && |s.wal| > 0
            && (s.ring.fsync <= s.recvd <==> s.resumed || s.ring.fsync == 0 || s.wal[0].commit <= s.recvd)
  {
    var s := trace[i];
    BehaviourInv(trace, steps, i);
    if s.ring.fsync > 0 {
      FsyncIsCommit(s);
      var c := s.base + DonePrefix(s.queue) - 1;
      CommitsBetween(s.wal, c);
      LastPassedSeen(s);
    }
  }

  lemma LastPassedSeen(s: Sys)
    requires PositionOk(s) && QueueOk(s) && RingOk(s) && DonePrefix(s.queue) > 0 && s.ring.fsync > 0
    ensures var c := s.base + DonePrefix(s.queue) - 1; CommitSeen(s, c) && (s.resumed ==> s.base < c)
  {
    var n := DonePrefix(s.queue) - 1;
    assert s.queue[n].commit == Some(s.ring.fsync) by {
      var t :| Tracks(s.ring, s.queue, t);
      FsyncIsLastDone(s.ring, s.queue, t);
    }
    assert QueueAt(s, n);
  }

  /** The other case: the snapshot is flushed, and the first thing received lies before it. */
  lemma FlushCanExceedReceived() returns (trace: seq<Sys>, steps: seq<Step>)
    ensures Behaviour(trace, steps) && |trace| == 3 && steps == [CommitTxn, Received(3)]
    ensures 0 < trace[2].recvd < trace[2].ring.fsync
  {
    var s0 := Sys([Tx(0, 5, [])], 5, [], InitRing(true), 0, 0, 0, false, 0, 0, true, None, [], [], [SNAPSHOT], []);
    var s1 := s0.(isOpen := false, ring := Commit(s0.ring, 5), queue := QCommit(s0.queue, 5));
    var s2 := s1.(recvd := 3);
    trace, steps := [s0, s1, s2], [CommitTxn, Received(3)];
    assert Takes(s0, CommitTxn, s1);
    assert Takes(s1, Received(3), s2);
    EmptySnapshotFlushed();
  }

  /** An empty snapshot is flushed as soon as it is committed. */
  lemma EmptySnapshotFlushed()
    ensures Commit(InitRing(true), 5).fsync == 5
  {
    InitTracks(true);
    var q := QCommit([SNAPSHOT], 5);
    CommitTracks(InitRing(true), [SNAPSHOT], 0, 5);
    DonePrefixIs(q, 1);
  }

  // ---- Progress

  /** Everything committed has been received, stored and acknowledged. */
  predicate CaughtUp(s: Sys) {
    !s.isOpen && s.cur + 1 == |s.wal| && |Unstored(s)| == 0 && |s.awaiting| == 0
  }

  /** Steps left until then, at most. */
  function Work(s: Sys): nat {
    if s.cur >= |s.wal| || s.sent > |s.wal[s.cur].records| then 0 else
    4 * |Rest(s)| + (if s.sending.Some? then 3 else 0) + 2 * |s.queued| + |s.awaiting|
    + 2 * (|s.wal| - 1 - s.cur) + (if s.isOpen then 1 else 0)
  }

  /** A full ring is waiting for a message that is queued, or stored and not yet reported. */
  lemma FullRingHasMessages(s: Sys)
    requires Bookkeeping(s) && !s.isOpen && Full(s.ring)
    ensures |s.queued| + |s.awaiting| > 0
  {
    var t :| Tracks(s.ring, s.queue, t);
    assert s.queue[|s.queue|-1].commit.Some? by { assert QueueAt(s, |s.queue| - 1); }
    FullRingWaitsForTail(s.ring, s.queue, t);
    assert Outstanding(s, s.base + t) > 0 by { assert QueueAt(s, t); }
  }

  lemma ReportFirst(s: Sys) returns (s': Sys)
    requires EnvelopesOk(s) && QueueOk(s) && PositionOk(s) && Wf(s.ring) && |s.awaiting| > 0
    ensures Takes(s, Report(0), s') && s'.wal == s.wal && Work(s') < Work(s)
  {
    var e := s.awaiting[0];
    assert EnvAt(s, e);
    s' := s.(awaiting := Without(s.awaiting, 0),
             ring := Deliver(s.ring, e.slot), queue := QAck(s.queue, e.txn - s.base));
  }

  lemma StoreFirst(s: Sys) returns (s': Sys)
    requires EnvelopesOk(s) && PositionOk(s) && Wf(s.ring) && |s.queued| > 0
    ensures Takes(s, Store(0), s') && s'.wal == s.wal && Work(s') < Work(s)
  {
    UnstoredRefer(s);
    var r := RecordOf(s.wal, s.queued[0]);
    assert RecordsOf(s.wal, s.queued)[..0] == [];
    s' := s.(queued := Without(s.queued, 0), awaiting := s.awaiting + [s.queued[0]], log := s.log + [r]);
  }

  /** Delivering: the oldest queued message can always be stored, and a stored one reported. */
  lemma DeliverOne(s: Sys) returns (step: Step, s': Sys)
    requires Bookkeeping(s) && |s.queued| + |s.awaiting| > 0
    ensures Takes(s, step, s') && !step.DbCommit? && !step.Restart?
    ensures s'.wal == s.wal && Work(s') < Work(s)
  {
    assert Wf(s.ring) by { var t :| Tracks(s.ring, s.queue, t); }
    if |s.awaiting| > 0 {
      step := Report(0);
      s' := ReportFirst(s);
    } else {
      step := Store(0);
      s' := StoreFirst(s);
    }
  }

  lemma SendOne(s: Sys) returns (s': Sys)
    requires PositionOk(s) && Wf(s.ring) && |s.queue| > 0
    requires s.isOpen && s.sending.None? && s.sent < |s.wal[s.cur].records|
    ensures Takes(s, SendRow, s') && s'.wal == s.wal && Work(s') < Work(s)
  {
    s' := s.(sent := s.sent + 1, sending := Some(Env(s.cur, s.sent, s.ring.head)),
             ring := Reserve(s.ring), queue := QRow(s.queue));
    assert |Rest(s')| == |Rest(s)| - 1;
  }

  lemma CommitOne(s: Sys) returns (s': Sys)
    requires PositionOk(s) && Wf(s.ring) && |s.queue| > 0
    requires s.isOpen && s.sending.None? && s.sent == |s.wal[s.cur].records|
    requires s.ring.slots[s.ring.head].xid == s.wal[s.cur].xid
    ensures Takes(s, CommitTxn, s') && s'.wal == s.wal && Work(s') < Work(s)
  {
    var lsn := s.wal[s.cur].commit;
    s' := s.(isOpen := false, ring := Commit(s.ring, lsn), queue := QCommit(s.queue, lsn),
             recvd := if s.cur == 0 then s.recvd else Max(s.recvd, lsn));
  }

  /** Receiving: the next event of the open transaction can always be handled. */
  lemma ReceiveOne(s: Sys) returns (step: Step, s': Sys)
    requires Bookkeeping(s) && s.isOpen
    ensures Takes(s, step, s') && !step.DbCommit? && !step.Restart?
    ensures s'.wal == s.wal && Work(s') < Work(s)
  {
    assert Wf(s.ring) && |s.queue| > 0 && s.ring.slots[s.ring.head].xid == s.wal[s.cur].xid by {
      var t :| Tracks(s.ring, s.queue, t);
      var n := |s.queue| - 1;
      assert Held(s.ring, s.queue, n) && QueueAt(s, n);
    }
    if s.sending.Some? {
      step := Enqueue;
      s' := s.(queued := s.queued + [s.sending.value], sending := None);
    } else if s.sent < |s.wal[s.cur].records| {
      step := SendRow;
      s' := SendOne(s);
    } else {
      step := CommitTxn;
      s' := CommitOne(s);
    }
  }

  lemma BeginOne(s: Sys) returns (s': Sys)
    requires PositionOk(s) && Wf(s.ring) && !s.isOpen && s.cur + 1 < |s.wal| && !Full(s.ring)
    ensures Takes(s, BeginTxn, s') && s'.wal == s.wal && Work(s') < Work(s)
  {
    s' := s.(cur := s.cur + 1, sent := 0, isOpen := true,
             ring := Begin(s.ring, s.wal[s.cur+1].xid), queue := QBegin(s.queue, s.wal[s.cur+1].xid));
    FlatFrom(s.wal, s'.cur);
    assert Rest(s') == Rest(s);
  }

  /**
   No deadlock: a state that has not caught up always allows a step of the client, of the
   producer or of Kafka, and it leaves less to do. In particular a full ring, which blocks
   the next transaction, can always be drained.
   */
  lemma Progress(s: Sys) returns (step: Step, s': Sys)
    requires Bookkeeping(s) && !CaughtUp(s)
    ensures Takes(s, step, s') && !step.DbCommit? && !step.Restart?
    ensures s'.wal == s.wal && Work(s') < Work(s)
  {
    if s.isOpen {
      step, s' := ReceiveOne(s);
    } else if s.cur + 1 < |s.wal| && !Full(s.ring) {
      assert Wf(s.ring) by { var t :| Tracks(s.ring, s.queue, t); }
      step := BeginTxn;
      s' := BeginOne(s);
    } else {
      if s.cur + 1 < |s.wal| { FullRingHasMessages(s); }
      step, s' := DeliverOne(s);
    }
  }

  lemma BehaviourExtends(trace: seq<Sys>, steps: seq<Step>, step: Step, s': Sys)
    requires Behaviour(trace, steps) && Takes(trace[|trace|-1], step, s')
    ensures Behaviour(trace + [s'], steps + [step])
  {
  }

  /** Longer, without another commit or restart. */
  ghost predicate Extends(trace: seq<Sys>, steps: seq<Step>, trace': seq<Sys>, steps': seq<Step>) {
    && trace <= trace' && steps <= steps'
    && forall i :: |steps| <= i < |steps'| ==> !steps'[i].DbCommit? && !steps'[i].Restart?
  }

  lemma ExtendsOnce(trace: seq<Sys>, steps: seq<Step>, step: Step, s': Sys, trace': seq<Sys>, steps': seq<Step>)
    requires !step.DbCommit? && !step.Restart? && Extends(trace + [s'], steps + [step], trace', steps')
    ensures Extends(trace, steps, trace', steps')
  {
    PrefixOfPrefix(trace, trace + [s'], trace');
    PrefixOfPrefix(steps, steps + [step], steps');
    assert steps'[|steps|] == (steps + [step])[|steps|];
  }

  /** From every reachable state the pipeline can catch up without another commit or restart. */
  lemma {:induction false} CanCatchUp(trace: seq<Sys>, steps: seq<Step>)
    returns (trace': seq<Sys>, steps': seq<Step>)
    requires Behaviour(trace, steps)
    ensures Behaviour(trace', steps') && Extends(trace, steps, trace', steps')
    ensures CaughtUp(trace'[|trace'|-1]) && trace'[|trace'|-1].wal == trace[|trace|-1].wal
    decreases Work(trace[|trace|-1])
  {
    var s := trace[|trace|-1];
    trace', steps' := trace, steps;
    if !CaughtUp(s) {
      assert Bookkeeping(s) by { BehaviourInv(trace, steps, |trace| - 1); }
      var step, s' := Progress(s);
      BehaviourExtends(trace, steps, step, s');
      trace', steps' := CanCatchUp(trace + [s'], steps + [step]);
      ExtendsOnce(trace, steps, step, s', trace', steps');
    }
  }

  /**
   End to end: whenever everything committed has been sent and stored, after any number of
   restarts and re-deliveries, reading Kafka's log as a table gives what the transactions'
   records say, on top of what the log held before.
   */
  lemma LogIsDatabase(trace: seq<Sys>, steps: seq<Step>, i: nat)
    requires Behaviour(trace, steps) && i < |trace|
    requires !trace[i].isOpen && trace[i].cur + 1 == |trace[i].wal| && |Unstored(trace[i])| == 0
    ensures Fold(trace[i].log) == Fold(trace[i].past + Flat(trace[i].wal))
  {
    var s := trace[i];
    BehaviourInv(trace, steps, i);
    assert s.wal[s.cur+1..] == [];
    assert s.log + (RecordsOf(s.wal, Unstored(s)) + Rest(s)) == s.log;
    SameLastSameFold(s.log, s.past + Flat(s.wal));
  }
}
