/** Every step keeps the invariant, and what the invariant says about whole behaviours. */
module PipelineSafety {
  import opened Basics
  import opened KafkaLog
  import opened InFlightRing
  import opened RingRefinement
  import opened Pipeline
  import opened PipelineInvariant

  // ---- Flush positions

  /** The position the ring reports, as a transaction of the log. */
  lemma FsyncIsCommit(s: Sys)
    requires WalOk(s.wal) && PositionOk(s) && QueueOk(s) && RingOk(s)
    ensures s.ring.fsync > 0 ==> DonePrefix(s.queue) > 0 && s.base + DonePrefix(s.queue) <= |s.wal|
                                 && s.ring.fsync == s.wal[s.base + DonePrefix(s.queue) - 1].commit
    ensures s.ring.takingSnapshot ==> s.ring.fsync == 0
  {
    RingFsync(s);
    if s.ring.fsync > 0 { QueueCommit(s, DonePrefix(s.queue) - 1); }
  }

  /** A positive commit position in the queue is its transaction's. */
  lemma QueueCommit(s: Sys, n: nat)
    requires PositionOk(s) && QueueOk(s) && n < |s.queue| && s.queue[n].commit.Some? && s.queue[n].commit.value > 0
    ensures s.base + n < |s.wal| && s.queue[n].commit.value == s.wal[s.base + n].commit
  {
    assert QueueAt(s, n);
  }

  lemma RingFsync(s: Sys)
    requires RingOk(s)
    ensures s.ring.fsync > 0 ==> DonePrefix(s.queue) > 0 && s.queue[DonePrefix(s.queue)-1].commit == Some(s.ring.fsync)
    ensures s.ring.takingSnapshot ==> s.ring.fsync == 0
  {
    var t :| Tracks(s.ring, s.queue, t);
    FsyncIsLastDone(s.ring, s.queue, t);
  }

  /** It covers exactly the transactions Kafka has acknowledged. */
  lemma FsyncCovers(s: Sys)
    requires WalOk(s.wal) && PositionOk(s) && QueueOk(s) && RingOk(s)
    ensures Below(s.wal, s.ring.fsync) <= s.base + DonePrefix(s.queue)
    ensures s.ring.fsync > 0 ==> Below(s.wal, s.ring.fsync) == s.base + DonePrefix(s.queue)
    ensures s.ring.fsync == 0 || s.wal[0].commit <= s.ring.fsync <= s.wal[|s.wal|-1].commit
  {
    FsyncIsCommit(s);
    BelowZero(s.wal);
    if s.ring.fsync > 0 {
      var c := s.base + DonePrefix(s.queue) - 1;
      BelowCommit(s.wal, c);
      CommitsBetween(s.wal, c);
    }
  }

  lemma CommitsBetween(wal: Wal, c: nat)
    requires WalOk(wal) && c < |wal|
    ensures wal[0].commit <= wal[c].commit <= wal[|wal|-1].commit
  {
    if 0 < c { assert Earlier(wal, 0, c); }
    if c < |wal| - 1 { assert Earlier(wal, c, |wal| - 1); }
  }

  lemma BelowGrows(wal: Wal, tx: Tx, l: Lsn)
    requires |wal| > 0 && l <= wal[|wal|-1].commit < tx.commit
    ensures Below(wal + [tx], l) == Below(wal, l)
  {
    assert (wal + [tx])[..|wal|] == wal;
  }

  // ---- Convergence

  /** A key written by a record of transaction t >= c is written by the transactions from c on. */
  lemma WrittenFrom(wal: Wal, c: nat, t: nat, j: nat, k: LogKey)
    requires c <= t < |wal| && j < |wal[t].records| && Writes(wal[t].records[j], k)
    ensures Last(Flat(wal[c..]), k).Some?
  {
    LastWritten(wal[t].records, k);
    var tail := wal[c..];
    FlatSplit(tail, t - c);
    DropDrop(wal, c, t);
    FlatFrom(wal, t);
    LastConcat(Flat(tail[..t-c]), Flat(tail[t-c..]), k);
    LastConcat(wal[t].records, Flat(wal[t+1..]), k);
  }

  /** A key not written from transaction c on is not written from a later point on either. */
  lemma NotWrittenFrom(wal: Wal, c: nat, t: nat, j: nat, k: LogKey)
    requires c <= t < |wal| && j <= |wal[t].records|
    requires Last(Flat(wal[c..]), k).None?
    ensures Last(wal[t].records[j..] + Flat(wal[t+1..]), k).None?
  {
    var tail, rs, later := wal[c..], wal[t].records, Flat(wal[t+1..]);
    assert Flat(tail) == Flat(tail[..t-c]) + (rs + later) by {
      FlatSplit(tail, t - c);
      DropDrop(wal, c, t);
      FlatFrom(wal, t);
    }
    LastConcat(Flat(tail[..t-c]), rs + later, k);
    SplitConcat(rs, later, j);
    LastConcat(rs[..j], rs[j..] + later, k);
  }

  lemma PassedIsSent(s: Sys)
    requires PositionOk(s) && QueueOk(s) && s.cur < s.base + DonePrefix(s.queue)
    ensures s.sent == |s.wal[s.cur].records| && s.base + DonePrefix(s.queue) == s.cur + 1
  {
    var n := s.cur - s.base;
    assert Done(s.queue[n]) && QueueAt(s, n);
  }

  /** What is left to send is part of the transactions from c on. */
  lemma RestFrom(s: Sys, c: nat, k: LogKey)
    requires PositionOk(s) && QueueOk(s) && c <= s.base + DonePrefix(s.queue)
    requires Last(Flat(s.wal[c..]), k).None?
    ensures Last(Rest(s), k).None?
  {
    if c <= s.cur {
      NotWrittenFrom(s.wal, c, s.cur, s.sent, k);
    } else {
      PassedIsSent(s);
      assert Rest(s) == Flat(s.wal[c..]);
    }
  }

  /** No envelope still on its way writes a key that only earlier transactions wrote. */
  lemma UnstoredFrom(s: Sys, c: nat, k: LogKey)
    requires PositionOk(s) && EnvelopesOk(s) && QueueOk(s) && AllRefer(s.wal, Unstored(s))
    requires c <= s.base + DonePrefix(s.queue) && c <= |s.wal|
    requires Last(Flat(s.wal[c..]), k).None?
    ensures Last(RecordsOf(s.wal, Unstored(s)), k).None?
  {
    var rs := RecordsOf(s.wal, Unstored(s));
    LastWritten(rs, k);
    forall i | 0 <= i < |rs|
      ensures !Writes(rs[i], k)
    {
      var e := Unstored(s)[i];
      if e.txn < c { NoEnvelopeBelow(s, e.txn); }
      if Writes(rs[i], k) { WrittenFrom(s.wal, c, e.txn, e.row, k); }
    }
  }

  /**
   Crash safety: from any position the ring's progress covers, resending what follows it,
   and dropping everything in flight, still ends in the database's table.
   */
  lemma CoversAny(s: Sys, c: nat)
    requires PositionOk(s) && EnvelopesOk(s) && QueueOk(s) && Converging(s)
    requires c <= s.base + DonePrefix(s.queue)
    ensures Covers(s.past, s.log, s.wal, c)
  {
    forall k
      ensures Last(s.log + Flat(s.wal[c..]), k) == Last(s.past + Flat(s.wal), k)
    {
      var rest := Flat(s.wal[c..]);
      LastConcat(s.log, rest, k);
      FlatSplit(s.wal, c);
      LastConcat(Flat(s.wal[..c]), rest, k);
      LastConcat(s.past, Flat(s.wal), k);
      if Last(rest, k).None? {
        RestFrom(s, c, k);
        UnstoredFrom(s, c, k);
        var us := RecordsOf(s.wal, Unstored(s));
        LastConcat(us, Rest(s), k);
        LastConcat(s.log, us + Rest(s), k);
      }
    }
  }

  // ---- What each step does to the bookkeeping

  lemma WalKeeps(s: Sys, step: Step, s': Sys)
    requires WalOk(s.wal) && Takes(s, step, s')
    ensures WalOk(s'.wal) && s.wal <= s'.wal
  {
    if step.DbCommit? {
      forall m, n | 0 <= m < n < |s'.wal|
        ensures Earlier(s'.wal, m, n)
      {
        if n < |s.wal| {
          assert Earlier(s.wal, m, n);
        } else if m < |s.wal| - 1 {
          assert Earlier(s.wal, m, |s.wal| - 1);
        }
      }
    }
  }

  lemma PositionKeeps(s: Sys, step: Step, s': Sys)
    requires PositionOk(s) && Takes(s, step, s')
    ensures PositionOk(s')
  {
  }

  lemma BeginEnvelopes(s: Sys, s': Sys)
    requires PositionOk(s) && EnvelopesOk(s) && Wf(s.ring) && Begins(s, s')
    ensures EnvelopesOk(s') && Unstored(s') == Unstored(s)
  {
    assert forall e :: EnvAt(s, e) ==> EnvAt(s', e);
  }

  lemma BeginQueue(s: Sys, s': Sys)
    requires PositionOk(s) && EnvelopesOk(s) && QueueOk(s) && Wf(s.ring) && Begins(s, s')
    ensures EnvelopesOk(s') && QueueOk(s')
  {
    BeginEnvelopes(s, s');
    forall n | 0 <= n < |s'.queue|
      ensures QueueAt(s', n)
    {
      if n < |s.queue| {
        assert QueueAt(s, n);
      } else {
        CountNone(s.awaiting, s'.cur);
        CountNone(Unstored(s), s'.cur);
      }
    }
  }

  lemma SendRowEnvelopes(s: Sys, s': Sys)
    requires PositionOk(s) && EnvelopesOk(s) && QueueOk(s) && Wf(s.ring) && SendsRow(s, s')
    requires s.ring.head == (|s.queue| - 1) % 1000
    ensures EnvelopesOk(s') && Unstored(s') == Unstored(s) + [s'.sending.value]
  {
    assert forall e :: EnvAt(s, e) ==> EnvAt(s', e);
  }

  lemma SendRowQueue(s: Sys, s': Sys)
    requires PositionOk(s) && EnvelopesOk(s) && QueueOk(s) && Wf(s.ring) && SendsRow(s, s')
    requires s.ring.head == (|s.queue| - 1) % 1000
    ensures EnvelopesOk(s') && QueueOk(s')
  {
    var e := s'.sending.value;
    SendRowEnvelopes(s, s');
    forall n | 0 <= n < |s'.queue|
      ensures QueueAt(s', n)
    {
      assert QueueAt(s, n);
      CountConcat(Unstored(s), [e], s.base + n);
      CountOne(e, s.base + n);
    }
  }

  lemma EnqueueQueue(s: Sys, s': Sys)
    requires PositionOk(s) && EnvelopesOk(s) && QueueOk(s) && Enqueues(s, s')
    ensures EnvelopesOk(s') && QueueOk(s') && Unstored(s') == Unstored(s)
  {
    assert Unstored(s') == Unstored(s);
    forall n | 0 <= n < |s'.queue|
      ensures QueueAt(s', n)
    {
      assert QueueAt(s, n);
    }
  }

  lemma WithoutAt<T>(es: seq<T>, i: nat, j: nat)
    requires i < |es| && j < |es| - 1
    ensures Without(es, i)[j] == es[if j < i then j else j + 1]
  {
  }

  lemma StoreEnvelopes(s: Sys, i: nat, s': Sys)
    requires EnvelopesOk(s) && Stores(s, i, s')
    ensures EnvelopesOk(s')
  {
    forall j | 0 <= j < |s'.queued|
      ensures EnvAt(s', s'.queued[j])
    {
      WithoutAt(s.queued, i, j);
      assert EnvAt(s, s.queued[if j < i then j else j + 1]);
    }
    forall j | 0 <= j < |s'.awaiting|
      ensures EnvAt(s', s'.awaiting[j])
    {
      assert EnvAt(s, if j < |s.awaiting| then s.awaiting[j] else s.queued[i]);
    }
  }

  lemma StoreCounts(s: Sys, i: nat, s': Sys, t: nat)
    requires Stores(s, i, s')
    ensures Outstanding(s', t) == Outstanding(s, t)
  {
    var e := s.queued[i];
    CountConcat(s.awaiting, [e], t);
    CountOne(e, t);
    CountWithout(s.queued, i, t);
    CountConcat(s.queued, SendingSeq(s), t);
    CountConcat(s'.queued, SendingSeq(s'), t);
  }

  lemma StoreQueue(s: Sys, i: nat, s': Sys)
    requires QueueOk(s) && Stores(s, i, s')
    ensures QueueOk(s')
  {
    forall n | 0 <= n < |s'.queue|
      ensures QueueAt(s', n)
    {
      assert QueueAt(s, n);
      StoreCounts(s, i, s', s.base + n);
    }
  }

  lemma ReportEnvelopes(s: Sys, i: nat, s': Sys)
    requires EnvelopesOk(s) && Wf(s.ring) && Reports(s, i, s')
    ensures EnvelopesOk(s')
  {
    forall j | 0 <= j < |s'.awaiting|
      ensures EnvAt(s', s'.awaiting[j])
    {
      WithoutAt(s.awaiting, i, j);
      assert EnvAt(s, s.awaiting[if j < i then j else j + 1]);
    }
    forall j | 0 <= j < |s'.queued|
      ensures EnvAt(s', s'.queued[j])
    {
      assert EnvAt(s, s.queued[j]);
    }
  }

  lemma ReportQueue(s: Sys, i: nat, s': Sys)
    requires QueueOk(s) && Wf(s.ring) && Reports(s, i, s') && EnvAt(s, s.awaiting[i])
    ensures QueueOk(s')
  {
    var m := s.awaiting[i].txn - s.base;
    assert Unstored(s') == Unstored(s);
    forall n | 0 <= n < |s'.queue|
      ensures QueueAt(s', n)
    {
      assert QueueAt(s, n);
      CountWithout(s.awaiting, i, s.base + n);
      assert n != m ==> s'.queue[n] == s.queue[n];
    }
  }

  lemma CommitQueue(s: Sys, s': Sys)
    requires PositionOk(s) && EnvelopesOk(s) && QueueOk(s) && Wf(s.ring) && Commits(s, s')
    ensures EnvelopesOk(s') && QueueOk(s')
  {
    assert Unstored(s') == Unstored(s);
    forall n | 0 <= n < |s'.queue|
      ensures QueueAt(s', n)
    {
      assert QueueAt(s, n);
    }
  }

  /** The run's position and its envelopes are the same, and so is what the server had committed. */
  ghost predicate SameRun(s: Sys, s': Sys) {
    && s.wal <= s'.wal && s'.base == s.base && s'.resumed == s.resumed && s'.cur == s.cur && s'.sent == s.sent
    && s'.isOpen == s.isOpen && s'.sending == s.sending && s'.queued == s.queued && s'.awaiting == s.awaiting
    && s'.queue == s.queue
  }

  lemma SameEnvelopes(s: Sys, s': Sys)
    requires PositionOk(s) && EnvelopesOk(s) && SameRun(s, s')
    ensures EnvelopesOk(s') && Unstored(s') == Unstored(s)
  {
    assert forall t :: 0 <= t < |s.wal| ==> s'.wal[t] == s.wal[t];
    assert forall e :: EnvAt(s, e) ==> EnvAt(s', e);
  }

  /** A step that touches neither the run's position nor its envelopes. */
  lemma SameQueue(s: Sys, s': Sys)
    requires PositionOk(s) && EnvelopesOk(s) && QueueOk(s) && SameRun(s, s')
    ensures EnvelopesOk(s') && QueueOk(s') && Unstored(s') == Unstored(s)
  {
    SameEnvelopes(s, s');
    forall n | 0 <= n < |s'.queue|
      ensures QueueAt(s', n)
    {
      assert QueueAt(s, n);
      assert Outstanding(s', s.base + n) == Outstanding(s, s.base + n);
      assert s.base + n <= s.cur && s'.wal[s.base + n] == s.wal[s.base + n];
    }
  }

  lemma RestartQueue(s: Sys, from: nat, s': Sys)
    requires Restarts(s, from, s')
    ensures EnvelopesOk(s') && QueueOk(s') && RingOk(s') && DonePrefix(s'.queue) == 1
  {
    assert QueueAt(s', 0);
    InitTracks(false);
    DonePrefixIs([DUMMY], 1);
  }

  lemma ReportedIsPending(s: Sys, i: nat)
    requires PositionOk(s) && EnvelopesOk(s) && QueueOk(s) && i < |s.awaiting|
    ensures var e := s.awaiting[i]; var n := e.txn - s.base;
            0 <= n < |s.queue| && e.slot == n % 1000 && s.queue[n].acked < s.queue[n].rows
  {
    var e := s.awaiting[i];
    assert EnvAt(s, e) && QueueAt(s, e.txn - s.base);
    CountMember(s.awaiting, i);
  }

  /** The slot an envelope points at is its transaction's, so a report credits the right one. */
  lemma ReportRing(s: Sys, i: nat, s': Sys)
    requires WalOk(s.wal) && PositionOk(s) && EnvelopesOk(s) && QueueOk(s) && RingOk(s) && Wf(s.ring) && Reports(s, i, s')
    ensures RingOk(s') && DonePrefix(s.queue) <= DonePrefix(s'.queue)
  {
    var t :| Tracks(s.ring, s.queue, t);
    var n := s.awaiting[i].txn - s.base;
    ReportedIsPending(s, i);
    AckTracks(s.ring, s.queue, t, n);
    assert Tracks(s'.ring, s'.queue, Min(DonePrefix(s'.queue), |s.queue| - 1));
  }

  lemma BeginRing(s: Sys, s': Sys)
    requires WalOk(s.wal) && PositionOk(s) && QueueOk(s) && RingOk(s) && Wf(s.ring) && Begins(s, s')
    ensures RingOk(s') && DonePrefix(s.queue) <= DonePrefix(s'.queue)
  {
    var t :| Tracks(s.ring, s.queue, t);
    assert QueueAt(s, |s.queue| - 1);
    BeginTracks(s.ring, s.queue, t, s.wal[s'.cur].xid);
  }

  lemma SendRowRing(s: Sys, s': Sys)
    requires PositionOk(s) && QueueOk(s) && RingOk(s) && Wf(s.ring) && SendsRow(s, s')
    ensures RingOk(s') && DonePrefix(s.queue) <= DonePrefix(s'.queue) && s.ring.head == (|s.queue| - 1) % 1000
  {
    var t :| Tracks(s.ring, s.queue, t);
    assert QueueAt(s, |s.queue| - 1);
    RowTracks(s.ring, s.queue, t);
  }

  lemma CommitRing(s: Sys, s': Sys)
    requires WalOk(s.wal) && PositionOk(s) && QueueOk(s) && RingOk(s) && Wf(s.ring) && Commits(s, s')
    ensures RingOk(s') && DonePrefix(s.queue) <= DonePrefix(s'.queue)
  {
    var t :| Tracks(s.ring, s.queue, t);
    var lsn := s.wal[s.cur].commit;
    assert QueueAt(s, |s.queue| - 1);
    CommitsBetween(s.wal, s.cur);
    forall n | 0 <= n < |s.queue| - 1
      ensures s.queue[n].commit.Some? && s.queue[n].commit.value < lsn
    {
      assert QueueAt(s, n);
      assert Earlier(s.wal, s.base + n, s.cur);
    }
    CommitTracks(s.ring, s.queue, t, lsn);
  }

  lemma BookkeepingKeeps(s: Sys, step: Step, s': Sys)
    requires Bookkeeping(s) && Takes(s, step, s')
    ensures Bookkeeping(s')
    ensures !step.Restart? ==> s'.base == s.base && DonePrefix(s.queue) <= DonePrefix(s'.queue)
  {
    WalKeeps(s, step, s');
    PositionKeeps(s, step, s');
    match step
    case DbCommit(_) => SameQueue(s, s');
    case BeginTxn => BeginRing(s, s'); BeginQueue(s, s');
    case SendRow => SendRowRing(s, s'); SendRowQueue(s, s');
    case Enqueue => EnqueueQueue(s, s');
    case Store(i) => StoreEnvelopes(s, i, s'); StoreQueue(s, i, s');
    case Report(i) => ReportRing(s, i, s'); ReportEnvelopes(s, i, s'); ReportQueue(s, i, s');
    case CommitTxn => CommitRing(s, s'); CommitQueue(s, s');
    case Received(_) => SameQueue(s, s');
    case SendStatus => SameQueue(s, s');
    case Confirm => SameQueue(s, s');
    case Restart(from) => RestartQueue(s, from, s');
  }
}
