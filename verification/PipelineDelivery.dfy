/** What each step does to the flush positions, to the log, and to the table it stands for. */
module PipelineDelivery {
  import opened Basics
  import opened KafkaLog
  import opened InFlightRing
  import opened RingRefinement
  import opened Pipeline
  import opened PipelineInvariant
  import opened PipelineSafety

  /** The snapshot flag tells whether the ring has passed its first transaction. */
  lemma FlagIsPrefix(s: Sys)
    requires RingOk(s)
    ensures s.ring.takingSnapshot <==> DonePrefix(s.queue) == 0
  {
    assert |s.queue| > 0;
    if DonePrefix(s.queue) == 0 { assert !Done(s.queue[0]); }
  }

  /** The flush positions stay covered while the ring only advances. */
  lemma FlushSame(s: Sys, s': Sys)
    requires WalOk(s.wal) && RingOk(s) && RingOk(s') && FlushOk(s)
    requires s'.wal == s.wal && s'.base == s.base && s'.confirmed == s.confirmed && s'.flushSent == s.flushSent
    requires DonePrefix(s.queue) <= DonePrefix(s'.queue)
    ensures FlushOk(s')
  {
    FlagIsPrefix(s);
    FlagIsPrefix(s');
    BelowCommit(s.wal, 0);
  }

  lemma FlushDbCommit(s: Sys, tx: Tx, s': Sys)
    requires FlushOk(s) && DbCommits(s, tx, s')
    ensures FlushOk(s')
  {
    BelowGrows(s.wal, tx, s.flushSent);
    BelowGrows(s.wal, tx, s.confirmed);
  }

  lemma FlushSendStatus(s: Sys, s': Sys)
    requires Bookkeeping(s) && FlushOk(s) && s' == s.(flushSent := s.ring.fsync)
    ensures FlushOk(s')
  {
    FsyncCovers(s);
    FsyncIsCommit(s);
  }

  lemma FlushConfirm(s: Sys, s': Sys)
    requires FlushOk(s) && s' == s.(confirmed := if s.flushSent == 0 then s.confirmed else s.flushSent)
    ensures FlushOk(s')
  {
  }

  lemma FlushRestart(s: Sys, from: nat, s': Sys)
    requires WalOk(s.wal) && Restarts(s, from, s')
    ensures FlushOk(s')
  {
    DonePrefixIs([DUMMY], 1);
    BelowCommit(s.wal, from - 1);
    BelowZero(s.wal);
    CommitsBetween(s.wal, from - 1);
  }

  lemma FlushKeeps(s: Sys, step: Step, s': Sys)
    requires Bookkeeping(s) && FlushOk(s) && Takes(s, step, s')
    ensures FlushOk(s')
  {
    match step
    case DbCommit(tx) => FlushDbCommit(s, tx, s');
    case SendStatus => FlushSendStatus(s, s');
    case Confirm => FlushConfirm(s, s');
    case Restart(from) => FlushRestart(s, from, s');
    case _ =>
      BookkeepingKeeps(s, step, s');
      FlushSame(s, s');
  }

  // ---- Rows that reached the log

  /** Rows logged stay logged while the log grows and no envelope leaves unstored. */
  lemma LoggedGrows(s: Sys, s': Sys)
    requires LoggedOk(s) && s.wal <= s'.wal && s.log <= s'.log && Unstored(s) == Unstored(s')
    requires s'.cur < |s'.wal|
    requires forall t :: 0 <= t <= s'.cur ==> (if t <= s.cur then RowsSent(s', t) == RowsSent(s, t) else RowsSent(s', t) == 0)
    ensures LoggedOk(s')
  {
    forall t, j | 0 <= t <= s'.cur && 0 <= j < RowsSent(s', t) && j < |s'.wal[t].records|
      ensures LoggedAt(s'.wal, s'.log, Unstored(s'), t, j)
    {
      assert s'.wal[t] == s.wal[t];
      assert LoggedAt(s.wal, s.log, Unstored(s), t, j);
    }
  }

  lemma LoggedSendRow(s: Sys, s': Sys)
    requires LoggedOk(s) && Wf(s.ring) && SendsRow(s, s')
    ensures LoggedOk(s')
  {
    var us, us' := Unstored(s), Unstored(s');
    assert us' == us + [s'.sending.value];
    forall t, j | 0 <= t <= s'.cur && 0 <= j < RowsSent(s', t) && j < |s'.wal[t].records|
      ensures LoggedAt(s'.wal, s'.log, us', t, j)
    {
      if t == s.cur && j == s.sent {
        assert us'[|us|].txn == t && us'[|us|].row == j;
      } else {
        assert LoggedAt(s.wal, s.log, us, t, j);
        if i :| 0 <= i < |us| && us[i].txn == t && us[i].row == j {
          assert us'[i] == us[i];
        }
      }
    }
  }

  lemma LoggedStore(s: Sys, i: nat, s': Sys)
    requires LoggedOk(s) && Stores(s, i, s')
    ensures LoggedOk(s')
  {
    var us, us' := Unstored(s), Unstored(s');
    assert us' == Without(us, i);
    forall t, j | 0 <= t <= s'.cur && 0 <= j < RowsSent(s', t) && j < |s'.wal[t].records|
      ensures LoggedAt(s'.wal, s'.log, us', t, j)
    {
      assert LoggedAt(s.wal, s.log, us, t, j);
      if n :| 0 <= n < |us| && us[n].txn == t && us[n].row == j {
        if n == i {
          assert s'.log[|s.log|] == s.wal[t].records[j];
        } else {
          assert us'[if n < i then n else n - 1] == us[n];
        }
      }
    }
  }

  /** All rows of a transaction the ring has passed are in the log. */
  lemma PassedIsLogged(s: Sys, t: nat)
    requires PositionOk(s) && EnvelopesOk(s) && QueueOk(s) && LoggedOk(s)
    requires t < s.base + DonePrefix(s.queue)
    ensures t <= s.cur
    ensures forall j :: 0 <= j < |s.wal[t].records| ==> s.wal[t].records[j] in s.log
  {
    NoEnvelopeBelow(s, t);
    if t == s.cur {
      assert Done(s.queue[t - s.base]) && QueueAt(s, t - s.base);
    }
    forall j | 0 <= j < |s.wal[t].records|
      ensures s.wal[t].records[j] in s.log
    {
      assert LoggedAt(s.wal, s.log, Unstored(s), t, j);
    }
  }

  lemma LoggedRestart(s: Sys, from: nat, s': Sys)
    requires Bookkeeping(s) && FlushOk(s) && LoggedOk(s) && Restarts(s, from, s')
    ensures LoggedOk(s')
  {
    forall t, j | 0 <= t <= s'.cur && 0 <= j < RowsSent(s', t) && j < |s'.wal[t].records|
      ensures LoggedAt(s'.wal, s'.log, Unstored(s'), t, j)
    {
      PassedIsLogged(s, t);
    }
  }

  /** Steps that neither send nor store a row. */
  lemma LoggedSame(s: Sys, s': Sys)
    requires LoggedOk(s) && s.wal <= s'.wal && s'.log == s.log && s'.cur == s.cur && s'.sent == s.sent
    requires s'.queued + SendingSeq(s') == s.queued + SendingSeq(s)
    ensures LoggedOk(s')
  {
    assert Unstored(s') == Unstored(s);
    LoggedGrows(s, s');
  }

  lemma LoggedKeeps(s: Sys, step: Step, s': Sys)
    requires Bookkeeping(s) && FlushOk(s) && LoggedOk(s) && Takes(s, step, s')
    ensures LoggedOk(s')
  {
    match step
    case SendRow => LoggedSendRow(s, s');
    case Store(i) => LoggedStore(s, i, s');
    case Restart(from) => LoggedRestart(s, from, s');
    case BeginTxn => LoggedGrows(s, s');
    case DbCommit(_) => LoggedSame(s, s');
    case Enqueue => LoggedSame(s, s');
    case Report(_) => LoggedSame(s, s');
    case CommitTxn => LoggedSame(s, s');
    case Received(_) => LoggedSame(s, s');
    case SendStatus => LoggedSame(s, s');
    case Confirm => LoggedSame(s, s');
  }

  // ---- The table the log converges to

  lemma RestGrows(s: Sys, tx: Tx)
    requires s.cur < |s.wal| && s.sent <= |s.wal[s.cur].records|
    ensures Rest(s.(wal := s.wal + [tx])) == Rest(s) + tx.records
    ensures Flat(s.wal + [tx]) == Flat(s.wal) + tx.records
  {
    var wal' := s.wal + [tx];
    assert wal'[0..] == wal' && s.wal[0..] == s.wal;
    FlatSnoc(s.wal, tx, 0);
    FlatSnoc(s.wal, tx, s.cur + 1);
    var rs := s.wal[s.cur].records[s.sent..];
    assert rs + (Flat(s.wal[s.cur+1..]) + tx.records) == (rs + Flat(s.wal[s.cur+1..])) + tx.records;
  }

  lemma ConvergeDbCommit(s: Sys, tx: Tx, s': Sys)
    requires Converging(s) && DbCommits(s, tx, s')
    ensures Converging(s')
  {
    RestGrows(s, tx);
    var us := RecordsOf(s.wal, Unstored(s));
    assert AllRefer(s'.wal, Unstored(s')) && RecordsOf(s'.wal, Unstored(s')) == us;
    SameTableExtends(s.log + (us + Rest(s)), s.past + Flat(s.wal), tx.records);
    ConcatAssoc(s.past, Flat(s.wal), tx.records);
    assert (s.log + (us + Rest(s))) + tx.records == s'.log + (us + (Rest(s) + tx.records));
  }

  lemma ConvergeBegin(s: Sys, s': Sys)
    requires PositionOk(s) && Converging(s) && Wf(s.ring) && Begins(s, s')
    ensures Converging(s')
  {
    FlatFrom(s.wal, s'.cur);
    assert Unstored(s') == Unstored(s);
    assert Rest(s') == Rest(s);
  }

  lemma ConvergeSendRow(s: Sys, s': Sys)
    requires Converging(s) && Wf(s.ring) && SendsRow(s, s')
    ensures Converging(s')
  {
    var e, rs := s'.sending.value, s.wal[s.cur].records;
    assert Unstored(s') == Unstored(s) + [e];
    assert RecordsOf(s'.wal, Unstored(s')) == RecordsOf(s.wal, Unstored(s)) + [rs[s.sent]];
    assert rs[s.sent..] == [rs[s.sent]] + rs[s.sent+1..];
    assert RecordsOf(s'.wal, Unstored(s')) + Rest(s') == RecordsOf(s.wal, Unstored(s)) + Rest(s);
  }

  /** Moving a record to the front of others changes no last write if none of them has its key. */
  lemma MoveFront(log: Log, a: Log, r: Record, b: Log, k: LogKey)
    requires r.key.Some? ==> Last(a, LogKey(r.topic, r.key.value)).None?
    ensures Last((log + [r]) + (a + b), k) == Last(log + (a + ([r] + b)), k)
  {
    LastConcat(log + [r], a + b, k);
    LastConcat(a, b, k);
    LastConcat(log, [r], k);
    LastConcat(log, a + ([r] + b), k);
    LastConcat(a, [r] + b, k);
    LastConcat([r], b, k);
    assert Writes(r, k) ==> k == LogKey(r.topic, r.key.value);
    assert [r][..0] == [];
  }

  /** Taking one record out of a list. */
  lemma TakenOut(rs: Log, i: nat, rest: Log)
    requires i < |rs|
    ensures rs + rest == rs[..i] + ([rs[i]] + (rs[i+1..] + rest))
    ensures Without(rs, i) + rest == rs[..i] + (rs[i+1..] + rest)
  {
  }

  lemma StoredRecords(s: Sys, i: nat, s': Sys)
    requires AllRefer(s.wal, Unstored(s)) && Stores(s, i, s')
    ensures AllRefer(s.wal, Unstored(s'))
    ensures var rs := RecordsOf(s.wal, Unstored(s));
            && RecordsOf(s.wal, Unstored(s')) == Without(rs, i) && rs[i] == RecordOf(s.wal, s.queued[i])
            && RecordsOf(s.wal, s.queued)[..i] == rs[..i]
  {
    assert Unstored(s') == Without(Unstored(s), i);
  }

  lemma ConvergeStore(s: Sys, i: nat, s': Sys)
    requires Converging(s) && Stores(s, i, s')
    ensures Converging(s')
  {
    StoredRecords(s, i, s');
    var rs, rest := RecordsOf(s.wal, Unstored(s)), Rest(s);
    TakenOut(rs, i, rest);
    forall k
      ensures Last(s'.log + (RecordsOf(s'.wal, Unstored(s')) + Rest(s')), k) == Last(s.past + Flat(s.wal), k)
    {
      MoveFront(s.log, rs[..i], rs[i], rs[i+1..] + rest, k);
    }
  }

  lemma RestAfterRestart(s: Sys, from: nat)
    requires 1 <= from <= |s.wal|
    ensures Rest(Resume(s, from)) == Flat(s.wal[from..])
  {
    var rs := s.wal[from-1].records;
    assert rs[|rs|..] == [];
    EmptyConcat(Flat(s.wal[from..]));
  }

  /** A run that starts again has nothing on its way, and everything from `from` on to send. */
  lemma CoveredConverges(s: Sys, from: nat)
    requires 1 <= from <= |s.wal| && Covers(s.past, s.log, s.wal, from)
    ensures Converging(Resume(s, from))
  {
    RestAfterRestart(s, from);
    NothingUnstored(s, from);
    EmptyConcat(Rest(Resume(s, from)));
  }

  lemma NothingUnstored(s: Sys, from: nat)
    requires 1 <= from <= |s.wal|
    ensures Unstored(Resume(s, from)) == [] && RecordsOf(s.wal, Unstored(Resume(s, from))) == []
  {
  }

  lemma ConvergeRestart(s: Sys, from: nat, s': Sys)
    requires Bookkeeping(s) && FlushOk(s) && Converging(s) && Restarts(s, from, s')
    ensures Converging(s')
  {
    CoversAny(s, from);
    CoveredConverges(s, from);
  }

  lemma SameConverges(s: Sys, s': Sys)
    requires Converging(s) && s'.wal == s.wal && s'.log == s.log && s'.past == s.past && s'.cur == s.cur && s'.sent == s.sent
    requires s'.queued + SendingSeq(s') == s.queued + SendingSeq(s)
    ensures Converging(s')
  {
    assert Unstored(s') == Unstored(s);
  }

  lemma ConvergeKeeps(s: Sys, step: Step, s': Sys)
    requires Bookkeeping(s) && FlushOk(s) && Converging(s) && Takes(s, step, s')
    ensures Converging(s')
  {
    match step
    case DbCommit(tx) => ConvergeDbCommit(s, tx, s');
    case BeginTxn => ConvergeBegin(s, s');
    case SendRow => ConvergeSendRow(s, s');
    case Store(i) => ConvergeStore(s, i, s');
    case Restart(from) => ConvergeRestart(s, from, s');
    case Enqueue => SameConverges(s, s');
    case Report(_) => SameConverges(s, s');
    case CommitTxn => SameConverges(s, s');
    case Received(_) => SameConverges(s, s');
    case SendStatus => SameConverges(s, s');
    case Confirm => SameConverges(s, s');
  }

  // ---- The received position

  lemma ReceivedKeeps(s: Sys, step: Step, s': Sys)
    requires WalOk(s.wal) && PositionOk(s) && ReceivedOk(s) && Takes(s, step, s')
    ensures ReceivedOk(s')
  {
    forall t | s'.base < t <= s'.cur && CommitSeen(s', t)
      ensures s'.wal[t].commit <= s'.recvd
    {
      assert !step.CommitTxn? || t < s.cur ==> CommitSeen(s, t);
    }
  }

  // ---- The invariant, for every step

  lemma InitInv(s: Sys)
    requires Init(s)
    ensures Inv(s)
  {
    InitTracks(s.ring.takingSnapshot);
    DonePrefixIs(s.queue, if s.ring.takingSnapshot then 0 else 1);
    BelowZero(s.wal);
    BelowCommit(s.wal, 0);
    assert QueueAt(s, 0);
    assert s.wal[1..] == [] && s.wal[..0] == [];
    var rs := s.wal[0].records;
    assert Flat(s.wal) == rs;
    assert rs[0..] == rs && rs[|rs|..] == [];
    assert s.log + (RecordsOf(s.wal, Unstored(s)) + Rest(s)) == if InitFresh(s) then s.past + rs else s.log;
    forall t, j | 0 <= t <= s.cur && 0 <= j < RowsSent(s, t) && j < |s.wal[t].records|
      ensures LoggedAt(s.wal, s.log, Unstored(s), t, j)
    {
    }
  }

  lemma StepInv(s: Sys, step: Step, s': Sys)
    requires Inv(s) && Takes(s, step, s')
    ensures Inv(s')
  {
    BookkeepingKeeps(s, step, s');
    FlushKeeps(s, step, s');
    LoggedKeeps(s, step, s');
    ConvergeKeeps(s, step, s');
    ReceivedKeeps(s, step, s');
  }
}
