/**
 The snapshot phase: what happens when a run ends before its snapshot is acknowledged.

 An error drops the slot, and the next run takes a new snapshot. An exit with status 0, or a
 process that is killed, leaves the slot, and the next run starts after the snapshot.
 */
module SnapshotPhase {
  import opened Basics
  import opened KafkaLog
  import opened InFlightRing
  import opened RingRefinement
  import opened Pipeline
  import opened PipelineInvariant
  import opened PipelineSafety
  import opened PipelineTheorems

  // ---- The slot is dropped

  /** The next run takes a new snapshot, on top of what the failed one left in the log. */
  ghost predicate Retries(failed: Sys, s: Sys) {
    failed.ring.takingSnapshot && InitFresh(s) && s.past == failed.log
  }

  /**
   A snapshot that failed and is retried: whenever the new run has caught up, Kafka's log is
   the database if and only if every row the failed attempt left in the log has been written
   again, by the new snapshot or by the stream that follows it. A row deleted between the two
   snapshots stays in the log.
   */
  lemma RetryRepairsIff(trace: seq<Sys>, steps: seq<Step>, i: nat, next: seq<Sys>, nextSteps: seq<Step>, j: nat)
    requires Behaviour(trace, steps) && i < |trace|
    requires Behaviour(next, nextSteps) && Retries(trace[i], next[0]) && j < |next| && CaughtUp(next[j])
    ensures Fold(next[j].log) == Fold(Flat(next[j].wal)) <==> AllRewritten(trace[i].log, Flat(next[j].wal))
  {
    HistoryGrows(next, nextSteps, 0, j);
    LogIsDatabase(next, nextSteps, j);
    SnapshotRetry(trace[i].log, Flat(next[j].wal));
  }

  // ---- The slot is kept

  function KeyOf(r: Record): LogKey
    requires r.key.Some?
  {
    LogKey(r.topic, r.key.value)
  }

  predicate DifferentKeys(rs: Log, i: nat, j: nat)
    requires i < j < |rs|
  {
    rs[i].key.Some? && rs[j].key.Some? ==> KeyOf(rs[i]) != KeyOf(rs[j])
  }

  /** Snapshot records are inserts of rows with different keys. */
  ghost predicate SnapshotRecords(rs: Log) {
    && (forall i :: 0 <= i < |rs| ==> rs[i].val.Some?)
    && (forall i, j {:trigger DifferentKeys(rs, i, j)} :: 0 <= i < j < |rs| ==> DifferentKeys(rs, i, j))
  }

  /** The record is in the log already, or its key is written again later. */
  predicate Safe(r: Record, log: Log, later: Log) {
    r.key.Some? ==> r in log || Last(later, KeyOf(r)).Some?
  }

  ghost predicate AllSafe(rs: Log, log: Log, later: Log) {
    forall i :: 0 <= i < |rs| ==> Safe(rs[i], log, later)
  }

  /** A log that holds only snapshot records, apart from keys written again later. */
  ghost predicate PartOf(log: Log, rs: Log, later: Log) {
    forall i :: 0 <= i < |log| ==> log[i].key.Some? ==> log[i] in rs || Last(later, KeyOf(log[i])).Some?
  }

  lemma SameKeySameRecord(rs: Log, i: nat, r: Record)
    requires SnapshotRecords(rs) && i < |rs| && r in rs && r.key.Some? && rs[i].key.Some? && KeyOf(r) == KeyOf(rs[i])
    ensures r == rs[i]
  {
    forall m, n | 0 <= m < n < |rs|
      ensures rs[m].key.Some? && rs[n].key.Some? ==> KeyOf(rs[m]) != KeyOf(rs[n])
    {
      assert DifferentKeys(rs, m, n);
    }
  }

  lemma WrittenIsSome(log: Log, r: Record)
    requires r in log && r.key.Some?
    ensures Last(log, KeyOf(r)).Some?
  {
    var n :| 0 <= n < |log| && log[n] == r;
    assert Writes(log[n], KeyOf(r));
    LastWritten(log, KeyOf(r));
  }

  /** What a log says about a key is said by one of its records. */
  lemma {:induction false} LastIsSome(log: Log, k: LogKey)
    ensures Last(log, k).Some? ==> exists i :: 0 <= i < |log| && Writes(log[i], k) && Last(log, k).value == log[i].val
  {
    if |log| > 0 {
      var n := |log| - 1;
      LastIsSome(log[..n], k);
      if Last(log, k).Some? {
        if Writes(log[n], k) {
          assert Last(log, k).value == log[n].val;
        } else {
          var i :| 0 <= i < n && Writes(log[..n][i], k) && Last(log[..n], k).value == log[..n][i].val;
          assert Writes(log[i], k);
        }
      }
    }
  }

  /** A key written by the snapshot and not later: the log agrees with the snapshot exactly if it has the record. */
  lemma SnapshotKey(log: Log, rs: Log, later: Log, i: nat)
    requires SnapshotRecords(rs) && PartOf(log, rs, later)
    requires i < |rs| && rs[i].key.Some? && Last(later, KeyOf(rs[i])).None?
    ensures Last(rs, KeyOf(rs[i])) == Some(rs[i].val)
    ensures Last(log, KeyOf(rs[i])) == if rs[i] in log then Some(rs[i].val) else None
  {
    var k := KeyOf(rs[i]);
    LastWritten(rs, k);
    LastIsSome(rs, k);
    var j :| 0 <= j < |rs| && Writes(rs[j], k) && Last(rs, k).value == rs[j].val;
    SameKeySameRecord(rs, i, rs[j]);
    LastIsSome(log, k);
    if Last(log, k).Some? {
      var n :| 0 <= n < |log| && Writes(log[n], k) && Last(log, k).value == log[n].val;
      SameKeySameRecord(rs, i, log[n]);
    }
    if rs[i] in log { WrittenIsSome(log, rs[i]); }
  }

  lemma OtherKey(log: Log, rs: Log, later: Log, k: LogKey)
    requires PartOf(log, rs, later) && Last(rs, k).None? && Last(later, k).None?
    ensures Last(log, k).None?
  {
    LastWritten(log, k);
    forall n | 0 <= n < |log|
      ensures Writes(log[n], k) ==> Last(rs, k).Some? || Last(later, k).Some?
    {
      if log[n].key.Some? && log[n] in rs { WrittenIsSome(rs, log[n]); }
    }
  }

  /** What the log says about the record's key is the record, or what is written later. */
  predicate Stored(r: Record, log: Log, later: Log) {
    r.key.Some? ==> Last(later, KeyOf(r)).Some? || Last(log, KeyOf(r)) == Some(r.val)
  }

  ghost predicate AllStored(rs: Log, log: Log, later: Log) {
    forall i :: 0 <= i < |rs| ==> Stored(rs[i], log, later)
  }

  predicate Replaced(rs: Log, later: Log, k: LogKey) {
    Last(later, k).Some? || Last(rs, k).Some?
  }

  /** Nothing else is left in the log. */
  ghost predicate NoLeftovers(rs: Log, log: Log, later: Log) {
    forall k {:trigger Replaced(rs, later, k)} :: k in Fold(log) ==> Replaced(rs, later, k)
  }

  lemma SnapshotLast(rs: Log, i: nat)
    requires SnapshotRecords(rs) && i < |rs| && rs[i].key.Some?
    ensures Last(rs, KeyOf(rs[i])) == Some(rs[i].val)
  {
    var k := KeyOf(rs[i]);
    WrittenIsSome(rs, rs[i]);
    LastIsSome(rs, k);
    var j :| 0 <= j < |rs| && Writes(rs[j], k) && Last(rs, k).value == rs[j].val;
    SameKeySameRecord(rs, i, rs[j]);
  }

  lemma StoredSameFold(log: Log, rs: Log, later: Log, k: LogKey)
    requires SnapshotRecords(rs) && AllStored(rs, log, later) && NoLeftovers(rs, log, later)
    ensures k in Fold(log + later) <==> k in Fold(rs + later)
    ensures k in Fold(log + later) ==> Fold(log + later)[k] == Fold(rs + later)[k]
  {
    LastConcat(log, later, k);
    LastConcat(rs, later, k);
    FoldIsLast(log + later, k);
    FoldIsLast(rs + later, k);
    FoldIsLast(log, k);
    if Last(later, k).None? {
      if Last(rs, k).Some? {
        LastIsSome(rs, k);
        var i :| 0 <= i < |rs| && Writes(rs[i], k) && Last(rs, k).value == rs[i].val;
        assert Stored(rs[i], log, later);
        SnapshotLast(rs, i);
      } else {
        assert !Replaced(rs, later, k);
      }
    }
  }

  lemma NotStoredDiffers(log: Log, rs: Log, later: Log, i: nat)
    requires SnapshotRecords(rs) && i < |rs| && !Stored(rs[i], log, later)
    ensures Fold(log + later) != Fold(rs + later)
  {
    var k := KeyOf(rs[i]);
    SnapshotLast(rs, i);
    LastConcat(log, later, k);
    LastConcat(rs, later, k);
    FoldIsLast(log + later, k);
    FoldIsLast(rs + later, k);
  }

  lemma LeftoverDiffers(log: Log, rs: Log, later: Log, k: LogKey)
    requires k in Fold(log) && !Replaced(rs, later, k)
    ensures Fold(log + later) != Fold(rs + later)
  {
    LastConcat(log, later, k);
    LastConcat(rs, later, k);
    FoldIsLast(log, k);
    FoldIsLast(log + later, k);
    FoldIsLast(rs + later, k);
    assert k in Fold(log + later) && k !in Fold(rs + later);
  }

  /** A log and what came later is the snapshot and what came later exactly if nothing is missing and nothing is left. */
  lemma LogIsSnapshotIff(log: Log, rs: Log, later: Log)
    requires SnapshotRecords(rs)
    ensures Fold(log + later) == Fold(rs + later) <==> AllStored(rs, log, later) && NoLeftovers(rs, log, later)
  {
    if !AllStored(rs, log, later) {
      var i :| 0 <= i < |rs| && !Stored(rs[i], log, later);
      NotStoredDiffers(log, rs, later, i);
    } else if !NoLeftovers(rs, log, later) {
      var k :| k in Fold(log) && !Replaced(rs, later, k);
      LeftoverDiffers(log, rs, later, k);
    } else {
      forall k
        ensures k in Fold(log + later) <==> k in Fold(rs + later)
        ensures k in Fold(log + later) ==> Fold(log + later)[k] == Fold(rs + later)[k]
      {
        StoredSameFold(log, rs, later, k);
      }
    }
  }

  /** For a log that holds only snapshot records, having the records is enough. */
  lemma PartIsStoredIff(log: Log, rs: Log, later: Log)
    requires SnapshotRecords(rs) && PartOf(log, rs, later)
    ensures AllStored(rs, log, later) && NoLeftovers(rs, log, later) <==> AllSafe(rs, log, later)
  {
    forall i | 0 <= i < |rs|
      ensures Stored(rs[i], log, later) <==> Safe(rs[i], log, later)
    {
      if rs[i].key.Some? && Last(later, KeyOf(rs[i])).None? { SnapshotKey(log, rs, later, i); }
    }
    forall k | k in Fold(log)
      ensures Replaced(rs, later, k)
    {
      FoldIsLast(log, k);
      if !Replaced(rs, later, k) { OtherKey(log, rs, later, k); }
    }
  }

  lemma InFlat(wal: Wal, t: nat, r: Record)
    requires t < |wal| && r in wal[t].records
    ensures r in Flat(wal)
  {
    FlatSplit(wal, t);
    FlatFrom(wal, t);
  }

  lemma FlatKeeps(wal: Wal, tx: Tx, r: Record)
    requires r in Flat(wal)
    ensures r in Flat(wal + [tx])
  {
    assert (wal + [tx])[..|wal|] == wal;
  }

  lemma StoredIsFromWal(s: Sys, step: Step, s': Sys, r: Record)
    requires Takes(s, step, s') && r in s'.log && (r in s.log ==> r in Flat(s.wal))
    ensures r in Flat(s'.wal)
  {
    match step
    case Store(i) =>
      if r !in s.log { InFlat(s.wal, s.queued[i].txn, r); }
    case DbCommit(tx) => FlatKeeps(s.wal, tx, r);
    case _ =>
  }

  /** Until a restart, the log of a first attempt holds only records of the transactions. */
  lemma {:induction false} LogIsFromWal(trace: seq<Sys>, steps: seq<Step>, i: nat, r: Record)
    requires Behaviour(trace, steps) && i < |trace| && !trace[i].resumed && trace[i].past == [] && r in trace[i].log
    ensures r in Flat(trace[i].wal)
    decreases i
  {
    if i > 0 {
      if r in trace[i-1].log { LogIsFromWal(trace, steps, i - 1, r); }
      StoredIsFromWal(trace[i-1], steps[i-1], trace[i], r);
    }
  }

  /** The next run on the kept slot: it starts after the snapshot, from the log as it is. */
  ghost predicate TakesOver(s: Sys, n: Sys) {
    && s.ring.takingSnapshot && InitExisting(n) && n.log == s.log && n.past == s.log
    && |s.wal| > 0 && n.wal == [Tx(0, s.wal[0].commit, [])]
  }

  lemma SnapshotOrLater(s: Sys, later: Wal, r: Record)
    requires |s.wal| > 0 && s.wal[1..] <= later && r in Flat(s.wal) && r.key.Some?
    ensures r in s.wal[0].records || Last(Flat(later), KeyOf(r)).Some?
  {
    FlatFrom(s.wal, 0);
    assert s.wal[0..] == s.wal;
    if r !in s.wal[0].records {
      var n := |s.wal| - 1;
      assert later[..n] == s.wal[1..];
      FlatSplit(later, n);
      WrittenIsSome(Flat(later), r);
    }
  }

  lemma LogIsPart(trace: seq<Sys>, steps: seq<Step>, i: nat, later: Wal)
    requires Behaviour(trace, steps) && i < |trace| && trace[i].past == [] && trace[i].ring.takingSnapshot
    requires |trace[i].wal| > 0 && trace[i].wal[1..] <= later
    ensures PartOf(trace[i].log, trace[i].wal[0].records, Flat(later))
  {
    var s := trace[i];
    SnapshotFlagExact(trace, steps, i);
    forall n | 0 <= n < |s.log| && s.log[n].key.Some?
      ensures s.log[n] in s.wal[0].records || Last(Flat(later), KeyOf(s.log[n])).Some?
    {
      LogIsFromWal(trace, steps, i, s.log[n]);
      SnapshotOrLater(s, later, s.log[n]);
    }
  }

  /** What the next run leaves: the log it took over, and then everything after the snapshot. */
  lemma TakenOver(s: Sys, next: seq<Sys>, nextSteps: seq<Step>, j: nat)
    requires Behaviour(next, nextSteps) && TakesOver(s, next[0]) && j < |next| && CaughtUp(next[j])
    ensures |next[j].wal| > 0 && Fold(next[j].log) == Fold(s.log + Flat(next[j].wal[1..]))
  {
    HistoryGrows(next, nextSteps, 0, j);
    LogIsDatabase(next, nextSteps, j);
    assert next[j].wal[0] == next[0].wal[0] && next[j].wal[0..] == next[j].wal;
    FlatFrom(next[j].wal, 0);
    EmptyConcat(Flat(next[j].wal[1..]));
  }

  /**
   An attempt that ends anywhere before its snapshot is acknowledged, and leaves the slot:
   whenever the next run has caught up, Kafka's log is the database (the snapshot, then the
   later transactions) if and only if every snapshot record was what the log said of its key
   already, or its key has been written again since, and so has every other key the log held.
   */
  lemma KeptSlotRecoversIff(trace: seq<Sys>, steps: seq<Step>, i: nat, next: seq<Sys>, nextSteps: seq<Step>, j: nat)
    requires Behaviour(trace, steps) && i < |trace|
    requires Behaviour(next, nextSteps) && TakesOver(trace[i], next[0]) && j < |next| && CaughtUp(next[j])
    requires |trace[i].wal| > 0 && SnapshotRecords(trace[i].wal[0].records)
    ensures |next[j].wal| > 0
    ensures var rs, later := trace[i].wal[0].records, Flat(next[j].wal[1..]);
            Fold(next[j].log) == Fold(rs + later)
            <==> AllStored(rs, trace[i].log, later) && NoLeftovers(rs, trace[i].log, later)
  {
    TakenOver(trace[i], next, nextSteps, j);
    LogIsSnapshotIff(trace[i].log, trace[i].wal[0].records, Flat(next[j].wal[1..]));
  }

  /** For a first attempt: if and only if every snapshot record was in the log, or its key has been written again. */
  lemma FirstAttemptRecoversIff(trace: seq<Sys>, steps: seq<Step>, i: nat, next: seq<Sys>, nextSteps: seq<Step>, j: nat)
    requires Behaviour(trace, steps) && i < |trace| && trace[i].past == []
    requires Behaviour(next, nextSteps) && TakesOver(trace[i], next[0]) && j < |next| && CaughtUp(next[j])
    requires |trace[i].wal| > 0 && SnapshotRecords(trace[i].wal[0].records)
    requires |next[j].wal| > 0 && trace[i].wal[1..] <= next[j].wal[1..]
    ensures var rs, later := trace[i].wal[0].records, Flat(next[j].wal[1..]);
            Fold(next[j].log) == Fold(rs + later) <==> AllSafe(rs, trace[i].log, later)
  {
    KeptSlotRecoversIff(trace, steps, i, next, nextSteps, j);
    LogIsPart(trace, steps, i, next[j].wal[1..]);
    PartIsStoredIff(trace[i].log, trace[i].wal[0].records, Flat(next[j].wal[1..]));
  }

  /** Rows can be lost that way: one row, not sent when the run ends. */
  lemma KeptSlotCanLoseRow(k: Bytes, v: Bytes) returns (s: Sys, n: Sys)
    ensures Behaviour([s], []) && TakesOver(s, n) && Behaviour([n], []) && CaughtUp(n)
    ensures s.wal == [Tx(0, 1, [Record("t", Some(k), Some(v))])]
    ensures Fold(n.log) != Fold(s.wal[0].records + Flat(n.wal[1..]))
  {
    var row := Record("t", Some(k), Some(v));
    s := Sys([Tx(0, 1, [row])], 1, [], InitRing(true), 0, 0, 0, false, 0, 0, true, None, [], [], [SNAPSHOT], []);
    n := Resume(s.(wal := [Tx(0, 1, [])]), 1);
    assert n.wal[1..] == [] && [row] + [] == [row] && [row][..0] == [];
    assert LogKey("t", k) in Fold([row]);
  }

  /** The states in which one row of a snapshot is sent and stored. */
  lemma OneRowStored(row: Record, s0: Sys) returns (trace: seq<Sys>, steps: seq<Step>)
    requires row.key.Some? && InitFresh(s0) && s0.wal == [Tx(0, 1, [row])] && s0.past == []
    ensures Behaviour(trace, steps) && |trace| == 4 && trace[0] == s0 && trace[3].log == [row] && trace[3].ring.takingSnapshot
  {
    var s1 := s0.(sent := 1, sending := Some(Env(0, 0, 0)), ring := Reserve(s0.ring), queue := QRow(s0.queue));
    var s2 := s1.(queued := [Env(0, 0, 0)], sending := None);
    var s3 := s2.(queued := [], awaiting := [Env(0, 0, 0)], log := [row]);
    assert Takes(s0, SendRow, s1);
    assert [] + [Env(0, 0, 0)] == [Env(0, 0, 0)];
    assert Takes(s1, Enqueue, s2);
    assert AllRefer(s2.wal, s2.queued) && RecordsOf(s2.wal, s2.queued)[..0] == [];
    assert Without(s2.queued, 0) == [] && [] + [row] == [row];
    assert Takes(s2, Store(0), s3);
    trace, steps := [s0, s1, s2, s3], [SendRow, Enqueue, Store(0)];
  }

  /** A retry can leave a row behind: one row is stored, the attempt fails, and the row is deleted before the retry. */
  lemma RetryCanLeaveRow(k: Bytes, v: Bytes)
    returns (trace: seq<Sys>, steps: seq<Step>, next: seq<Sys>, nextSteps: seq<Step>)
    ensures Behaviour(trace, steps) && |trace| == 4
    ensures Behaviour(next, nextSteps) && |next| == 2 && Retries(trace[3], next[0]) && CaughtUp(next[1])
    ensures Fold(next[1].log) != Fold(Flat(next[1].wal))
  {
    var row := Record("t", Some(k), Some(v));
    var s0 := Sys([Tx(0, 1, [row])], 1, [], InitRing(true), 0, 0, 0, false, 0, 0, true, None, [], [], [SNAPSHOT], []);
    trace, steps := OneRowStored(row, s0);
    var n0 := Sys([Tx(0, 2, [])], 2, [row], InitRing(true), 0, 0, 0, false, 0, 0, true, None, [], [], [SNAPSHOT], [row]);
    var n1 := n0.(isOpen := false, ring := Commit(n0.ring, 2), queue := QCommit(n0.queue, 2));
    assert Takes(n0, CommitTxn, n1);
    next, nextSteps := [n0, n1], [CommitTxn];
    assert n1.wal[..0] == [] && Flat(n1.wal) == [] + [];
    assert [row][..0] == [];
    assert LogKey("t", k) in Fold([row]);
  }
}
