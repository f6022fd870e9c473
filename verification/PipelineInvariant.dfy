/**
 What every step of the pipeline keeps. Each part of the invariant is a predicate of its
 own; the lemmas below re-establish the parts step by step.
 */
module PipelineInvariant {
  import opened Basics
  import opened KafkaLog
  import opened InFlightRing
  import opened RingRefinement
  import opened Pipeline

  /** Rows of transaction t sent in this run or confirmed before it. */
  function RowsSent(s: Sys, t: nat): nat
    requires t < |s.wal|
  {
    if t < s.cur then |s.wal[t].records| else if t == s.cur then s.sent else 0
  }

  predicate CommitSeen(s: Sys, t: nat) {
    t < s.cur || (t == s.cur && !s.isOpen)
  }

  ghost predicate PositionOk(s: Sys) {
    && s.base <= s.cur < |s.wal|
    && s.sent <= |s.wal[s.cur].records|
    && (!s.isOpen ==> s.sent == |s.wal[s.cur].records|)
    && (s.resumed && s.cur == s.base ==> !s.isOpen)
    && (!s.resumed ==> s.base == 0)
    && (s.sending.Some? ==> s.isOpen)
  }

  /** An envelope names a row sent in this run and points at its transaction's slot. */
  predicate EnvAt(s: Sys, e: Env) {
    && (if s.resumed then s.base < e.txn else s.base <= e.txn)
    && e.txn <= s.cur < |s.wal| && e.row < RowsSent(s, e.txn) <= |s.wal[e.txn].records|
    && e.slot == (e.txn - s.base) % 1000
  }

  ghost predicate EnvelopesOk(s: Sys) {
    && (forall i :: 0 <= i < |s.awaiting| ==> EnvAt(s, s.awaiting[i]))
    && (forall i :: 0 <= i < |s.queued| ==> EnvAt(s, s.queued[i]))
    && (s.sending.Some? ==> EnvAt(s, s.sending.value))
  }

  /**
   Queue element n is transaction base + n, and its unacknowledged rows are exactly the
   outstanding envelopes that point at it.
   */
  predicate QueueAt(s: Sys, n: nat)
    requires n < |s.queue|
  {
    var t, x := s.base + n, s.queue[n];
    if n == 0 && s.resumed then x == DUMMY
    else
      && t < |s.wal|
      && x.xid == s.wal[t].xid
      && x.rows == RowsSent(s, t)
      && x.commit == (if CommitSeen(s, t) then Some(s.wal[t].commit) else None)
      && x.rows - x.acked == Outstanding(s, t)
  }

  ghost predicate QueueOk(s: Sys) {
    && |s.queue| == s.cur - s.base + 1
    && forall n {:trigger QueueAt(s, n)} :: 0 <= n < |s.queue| ==> QueueAt(s, n)
  }

  ghost predicate RingOk(s: Sys) {
    exists t :: Tracks(s.ring, s.queue, t)
  }

  /** Neither flush position has run ahead of what Kafka has acknowledged. */
  ghost predicate FlushOk(s: Sys) {
    && |s.wal| > 0
    && s.wal[0].commit <= s.confirmed <= s.wal[|s.wal|-1].commit
    && (s.flushSent == 0 || s.wal[0].commit <= s.flushSent <= s.wal[|s.wal|-1].commit)
    && (s.ring.takingSnapshot ==> s.flushSent == 0 && s.confirmed == s.wal[0].commit)
    && Below(s.wal, s.flushSent) <= s.base + DonePrefix(s.queue)
    && (!s.ring.takingSnapshot ==> Below(s.wal, s.confirmed) <= s.base + DonePrefix(s.queue))
  }

  ghost predicate Holds(es: seq<Env>, t: nat, j: nat) {
    exists i :: 0 <= i < |es| && es[i].txn == t && es[i].row == j
  }

  /** Every row sent is in the log, or its envelope has not got there yet. */
  ghost predicate LoggedAt(wal: Wal, log: Log, es: seq<Env>, t: nat, j: nat)
    requires t < |wal| && j < |wal[t].records|
  {
    wal[t].records[j] in log || Holds(es, t, j)
  }

  ghost predicate LoggedOk(s: Sys) {
    s.cur < |s.wal| &&
    forall t, j {:trigger LoggedAt(s.wal, s.log, Unstored(s), t, j)} ::
      0 <= t <= s.cur && 0 <= j < RowsSent(s, t) && j < |s.wal[t].records| ==>
        LoggedAt(s.wal, s.log, Unstored(s), t, j)
  }

  /** The records of transaction `cur` and later ones that have not been sent. */
  function Rest(s: Sys): Log
    requires s.cur < |s.wal| && s.sent <= |s.wal[s.cur].records|
  {
    s.wal[s.cur].records[s.sent..] + Flat(s.wal[s.cur+1..])
  }

  ghost predicate SameTable(a: Log, b: Log) {
    forall k :: Last(a, k) == Last(b, k)
  }

  /** Finishing the current run would leave the log saying what the database says. */
  ghost predicate Converging(s: Sys) {
    && s.cur < |s.wal| && s.sent <= |s.wal[s.cur].records| && AllRefer(s.wal, Unstored(s))
    && SameTable(s.log + (RecordsOf(s.wal, Unstored(s)) + Rest(s)), s.past + Flat(s.wal))
  }

  /** Dropping everything in flight and resending from transaction c would do so too. */
  ghost predicate Covers(past: Log, log: Log, wal: Wal, c: nat) {
    c <= |wal| && SameTable(log + Flat(wal[c..]), past + Flat(wal))
  }

  ghost predicate ReceivedOk(s: Sys) {
    && |s.wal| > s.cur
    && (forall t {:trigger CommitSeen(s, t)} :: s.base < t <= s.cur && CommitSeen(s, t) ==> s.wal[t].commit <= s.recvd)
  }

  /** The bookkeeping: where the run is, what is in flight, and the ring's picture of both. */
  ghost predicate Bookkeeping(s: Sys) {
    WalOk(s.wal) && PositionOk(s) && EnvelopesOk(s) && QueueOk(s) && RingOk(s)
  }

  ghost predicate Inv(s: Sys) {
    Bookkeeping(s) && FlushOk(s) && LoggedOk(s) && Converging(s) && ReceivedOk(s)
  }

  // ---- Positions

  lemma BelowIs(wal: Wal, c: nat, l: Lsn)
    requires c <= |wal|
    requires c > 0 ==> wal[c-1].commit <= l
    requires c < |wal| ==> l < wal[c].commit
    requires Increasing(wal)
    ensures Below(wal, l) == c
  {
    forall m, n | 0 <= m < n < |wal|
      ensures wal[m].commit < wal[n].commit
    {
      assert Earlier(wal, m, n);
    }
  }

  /** The position of a commit covers that transaction and the ones before it. */
  lemma BelowCommit(wal: Wal, c: nat)
    requires Increasing(wal) && c < |wal|
    ensures Below(wal, wal[c].commit) == c + 1
  {
    if c + 1 < |wal| { assert Earlier(wal, c, c + 1); }
    BelowIs(wal, c + 1, wal[c].commit);
  }

  lemma BelowZero(wal: Wal)
    requires WalOk(wal)
    ensures Below(wal, 0) == 0
  {
    BelowIs(wal, 0, 0);
  }

  // ---- Records and logs

  lemma {:induction false} FlatConcat(a: Wal, b: Wal)
    ensures Flat(a + b) == Flat(a) + Flat(b)
    decreases |b|
  {
    if |b| == 0 {
      EmptyConcat(a);
      EmptyConcat(Flat(a));
    } else {
      var n := |b| - 1;
      ConcatLast(a, b);
      ConcatTake(a + b[..n], [b[n]]);
      FlatConcat(a, b[..n]);
      ConcatAssoc(Flat(a), Flat(b[..n]), b[n].records);
    }
  }

  lemma FlatSplit(wal: Wal, c: nat)
    requires c <= |wal|
    ensures Flat(wal) == Flat(wal[..c]) + Flat(wal[c..])
  {
    FlatConcat(wal[..c], wal[c..]);
    assert wal[..c] + wal[c..] == wal;
  }

  lemma FlatFrom(wal: Wal, c: nat)
    requires c < |wal|
    ensures Flat(wal[c..]) == wal[c].records + Flat(wal[c+1..])
  {
    assert wal[c..] == [wal[c]] + wal[c+1..];
    FlatConcat([wal[c]], wal[c+1..]);
    assert Flat([wal[c]]) == wal[c].records by {
      assert Flat([wal[c]]) == Flat([]) + wal[c].records;
    }
  }

  lemma FlatSnoc(wal: Wal, tx: Tx, c: nat)
    requires c <= |wal|
    ensures Flat((wal + [tx])[c..]) == Flat(wal[c..]) + tx.records
  {
    assert (wal + [tx])[c..] == wal[c..] + [tx];
    FlatConcat(wal[c..], [tx]);
    assert Flat([tx]) == tx.records by {
      assert Flat([tx]) == Flat([]) + tx.records;
    }
  }

  lemma {:induction false} CountConcat(a: seq<Env>, b: seq<Env>, t: nat)
    ensures Count(a + b, t) == Count(a, t) + Count(b, t)
    decreases |b|
  {
    if |b| == 0 {
      assert a + b == a;
    } else {
      assert (a + b)[..|a + b| - 1] == a + b[..|b|-1];
      CountConcat(a, b[..|b|-1], t);
    }
  }

  lemma CountOne(e: Env, t: nat)
    ensures Count([e], t) == if e.txn == t then 1 else 0
  {
    assert [e][..0] == [];
  }

  lemma CountWithout(es: seq<Env>, i: nat, t: nat)
    requires i < |es|
    ensures Count(Without(es, i), t) == Count(es, t) - (if es[i].txn == t then 1 else 0)
  {
    assert es == es[..i] + ([es[i]] + es[i+1..]);
    CountConcat(es[..i], [es[i]] + es[i+1..], t);
    CountConcat([es[i]], es[i+1..], t);
    CountConcat(es[..i], es[i+1..], t);
    CountOne(es[i], t);
  }

  lemma CountMember(es: seq<Env>, i: nat)
    requires i < |es|
    ensures Count(es, es[i].txn) > 0
  {
    CountWithout(es, i, es[i].txn);
  }

  lemma {:induction false} CountNone(es: seq<Env>, t: nat)
    requires forall i :: 0 <= i < |es| ==> es[i].txn != t
    ensures Count(es, t) == 0
  {
    if |es| > 0 { CountNone(es[..|es|-1], t); }
  }

  /** A log followed by the same records gives the same table. */
  lemma SameTableExtends(a: Log, b: Log, c: Log)
    requires SameTable(a, b)
    ensures SameTable(a + c, b + c)
  {
    forall k
      ensures Last(a + c, k) == Last(b + c, k)
    {
      LastConcat(a, c, k);
      LastConcat(b, c, k);
    }
  }

  /** No outstanding envelope belongs to a transaction the ring has passed. */
  lemma NoEnvelopeBelow(s: Sys, t: nat)
    requires PositionOk(s) && EnvelopesOk(s) && QueueOk(s) && t < s.base + DonePrefix(s.queue)
    ensures forall i :: 0 <= i < |s.awaiting| ==> s.awaiting[i].txn != t
    ensures forall i :: 0 <= i < |Unstored(s)| ==> Unstored(s)[i].txn != t
    ensures forall j: nat :: !Holds(Unstored(s), t, j)
  {
    if s.base <= t {
      assert QueueAt(s, t - s.base) && Done(s.queue[t - s.base]);
    }
    forall i | 0 <= i < |s.awaiting|
      ensures s.awaiting[i].txn != t
    {
      CountMember(s.awaiting, i);
      assert EnvAt(s, s.awaiting[i]);
    }
    forall i | 0 <= i < |Unstored(s)|
      ensures Unstored(s)[i].txn != t
    {
      CountMember(Unstored(s), i);
      assert i < |s.queued| ==> EnvAt(s, s.queued[i]);
      assert EnvAt(s, Unstored(s)[i]);
    }
  }

  lemma UnstoredRefer(s: Sys)
    requires EnvelopesOk(s)
    ensures AllRefer(s.wal, Unstored(s)) && AllRefer(s.wal, s.queued)
  {
    forall i | 0 <= i < |Unstored(s)|
      ensures Refers(s.wal, Unstored(s)[i])
    {
      assert i < |s.queued| ==> EnvAt(s, s.queued[i]);
    }
    forall i | 0 <= i < |s.queued|
      ensures Refers(s.wal, s.queued[i])
    {
      assert EnvAt(s, s.queued[i]);
    }
  }
}
