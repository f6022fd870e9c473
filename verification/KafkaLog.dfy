/**
 Kafka's log as the consumers of a keyed topic read it: the last record written under a
 key wins, and a record without a value deletes its key.
 */
module KafkaLog {
  import opened Basics

  datatype Record = Record(topic: string, key: Option<Bytes>, val: Option<Bytes>)

  datatype LogKey = LogKey(topic: string, key: Bytes)

  type Log = seq<Record>

  predicate Writes(r: Record, k: LogKey) {
    r.topic == k.topic && r.key == Some(k.key)
  }

  /** The last thing written under `k`: None if nothing was, Some(None) for a tombstone. */
  function Last(log: Log, k: LogKey): Option<Option<Bytes>> {
    if |log| == 0 then None
    else if Writes(log[|log|-1], k) then Some(log[|log|-1].val)
    else Last(log[..|log|-1], k)
  }

  /** The table a consumer builds by reading the log from the start. */
  function Fold(log: Log): map<LogKey, Bytes> {
    if |log| == 0 then map[]
    else
      var m, r := Fold(log[..|log|-1]), log[|log|-1];
      if r.key.None? then m
      else
        var k := LogKey(r.topic, r.key.value);
        if r.val.Some? then m[k := r.val.value] else m - {k}
  }

  lemma {:induction false} LastConcat(a: Log, b: Log, k: LogKey)
    ensures Last(a + b, k) == if Last(b, k).Some? then Last(b, k) else Last(a, k)
    decreases |b|
  {
    if |b| == 0 {
      assert a + b == a;
    } else {
      assert (a + b)[..|a + b| - 1] == a + b[..|b|-1];
      LastConcat(a, b[..|b|-1], k);
    }
  }

  lemma {:induction false} LastWritten(log: Log, k: LogKey)
    ensures Last(log, k).Some? <==> exists i :: 0 <= i < |log| && Writes(log[i], k)
  {
    if |log| > 0 {
      var p := log[..|log|-1];
      LastWritten(p, k);
      assert forall i :: 0 <= i < |p| ==> p[i] == log[i];
      if !Writes(log[|log|-1], k) {
        if i :| 0 <= i < |log| && Writes(log[i], k) {
          assert Writes(p[i], k);
        }
      }
    }
  }

  /** A consumer's table holds exactly the keys whose last record has a value, with that value. */
  lemma {:induction false} FoldIsLast(log: Log, k: LogKey)
    ensures k in Fold(log) <==> Last(log, k).Some? && Last(log, k).value.Some?
    ensures k in Fold(log) ==> Last(log, k) == Some(Some(Fold(log)[k]))
  {
    if |log| > 0 {
      FoldIsLast(log[..|log|-1], k);
    }
  }

  /** Two logs with the same last writes give the same table. */
  lemma SameLastSameFold(a: Log, b: Log)
    requires forall k :: Last(a, k) == Last(b, k)
    ensures Fold(a) == Fold(b)
  {
    forall k
      ensures k in Fold(a) <==> k in Fold(b)
      ensures k in Fold(a) ==> Fold(a)[k] == Fold(b)[k]
    {
      FoldIsLast(a, k);
      FoldIsLast(b, k);
    }
  }

  /** Records that do not write a key leave what the log says about it. */
  lemma UntouchedKey(a: Log, b: Log, k: LogKey)
    requires forall i :: 0 <= i < |b| ==> !Writes(b[i], k)
    ensures Last(a + b, k) == Last(a, k) && (k in Fold(a + b) <==> k in Fold(a))
  {
    LastConcat(a, b, k);
    LastWritten(b, k);
    FoldIsLast(a, k);
    FoldIsLast(a + b, k);
  }

  /**
   Re-delivery: an interrupted earlier sending `partial` of `batch`, which wrote no other
   keys, leaves no trace once the batch has been sent in full.
   */
  lemma Redelivery(before: Log, partial: Log, batch: Log, after: Log)
    requires forall r :: r in partial ==> r in batch
    ensures Fold(before + partial + batch + after) == Fold(before + batch + after)
  {
    var x, y := before + partial + batch + after, before + batch + after;
    forall k
      ensures Last(x, k) == Last(y, k)
    {
      LastConcat(before + partial + batch, after, k);
      LastConcat(before + partial, batch, k);
      LastConcat(before, partial, k);
      LastConcat(before + batch, after, k);
      LastConcat(before, batch, k);
      LastWritten(partial, k);
      LastWritten(batch, k);
      if i :| 0 <= i < |partial| && Writes(partial[i], k) {
        assert partial[i] in batch;
      }
    }
    SameLastSameFold(x, y);
  }

  /** Every key a log leaves behind is written by the other. */
  ghost predicate AllRewritten(log: Log, later: Log) {
    forall k :: k in Fold(log) ==> Last(later, k).Some?
  }

  /**
   A snapshot that failed and is retried: the retry repairs the table if and only if every
   row the failed attempt left in the log is written again, by the new snapshot or by the
   stream that follows it. A row deleted between the two snapshots stays in the log.
   */
  lemma SnapshotRetry(failed: Log, retry: Log)
    ensures Fold(failed + retry) == Fold(retry) <==> AllRewritten(failed, retry)
  {
    var x := failed + retry;
    forall k
      ensures k in Fold(x) <==> if Last(retry, k).Some? then k in Fold(retry) else k in Fold(failed)
      ensures k in Fold(retry) ==> Last(retry, k).Some? && k in Fold(x) && Fold(x)[k] == Fold(retry)[k]
    {
      LastConcat(failed, retry, k);
      FoldIsLast(failed, k);
      FoldIsLast(retry, k);
      FoldIsLast(x, k);
    }
    if k :| k in Fold(failed) && Last(retry, k).None? {
      assert k in Fold(x).Keys && k !in Fold(retry).Keys;
      assert Fold(x) != Fold(retry);
      assert !AllRewritten(failed, retry);
    } else {
      assert Fold(x) == Fold(retry);
    }
  }
}
