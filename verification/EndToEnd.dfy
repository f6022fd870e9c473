/**
 From the database to Kafka: the rows a consumer reads are the rows of the database, through
 frames and schema caches under any changes to the catalog, and through any number of
 restarts and re-deliveries.
 */
module EndToEnd {
  import opened Basics
  import opened KafkaLog
  import opened SchemaFlow
  import opened SchemaAgreement
  import opened ChangeLog
  import Mapper
  import Pipeline
  import PipelineTheorems

  // ---- Through the frames and the caches

  /** The changes are the row changes among the events, in order. */
  predicate Follows(mods: seq<Mod>, events: seq<Event>) {
    if |events| == 0 then |mods| == 0
    else
      var e, before := events[|events|-1], events[..|events|-1];
      if e.RowChange? then
        && |mods| > 0 && mods[|mods|-1].rel == e.rel && mods[|mods|-1].ch == e.ch
        && Follows(mods[..|mods|-1], before)
      else Follows(mods, before)
  }

  lemma {:induction false} FollowedOk(mods: seq<Mod>, events: seq<Event>)
    requires Follows(mods, events) && AllReported(mods)
    ensures EventsOk(events)
    decreases |events|
  {
    if |events| > 0 {
      var e, before := events[|events|-1], events[..|events|-1];
      assert e.RowChange? ==> Reported(mods[|mods|-1]);
      FollowedOk(if e.RowChange? then mods[..|mods|-1] else mods, before);
      assert forall i :: 0 <= i < |before| ==> events[i] == before[i];
    }
  }

  lemma {:induction false} EventsMean(env: Mapper.Env, mods: seq<Mod>, events: seq<Event>)
    requires Follows(mods, events) && AllReported(mods) && EventsOk(events)
    ensures MeaningAll(env, events) == Messages(env, mods)
    decreases |events|
  {
    if |events| > 0 {
      var e, before := events[|events|-1], events[..|events|-1];
      if e.RowChange? {
        EventsMean(env, mods[..|mods|-1], before);
      } else {
        EventsMean(env, mods, before);
        assert MeaningAll(env, before) + [] == MeaningAll(env, before);
      }
    }
  }

  lemma KnownSnoc(env: Mapper.Env, mods: seq<Mod>)
    requires |mods| > 0 && AllKnown(env, mods[..|mods|-1]) && Known(env, mods[|mods|-1].rel)
    ensures AllKnown(env, mods)
  {
    forall i | 0 <= i < |mods|
      ensures Known(env, mods[i].rel)
    {
      if i < |mods| - 1 { assert Known(env, mods[..|mods|-1][i].rel); }
    }
  }

  /** The tables of a run that went through are known to the registry. */
  lemma {:induction false} FollowedKnown(env: Mapper.Env, mods: seq<Mod>, events: seq<Event>)
    requires Follows(mods, events) && AllRegistered(env, events) && env.registry.Registry?
    ensures AllKnown(env, mods)
    decreases |events|
  {
    if |events| > 0 {
      var n := |events| - 1;
      var earlier := if events[n].RowChange? then mods[..|mods|-1] else mods;
      assert AllRegistered(env, events[..n]);
      FollowedKnown(env, earlier, events[..n]);
      if events[n].RowChange? { KnownSnoc(env, mods); }
    }
  }

  /**
   With any switches of the server's cache and any reconnections on the way, and any changes
   to the catalog other than of keys in use: a run that is not cut short leaves a log whose
   table is the database, and only a change that explains it cuts a run short.
   */
  lemma StreamIsDatabase(env: Mapper.Env, mods: seq<Mod>, events: seq<Event>)
    requires EnvOk(env) && env.registry.Registry? && HistoryOk(mods) && AllKeepKeys(mods) && Follows(mods, events)
    ensures EventsOk(events)
    ensures var r := Run(env, events);
            if r.Ok? then Holds(env, Fold(r.value.log), ApplyAll(mods)) else Explained(env, events, r.error)
  {
    FollowedOk(mods, events);
    EventsMean(env, mods, events);
    RunAgrees(env, events);
    if Run(env, events).Ok? {
      FollowedKnown(env, mods, events);
      ReplayIsDatabase(env, mods);
    }
  }

  // ---- What a transaction puts into the pipeline

  function Changes(mods: seq<Mod>): (events: seq<Event>)
    ensures |events| == |mods|
  {
    seq(|mods|, i requires 0 <= i < |mods| => RowChange(mods[i].rel, mods[i].ch))
  }

  predicate AllPass(env: Mapper.Env, mods: seq<Mod>) {
    AllReported(mods) && forall i :: 0 <= i < |mods| ==> Passable(env, mods[i].rel, mods[i].ch)
  }

  /** After these events, the events add exactly these records to the log. */
  ghost predicate EmitsAfter(env: Mapper.Env, records: Log, earlier: seq<Event>, events: seq<Event>)
    requires EventsOk(earlier) && EventsOk(events)
  {
    && EventsOk(earlier + events) && Run(env, earlier).Ok? && Run(env, earlier + events).Ok?
    && Run(env, earlier + events).value.log == Run(env, earlier).value.log + records
  }

  /**
   The records are what server, client and mapper make of the changes, whatever got through
   before them and whatever caches are replaced meanwhile.
   */
  ghost predicate Emits(env: Mapper.Env, mods: seq<Mod>, records: Log) {
    forall earlier, events {:trigger EmitsAfter(env, records, earlier, events)} ::
      EventsOk(earlier) && AllPassable(env, earlier) && EventsOk(events) && Follows(mods, events) ==>
        EmitsAfter(env, records, earlier, events)
  }

  lemma {:induction false} FollowedPass(env: Mapper.Env, mods: seq<Mod>, events: seq<Event>)
    requires Follows(mods, events) && AllPass(env, mods) && EventsOk(events)
    ensures AllPassable(env, events)
    decreases |events|
  {
    if |events| > 0 {
      var n := |events| - 1;
      var before := events[..n];
      FollowedPass(env, if events[n].RowChange? then mods[..|mods|-1] else mods, before);
      assert events[n].RowChange? ==> Passable(env, events[n].rel, events[n].ch);
      forall i | 0 <= i < |events| && events[i].RowChange?
        ensures Passable(env, events[i].rel, events[i].ch)
      {
        assert i < n ==> before[i] == events[i];
      }
    }
  }

  lemma EventsConcat(env: Mapper.Env, a: seq<Event>, b: seq<Event>)
    requires EventsOk(a) && EventsOk(b)
    ensures EventsOk(a + b) && (AllPassable(env, a) && AllPassable(env, b) ==> AllPassable(env, a + b))
  {
  }

  lemma {:induction false} MeaningConcat(env: Mapper.Env, a: seq<Event>, b: seq<Event>)
    requires EventsOk(a) && EventsOk(b)
    ensures EventsOk(a + b) && MeaningAll(env, a + b) == MeaningAll(env, a) + MeaningAll(env, b)
    decreases |b|
  {
    EventsConcat(env, a, b);
    if |b| == 0 {
      EmptyConcat(a);
      EmptyConcat(MeaningAll(env, a));
    } else {
      var n := |b| - 1;
      ConcatLast(a, b);
      MeaningConcat(env, a, b[..n]);
      MeaningSnoc(env, a + b[..n], b[n]);
      ConcatAssoc(MeaningAll(env, a), MeaningAll(env, b[..n]), MeaningOf(env, b[n]));
    }
  }

  lemma MeaningSnoc(env: Mapper.Env, a: seq<Event>, e: Event)
    requires EventsOk(a) && EventOk(e)
    ensures EventsOk(a + [e]) && MeaningAll(env, a + [e]) == MeaningAll(env, a) + MeaningOf(env, e)
  {
    assert (a + [e])[..|a|] == a;
  }

  lemma MessagesEmitted(env: Mapper.Env, mods: seq<Mod>, earlier: seq<Event>, events: seq<Event>)
    requires EnvOk(env) && AllPass(env, mods) && EventsOk(earlier) && AllPassable(env, earlier)
    requires EventsOk(events) && Follows(mods, events)
    ensures EmitsAfter(env, Messages(env, mods), earlier, events)
  {
    FollowedPass(env, mods, events);
    EventsConcat(env, earlier, events);
    PassableRunSucceeds(env, earlier);
    PassableRunSucceeds(env, earlier + events);
    RunAgrees(env, earlier);
    RunAgrees(env, earlier + events);
    EventsMean(env, mods, events);
    MeaningConcat(env, earlier, events);
  }

  lemma {:induction false} ChangesFollow(mods: seq<Mod>)
    requires AllReported(mods)
    ensures Follows(mods, Changes(mods)) && EventsOk(Changes(mods))
  {
    if |mods| > 0 {
      var n := |mods| - 1;
      ChangesFollow(mods[..n]);
      assert Changes(mods)[..n] == Changes(mods[..n]);
      assert Reported(mods[n]);
    }
  }

  /** What changes that get through put into the log is what they mean, and nothing else. */
  lemma EmitsIff(env: Mapper.Env, mods: seq<Mod>, records: Log)
    requires EnvOk(env) && AllPass(env, mods)
    ensures Emits(env, mods, records) <==> records == Messages(env, mods)
  {
    ChangesFollow(mods);
    var none: seq<Event> := [];
    MessagesEmitted(env, mods, none, Changes(mods));
    if Emits(env, mods, records) {
      assert EmitsAfter(env, records, none, Changes(mods));
      SamePrefixSameRest(Run(env, none).value.log, records, Messages(env, mods));
    } else if records == Messages(env, mods) {
      forall earlier, events | EventsOk(earlier) && AllPassable(env, earlier) && EventsOk(events) && Follows(mods, events)
        ensures EmitsAfter(env, records, earlier, events)
      {
        MessagesEmitted(env, mods, earlier, events);
      }
    }
  }

  lemma SamePrefixSameRest<T>(a: seq<T>, x: seq<T>, y: seq<T>)
    requires a + x == a + y
    ensures x == y
  {
    assert (a + x)[|a|..] == x && (a + y)[|a|..] == y;
  }

  /** Changes that get through leave tables the registry knows. */
  lemma PassedIsKnown(env: Mapper.Env, mods: seq<Mod>)
    requires EnvOk(env) && env.registry.Registry? && AllPass(env, mods)
    ensures AllKnown(env, mods)
  {
    ChangesFollow(mods);
    FollowedPass(env, mods, Changes(mods));
    PassableRunSucceeds(env, Changes(mods));
    RunAgrees(env, Changes(mods));
    FollowedKnown(env, mods, Changes(mods));
  }

  lemma {:induction false} RunPrefix(env: Mapper.Env, events: seq<Event>, n: nat)
    requires EventsOk(events) && n <= |events| && Run(env, events).Ok?
    ensures EventsOk(events[..n]) && Run(env, events[..n]).Ok?
    decreases |events|
  {
    if n == |events| {
      assert events[..n] == events;
    } else {
      TakeTake(events, n, |events| - 1);
      RunPrefix(env, events[..|events|-1], n);
    }
  }

  /** A change that nothing can get through ends every run that contains it. */
  lemma BlockedRun(env: Mapper.Env, events: seq<Event>, i: nat)
    requires EnvOk(env) && EventsOk(events) && i < |events| && events[i].RowChange?
    requires Blocked(env, events[i].rel, events[i].ch)
    ensures Run(env, events).Err?
  {
    assert EventOk(events[i]) && EventsOk(events[..i]);
    BlockedForever(env, events[..i], events[i].rel, events[i].ch);
    TakeLast(events, i + 1);
    if Run(env, events).Ok? { RunPrefix(env, events, i + 1); }
  }

  /** Each change is one of the events. */
  lemma {:induction false} FollowedAt(mods: seq<Mod>, events: seq<Event>, i: nat) returns (n: nat)
    requires Follows(mods, events) && i < |mods|
    ensures n < |events| && events[n] == RowChange(mods[i].rel, mods[i].ch)
    decreases |events|
  {
    var e, before := events[|events|-1], events[..|events|-1];
    if e.RowChange? && i == |mods| - 1 {
      n := |events| - 1;
    } else {
      n := FollowedAt(if e.RowChange? then mods[..|mods|-1] else mods, before, i);
    }
  }

  /** A transaction with such a change is never handed over as a whole, whatever happened before. */
  lemma BlockedTransaction(env: Mapper.Env, mods: seq<Mod>, i: nat, earlier: seq<Event>, events: seq<Event>)
    requires EnvOk(env) && AllReported(mods) && i < |mods| && Blocked(env, mods[i].rel, mods[i].ch)
    requires EventsOk(earlier) && EventsOk(events) && Follows(mods, events)
    ensures EventsOk(earlier + events) && Run(env, earlier + events).Err?
  {
    var n := FollowedAt(mods, events, i);
    EventsConcat(env, earlier, events);
    BlockedRun(env, earlier + events, |earlier| + n);
  }

  // ---- Through restarts

  function Concat(txs: seq<seq<Mod>>): seq<Mod> {
    if |txs| == 0 then [] else Concat(txs[..|txs|-1]) + txs[|txs|-1]
  }

  /** The transaction's changes get through, and its records are what is emitted for them. */
  ghost predicate TxCarries(env: Mapper.Env, tx: Pipeline.Tx, mods: seq<Mod>) {
    AllPass(env, mods) && Emits(env, mods, tx.records)
  }

  /** The first transaction inserts the snapshot's rows. */
  ghost predicate Carries(env: Mapper.Env, wal: Pipeline.Wal, txs: seq<seq<Mod>>) {
    |wal| == |txs| && forall t :: 0 <= t < |wal| ==> TxCarries(env, wal[t], txs[t])
  }

  lemma MessagesSnoc(env: Mapper.Env, a: seq<Mod>, m: Mod)
    requires AllReported(a) && Reported(m)
    ensures AllReported(a + [m]) && Messages(env, a + [m]) == Messages(env, a) + Meaning(env, m.rel, m.ch)
  {
    assert (a + [m])[..|a|] == a;
  }

  lemma {:induction false} MessagesConcat(env: Mapper.Env, a: seq<Mod>, b: seq<Mod>)
    requires AllReported(a) && AllReported(b)
    ensures AllReported(a + b) && Messages(env, a + b) == Messages(env, a) + Messages(env, b)
    decreases |b|
  {
    if |b| == 0 {
      assert a + b == a;
      assert Messages(env, a) + [] == Messages(env, a);
    } else {
      var n := |b| - 1;
      MessagesConcat(env, a, b[..n]);
      ConcatLast(a, b);
      MessagesSnoc(env, a + b[..n], b[n]);
      ConcatAssoc(Messages(env, a), Messages(env, b[..n]), Meaning(env, b[n].rel, b[n].ch));
    }
  }

  lemma CarriesSplit(env: Mapper.Env, wal: Pipeline.Wal, txs: seq<seq<Mod>>)
    requires Carries(env, wal, txs) && |wal| > 0
    ensures Carries(env, wal[..|wal|-1], txs[..|wal|-1]) && TxCarries(env, wal[|wal|-1], txs[|wal|-1])
  {
    var n := |wal| - 1;
    assert forall t :: 0 <= t < n ==> TxCarries(env, wal[t], txs[t]);
  }

  lemma KnownConcat(env: Mapper.Env, a: seq<Mod>, b: seq<Mod>)
    requires AllKnown(env, a) && AllKnown(env, b)
    ensures AllKnown(env, a + b)
  {
  }

  lemma {:induction false} FlatIsMessages(env: Mapper.Env, wal: Pipeline.Wal, txs: seq<seq<Mod>>)
    requires EnvOk(env) && env.registry.Registry? && Carries(env, wal, txs)
    ensures AllReported(Concat(txs)) && AllKnown(env, Concat(txs)) && Pipeline.Flat(wal) == Messages(env, Concat(txs))
  {
    if |wal| > 0 {
      var n := |wal| - 1;
      CarriesSplit(env, wal, txs);
      FlatIsMessages(env, wal[..n], txs[..n]);
      EmitsIff(env, txs[n], wal[n].records);
      PassedIsKnown(env, txs[n]);
      MessagesConcat(env, Concat(txs[..n]), txs[n]);
      KnownConcat(env, Concat(txs[..n]), txs[n]);
    }
  }

  /**
   Whenever the pipeline has caught up, whatever crashes, restarts, re-deliveries and
   reorderings across keys there were, Kafka's log read as a table is the database: every
   row under its key with its current values, and nothing else. What the log held before this
   history, if anything, must have been written again.
   */
  lemma KafkaIsDatabase(env: Mapper.Env, txs: seq<seq<Mod>>, trace: seq<Pipeline.Sys>, steps: seq<Pipeline.Step>, i: nat)
    requires EnvOk(env) && env.registry.Registry? && Pipeline.Behaviour(trace, steps) && i < |trace|
    requires Carries(env, trace[i].wal, txs) && HistoryOk(Concat(txs)) && AllKeepKeys(Concat(txs))
    requires PipelineTheorems.CaughtUp(trace[i]) && AllRewritten(trace[i].past, Pipeline.Flat(trace[i].wal))
    ensures Holds(env, Fold(trace[i].log), ApplyAll(Concat(txs)))
  {
    PipelineTheorems.LogIsDatabase(trace, steps, i);
    SnapshotRetry(trace[i].past, Pipeline.Flat(trace[i].wal));
    FlatIsMessages(env, trace[i].wal, txs);
    ReplayIsDatabase(env, Concat(txs));
  }

  /**
   And it can always catch up, as long as every change gets through: every behaviour extends,
   without further commits or restarts, to one after which Kafka's log is the database.
   */
  lemma DatabaseReachesKafka(env: Mapper.Env, txs: seq<seq<Mod>>, trace: seq<Pipeline.Sys>, steps: seq<Pipeline.Step>)
    returns (trace': seq<Pipeline.Sys>, steps': seq<Pipeline.Step>)
    requires EnvOk(env) && env.registry.Registry? && Pipeline.Behaviour(trace, steps)
    requires Carries(env, trace[|trace|-1].wal, txs) && HistoryOk(Concat(txs)) && AllKeepKeys(Concat(txs))
    requires AllRewritten(trace[|trace|-1].past, Pipeline.Flat(trace[|trace|-1].wal))
    ensures Pipeline.Behaviour(trace', steps') && PipelineTheorems.Extends(trace, steps, trace', steps')
    ensures Holds(env, Fold(trace'[|trace'|-1].log), ApplyAll(Concat(txs)))
  {
    trace', steps' := PipelineTheorems.CanCatchUp(trace, steps);
    PipelineTheorems.HistoryGrows(trace', steps', |trace| - 1, |trace'| - 1);
    KafkaIsDatabase(env, txs, trace', steps', |trace'| - 1);
  }
}
