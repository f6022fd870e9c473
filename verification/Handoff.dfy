/**
 From the snapshot to the stream (client/connect.c, and the main loop of kafka/bottledwater.c).

 The client drives the producer: the calls a frame makes are the producer's callbacks, and
 delivery reports come in between. What the server, the frame reader and Kafka answer are
 inputs; `actions` records, in order, the commands sent on the replication connection, the
 frames read and the two calls the client makes itself, which are those of transaction 0.
 */
module Handoff {
  import opened Basics
  import opened InFlightRing
  import opened RingRefinement
  import opened KafkaProducer

  /** A callback the frame reader makes, with what happens while it runs. */
  datatype Call =
    | TableCall(accepted: bool)
    | RowCall(encoded: bool, attempts: seq<Attempt>)
    | BeginCall(xid: nat, polls: seq<Poll>)
    | CommitCall(xid: nat, lsn: Lsn)

  datatype Frame = Frame(calls: seq<Call>, parseErr: int)

  datatype Action =
    | CreateSlot(lsn: Lsn)
    | BeginSnapshot(lsn: Lsn)
    | SnapshotFrame(frame: Frame)
    | CommitSnapshot(lsn: Lsn)
    | StartReplication(lsn: Lsn)
    | StreamFrame(frame: Frame)

  datatype Connecting = Unconfigured | Failed | Connected

  /** The answers `db_client_start` gets; an error code of 0 is success. */
  datatype StartReply = StartReply(
    connect: Connecting, checkErr: int, slot: Result<Option<Lsn>, int>,
    created: Result<Lsn, int>, snapshotErr: int, startErr: int)

  /** One tuple of a snapshot result: a single non-null binary field, or not. */
  datatype SnapshotTuple = Malformed | Tuple(frame: Frame)

  datatype SqlResult =
    | NoMoreRows(sqlCommitErr: int, startErr: int)
    | BadResult
    | Tuples(tuples: seq<SnapshotTuple>)

  /** One turn of the main loop: the poll, the wait if there was no data, and the reports after it. */
  datatype Turn = Turn(busy: bool, sql: SqlResult, streamErr: int, streamStatus: int, frame: Option<Frame>,
                       waitErr: int, reports: seq<Report>)

  // ---- What a run should look like

  datatype Stage = Dumping | Committed | Streaming

  function SnapshotFrames(frames: seq<Frame>): seq<Action> {
    seq(|frames|, i requires 0 <= i < |frames| => SnapshotFrame(frames[i]))
  }

  function StreamFrames(frames: seq<Frame>): seq<Action> {
    seq(|frames|, i requires 0 <= i < |frames| => StreamFrame(frames[i]))
  }

  /** A run on a new slot: one transaction with all snapshot rows, and only then the stream. */
  function NewSlotRun(lsn: Lsn, frames: seq<Frame>, stage: Stage, streamed: seq<Frame>): seq<Action> {
    [CreateSlot(lsn), BeginSnapshot(lsn)] + SnapshotFrames(frames) +
    match stage
    case Dumping => []
    case Committed => [CommitSnapshot(lsn)]
    case Streaming => [CommitSnapshot(lsn), StartReplication(lsn)] + StreamFrames(streamed)
  }

  function OldSlotRun(lsn: Lsn, streamed: seq<Frame>): seq<Action> {
    [StartReplication(lsn)] + StreamFrames(streamed)
  }

  lemma FrameAdded(frames: seq<Frame>, f: Frame)
    ensures SnapshotFrames(frames + [f]) == SnapshotFrames(frames) + [SnapshotFrame(f)]
    ensures StreamFrames(frames + [f]) == StreamFrames(frames) + [StreamFrame(f)]
  {
  }

  lemma DumpedMore(lsn: Lsn, frames: seq<Frame>, f: Frame)
    ensures NewSlotRun(lsn, frames + [f], Dumping, []) == NewSlotRun(lsn, frames, Dumping, []) + [SnapshotFrame(f)]
  {
    FrameAdded(frames, f);
  }

  lemma StreamedMore(lsn: Lsn, frames: seq<Frame>, streamed: seq<Frame>, f: Frame)
    ensures NewSlotRun(lsn, frames, Streaming, streamed + [f])
            == NewSlotRun(lsn, frames, Streaming, streamed) + [StreamFrame(f)]
    ensures OldSlotRun(lsn, streamed + [f]) == OldSlotRun(lsn, streamed) + [StreamFrame(f)]
  {
    FrameAdded(streamed, f);
  }

  // ---- Well-formed answers

  /** What a snapshot frame may make the producer do; what any frame may, once the stream runs. */
  predicate CallOk(r: Ring, inSnapshot: bool, isOpen: bool, openXid: nat, seen: Lsn, call: Call)
    requires Wf(r)
  {
    match call
    case TableCall(_) => true
    case RowCall(encoded, attempts) =>
      isOpen && AttemptsOk(attempts) && (encoded ==> HonestLoop(Reserve(r), attempts))
    case BeginCall(xid, polls) =>
      !inSnapshot && !isOpen && xid != 0 && PollsOk(polls) && HonestWait(r, polls)
    case CommitCall(xid, lsn) => !inSnapshot && isOpen && xid == openXid && lsn > seen
  }

  // ---- The queue behind the ring

  /** The queue is what the server has sent. */
  ghost predicate QueueSent(q: Queue, isOpen: bool, openXid: nat, seen: Lsn) {
    && |q| > 0 && (isOpen <==> q[|q|-1].commit.None?) && (isOpen ==> q[|q|-1].xid == openXid)
    && (forall n :: 0 <= n < |q| && q[n].commit.Some? ==> q[n].commit.value <= seen)
  }

  /** The snapshot is the first transaction of a run on a new slot, and open until its commit. */
  ghost predicate SnapshotFirst(q: Queue, newSlot: bool, stage: Stage) {
    && |q| > 0
    && (newSlot ==> q[0].commit != Some(0) && (q[0].commit.None? <==> stage == Dumping))
    && (newSlot && stage == Dumping ==> |q| == 1)
    && (!newSlot ==> q[0] == DUMMY)
  }

  lemma AckedKeeps(q: Queue, q': Queue, isOpen: bool, openXid: nat, seen: Lsn, newSlot: bool, stage: Stage)
    requires QueueSent(q, isOpen, openXid, seen) && SnapshotFirst(q, newSlot, stage) && MoreAcked(q, q') && Shape(q')
    ensures QueueSent(q', isOpen, openXid, seen) && SnapshotFirst(q', newSlot, stage)
  {
    assert q'[0].acked <= q'[0].rows;
  }

  lemma RowKeeps(q: Queue, openXid: nat, seen: Lsn, newSlot: bool, stage: Stage)
    requires QueueSent(q, true, openXid, seen) && SnapshotFirst(q, newSlot, stage)
    ensures QueueSent(QRow(q), true, openXid, seen) && SnapshotFirst(QRow(q), newSlot, stage)
  {
  }

  lemma BeginKeeps(q: Queue, openXid: nat, seen: Lsn, newSlot: bool, stage: Stage, xid: nat)
    requires QueueSent(q, false, openXid, seen) && SnapshotFirst(q, newSlot, stage)
    ensures QueueSent(QBegin(q, xid), true, xid, seen) && SnapshotFirst(QBegin(q, xid), newSlot, stage)
  {
  }

  lemma CommitKeeps(q: Queue, openXid: nat, seen: Lsn, lsn: Lsn)
    requires QueueSent(q, true, openXid, seen) && lsn > seen
    ensures QueueSent(QCommit(q, lsn), false, openXid, lsn)
  {
  }

  lemma HeadXid(r: Ring, q: Queue, t: nat)
    requires Tracks(r, q, t)
    ensures r.slots[r.head].xid == q[|q|-1].xid
  {
    assert Held(r, q, |q| - 1);
  }

  class Client {
    const producer: Producer
    var sqlConn: bool
    var status: int
    var startLsn: Lsn
    var actions: seq<Action>
    // where the server is: whether a transaction is open, its id, and the last commit position given
    var isOpen: bool
    var openXid: nat
    var seen: Lsn
    // what the producer's ring stands for, and what the run has done
    ghost var queue: Queue
    ghost var newSlot: bool
    ghost var stage: Stage
    ghost var frames: seq<Frame>
    ghost var streamed: seq<Frame>

    constructor ()
      ensures fresh(producer) && fresh(producer.xactList) && Fresh()
    {
      producer := new Producer(false);
      sqlConn, status, startLsn, actions, isOpen, openXid, seen := false, 0, 0, [], false, 0, 0;
      queue, newSlot, stage, frames, streamed := [DUMMY], false, Dumping, [], [];
      new;
      InitTracks(false);
    }

    ghost predicate Fresh()
      reads this, producer, producer.xactList
    {
      && producer.State() == InitRing(false) && !producer.slotDropped && queue == [DUMMY]
      && !sqlConn && status == 0 && actions == [] && !isOpen && openXid == 0 && seen == 0
      && !newSlot && stage == Dumping && frames == [] && streamed == []
    }

    /** The producer's ring is the queue, and the queue is what the server has sent. */
    ghost predicate Linked()
      reads this, producer, producer.xactList
    {
      && producer.Valid() && QueueSent(queue, isOpen, openXid, seen)
      && exists t :: Tracks(producer.State(), queue, t)
    }

    /** The actions so far are those of a proper run. */
    ghost predicate Proper()
      reads this
    {
      if newSlot then
        && actions == NewSlotRun(startLsn, frames, stage, streamed)
        && (stage != Streaming ==> streamed == [])
      else actions == OldSlotRun(startLsn, streamed)
    }

    /** What holds whenever the producer is called. */
    ghost predicate InStep()
      reads this, producer, producer.xactList
    {
      Linked() && SnapshotFirst(queue, newSlot, stage) && (sqlConn <==> newSlot && stage == Dumping)
    }

    /** Between successful polls. */
    ghost predicate Valid()
      reads this, producer, producer.xactList
    {
      && InStep() && Proper() && (newSlot && !sqlConn ==> stage == Streaming)
      && (sqlConn ==> seen < startLsn && openXid == 0)
    }

    /** The flag is up exactly while the snapshot is not both committed and acknowledged. */
    lemma FlagExact()
      requires Linked() && SnapshotFirst(queue, newSlot, stage)
      ensures producer.takingSnapshot <==> newSlot && !Done(queue[0])
    {
    }

    // ---- The producer's callbacks

    /** A row of the open transaction. */
    method DoRow(call: Call) returns (out: Outcome)
      requires InStep() && call.RowCall? && CallOk(producer.State(), sqlConn, isOpen, openXid, seen, call)
      modifies this`queue, producer, producer.xactList
      ensures InStep() && Expected(out) && |queue| == |old(queue)|
      ensures producer.slotDropped == (old(producer.slotDropped) || (producer.takingSnapshot && out.Exited? && out.status != 0))
    {
      ghost var r, q := producer.State(), queue;
      ghost var t :| Tracks(r, q, t);
      RowTracks(r, q, t);
      RowKeeps(q, openXid, seen, newSlot, stage);
      ghost var q' := QRow(q);
      if call.encoded {
        q', t := LoopTracks(Reserve(r), q', t, call.attempts);
        AckedKeeps(QRow(q), q', true, openXid, seen, newSlot, stage);
      }
      out := producer.SendKafkaMsg(call.encoded, call.attempts);
      queue := q';
      assert Tracks(producer.State(), queue, t);
    }

    /** The next transaction, once the ring has room. */
    method DoBegin(call: Call) returns (out: Outcome)
      requires InStep() && call.BeginCall? && CallOk(producer.State(), sqlConn, isOpen, openXid, seen, call)
      modifies this`queue, this`isOpen, this`openXid, producer, producer.xactList
      ensures InStep() && Expected(out)
      ensures producer.slotDropped == (old(producer.slotDropped) || (producer.takingSnapshot && out.Exited? && out.status != 0))
    {
      ghost var r, q := producer.State(), queue;
      ghost var t :| Tracks(r, q, t);
      ghost var q';
      q', t := WaitTracks(r, q, t, call.polls);
      AckedKeeps(q, q', false, openXid, seen, newSlot, stage);
      BeginKeeps(q', openXid, seen, newSlot, stage, call.xid);
      out := producer.OnBeginTxn(call.xid, call.polls);
      queue := q';
      if out == Running {
        BeginTracks(WaitForRoom(r, call.polls).0, q', t, call.xid);
        queue := QBegin(q', call.xid);
        isOpen, openXid := true, call.xid;
      }
      assert Tracks(producer.State(), queue, t);
    }

    /** The commit of the open transaction. */
    method DoCommit(xid: nat, lsn: Lsn) returns (out: Outcome)
      requires Linked() && isOpen && xid == openXid && lsn > seen
      modifies this`queue, this`isOpen, this`openXid, this`seen, producer, producer.xactList
      ensures Linked() && out == Running && producer.slotDropped == old(producer.slotDropped)
      ensures queue == QCommit(old(queue), lsn) && !isOpen && seen == lsn
    {
      ghost var r, q := producer.State(), queue;
      ghost var t :| Tracks(r, q, t);
      HeadXid(r, q, t);
      CommitTracks(r, q, t, lsn);
      CommitKeeps(q, openXid, seen, lsn);
      out := producer.OnCommitTxn(xid, lsn);
      queue := QCommit(q, lsn);
      isOpen, seen := false, lsn;
      assert Tracks(producer.State(), queue, Min(DonePrefix(queue), |q| - 1));
    }

    method MakeCall(call: Call) returns (out: Outcome)
      requires InStep() && CallOk(producer.State(), sqlConn, isOpen, openXid, seen, call)
      modifies this`queue, this`isOpen, this`openXid, this`seen, producer, producer.xactList
      ensures InStep() && Expected(out) && (sqlConn ==> seen == old(seen) && openXid == old(openXid))
      ensures producer.slotDropped == (old(producer.slotDropped) || (producer.takingSnapshot && out.Exited? && out.status != 0))
    {
      match call
      case TableCall(accepted) =>
        out := Running;
        if !accepted { out := producer.ExitNicely(1, TableRefused); }
      case RowCall(_, _) => out := DoRow(call);
      case BeginCall(_, _) => out := DoBegin(call);
      case CommitCall(xid, lsn) => out := DoCommit(xid, lsn);
    }

    /** The calls of one frame. An answer that no server or Kafka gives ends the run's inputs, as their end does. */
    method MakeCalls(calls: seq<Call>) returns (out: Outcome)
      requires InStep()
      modifies this`queue, this`isOpen, this`openXid, this`seen, producer, producer.xactList
      ensures InStep() && Expected(out) && (sqlConn ==> seen == old(seen) && openXid == old(openXid))
      ensures producer.slotDropped == (old(producer.slotDropped) || (producer.takingSnapshot && out.Exited? && out.status != 0))
    {
      for i := 0 to |calls|
        invariant InStep() && producer.slotDropped == old(producer.slotDropped) && (sqlConn ==> seen == old(seen) && openXid == old(openXid))
      {
        if !CallOk(producer.State(), sqlConn, isOpen, openXid, seen, calls[i]) { return Waiting; }
        out := MakeCall(calls[i]);
        if out != Running { return; }
      }
      out := Running;
    }

    /** Delivery reports from the main loop's own poll. */
    method Deliver(reports: seq<Report>) returns (out: Outcome)
      requires InStep()
      modifies this`queue, producer, producer.xactList
      ensures InStep() && Expected(out)
      ensures producer.slotDropped == (old(producer.slotDropped) || (producer.takingSnapshot && out.Exited? && out.status != 0))
    {
      if !ReportsOk(reports) || !Honest(producer.State(), reports) { return Waiting; }
      ghost var r, q := producer.State(), queue;
      ghost var t :| Tracks(r, q, t);
      ghost var q';
      q', t := ReportsTrack(r, q, t, reports);
      AckedKeeps(q, q', isOpen, openXid, seen, newSlot, stage);
      out := producer.Backpressure(KafkaProducer.Poll(reports, false, false));
      queue := q';
      assert Tracks(producer.State(), queue, t);
    }

    // ---- The client

    /** The snapshot's begin finds an untouched ring, so the exit for a late snapshot is never taken. */
    method SnapshotStart(snapshotErr: int) returns (err: int, out: Outcome)
      requires InStep() && sqlConn && producer.State() == InitRing(true) && startLsn > seen && openXid == 0
      requires actions == [CreateSlot(startLsn)] && frames == [] && streamed == []
      modifies this`actions, producer, producer.xactList
      ensures out == Running && err == snapshotErr && producer.State() == InitRing(true)
      ensures producer.slotDropped == old(producer.slotDropped)
      ensures if err != 0 then InStep() && actions == old(actions) else Valid()
    {
      if snapshotErr != 0 { return snapshotErr, Running; }
      actions := actions + [BeginSnapshot(startLsn)];
      out := producer.OnBeginTxn(0, []);
      err := 0;
      assert SnapshotFrames([]) == [];
    }

    /** On an existing slot the stream starts at once; on a new one the snapshot's transaction is begun. */
    method Start(r: StartReply) returns (err: int, out: Outcome)
      requires Fresh() && (r.created.Ok? ==> r.created.value > 0)
      modifies this, producer, producer.xactList
      ensures out == Running && !producer.slotDropped && Linked() && SnapshotFirst(queue, newSlot, stage)
      ensures err == 0 ==> Valid()
      ensures err != 0 ==> Proper() || actions == [] || actions == [CreateSlot(startLsn)]
      ensures frames == [] && streamed == [] && stage == Dumping && status == 0
      ensures newSlot <==> r.connect.Connected? && r.checkErr == 0 && r.slot == Ok(None)
    {
      InitTracks(false);
      InitTracks(true);
      err, out := 0, Running;
      if r.connect.Unconfigured? { return EINVAL, Running; }
      sqlConn := true;
      if r.connect.Failed? { return EIO, Running; }
      if r.checkErr != 0 { return r.checkErr, Running; }
      if r.slot.Err? { return if r.slot.error != 0 then r.slot.error else EIO, Running; }
      if r.slot.value.Some? {
        startLsn := r.slot.value.value;
        sqlConn := false;
        actions := [StartReplication(startLsn)];
        err := r.startErr;
        assert StreamFrames([]) == [];
      } else {
        producer.takingSnapshot := true;
        newSlot, queue, isOpen := true, [SNAPSHOT], true;
        assert producer.State() == InitRing(true);
        if r.created.Err? { return if r.created.error != 0 then r.created.error else EIO, Running; }
        startLsn := r.created.value;
        actions := [CreateSlot(startLsn)];
        err, out := SnapshotStart(r.snapshotErr);
      }
    }

    /** Every tuple's frame is handed on, in order, until one is malformed, fails or ends the run. */
    method ReadTuples(tuples: seq<SnapshotTuple>) returns (err: int, out: Outcome)
      requires Valid() && sqlConn
      modifies this`actions, this`frames, this`queue, this`isOpen, this`openXid, this`seen, producer, producer.xactList
      ensures Valid() && Expected(out) && old(frames) <= frames
      ensures err == 0 && out == Running ==> |frames| == |old(frames)| + |tuples|
      ensures err == 0 && out == Running ==>
                forall i :: 0 <= i < |tuples| ==> tuples[i].Tuple? && frames[|old(frames)| + i] == tuples[i].frame
      ensures producer.slotDropped == (old(producer.slotDropped) || (producer.takingSnapshot && out.Exited? && out.status != 0))
    {
      for i := 0 to |tuples|
        invariant Valid() && |frames| == |old(frames)| + i && old(frames) <= frames
        invariant forall k :: 0 <= k < i ==> tuples[k].Tuple? && frames[|old(frames)| + k] == tuples[k].frame
        invariant producer.slotDropped == old(producer.slotDropped)
      {
        if tuples[i].Malformed? { return EIO, Running; }
        var f := tuples[i].frame;
        actions := actions + [SnapshotFrame(f)];
        DumpedMore(startLsn, frames, f);
        frames := frames + [f];
        out := MakeCalls(f.calls);
        if out != Running { return 0, out; }
        if f.parseErr != 0 { return f.parseErr, Running; }
      }
      err, out := 0, Running;
    }

    /** The end of the rows is the snapshot's commit, which finds the snapshot's slot at the head. */
    method FinishSnapshot(sqlCommitErr: int) returns (err: int, out: Outcome)
      requires Valid() && sqlConn
      modifies this`actions, this`stage, this`sqlConn, this`queue, this`isOpen, this`openXid, this`seen, producer, producer.xactList
      ensures InStep() && Proper() && out == Running && producer.slotDropped == old(producer.slotDropped)
      ensures err == (if sqlCommitErr != 0 then EIO else 0) && (err == 0 ==> stage == Committed) && (err != 0 ==> stage == Dumping)
    {
      if sqlCommitErr != 0 { return EIO, Running; }
      out := DoCommit(0, startLsn);
      sqlConn, stage := false, Committed;
      actions := actions + [CommitSnapshot(startLsn)];
      err := 0;
    }

    /** The stream is started in the poll that finds the snapshot finished, and not before. */
    method PollSnapshot(r: SqlResult) returns (err: int, out: Outcome)
      requires Valid() && sqlConn
      modifies this, producer, producer.xactList
      ensures InStep() && Proper() && Expected(out) && newSlot == old(newSlot) && old(frames) <= frames
      ensures err == 0 && out == Running ==> Valid()
      ensures producer.slotDropped == (old(producer.slotDropped) || (producer.takingSnapshot && out.Exited? && out.status != 0))
    {
      match r
      case BadResult => return EIO, Running;
      case Tuples(ts) =>
        err, out := ReadTuples(ts);
        if err == 0 && out == Running { status := 1; }
      case NoMoreRows(sqlCommitErr, startErr) =>
        err, out := FinishSnapshot(sqlCommitErr);
        if err != 0 { return; }
        status := 1;
        actions, stage := actions + [StartReplication(startLsn)], Streaming;
        assert StreamFrames([]) == [];
        err := startErr;
    }

    method PollStream(r: Turn) returns (err: int, out: Outcome)
      requires Valid() && !sqlConn
      modifies this, producer, producer.xactList
      ensures Valid() && Expected(out) && newSlot == old(newSlot) && frames == old(frames) && old(streamed) <= streamed
      ensures producer.slotDropped == (old(producer.slotDropped) || (producer.takingSnapshot && out.Exited? && out.status != 0))
    {
      out := Running;
      if r.frame.Some? {
        var f := r.frame.value;
        actions := actions + [StreamFrame(f)];
        StreamedMore(startLsn, frames, streamed, f);
        streamed := streamed + [f];
        out := MakeCalls(f.calls);
        if out != Running { return 0, out; }
        if f.parseErr != 0 { return f.parseErr, Running; }
      }
      err := r.streamErr;
      if err == 0 { status := r.streamStatus; }
    }

    /** `db_client_poll`. */
    method Poll(r: Turn) returns (err: int, out: Outcome)
      requires Valid()
      modifies this, producer, producer.xactList
      ensures InStep() && Proper() && Expected(out) && newSlot == old(newSlot)
      ensures err == 0 && out == Running ==> Valid()
      ensures producer.slotDropped == (old(producer.slotDropped) || (producer.takingSnapshot && out.Exited? && out.status != 0))
    {
      if sqlConn {
        if r.busy {
          status := 0;
          return 0, Running;
        }
        err, out := PollSnapshot(r.sql);
      } else {
        err, out := PollStream(r);
      }
    }

    /** One turn of the main loop; an error of the client ends the run with status 1. */
    method TakeTurn(r: Turn) returns (out: Outcome)
      requires Valid()
      modifies this, producer, producer.xactList
      ensures InStep() && Proper() && Expected(out) && newSlot == old(newSlot)
      ensures out == Running ==> Valid()
      ensures producer.slotDropped == (old(producer.slotDropped) || (producer.takingSnapshot && out.Exited? && out.status != 0))
    {
      var err;
      err, out := Poll(r);
      if out != Running { return; }
      if err == 0 && status == 0 { err := r.waitErr; }
      if err != 0 {
        out := producer.ExitNicely(1, ClientFailed);
        return;
      }
      out := Deliver(r.reports);
    }

    /** The turns of the main loop, until the run ends or the answers do. */
    method TakeTurns(turns: seq<Turn>) returns (out: Outcome)
      requires Valid() && !producer.slotDropped
      modifies this, producer, producer.xactList
      ensures InStep() && Proper() && Expected(out) && newSlot == old(newSlot)
      ensures producer.slotDropped <==> producer.takingSnapshot && out.Exited? && out.status != 0
    {
      out := Running;
      var i := 0;
      while out == Running && i < |turns| && status >= 0
        invariant 0 <= i <= |turns| && InStep() && Proper() && Expected(out) && newSlot == old(newSlot)
        invariant out == Running ==> Valid()
        invariant producer.slotDropped <==> producer.takingSnapshot && out.Exited? && out.status != 0
        decreases |turns| - i
      {
        out := TakeTurn(turns[i]);
        i := i + 1;
      }
    }
  }

  /** What a whole run did, and what its ring stood for at the end. */
  datatype History = History(newSlot: bool, lsn: Lsn, frames: seq<Frame>, stage: Stage, streamed: seq<Frame>, queue: Queue)

  /** The actions of a run that got as far as the snapshot's begin, or as the stream. */
  function RunOf(r: History): seq<Action> {
    if r.newSlot then NewSlotRun(r.lsn, r.frames, r.stage, r.streamed) else OldSlotRun(r.lsn, r.streamed)
  }

  /** The snapshot has been committed, and Kafka has acknowledged every row of it. */
  predicate SnapshotSafe(r: History) {
    r.newSlot ==> |r.queue| > 0 && r.stage != Dumping && Done(r.queue[0])
  }

  /**
   The main loop, for every sequence of answers; one that ends, or that no server or Kafka
   gives, stands for a shutdown signal. On a new slot all snapshot rows come between the begin
   and the commit of the snapshot, and both before the stream is started; on an existing slot
   there is no snapshot. The exits for a snapshot that is not the first transaction and for
   mismatched commits are never taken. The slot is dropped if and only if the run ends with an
   error while its snapshot is not both committed and acknowledged.
   */
  method Capture(start: StartReply, turns: seq<Turn>)
    returns (actions: seq<Action>, out: Outcome, dropped: bool, ghost did: History)
    requires start.created.Ok? ==> start.created.value > 0
    ensures out.Exited? && Expected(out)
    ensures actions == RunOf(did) || (out == Exited(1, ClientFailed) && (actions == [] || actions == [CreateSlot(did.lsn)]))
    ensures did.newSlot && did.stage != Streaming ==> did.streamed == []
    ensures did.newSlot <==> start.connect.Connected? && start.checkErr == 0 && start.slot == Ok(None)
    ensures dropped <==> out.status != 0 && !SnapshotSafe(did)
  {
    var c := new Client();
    var err;
    err, out := c.Start(start);
    if err != 0 {
      out := c.producer.ExitNicely(1, ClientFailed);
    } else {
      out := c.TakeTurns(turns);
      if !out.Exited? {
        out := c.producer.ExitNicely(0, Shutdown);
      }
    }
    did := History(c.newSlot, c.startLsn, c.frames, c.stage, c.streamed, c.queue);
    actions, dropped := c.actions, c.producer.slotDropped;
    c.FlagExact();
  }
}
