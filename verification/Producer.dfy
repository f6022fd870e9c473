/**
 The producer callbacks of kafka/bottledwater.c, updating the ring in place.

 What librdkafka does during a poll, whether a produce call succeeds, and whether a
 signal has arrived are inputs: a `Poll` lists the delivery reports one poll fires, an
 `Attempt` is one produce call. A list of them stands for the successive turns of a
 waiting loop; a loop whose list ends while it still waits is `Waiting`.
 */
module KafkaProducer {
  import opened Basics
  import opened InFlightRing
  import opened RingRefinement

  datatype Why =
    | FirstTransaction | MismatchedXid | DeliveryFailed | Shutdown | KeepaliveFailed
    | NotEncoded | ProduceFailed | TableRefused | ClientFailed

  datatype Outcome = Running | Waiting | Exited(status: int, why: Why)

  /** Not one of the two exits that a well-formed server never makes the producer take. */
  predicate Expected(out: Outcome) {
    out.Exited? ==> out.why != FirstTransaction && out.why != MismatchedXid
  }

  /** A delivery report: the slot its envelope points at, and whether delivery failed. */
  datatype Report = Report(slot: nat, failed: bool)

  datatype Poll = Poll(reports: seq<Report>, shutdown: bool, keepaliveFails: bool)

  datatype Attempt = Attempt(ok: bool, queueFull: bool, poll: Poll)

  predicate ReportsOk(reports: seq<Report>) {
    forall k :: 0 <= k < |reports| ==> reports[k].slot < 1000
  }

  predicate PollsOk(polls: seq<Poll>) {
    forall k :: 0 <= k < |polls| ==> ReportsOk(polls[k].reports)
  }

  predicate AttemptsOk(attempts: seq<Attempt>) {
    forall k :: 0 <= k < |attempts| ==> ReportsOk(attempts[k].poll.reports)
  }

  // What the callbacks do to the ring, as values.

  function AfterReports(r: Ring, reports: seq<Report>): (o: (Ring, Outcome))
    requires Wf(r) && ReportsOk(reports)
    ensures Wf(o.0) && o.0.head == r.head && Expected(o.1)
    decreases |reports|
  {
    if |reports| == 0 then (r, Running)
    else if reports[0].failed then (r, Exited(1, DeliveryFailed))
    else AfterReports(Deliver(r, reports[0].slot), reports[1..])
  }

  function AfterPoll(r: Ring, p: Poll): (o: (Ring, Outcome))
    requires Wf(r) && ReportsOk(p.reports)
    ensures Wf(o.0) && o.0.head == r.head && Expected(o.1)
  {
    var o := AfterReports(r, p.reports);
    if o.1 != Running then o
    else if p.shutdown then (o.0, Exited(0, Shutdown))
    else if p.keepaliveFails then (o.0, Exited(1, KeepaliveFailed))
    else o
  }

  /** Poll until the buffer has room. */
  function WaitForRoom(r: Ring, polls: seq<Poll>): (o: (Ring, Outcome))
    requires Wf(r) && PollsOk(polls)
    ensures Wf(o.0) && o.0.head == r.head && Expected(o.1)
    ensures o.1 == Running ==> !Full(o.0)
    decreases |polls|
  {
    if !Full(r) then (r, Running)
    else if |polls| == 0 then (r, Waiting)
    else
      var o := AfterPoll(r, polls[0]);
      if o.1 != Running then o else WaitForRoom(o.0, polls[1..])
  }

  /** Produce calls until one is accepted, polling whenever the producer's queue was full. */
  function ProduceLoop(r: Ring, attempts: seq<Attempt>): (o: (Ring, Outcome))
    requires Wf(r) && AttemptsOk(attempts)
    ensures Wf(o.0) && o.0.head == r.head && Expected(o.1)
    decreases |attempts|
  {
    if |attempts| == 0 then (r, Waiting)
    else
      var a := attempts[0];
      var o := if a.queueFull then AfterPoll(r, a.poll) else (r, if a.ok then Running else Exited(1, ProduceFailed));
      if o.1 != Running || a.ok then o else ProduceLoop(o.0, attempts[1..])
  }

  /** `producer_context`, with the stream position and flag it reaches through `client`. */
  class Producer {
    const xactList: array<Xact>
    var head: nat
    var tail: nat
    var fsync: Lsn
    var takingSnapshot: bool
    var slotDropped: bool

    ghost predicate Valid()
      reads this, xactList
    {
      Wf(State())
    }

    function State(): Ring
      reads this, xactList
    {
      Ring(xactList[..], head, tail, fsync, takingSnapshot)
    }

    constructor (snapshot: bool)
      ensures Valid() && State() == InitRing(snapshot) && !slotDropped && fresh(xactList)
    {
      xactList := new Xact[1000](_ => ZERO_XACT);
      head, tail, fsync, takingSnapshot, slotDropped := 0, 0, 0, snapshot, false;
    }

    method MaybeCheckpoint()
      requires Valid()
      modifies this`tail, this`fsync, this`takingSnapshot
      ensures Valid() && State() == Checkpoint(old(State()))
    {
      var x := xactList[tail];
      while x.pending == 0 && (x.commitLsn > 0 || x.xid == 0)
        invariant Valid() && x == xactList[tail]
        invariant Checkpoint(State()) == Checkpoint(old(State()))
        decreases Distance(State())
      {
        fsync := x.commitLsn;
        if x.xid == 0 && x.commitLsn > 0 {
          takingSnapshot := false;
        }
        if tail == head { return; }
        tail := (tail + 1) % 1000;
        x := xactList[tail];
      }
    }

    /** Drops the replication slot when a snapshot was in progress and the exit is an error. */
    method ExitNicely(status: int, why: Why) returns (out: Outcome)
      modifies this`slotDropped
      ensures out == Exited(status, why)
      ensures slotDropped == (old(slotDropped) || (takingSnapshot && status != 0))
    {
      if takingSnapshot && status != 0 {
        slotDropped := true;
      }
      out := Exited(status, why);
    }

    method OnDeliverMsg(report: Report) returns (out: Outcome)
      requires Valid() && report.slot < 1000
      modifies this, xactList
      ensures Valid() && (State(), out) == AfterReports(old(State()), [report])
      ensures slotDropped == (old(slotDropped) || (takingSnapshot && out.Exited? && out.status != 0))
    {
      if report.failed {
        out := ExitNicely(1, DeliveryFailed);
      } else {
        ghost var before := State();
        xactList[report.slot] := xactList[report.slot].(pending := xactList[report.slot].pending - 1);
        assert State() == before.(slots := before.slots[report.slot :=
                                  before.slots[report.slot].(pending := before.slots[report.slot].pending - 1)]);
        MaybeCheckpoint();
        out := Running;
      }
    }

    method Backpressure(p: Poll) returns (out: Outcome)
      requires Valid() && ReportsOk(p.reports)
      modifies this, xactList
      ensures Valid() && (State(), out) == AfterPoll(old(State()), p)
      ensures slotDropped == (old(slotDropped) || (takingSnapshot && out.Exited? && out.status != 0))
    {
      out := Running;
      var i := 0;
      while i < |p.reports|
        invariant 0 <= i <= |p.reports| && Valid() && out == Running
        invariant AfterReports(old(State()), p.reports) == AfterReports(State(), p.reports[i..])
        invariant slotDropped == old(slotDropped)
      {
        ghost var before := State();
        assert p.reports[i..][0] == p.reports[i] && p.reports[i..][1..] == p.reports[i+1..];
        out := OnDeliverMsg(p.reports[i]);
        assert [p.reports[i]][1..] == [];
        if out != Running { return; }
        i := i + 1;
      }
      if p.shutdown {
        out := ExitNicely(0, Shutdown);
      } else if p.keepaliveFails {
        out := ExitNicely(1, KeepaliveFailed);
      }
    }

    method OnBeginTxn(xid: nat, polls: seq<Poll>) returns (out: Outcome)
      requires Valid() && PollsOk(polls)
      modifies this, xactList
      ensures Valid()
      ensures xid == 0 ==> State() == old(State()) && out == (if head == tail == 0 then Running else Exited(1, FirstTransaction))
      ensures xid != 0 ==> var o := WaitForRoom(old(State()), polls);
                           out == o.1 && State() == (if out == Running then Begin(o.0, xid) else o.0)
      ensures slotDropped == (old(slotDropped) || (takingSnapshot && out.Exited? && out.status != 0))
    {
      out := Running;
      if xid == 0 {
        if head != 0 || tail != 0 {
          out := ExitNicely(1, FirstTransaction);
        }
        return;
      }
      var i := 0;
      while (head + 1) % 1000 == tail
        invariant 0 <= i <= |polls| && Valid() && out == Running
        invariant WaitForRoom(old(State()), polls) == WaitForRoom(State(), polls[i..])
        invariant slotDropped == old(slotDropped)
        decreases |polls| - i
      {
        if i == |polls| {
          out := Waiting;
          return;
        }
        assert polls[i..][0] == polls[i] && polls[i..][1..] == polls[i+1..];
        out := Backpressure(polls[i]);
        if out != Running { return; }
        i := i + 1;
      }
      ghost var room := State();
      head := (head + 1) % 1000;
      xactList[head] := Xact(xid, 0, 0, 0);
      assert State().slots == Begin(room, xid).slots;
    }

    method OnCommitTxn(xid: nat, lsn: Lsn) returns (out: Outcome)
      requires Valid()
      modifies this, xactList
      ensures Valid()
      ensures xid == old(xactList[head].xid) ==> out == Running && State() == Commit(old(State()), lsn)
      ensures xid != old(xactList[head].xid) ==> out == Exited(1, MismatchedXid) && State() == old(State())
      ensures slotDropped == (old(slotDropped) || (takingSnapshot && out.Exited? && out.status != 0))
    {
      if xid != xactList[head].xid {
        out := ExitNicely(1, MismatchedXid);
        return;
      }
      ghost var before := State();
      xactList[head] := xactList[head].(commitLsn := lsn);
      assert State() == before.(slots := before.slots[before.head := before.slots[before.head].(commitLsn := lsn)]);
      MaybeCheckpoint();
      out := Running;
    }

    /** `encoded` says whether the table was known and its row could be encoded. */
    method SendKafkaMsg(encoded: bool, attempts: seq<Attempt>) returns (out: Outcome)
      requires Valid() && AttemptsOk(attempts)
      modifies this, xactList
      ensures Valid()
      ensures (State(), out) == if encoded then ProduceLoop(Reserve(old(State())), attempts)
                                else (Reserve(old(State())), Exited(1, NotEncoded))
      ensures slotDropped == (old(slotDropped) || (takingSnapshot && out.Exited? && out.status != 0))
    {
      var x := xactList[head];
      xactList[head] := x.(recvd := x.recvd + 1, pending := x.pending + 1);
      ghost var reserved := State();
      assert reserved == Reserve(old(State()));
      if !encoded {
        out := ExitNicely(1, NotEncoded);
        return;
      }
      out := Running;
      var enqueued, i := false, 0;
      while !enqueued
        invariant 0 <= i <= |attempts| && Valid() && out == Running
        invariant if enqueued then ProduceLoop(reserved, attempts) == (State(), Running)
                  else ProduceLoop(reserved, attempts) == ProduceLoop(State(), attempts[i..])
        invariant slotDropped == old(slotDropped)
        decreases |attempts| - i, !enqueued
      {
        if i == |attempts| {
          out := Waiting;
          return;
        }
        assert attempts[i..][0] == attempts[i] && attempts[i..][1..] == attempts[i+1..];
        enqueued := attempts[i].ok;
        if attempts[i].queueFull {
          out := Backpressure(attempts[i].poll);
        } else if !enqueued {
          out := ExitNicely(1, ProduceFailed);
        }
        if out != Running { return; }
        i := i + 1;
      }
    }
  }

  // ---- Delivery reports as Kafka gives them

  /** The slot is between tail and head. */
  predicate InWindow(r: Ring, slot: nat) {
    if r.tail <= r.head then r.tail <= slot <= r.head else r.tail <= slot < 1000 || slot <= r.head
  }

  /** Every report is for a message that its slot still waits for. */
  predicate Honest(r: Ring, reports: seq<Report>)
    requires Wf(r) && ReportsOk(reports)
    decreases |reports|
  {
    |reports| == 0 || reports[0].failed ||
    (InWindow(r, reports[0].slot) && r.slots[reports[0].slot].pending > 0
     && Honest(Deliver(r, reports[0].slot), reports[1..]))
  }

  /** The same for the polls a waiting loop makes. */
  predicate HonestWait(r: Ring, polls: seq<Poll>)
    requires Wf(r) && PollsOk(polls)
    decreases |polls|
  {
    Full(r) && |polls| > 0 ==>
      && Honest(r, polls[0].reports)
      && (AfterPoll(r, polls[0]).1 == Running ==> HonestWait(AfterPoll(r, polls[0]).0, polls[1..]))
  }

  predicate HonestLoop(r: Ring, attempts: seq<Attempt>)
    requires Wf(r) && AttemptsOk(attempts)
    decreases |attempts|
  {
    |attempts| > 0 ==>
      var a := attempts[0];
      if a.queueFull then
        && Honest(r, a.poll.reports)
        && (AfterPoll(r, a.poll).1 == Running && !a.ok ==> HonestLoop(AfterPoll(r, a.poll).0, attempts[1..]))
      else true
  }

  /** The same transactions, with perhaps more of their rows acknowledged. */
  ghost predicate MoreAcked(q: Queue, q': Queue) {
    |q'| == |q| && forall n :: 0 <= n < |q| ==> q[n].acked <= q'[n].acked && q'[n] == q[n].(acked := q'[n].acked)
  }

  /** Going around the ring once at most. */
  lemma AroundRing(t: nat, d: nat)
    requires d < 1000
    ensures (t + d) % 1000 == if t % 1000 + d < 1000 then t % 1000 + d else t % 1000 + d - 1000
  {
  }

  /** The transaction a slot in the window stands for. */
  lemma SlotTransaction(r: Ring, q: Queue, t: nat, slot: nat) returns (n: nat)
    requires Window(r, q, t) && slot < 1000 && InWindow(r, slot)
    ensures t <= n < |q| && n % 1000 == slot && r.slots[slot].pending == q[n].rows - q[n].acked
  {
    var d := if slot >= r.tail then slot - r.tail else slot + 1000 - r.tail;
    AroundRing(t, d);
    AroundRing(t, |q| - 1 - t);
    n := t + d;
    assert Held(r, q, n);
  }

  /** Any burst of delivery reports, fired from any waiting loop, keeps the ring exact. */
  lemma {:induction false} ReportsTrack(r: Ring, q: Queue, t: nat, reports: seq<Report>) returns (q': Queue, t': nat)
    requires Tracks(r, q, t) && ReportsOk(reports) && Honest(r, reports)
    ensures Tracks(AfterReports(r, reports).0, q', t') && MoreAcked(q, q') && Durable(q) <= Durable(q')
    decreases |reports|
  {
    q', t' := q, t;
    if |reports| > 0 && !reports[0].failed {
      var slot := reports[0].slot;
      var n := SlotTransaction(r, q, t, slot);
      AckTracks(r, q, t, n);
      var q1 := QAck(q, n);
      q', t' := ReportsTrack(Deliver(r, slot), q1, Min(DonePrefix(q1), |q| - 1), reports[1..]);
    }
  }

  lemma {:induction false} WaitTracks(r: Ring, q: Queue, t: nat, polls: seq<Poll>) returns (q': Queue, t': nat)
    requires Tracks(r, q, t) && PollsOk(polls) && HonestWait(r, polls)
    ensures Tracks(WaitForRoom(r, polls).0, q', t') && MoreAcked(q, q') && Durable(q) <= Durable(q')
    decreases |polls|
  {
    q', t' := q, t;
    if Full(r) && |polls| > 0 {
      q', t' := ReportsTrack(r, q, t, polls[0].reports);
      var o := AfterPoll(r, polls[0]);
      if o.1 == Running {
        q', t' := WaitTracks(o.0, q', t', polls[1..]);
      }
    }
  }

  lemma {:induction false} LoopTracks(r: Ring, q: Queue, t: nat, attempts: seq<Attempt>) returns (q': Queue, t': nat)
    requires Tracks(r, q, t) && AttemptsOk(attempts) && HonestLoop(r, attempts)
    ensures Tracks(ProduceLoop(r, attempts).0, q', t') && MoreAcked(q, q') && Durable(q) <= Durable(q')
    decreases |attempts|
  {
    q', t' := q, t;
    if |attempts| > 0 && attempts[0].queueFull {
      var a := attempts[0];
      q', t' := ReportsTrack(r, q, t, a.poll.reports);
      var o := AfterPoll(r, a.poll);
      if o.1 == Running && !a.ok {
        q', t' := LoopTracks(o.0, q', t', attempts[1..]);
      }
    }
  }
}
