/**
 The replication stream (client/replication.c): what arrives from the server moves the
 received position, and status updates tell the server what was received and flushed.

 The clock, whether a message can be sent, and what the frame reader returns are inputs; so
 is the flush position after a frame, which the callbacks the reader makes may move.
 */
module Replication {
  import opened Basics
  import opened BigEndian
  import opened Pipeline
  import PipelineTheorems

  type Word64 = n: int | 0 <= n < 0x1_0000_0000_0000_0000

  const CHECKPOINT_INTERVAL := 10_000_000

  // ---- 64-bit integers in network byte order

  /** `sendint64`: the two halves, high one first. */
  function SendInt64(n: Word64): (s: Bytes)
    ensures |s| == 8
  {
    Be32(n / 0x1_0000_0000) + Be32(n % 0x1_0000_0000)
  }

  /** `recvint64`. */
  function RecvInt64(s: Bytes): Word64
    requires |s| == 8
  {
    FromBe32(s[..4]) * 0x1_0000_0000 + FromBe32(s[4..])
  }

  lemma Int64RoundTrip(n: Word64)
    ensures RecvInt64(SendInt64(n)) == n
  {
    var h, l := n / 0x1_0000_0000, n % 0x1_0000_0000;
    Be32RoundTrip(h);
    Be32RoundTrip(l);
    assert SendInt64(n)[..4] == Be32(h) && SendInt64(n)[4..] == Be32(l);
  }

  lemma Int64RoundTripBack(s: Bytes)
    requires |s| == 8
    ensures SendInt64(RecvInt64(s)) == s
  {
    var h, l := FromBe32(s[..4]), FromBe32(s[4..]);
    FromBe32RoundTrip(s[..4]);
    FromBe32RoundTrip(s[4..]);
    assert RecvInt64(s) / 0x1_0000_0000 == h && RecvInt64(s) % 0x1_0000_0000 == l;
    assert s == s[..4] + s[4..];
  }

  /** The two's complement word of a signed 64-bit integer. */
  function Word64Of(i: Int64): Word64 {
    if i >= 0 then i else i + 0x1_0000_0000_0000_0000
  }

  function Int64Of(w: Word64): Int64 {
    if w < 0x8000_0000_0000_0000 then w else w - 0x1_0000_0000_0000_0000
  }

  // ---- Standby status updates

  /** The message, as section "Streaming Replication Protocol" of the PostgreSQL 9.4 manual lays it out. */
  function StatusUpdate(recvd: Word64, fsync: Word64, now: Int64): Bytes {
    ['r' as int] + SendInt64(recvd) + SendInt64(fsync) + SendInt64(0) + SendInt64(Word64Of(now)) + [0]
  }

  datatype Status = Status(written: Word64, flushed: Word64, applied: Word64, clock: Int64, replyNow: bool)

  /** How the server reads it. */
  function ReadStatus(msg: Bytes): Option<Status> {
    if |msg| != 34 || msg[0] != 'r' as int then None
    else Some(Status(RecvInt64(msg[1..9]), RecvInt64(msg[9..17]), RecvInt64(msg[17..25]),
                     Int64Of(RecvInt64(msg[25..33])), msg[33] != 0))
  }

  lemma StatusParts(a: Bytes, b: Bytes, c: Bytes, d: Bytes, msg: Bytes)
    requires |a| == |b| == |c| == |d| == 8 && msg == ['r' as int] + a + b + c + d + [0]
    ensures |msg| == 34 && msg[0] == 'r' as int && msg[33] == 0
    ensures msg[1..9] == a && msg[9..17] == b && msg[17..25] == c && msg[25..33] == d
  {
  }

  /** Every update decodes to the positions it was built from, for all 64-bit values. */
  lemma StatusRoundTrip(recvd: Word64, fsync: Word64, now: Int64)
    ensures ReadStatus(StatusUpdate(recvd, fsync, now)) == Some(Status(recvd, fsync, 0, now, false))
  {
    var w := Word64Of(now);
    StatusParts(SendInt64(recvd), SendInt64(fsync), SendInt64(0), SendInt64(w), StatusUpdate(recvd, fsync, now));
    Int64RoundTrip(recvd);
    Int64RoundTrip(fsync);
    Int64RoundTrip(0);
    Int64RoundTrip(w);
  }

  /**
   In every reachable state of the pipeline, also while a transaction waits for room or a row
   for the producer's queue, the update built from the current positions reads back as those
   positions; it claims no more flushed than received exactly if the run is on an existing
   slot, nothing is flushed, or the stream has brought a position past the snapshot.
   */
  lemma StatusOverclaimsIff(trace: seq<Sys>, steps: seq<Step>, i: nat, now: Int64)
    requires Behaviour(trace, steps) && i < |trace|
    requires trace[i].recvd < 0x1_0000_0000_0000_0000 && trace[i].ring.fsync < 0x1_0000_0000_0000_0000
    ensures var s := trace[i];
            var st := ReadStatus(StatusUpdate(s.recvd, s.ring.fsync, now));
            && |s.wal| > 0 && st == Some(Status(s.recvd, s.ring.fsync, 0, now, false))
            && (st.value.flushed <= st.value.written <==> s.resumed || s.ring.fsync == 0 || s.wal[0].commit <= s.recvd)
  {
    PipelineTheorems.FlushWithinReceivedIff(trace, steps, i);
    StatusRoundTrip(trace[i].recvd, trace[i].ring.fsync, now);
  }

  // ---- The stream

  /** What one poll gets from the connection: no bytes means no data right now. */
  datatype Reply = Data(buf: Bytes) | Ended(clean: bool) | Broken

  /** The position a message brings, if it is one and is long enough. */
  function Position(buf: Bytes): Option<Word64> {
    if |buf| >= 18 && buf[0] == 'k' as int then Some(RecvInt64(buf[1..9]))
    else if |buf| >= 26 && buf[0] == 'w' as int then Some(RecvInt64(buf[1..9]))
    else None
  }

  /** A turn of a callback waiting for Kafka that does not end the run: the flush position and the clock at that time. */
  datatype Pause = Pause(fsync: Word64, now: Int64)

  predicate PausedAt(pauses: seq<Pause>, i: nat, fsync: Word64) {
    i < |pauses| && pauses[i].fsync == fsync
  }

  /** The update reads back as this received position and the flush position of one of the pauses. */
  ghost predicate SentInPause(msg: Bytes, recvd: Word64, pauses: seq<Pause>) {
    && ReadStatus(msg).Some? && ReadStatus(msg).value.written == recvd
    && exists i :: PausedAt(pauses, i, ReadStatus(msg).value.flushed)
  }

  class ReplicationStream {
    var recvd: Word64
    var fsync: Word64
    var lastCheckpoint: int
    var status: int
    var sent: seq<Bytes>      // status updates handed to the connection
    var frames: seq<Bytes>    // frames handed to the frame reader

    constructor ()
      ensures recvd == 0 && fsync == 0 && lastCheckpoint == 0 && status == 0 && sent == [] && frames == []
    {
      recvd, fsync, lastCheckpoint, status, sent, frames := 0, 0, 0, 0, [], [];
    }

    /** Sends the current positions. */
    method SendCheckpoint(now: Int64, canSend: bool) returns (err: int)
      modifies this`lastCheckpoint, this`sent
      ensures err == if canSend then 0 else EIO
      ensures err == 0 ==> lastCheckpoint == now && |sent| == |old(sent)| + 1 && old(sent) <= sent
                           && ReadStatus(sent[|old(sent)|]) == Some(Status(recvd, fsync, 0, now, false))
      ensures err != 0 ==> lastCheckpoint == old(lastCheckpoint) && sent == old(sent)
    {
      var buf := ['r' as int];
      buf := buf + SendInt64(recvd);
      buf := buf + SendInt64(fsync);
      buf := buf + SendInt64(0);
      buf := buf + SendInt64(Word64Of(now));
      buf := buf + [0];
      if !canSend { return EIO; }
      StatusRoundTrip(recvd, fsync, now);
      sent := sent + [buf];
      lastCheckpoint := now;
      err := 0;
    }

    /** At most one update every ten seconds, and none before anything was received. */
    method Keepalive(now: Int64, canSend: bool) returns (err: int)
      modifies this`lastCheckpoint, this`sent
      ensures err == 0 && recvd != 0 ==> now - lastCheckpoint <= CHECKPOINT_INTERVAL
      ensures sent == old(sent) ==> lastCheckpoint == old(lastCheckpoint)
      ensures sent != old(sent) ==>
                && recvd != 0 && now - old(lastCheckpoint) > CHECKPOINT_INTERVAL && lastCheckpoint == now
                && |sent| == |old(sent)| + 1 && old(sent) <= sent
                && ReadStatus(sent[|old(sent)|]) == Some(Status(recvd, fsync, 0, now, false))
      ensures err == 0 || (err == EIO && !canSend && sent == old(sent))
    {
      err := 0;
      if recvd != 0 {
        if now - lastCheckpoint > CHECKPOINT_INTERVAL {
          err := SendCheckpoint(now, canSend);
        }
      }
    }

    /** The server's position counts as received; it may ask for an immediate update. */
    method ParseKeepalive(buf: Bytes, now: Int64, canSend: bool) returns (err: int)
      modifies this`recvd, this`lastCheckpoint, this`sent
      ensures |buf| < 18 ==> err == EIO && recvd == old(recvd) && sent == old(sent)
      ensures |buf| >= 18 ==> recvd == Max(RecvInt64(buf[1..9]), old(recvd))
      ensures |buf| >= 18 && buf[17] == 0 ==> err == 0 && sent == old(sent)
      ensures |buf| >= 18 && buf[17] != 0 ==> err == if canSend then 0 else EIO
      ensures err != 0 ==> sent == old(sent)
      ensures |buf| >= 18 && buf[17] != 0 && canSend ==>
                && |sent| == |old(sent)| + 1 && old(sent) <= sent
                && ReadStatus(sent[|old(sent)|]) == Some(Status(recvd, fsync, 0, now, false))
    {
      if |buf| < 18 { return EIO; }
      var walPos := RecvInt64(buf[1..9]);
      recvd := if walPos > recvd then walPos else recvd;
      if buf[17] != 0 {
        err := SendCheckpoint(now, canSend);
        return;
      }
      err := 0;
    }

    /**
     The frame goes to the reader first, and while its callbacks wait for Kafka updates may be
     sent, still with the old received position; the frame's own position counts as received
     afterwards, even if the frame fails.
     */
    method ParseXlogData(buf: Bytes, pauses: seq<Pause>, frameErr: int, fsyncAfter: Word64) returns (err: int)
      modifies this`recvd, this`fsync, this`frames, this`sent, this`lastCheckpoint
      ensures |buf| < 26 ==> err == EIO && recvd == old(recvd) && fsync == old(fsync) && frames == old(frames) && sent == old(sent)
      ensures |buf| >= 26 ==> err == frameErr && frames == old(frames) + [buf[25..]] && fsync == fsyncAfter
                              && recvd == Max(RecvInt64(buf[1..9]), old(recvd))
      ensures old(sent) <= sent
      ensures forall j :: |old(sent)| <= j < |sent| ==> SentInPause(sent[j], old(recvd), pauses)
    {
      if |buf| < 26 { return EIO; }
      var walPos := RecvInt64(buf[1..9]);
      frames := frames + [buf[25..]];
      for i := 0 to |pauses|
        invariant recvd == old(recvd) && frames == old(frames) + [buf[25..]] && old(sent) <= sent
        invariant forall j :: |old(sent)| <= j < |sent| ==> SentInPause(sent[j], old(recvd), pauses)
      {
        fsync := pauses[i].fsync;
        assert PausedAt(pauses, i, fsync);
        err := Keepalive(pauses[i].now, true);
      }
      fsync := fsyncAfter;
      err := frameErr;
      recvd := if walPos > recvd then walPos else recvd;
    }

    /**
     One poll. The received position is the largest seen, and every update sent on the way
     reads back as the positions held when it was sent.
     */
    method Poll(reply: Reply, pauses: seq<Pause>, frameErr: int, fsyncAfter: Word64, now: Int64, canSend: bool)
      returns (err: int)
      modifies this
      ensures status == match reply case Data(buf) => (if |buf| > 0 then 1 else 0) case Ended(_) => -1 case Broken => -2
      ensures reply.Broken? || (reply.Ended? && !reply.clean) ==> err == EIO
      ensures reply.Ended? && reply.clean ==> err == 0
      ensures !reply.Data? ==> recvd == old(recvd) && fsync == old(fsync) && sent == old(sent) && frames == old(frames)
      ensures reply.Data? ==>
                var p := Position(reply.buf);
                && recvd == (if p.None? then old(recvd) else Max(p.value, old(recvd)))
                && (|reply.buf| > 0 && p.None? ==> err == EIO)
      ensures var isFrame := reply.Data? && Position(reply.buf).Some? && reply.buf[0] == 'w' as int;
              && frames == old(frames) + (if isFrame then [reply.buf[25..]] else [])
              && fsync == (if isFrame then fsyncAfter else old(fsync))
              && (isFrame && frameErr != 0 ==> err == frameErr)
      ensures reply.Data? && err == 0 && recvd != 0 ==> now - lastCheckpoint <= CHECKPOINT_INTERVAL
      ensures old(sent) <= sent
      ensures forall j :: |old(sent)| <= j < |sent| ==>
                || ReadStatus(sent[j]) == Some(Status(recvd, fsync, 0, now, false))
                || SentInPause(sent[j], old(recvd), pauses)
    {
      match reply
      case Ended(clean) =>
        status := -1;
        err := if clean then 0 else EIO;
      case Broken =>
        status := -2;
        err := EIO;
      case Data(buf) =>
        err := 0;
        if |buf| > 0 {
          status := 1;
          if buf[0] == 'k' as int {
            err := ParseKeepalive(buf, now, canSend);
          } else if buf[0] == 'w' as int {
            err := ParseXlogData(buf, pauses, frameErr, fsyncAfter);
          } else {
            err := EIO;
          }
        } else {
          status := 0;
        }
        if err == 0 {
          err := Keepalive(now, canSend);
        }
    }
  }
}
