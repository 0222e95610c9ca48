/**
 The receive half of the ARQ engine (`handleDATA`, `deliverPacket`, `sendACK`,
 `flushACK`) as functions on a value, and what every run of it keeps.
 */
module ArqReceiver {
  import opened Base

  const ACK_THRESHOLD: int := 32
  const MAX_SACK: int := 32

  /**
   `next` is recvNext, `buf` recvBuf, `queue` the delivered channel, `owed`
   unackedRecv, `timer` the identity of delayedACKTimer.
   */
  datatype Receiver = Receiver(
    next: nat, buf: map<nat, Bytes>, queue: seq<Bytes>, capacity: nat,
    owed: nat, timer: Option<nat>, timersMade: nat)

  function Initial(capacity: nat): Receiver {
    Receiver(0, map[], [], capacity, 0, None, 0)
  }

  datatype Ack = Ack(num: nat, sack: seq<nat>)

  /** Result of emptying the reorder buffer: `handed` went to deliverPacket, in order. */
  datatype Drained = Drained(next: nat, buf: map<nat, Bytes>, handed: seq<Bytes>)

  function Drain(next: nat, buf: map<nat, Bytes>): Drained
    decreases buf.Keys
  {
    if next in buf then
      var d := Drain(Inc(next), buf - {next});
      d.(handed := [buf[next]] + d.handed)
    else
      Drained(next, buf, [])
  }

  /** Payloads one DATA packet hands to deliverPacket. */
  function Handed(r: Receiver, seqNum: nat, payload: Bytes): seq<Bytes> {
    if seqNum == r.next then [payload] + Drain(Inc(r.next), r.buf).handed else []
  }

  /** The channel keeps what fits and drops the rest. */
  function Push(queue: seq<Bytes>, capacity: nat, handed: seq<Bytes>): seq<Bytes> {
    queue + handed[..Min(|handed|, Max(capacity - |queue|, 0))]
  }

  function Accept(r: Receiver, seqNum: nat, payload: Bytes): Receiver {
    if seqNum == r.next then
      var d := Drain(Inc(r.next), r.buf);
      r.(next := d.next, buf := d.buf, queue := Push(r.queue, r.capacity, [payload] + d.handed))
    else if seqNum > r.next then
      r.(buf := r.buf[seqNum := payload])
    else r
  }

  function Flush(r: Receiver): Receiver {
    r.(owed := 0, timer := None)
  }

  /** Whether this DATA packet is acknowledged at once. */
  predicate FlushesNow(r: Receiver, seqNum: nat) {
    r.owed + 1 >= ACK_THRESHOLD || seqNum > r.next
  }

  function ReceiveData(r: Receiver, seqNum: nat, payload: Bytes): Receiver {
    var a := Accept(r, seqNum, payload).(owed := r.owed + 1);
    if FlushesNow(r, seqNum) then Flush(a)
    else if a.timer.None? then a.(timer := Some(a.timersMade), timersMade := a.timersMade + 1)
    else a
  }

  /** Any selection of buffered numbers sendACK may report: map order is arbitrary. */
  ghost predicate IsSack(buf: map<nat, Bytes>, sack: seq<nat>) {
    && (forall i :: 0 <= i < |sack| ==> sack[i] in buf)
    && (forall i, j :: 0 <= i < j < |sack| ==> sack[i] != sack[j])
    && |sack| == Min(|buf|, MAX_SACK)
  }

  // ---- refinement of "least number never received" -----------------------

  /**
   The receiver holds exactly what `arrived` (sequence number to payload) says:
   next is the least number that never arrived, the buffer is what arrived
   above it, and everything below was handed over once, in order.
   */
  ghost predicate Tracks(r: Receiver, handed: seq<Bytes>, arrived: map<nat, Bytes>) {
    TracksParts(r.next, r.buf, handed, arrived) && r.next !in arrived
  }

  ghost predicate TracksParts(next: nat, buf: map<nat, Bytes>, handed: seq<Bytes>, arrived: map<nat, Bytes>) {
    && |handed| == next < U32
    && (forall s <- arrived :: s < U32 - 1)
    && (forall s :: 0 <= s < next ==> s in arrived && handed[s] == arrived[s])
    && (forall s <- buf :: s in arrived && next <= s && buf[s] == arrived[s])
    && (forall s <- arrived :: next < s ==> s in buf)
  }

  lemma {:induction false} DrainTracks(next: nat, buf: map<nat, Bytes>, handed: seq<Bytes>, arrived: map<nat, Bytes>)
    requires TracksParts(next, buf, handed, arrived)
    requires next in arrived ==> next in buf
    ensures var d := Drain(next, buf);
            && TracksParts(d.next, d.buf, handed + d.handed, arrived)
            && d.next !in arrived && next <= d.next
            && d.next !in d.buf
    decreases buf.Keys
  {
    if next in buf {
      DrainTracks(Inc(next), buf - {next}, handed + [buf[next]], arrived);
      var d := Drain(Inc(next), buf - {next});
      assert handed + [buf[next]] + d.handed == handed + Drain(next, buf).handed;
    } else {
      assert handed + [] == handed;
    }
  }

  lemma AcceptTracks(r: Receiver, handed: seq<Bytes>, arrived: map<nat, Bytes>, seqNum: nat, payload: Bytes)
    requires Tracks(r, handed, arrived)
    requires seqNum < U32 - 1 && (seqNum in arrived ==> arrived[seqNum] == payload)
    ensures Tracks(Accept(r, seqNum, payload), handed + Handed(r, seqNum, payload), arrived[seqNum := payload])
    ensures r.next <= Accept(r, seqNum, payload).next
  {
    var arrived' := arrived[seqNum := payload];
    if seqNum == r.next {
      DrainTracks(Inc(r.next), r.buf, handed + [payload], arrived');
      assert handed + [payload] + Drain(Inc(r.next), r.buf).handed == handed + Handed(r, seqNum, payload);
    } else {
      assert handed + [] == handed;
    }
  }

  /** A receiver that tracks `arrived` is determined by it. */
  lemma TracksIsFunctional(r1: Receiver, h1: seq<Bytes>, r2: Receiver, h2: seq<Bytes>, arrived: map<nat, Bytes>)
    requires Tracks(r1, h1, arrived) && Tracks(r2, h2, arrived)
    ensures r1.next == r2.next && r1.buf == r2.buf && h1 == h2
  {
    assert r1.next == r2.next by {
      if r1.next < r2.next { assert false; }
      if r2.next < r1.next { assert false; }
    }
  }

  /** Feed arrivals to a fresh receiver; also what was handed over. */
  function ReceiveAll(capacity: nat, arrivals: seq<nat>, payloadOf: nat -> Bytes): (Receiver, seq<Bytes>) {
    if arrivals == [] then (Initial(capacity), [])
    else
      var (r, handed) := ReceiveAll(capacity, arrivals[..|arrivals| - 1], payloadOf);
      var s := arrivals[|arrivals| - 1];
      (ReceiveData(r, s, payloadOf(s)), handed + Handed(r, s, payloadOf(s)))
  }

  ghost function Arrived(arrivals: seq<nat>, payloadOf: nat -> Bytes): map<nat, Bytes> {
    map s | s in arrivals :: payloadOf(s)
  }

  /** After any arrival sequence the receiver is the least-gap specification. */
  lemma {:induction false} ReceiverRefinesLeastGap(capacity: nat, arrivals: seq<nat>, payloadOf: nat -> Bytes)
    requires forall s <- arrivals :: s < U32 - 1
    ensures var (r, handed) := ReceiveAll(capacity, arrivals, payloadOf);
            Tracks(r, handed, Arrived(arrivals, payloadOf))
  {
    if arrivals != [] {
      var init, s := arrivals[..|arrivals| - 1], arrivals[|arrivals| - 1];
      assert arrivals == init + [s];
      assert s in arrivals && forall t <- init :: t in arrivals;
      ReceiverRefinesLeastGap(capacity, init, payloadOf);
      var (r, handed) := ReceiveAll(capacity, init, payloadOf);
      AcceptTracks(r, handed, Arrived(init, payloadOf), s, payloadOf(s));
      assert Arrived(init, payloadOf)[s := payloadOf(s)] == Arrived(arrivals, payloadOf);
    }
  }

  /** Order and repetition of arrivals do not matter, only their set. */
  lemma ArrivalOrderIrrelevant(capacity: nat, a: seq<nat>, b: seq<nat>, payloadOf: nat -> Bytes)
    requires forall s <- a :: s < U32 - 1
    requires forall s :: s in a <==> s in b
    ensures var (ra, ha) := ReceiveAll(capacity, a, payloadOf);
            var (rb, hb) := ReceiveAll(capacity, b, payloadOf);
            ra.next == rb.next && ra.buf == rb.buf && ha == hb
  {
    ReceiverRefinesLeastGap(capacity, a, payloadOf);
    ReceiverRefinesLeastGap(capacity, b, payloadOf);
    assert Arrived(a, payloadOf) == Arrived(b, payloadOf);
    var (ra, ha) := ReceiveAll(capacity, a, payloadOf);
    var (rb, hb) := ReceiveAll(capacity, b, payloadOf);
    TracksIsFunctional(ra, ha, rb, hb, Arrived(a, payloadOf));
  }
}
