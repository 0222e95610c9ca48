/**
 No deadlock: as long as everything the receiver lacks is still in flight with
 a retransmission left, some finite continuation delivers and acknowledges all.
 */
module Progress {
  import opened Base
  import opened ArqReceiver
  import opened ArqSender
  import opened Transport
  import S = SendSide
  import R = ReceiveSide
  import Rtt = RttEstimator

  /** Nothing the receiver lacks has been given up, burned, or used up its retransmissions. */
  ghost predicate Recoverable(x: State) {
    forall n :: 0 <= n < |x.snd.log| && n !in x.rcv.arrived ==>
      n in x.snd.s.unacked && x.snd.s.unacked[n].retries < MAX_RETRANSMISSIONS
  }

  /** Room in the channel for everything not yet handed over. */
  ghost predicate HasRoom(x: State) {
    |x.rcv.r.queue| + |x.snd.log| - x.rcv.r.next <= x.rcv.r.capacity
  }

  ghost predicate AllDelivered(x: State) {
    x.rcv.r.next == |x.snd.log|
  }

  ghost predicate Quiescent(x: State) {
    AllDelivered(x) && x.snd.s.unacked == map[]
  }

  // ---- choices the environment can always make ------------------------------

  /** Some listing of any finite set. */
  lemma {:induction false} Listing(keys: set<nat>) returns (xs: seq<nat>)
    ensures forall n :: n in xs <==> n in keys
    ensures forall i, j :: 0 <= i < j < |xs| ==> xs[i] != xs[j]
    ensures |xs| == |keys|
  {
    if keys == {} {
      xs := [];
    } else {
      var n :| n in keys;
      var rest := Listing(keys - {n});
      xs := [n] + rest;
    }
  }

  lemma SackExists(buf: map<nat, Bytes>) returns (sack: seq<nat>)
    ensures IsSack(buf, sack)
  {
    var all := Listing(buf.Keys);
    sack := all[..Min(|buf|, MAX_SACK)];
  }

  lemma OrderExists(unacked: map<nat, Inflight>, num: nat) returns (order: seq<nat>)
    ensures IsOrder(unacked, num, order)
  {
    order := Listing(set n | n in unacked && n < num);
  }

  lemma ExecOne(x: State, e: Event)
    ensures Exec(x, [e]) == Step(x, e)
  {
    assert [e][..0] == [];
  }

  lemma {:induction false} ExecSplits(x: State, a: seq<Event>, b: seq<Event>)
    ensures Exec(x, a + b) == Exec(Exec(x, a), b)
  {
    if b == [] {
      assert a + b == a;
    } else {
      assert (a + b)[..|a + b| - 1] == a + b[..|b| - 1];
      ExecSplits(x, a, b[..|b| - 1]);
    }
  }

  // ---- the four phases --------------------------------------------------------

  /** Waiting out the timeout and ticking puts every lacking packet on the wire again. */
  lemma Retransmit(x: State) returns (e: Event, y: State)
    requires Inv(x) && Recoverable(x)
    ensures y == Step(x, e) && Inv(y)
    ensures y.rcv == x.rcv && y.snd.log == x.snd.log && y.snd.clock >= x.snd.clock
    ensures forall n <- y.snd.s.unacked :: (n, y.snd.s.unacked[n].payload) in y.wire
    ensures forall n :: 0 <= n < |y.snd.log| && n !in y.rcv.arrived ==> n in y.snd.s.unacked
  {
    var now := x.snd.clock + Rtt.MAX_RTO + 1;
    e := SendSideStep(S.Tick({}, now));
    y := Step(x, e);
    assert Inv(y) by { StepKeepsInv(x, e); }
    LateTickRetransmits(x, now);
  }

  lemma LateTickRetransmits(x: State, now: int)
    requires Recoverable(x) && Healthy(x.snd.s) && S.Timely(x.snd) && now > x.snd.clock + Rtt.MAX_RTO
    ensures var y := Step(x, SendSideStep(S.Tick({}, now)));
            && y.rcv == x.rcv && y.snd.log == x.snd.log && y.snd.clock == now
            && (forall n <- y.snd.s.unacked :: (n, y.snd.s.unacked[n].payload) in y.wire)
            && (forall n :: 0 <= n < |y.snd.log| && n !in y.rcv.arrived ==> n in y.snd.s.unacked)
  {
    TickAfterTimeout(x.snd.s, now);
    var y := Step(x, SendSideStep(S.Tick({}, now)));
    forall n | n in y.snd.s.unacked ensures (n, y.snd.s.unacked[n].payload) in y.wire {
      assert (n, x.snd.s.unacked[n].payload) in Transmitted(x.snd, S.Tick({}, now));
    }
  }

  /**
   Once every packet is late, each one survives a cycle exactly when it has a
   retransmission left, and is sent again.
   */
  lemma TickAfterTimeout(s: Sender, now: int)
    requires s.rtt.rto <= Rtt.MAX_RTO && forall n <- s.unacked :: s.unacked[n].sentAt < now - Rtt.MAX_RTO
    ensures var t := Tick(s, now, {});
            && (forall n :: n in t.unacked <==> n in s.unacked && s.unacked[n].retries < MAX_RETRANSMISSIONS)
            && (forall n <- t.unacked :: n in Resent(s, now, {}) && t.unacked[n].payload == s.unacked[n].payload)
  {
    assert Late(s, now) == s.unacked.Keys;
  }

  lemma WireCopyMayArrive(x: State, n: nat, payload: Bytes, sack: seq<nat>)
    requires Inv(x) && (n, payload) in x.wire
    requires IsSack(Accept(x.rcv.r, n, payload).buf, sack)
    ensures R.Enabled(x.rcv, R.Arrive(n, payload, sack, true))
  {
    assert Genuine(x.snd.log, (n, payload).0, (n, payload).1);
    assert n in x.rcv.arrived ==> Genuine(x.snd.log, n, x.rcv.arrived[n]);
  }

  lemma ArrivalEffect(x: R.Side, n: nat, payload: Bytes, sack: seq<nat>)
    requires Tracks(x.r, x.handed, x.arrived) && R.Enabled(x, R.Arrive(n, payload, sack, true))
    ensures var y := R.OnArrive(x, n, payload, sack, true);
            && y.r.next >= x.r.next && (n == x.r.next ==> y.r.next > n)
            && (FlushesNow(x.r, n) ==> y.acks == x.acks + [Ack(y.r.next, sack)])
            && (!FlushesNow(x.r, n) ==> y.acks == x.acks && y.r.timer.Some?)
  {
    AcceptTracks(x.r, x.handed, x.arrived, n, payload);
    if n == x.r.next {
      assert n in x.arrived[n := payload];
    }
  }

  /** One copy from the wire reaches the receiver. */
  lemma Deliver(x: State, n: nat, payload: Bytes) returns (e: Event, y: State)
    requires Inv(x) && (n, payload) in x.wire
    ensures y == Step(x, e) && Inv(y)
    ensures y.snd == x.snd && y.wire == x.wire && e.DataIn? && e.payload == payload
    ensures R.Enabled(x.rcv, R.Arrive(n, payload, e.sack, true))
    ensures y.rcv == R.OnArrive(x.rcv, n, payload, e.sack, true)
    ensures y.ackWire == x.ackWire + (set i | |x.rcv.acks| <= i < |y.rcv.acks| :: y.rcv.acks[i])
  {
    var sack := SackExists(Accept(x.rcv.r, n, payload).buf);
    e := DataIn(n, payload, sack, true);
    WireCopyMayArrive(x, n, payload, sack);
    y := Step(x, e);
    StepKeepsInv(x, e);
  }

  /** An arrival that finds room for everything outstanding overflows nothing and keeps that room. */
  lemma RoomIsKept(x: R.Side, n: nat, payload: Bytes, sack: seq<nat>, outstanding: nat)
    requires R.Inv(x) && R.Enabled(x, R.Arrive(n, payload, sack, true))
    requires Accept(x.r, n, payload).next <= outstanding
    requires |x.r.queue| + outstanding - x.r.next <= x.r.capacity
    ensures var y := R.OnArrive(x, n, payload, sack, true);
            && y.overflowed == x.overflowed
            && |y.r.queue| + outstanding - y.r.next <= y.r.capacity
  {
    AcceptTracks(x.r, x.handed, x.arrived, n, payload);
    assert |Handed(x.r, n, payload)| == Accept(x.r, n, payload).next - x.r.next;
  }

  lemma NextIsSubmitted(x: State)
    requires Inv(x)
    ensures x.rcv.r.next <= |x.snd.log|
  {
    HandedWasSubmitted(x);
  }

  /** Delivering what is lacking, lowest number first, advances recvNext to the end. */
  lemma {:induction false} DeliverAll(x: State) returns (es: seq<Event>, y: State)
    requires Inv(x)
    requires forall n <- x.snd.s.unacked :: (n, x.snd.s.unacked[n].payload) in x.wire
    requires forall n :: 0 <= n < |x.snd.log| && n !in x.rcv.arrived ==> n in x.snd.s.unacked
    ensures y == Exec(x, es) && Inv(y) && AllDelivered(y)
    ensures y.snd == x.snd && y.wire == x.wire
    ensures HasRoom(x) ==> HasRoom(y) && y.rcv.overflowed == x.rcv.overflowed
    decreases |x.snd.log| - x.rcv.r.next
  {
    NextIsSubmitted(x);
    var n := x.rcv.r.next;
    if n == |x.snd.log| {
      es, y := [], x;
    } else {
      var e, z := Deliver(x, n, x.snd.s.unacked[n].payload);
      ArrivalEffect(x.rcv, n, e.payload, e.sack);
      NextIsSubmitted(z);
      if HasRoom(x) {
        RoomIsKept(x.rcv, n, e.payload, e.sack, |x.snd.log|);
      }
      var rest;
      rest, y := DeliverAll(z);
      es := [e] + rest;
      ExecOne(x, e);
      ExecSplits(x, [e], rest);
    }
  }

  /** An armed delayed-ACK timer fires. */
  lemma FireTimer(x: State) returns (e: Event, y: State, ack: Ack)
    requires Inv(x) && x.rcv.r.timer.Some?
    ensures y == Step(x, e) && Inv(y)
    ensures y.snd == x.snd && y.rcv.r.next == x.rcv.r.next && y.rcv.overflowed == x.rcv.overflowed
    ensures ack in y.ackWire && ack.num == x.rcv.r.next
  {
    var sack := SackExists(x.rcv.r.buf);
    e := ReceiveSideStep(R.Fire(x.rcv.r.timer.value, sack, true));
    y := Step(x, e);
    StepKeepsInv(x, e);
    ack := Ack(x.rcv.r.next, sack);
    assert y.rcv.acks[|x.rcv.acks|] == ack;
  }

  /** A duplicate of a packet in flight makes the receiver acknowledge everything, at once or by its timer. */
  lemma ProvokeAck(x: State, n: nat) returns (es: seq<Event>, y: State, ack: Ack)
    requires Inv(x) && AllDelivered(x)
    requires n in x.snd.s.unacked && (n, x.snd.s.unacked[n].payload) in x.wire
    ensures y == Exec(x, es) && Inv(y) && AllDelivered(y)
    ensures y.snd == x.snd && ack in y.ackWire && ack.num == |x.snd.log|
    ensures HasRoom(x) ==> y.rcv.overflowed == x.rcv.overflowed
  {
    var e, z := Deliver(x, n, x.snd.s.unacked[n].payload);
    ArrivalEffect(x.rcv, n, e.payload, e.sack);
    NextIsSubmitted(z);
    if HasRoom(x) {
      RoomIsKept(x.rcv, n, e.payload, e.sack, |x.snd.log|);
    }
    ExecOne(x, e);
    if FlushesNow(x.rcv.r, n) {
      es, y, ack := [e], z, Ack(z.rcv.r.next, e.sack);
      assert z.rcv.acks[|x.rcv.acks|] == ack;
    } else {
      var f;
      f, y, ack := FireTimer(z);
      es := [e] + [f];
      ExecOne(z, f);
      ExecSplits(x, [e], [f]);
    }
  }

  lemma AckEmptiesFlight(x: S.Side, ack: Ack, order: seq<nat>, now: int)
    requires S.Conserved(x) && IsOrder(x.s.unacked, ack.num, order) && ack.num == |x.log|
    ensures S.OnAck(x, ack, order, now).s.unacked == map[]
  {
    HandleAckEffects(x.s, ack.num, ack.sack, order, now);
    assert S.OnAck(x, ack, order, now).s.unacked.Keys == {};
  }

  /** A cumulative ACK for everything empties the flight. */
  lemma AckAll(x: State, ack: Ack) returns (e: Event, y: State)
    requires S.Conserved(x.snd) && ack in x.ackWire && ack.num == |x.snd.log|
    ensures y == Step(x, e)
    ensures y.snd.s.unacked == map[] && y.snd.log == x.snd.log && y.rcv == x.rcv
  {
    var order := OrderExists(x.snd.s.unacked, ack.num);
    e := SendSideStep(S.AckIn(ack, order, x.snd.clock));
    y := Step(x, e);
    AckEmptiesFlight(x.snd, ack, order, x.snd.clock);
  }

  /** `es` brings the transfer to rest with everything submitted handed over, without overflow if there was room. */
  ghost predicate Settles(x: State, es: seq<Event>) {
    var y := Exec(x, es);
    && Quiescent(y) && y.snd.log == x.snd.log
    && (HasRoom(x) && !x.rcv.overflowed ==> !y.rcv.overflowed)
  }

  lemma RetransmitAndDeliver(x: State) returns (es: seq<Event>, y: State)
    requires Inv(x) && Recoverable(x)
    ensures y == Exec(x, es) && Inv(y) && AllDelivered(y) && y.snd.log == x.snd.log
    ensures forall n <- y.snd.s.unacked :: (n, y.snd.s.unacked[n].payload) in y.wire
    ensures HasRoom(x) ==> HasRoom(y) && y.rcv.overflowed == x.rcv.overflowed
  {
    var tick, z := Retransmit(x);
    var rest;
    rest, y := DeliverAll(z);
    es := [tick] + rest;
    ExecOne(x, tick);
    ExecSplits(x, [tick], rest);
  }

  lemma AcknowledgeRest(x: State) returns (es: seq<Event>, y: State)
    requires Inv(x) && AllDelivered(x)
    requires forall n <- x.snd.s.unacked :: (n, x.snd.s.unacked[n].payload) in x.wire
    ensures y == Exec(x, es) && Quiescent(y) && y.snd.log == x.snd.log
    ensures HasRoom(x) ==> y.rcv.overflowed == x.rcv.overflowed
  {
    if x.snd.s.unacked == map[] {
      es, y := [], x;
    } else {
      var n :| n in x.snd.s.unacked;
      var provoke, z, ack := ProvokeAck(x, n);
      var last;
      last, y := AckAll(z, ack);
      es := provoke + [last];
      ExecOne(z, last);
      ExecSplits(x, provoke, [last]);
    }
  }

  lemma SettlingRun(x: State)
    requires Inv(x) && Recoverable(x)
    ensures exists es :: Settles(x, es)
  {
    var a, y := RetransmitAndDeliver(x);
    var b, z := AcknowledgeRest(y);
    ExecSplits(x, a, b);
    assert Exec(x, a + b) == z;
    assert Settles(x, a + b);
  }

  /**
   From every reachable state in which nothing lacking is lost for good, and
   whatever the network has dropped so far, a finite continuation (time
   passing, one retransmission cycle, deliveries, one ACK) settles the transfer.
   */
  lemma NoDeadlock(capacity: nat, past: seq<Event>)
    requires Recoverable(Exec(Transport.Initial(capacity), past))
    ensures exists es :: Settles(Exec(Transport.Initial(capacity), past), es)
  {
    RunKeepsInv(capacity, past);
    SettlingRun(Exec(Transport.Initial(capacity), past));
  }
}
