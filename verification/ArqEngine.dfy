/**
 The ARQ engine object of arq.go. Every lock-protected region is one method,
 proved against the functions of ArqSender and ArqReceiver. `now` is the clock
 reading of the region; socket writes and encoding enter as parameters.
 */
module Engine {
  import opened Base
  import opened ArqReceiver
  import opened ArqSender
  import opened Fec
  import opened Pacing
  import Rtt = RttEstimator
  import Cwnd = CongestionWindow

  datatype SendResult = Queued(seqNum: nat, parity: seq<Parity>) | WindowFull | EngineClosed | EncodeFailed

  /** The packets HandlePacket looks at; every other type is ignored. */
  datatype Incoming =
    | AckPacket(ackNum: nat, hasSack: bool, blocks: seq<nat>)
    | DataPacket(seqNum: nat, payload: Bytes)
    | FecPacket(parity: Parity)
    | OtherPacket

  /** Rate and burst updatePacing computes from the estimates, before clamping. */
  function RawRate(btlBw: real): int {
    (btlBw * 1_000_000_000.0 / 1200.0).Floor
  }

  function RawBurst(btlBw: real, minRtt: nat): int {
    (btlBw * minRtt as real / 1200.0).Floor
  }

  /** One updatePacing call, as the pacer's settings see it. */
  function PacedBy(b: Bucket, btlBw: real, minRtt: nat): Bucket {
    if btlBw > 0.0 && minRtt > 0 then Apply(b, PacingEvents(RawRate(btlBw), RawBurst(btlBw, minRtt))) else b
  }

  /** The whole number of packets of 1200 bytes in `amount` bytes. */
  predicate InPackets(amount: real, n: int) {
    n as real * 1200.0 <= amount < (n + 1) as real * 1200.0
  }

  predicate IsPaced(b: Bucket, c: Bucket, btlBw: real, minRtt: nat, rate: int, burst: int) {
    && InPackets(btlBw * 1_000_000_000.0, rate) && InPackets(btlBw * minRtt as real, burst)
    && c.rate == (if rate < 1000 then 1000.0 else if rate > 50000 then 50000.0 else rate as real)
    && c.maxTokens == (if burst < 8 then 8 else if burst > 128 then 128 else burst)
    && c.tokens == (if b.tokens > c.maxTokens as real then c.maxTokens as real else b.tokens)
    && c.lastRefill == b.lastRefill
  }

  /**
   With estimates the pacer's rate is the bandwidth in packets per second, within
   1000 and 50000, and its burst the product of bandwidth and round trip in
   packets, within 8 and 128; without them nothing changes.
   */
  lemma PacingMatches(b: Bucket, btlBw: real, minRtt: nat)
    ensures var c := PacedBy(b, btlBw, minRtt);
            if btlBw > 0.0 && minRtt > 0 then exists rate, burst :: IsPaced(b, c, btlBw, minRtt, rate, burst)
            else c == b
  {
    if btlBw > 0.0 && minRtt > 0 {
      PacingApplied(b, RawRate(btlBw), RawBurst(btlBw, minRtt));
      FloorInPackets(btlBw * 1_000_000_000.0, RawRate(btlBw));
      FloorInPackets(btlBw * minRtt as real, RawBurst(btlBw, minRtt));
      assert IsPaced(b, PacedBy(b, btlBw, minRtt), btlBw, minRtt, RawRate(btlBw), RawBurst(btlBw, minRtt));
    }
  }

  lemma FloorInPackets(amount: real, n: int)
    requires n == (amount / 1200.0).Floor
    ensures InPackets(amount, n)
  {
  }

  class ArqEngine {
    var sendSeq: nat
    var sendWindow: int
    var ssthresh: int
    var unacked: map<nat, Inflight>

    var recvNext: nat
    var recvBuf: map<nat, Bytes>
    var delivered: seq<Bytes>
    const deliverBufSize: nat
    var unackedRecv: nat
    var delayedAckTimer: Option<nat>
    var timersMade: nat

    var srtt: int
    var rttvar: int
    var rto: int
    var rttInit: bool
    var minRtt: nat
    var btlBw: real
    var bytesDelivered: nat
    var packetsLost: nat
    var packetsSent: nat

    var closed: bool
    const pacer: Pacer
    const fecEnc: FecEncoder
    const fecDec: FecDecoder

    function Snd(): Sender
      reads this
    {
      Sender(sendSeq, Cwnd.Window(sendWindow, ssthresh), unacked, Rtt.Rtt(srtt, rttvar, rto, rttInit),
             minRtt, btlBw, bytesDelivered, packetsLost, packetsSent)
    }

    /** A closed engine has no room in its channel. */
    function Rcv(): Receiver
      reads this
    {
      Receiver(recvNext, recvBuf, delivered, if closed then 0 else deliverBufSize,
               unackedRecv, delayedAckTimer, timersMade)
    }

    constructor (deliverBufSize: nat, pacer: Pacer, fecEnc: FecEncoder, fecDec: FecDecoder)
      ensures Snd() == ArqSender.INITIAL && Rcv() == ArqReceiver.Initial(deliverBufSize) && !closed
      ensures this.pacer == pacer && this.fecEnc == fecEnc && this.fecDec == fecDec
    {
      sendSeq, sendWindow, ssthresh, unacked := 0, Cwnd.INITIAL_WINDOW, Cwnd.INITIAL_SSTHRESH, map[];
      recvNext, recvBuf, delivered, unackedRecv, delayedAckTimer, timersMade := 0, map[], [], 0, None, 0;
      this.deliverBufSize := deliverBufSize;
      srtt, rttvar, rto, rttInit := 0, 0, Rtt.INITIAL_RTO, false;
      minRtt, btlBw, bytesDelivered, packetsLost, packetsSent := INITIAL_MIN_RTT, 0.0, 0, 0, 0;
      closed := false;
      this.pacer, this.fecEnc, this.fecDec := pacer, fecEnc, fecDec;
    }

    // ---- sending ------------------------------------------------------------

    /**
     One evaluation of Send's wait loop, and the rest of Send if the window is
     open. `size` is the length of the encoded packet, None if encoding fails:
     the sequence number is then used up although nothing is queued.
     */
    method Send(payload: Bytes, size: Option<nat>, now: int) returns (r: SendResult)
      requires fecEnc.code.k > 0
      requires fecEnc.dataCount > 0 ==>
                 fecEnc.dataCount < fecEnc.code.k && |fecEnc.shards| == fecEnc.code.k + fecEnc.code.m
      modifies this`sendSeq, this`unacked, this`packetsSent, fecEnc
      ensures r.EngineClosed? <==> old(closed)
      ensures r.WindowFull? <==> !old(closed) && |old(unacked)| >= old(sendWindow)
      ensures r.EngineClosed? || r.WindowFull? ==> Snd() == old(Snd())
      ensures r.EncodeFailed? ==> size.None? && Snd() == old(Snd()).(next := Inc(old(sendSeq)))
      ensures r.Queued? ==>
                && size.Some? && r.seqNum == old(sendSeq)
                && Snd() == Submit(old(Snd()), payload, size.value, now)
                && (fecEnc.View(), r.parity) == PacketAdded(old(fecEnc.View()), r.seqNum, payload)
      ensures !r.Queued? ==> fecEnc.View() == old(fecEnc.View())
    {
      if closed {
        return EngineClosed;
      }
      if |unacked| >= sendWindow {
        return WindowFull;
      }
      var n := sendSeq;
      sendSeq := Inc(sendSeq);
      if size.None? {
        return EncodeFailed;
      }
      unacked := unacked[n := Inflight(payload, now, 0, bytesDelivered, size.value)];
      packetsSent := packetsSent + 1;
      var parity := fecEnc.Add(n, payload);
      r := Queued(n, parity);
    }

    method UpdateRtt(rtt: nat)
      modifies this
      ensures Snd() == old(Snd()).(rtt := Rtt.Sample(old(Snd()).rtt, rtt))
      ensures Rcv() == old(Rcv()) && closed == old(closed)
    {
      if !rttInit {
        srtt := rtt;
        rttvar := rtt / 2;
        rttInit := true;
      } else {
        srtt := srtt * 7 / 8 + rtt / 8;
        var diff := srtt - rtt;
        if diff < 0 {
          diff := -diff;
        }
        rttvar := rttvar * 3 / 4 + diff / 4;
      }
      rto := srtt + 4 * rttvar;
      if rto < Rtt.MIN_RTO {
        rto := Rtt.MIN_RTO;
      }
      if rto > Rtt.MAX_RTO {
        rto := Rtt.MAX_RTO;
      }
    }

    method ProcessAckedPacket(n: nat, now: int)
      requires n in unacked
      modifies this
      ensures Snd() == ProcessAcked(old(Snd()), n, now)
      ensures Rcv() == old(Rcv()) && closed == old(closed)
    {
      var inf := unacked[n];
      bytesDelivered := bytesDelivered + |inf.payload|;
      if inf.retries == 0 {
        var deliveryTime := Elapsed(now, inf.sentAt);
        UpdateRtt(deliveryTime);
        if minRtt == 0 || deliveryTime < minRtt {
          minRtt := deliveryTime;
        }
        if deliveryTime > 0 {
          btlBw := Filter(btlBw, DeliveryRate(bytesDelivered, inf.delivered, deliveryTime));
        }
      }
      unacked := unacked - {n};
    }

    /** `order` is the order in which the cumulative part happened to visit the packets. */
    method HandleAck(ackNum: nat, hasSack: bool, blocks: seq<nat>, now: int) returns (ghost order: seq<nat>)
      modifies this, pacer
      ensures IsOrder(old(unacked), ackNum, order)
      ensures Snd() == ArqSender.HandleAck(old(Snd()), ackNum, if hasSack then blocks else [], order, now)
      ensures pacer.View() == PacedBy(old(pacer.View()), btlBw, minRtt)
      ensures Rcv() == old(Rcv()) && closed == old(closed)
    {
      order := HandleCumulative(ackNum, now);
      if hasSack {
        HandleSack(blocks, now);
      }
      UpdatePacing();
      UpdateWindow();
    }

    method HandleCumulative(ackNum: nat, now: int) returns (ghost order: seq<nat>)
      modifies this
      ensures IsOrder(old(unacked), ackNum, order)
      ensures Snd() == ProcessAll(old(Snd()), order, now).(packetsLost := old(packetsLost) + |order|)
      ensures Rcv() == old(Rcv()) && closed == old(closed)
    {
      order := [];
      var todo := set n | n in unacked && n < ackNum;
      while todo != {}
        invariant todo <= unacked.Keys && Visiting(old(unacked), ackNum, todo, order)
        invariant Snd() == ProcessAll(old(Snd()), order, now).(packetsLost := old(packetsLost) + |order|)
        invariant Rcv() == old(Rcv()) && closed == old(closed)
        decreases todo
      {
        var n :| n in todo;
        ProcessOneMore(old(Snd()), order, n, now, old(packetsLost) + |order| + 1);
        VisitOne(old(unacked), ackNum, todo, order, n);
        packetsLost := packetsLost + 1;
        ProcessAckedPacket(n, now);
        todo := todo - {n};
        order := order + [n];
      }
    }

    method HandleSack(blocks: seq<nat>, now: int)
      modifies this
      ensures Snd() == ProcessAll(old(Snd()), blocks, now)
      ensures Rcv() == old(Rcv()) && closed == old(closed)
    {
      for i := 0 to |blocks|
        invariant Snd() == ProcessAll(old(Snd()), blocks[..i], now)
        invariant Rcv() == old(Rcv()) && closed == old(closed)
      {
        assert blocks[..i + 1][..i] == blocks[..i];
        if blocks[i] in unacked {
          ProcessAckedPacket(blocks[i], now);
        }
      }
      assert blocks[..|blocks|] == blocks;
    }

    method UpdatePacing()
      modifies pacer
      ensures pacer.View() == PacedBy(old(pacer.View()), btlBw, minRtt)
    {
      if btlBw > 0.0 && minRtt > 0 {
        var rate := RawRate(btlBw);
        if rate < 1000 {
          rate := 1000;
        }
        if rate > MAX_RATE {
          rate := MAX_RATE;
        }
        pacer.SetRate(rate);
        var bdp := RawBurst(btlBw, minRtt);
        if bdp < 8 {
          bdp := 8;
        }
        if bdp > MAX_BURST {
          bdp := MAX_BURST;
        }
        pacer.SetBurst(bdp);
        PacingApplied(old(pacer.View()), RawRate(btlBw), RawBurst(btlBw, minRtt));
      }
    }

    method UpdateWindow()
      modifies this
      ensures Snd() == old(Snd()).(window := Cwnd.OnAck(old(Snd()).window, Target(old(btlBw), old(minRtt))))
      ensures Rcv() == old(Rcv()) && closed == old(closed)
    {
      var raw := Target(btlBw, minRtt);
      if raw.Some? {
        var target := raw.value;
        if target < Cwnd.MIN_WINDOW {
          target := Cwnd.MIN_WINDOW;
        }
        if target > Cwnd.MAX_WINDOW {
          target := Cwnd.MAX_WINDOW;
        }
        if sendWindow < target {
          sendWindow := Min(sendWindow + Max(sendWindow / 10, 16), Cwnd.MAX_WINDOW);
        } else if sendWindow > target {
          sendWindow := Max(sendWindow - Max(sendWindow / 20, 8), Cwnd.MIN_WINDOW);
        }
      } else if sendWindow < ssthresh {
        sendWindow := Min(sendWindow * 2, Cwnd.MAX_WINDOW);
      } else {
        sendWindow := Min(sendWindow + 1, Cwnd.MAX_WINDOW);
      }
    }

    /** The locked part of one retransmission cycle; `failed` cannot be encoded. `sent` went on the wire again. */
    method RetransmitCycle(now: int, failed: set<nat>) returns (sent: set<nat>)
      modifies this`unacked, this`ssthresh, this`sendWindow, this`rto
      ensures !old(closed) ==> Snd() == Tick(old(Snd()), now, failed) && sent == Resent(old(Snd()), now, failed)
      ensures old(closed) ==> Snd() == old(Snd()) && sent == {}
      ensures Rcv() == old(Rcv()) && closed == old(closed)
    {
      if closed {
        return {};
      }
      var currentRto := rto;
      var toRetransmit := set n | n in unacked && now - unacked[n].sentAt > currentRto;
      assert toRetransmit == Late(Snd(), now);
      sent := RetryAll(toRetransmit, now, failed);
      assert GivenUp(old(Snd()), now) == set n | n in toRetransmit && old(unacked)[n].retries >= MAX_RETRANSMISSIONS;
      if toRetransmit != {} {
        ssthresh := Max(sendWindow * 85 / 100, Cwnd.MIN_WINDOW);
        sendWindow := ssthresh;
        rto := Min(rto * 2, Rtt.MAX_RTO);
      } else {
        assert unacked == old(unacked);
      }
    }

    /** Each listed packet is given up after eight retries, and otherwise sent again unless it cannot be encoded. */
    method RetryAll(toRetransmit: set<nat>, now: int, failed: set<nat>) returns (sent: set<nat>)
      requires toRetransmit <= unacked.Keys
      modifies this`unacked
      ensures var gone := set n | n in toRetransmit && old(unacked)[n].retries >= MAX_RETRANSMISSIONS;
              && sent == toRetransmit - gone - failed
              && unacked == map n | n in old(unacked) && n !in gone ::
                   if n in toRetransmit then Retried(old(unacked)[n], now, n !in failed) else old(unacked)[n]
    {
      sent := {};
      var todo := toRetransmit;
      ghost var gone := set n | n in toRetransmit && old(unacked)[n].retries >= MAX_RETRANSMISSIONS;
      while todo != {}
        invariant todo <= toRetransmit
        invariant unacked.Keys == old(unacked).Keys - (gone - todo)
        invariant forall n <- unacked ::
                    unacked[n] == if n in toRetransmit - todo then Retried(old(unacked)[n], now, n !in failed)
                                  else old(unacked)[n]
        invariant sent == (toRetransmit - todo) - gone - failed
        decreases todo
      {
        var n :| n in todo;
        todo := todo - {n};
        var inf := unacked[n];
        if inf.retries + 1 > MAX_RETRANSMISSIONS {
          unacked := unacked - {n};
        } else if n in failed {
          unacked := unacked[n := inf.(retries := inf.retries + 1)];
        } else {
          unacked := unacked[n := inf.(retries := inf.retries + 1, sentAt := now)];
          sent := sent + {n};
        }
      }
    }

    // ---- receiving ------------------------------------------------------------

    method DeliverPacket(payload: Bytes)
      modifies this`delivered
      ensures delivered == Push(old(delivered), Rcv().capacity, [payload])
    {
      if closed {
        return;
      }
      if |delivered| < deliverBufSize {
        delivered := delivered + [payload];
      }
    }

    /** sendACK: which of the buffered numbers are reported is up to the map order. */
    method SendAck() returns (ack: Ack)
      ensures ack.num == recvNext && IsSack(recvBuf, ack.sack)
      ensures |ack.sack| == Min(|recvBuf|, 32) && forall n <- ack.sack :: n in recvBuf
    {
      var sack: seq<nat> := [];
      var rest := recvBuf.Keys;
      while rest != {} && |sack| < MAX_SACK
        invariant rest <= recvBuf.Keys
        invariant forall i :: 0 <= i < |sack| ==> sack[i] in recvBuf && sack[i] !in rest
        invariant forall i, j :: 0 <= i < j < |sack| ==> sack[i] != sack[j]
        invariant |sack| + |rest| == |recvBuf.Keys| && |sack| <= MAX_SACK
        decreases rest
      {
        var n :| n in rest;
        sack := sack + [n];
        rest := rest - {n};
      }
      ack := Ack(recvNext, sack);
    }

    method FlushAck() returns (ack: Ack)
      modifies this`delayedAckTimer, this`unackedRecv
      ensures Rcv() == Flush(old(Rcv()))
      ensures ack.num == recvNext && IsSack(recvBuf, ack.sack)
    {
      if delayedAckTimer.Some? {
        delayedAckTimer := None;
      }
      unackedRecv := 0;
      ack := SendAck();
    }

    method HandleData(seqNum: nat, payload: Bytes) returns (ack: Option<Ack>)
      modifies this`recvNext, this`recvBuf, this`delivered, this`unackedRecv, this`delayedAckTimer, this`timersMade
      ensures Rcv() == ReceiveData(old(Rcv()), seqNum, payload)
      ensures ack.Some? <==> seqNum > old(recvNext) || old(unackedRecv) + 1 >= 32
      ensures ack.Some? <==> FlushesNow(old(Rcv()), seqNum)
      ensures ack.Some? ==> ack.value.num == recvNext && IsSack(recvBuf, ack.value.sack)
      ensures ack.Some? ==> |ack.value.sack| == Min(|recvBuf|, 32) && unackedRecv == 0 && delayedAckTimer == None
      ensures ack.None? ==> unackedRecv == old(unackedRecv) + 1 && delayedAckTimer.Some?
      ensures Snd() == old(Snd()) && closed == old(closed)
    {
      ack := None;
      var outOfOrder := AcceptData(seqNum, payload);
      unackedRecv := unackedRecv + 1;
      if unackedRecv >= ACK_THRESHOLD || outOfOrder {
        var a := FlushAck();
        ack := Some(a);
      } else if delayedAckTimer.None? {
        delayedAckTimer := Some(timersMade);
        timersMade := timersMade + 1;
      }
    }

    method AcceptData(seqNum: nat, payload: Bytes) returns (outOfOrder: bool)
      modifies this`recvNext, this`recvBuf, this`delivered
      ensures Rcv() == Accept(old(Rcv()), seqNum, payload)
      ensures outOfOrder == (seqNum > old(recvNext))
    {
      outOfOrder := false;
      if seqNum == recvNext {
        DeliverPacket(payload);
        recvNext := Inc(recvNext);
        DrainBuffer([payload], old(delivered));
      } else if seqNum > recvNext {
        recvBuf := recvBuf[seqNum := payload];
        outOfOrder := true;
      }
    }

    /** The loop that empties recvBuf from recvNext on; `given` was already handed over on top of `before`. */
    method DrainBuffer(ghost given: seq<Bytes>, ghost before: seq<Bytes>)
      requires |before| <= |delivered|
      requires delivered == Push(before, Rcv().capacity, given)
      modifies this`recvNext, this`recvBuf, this`delivered
      ensures var d := Drain(old(recvNext), old(recvBuf));
              recvNext == d.next && recvBuf == d.buf && delivered == Push(before, Rcv().capacity, given + d.handed)
    {
      ghost var handed := given;
      while recvNext in recvBuf
        invariant delivered == Push(before, Rcv().capacity, handed)
        invariant var d := Drain(recvNext, recvBuf); var d0 := Drain(old(recvNext), old(recvBuf));
                  d.next == d0.next && d.buf == d0.buf && handed + d.handed == given + d0.handed
        decreases recvBuf.Keys
      {
        var buffered := recvBuf[recvNext];
        PushOneMore(before, Rcv().capacity, handed, buffered);
        assert handed + ([buffered] + Drain(Inc(recvNext), recvBuf - {recvNext}).handed)
            == handed + [buffered] + Drain(Inc(recvNext), recvBuf - {recvNext}).handed;
        DeliverPacket(buffered);
        handed := handed + [buffered];
        recvBuf := recvBuf - {recvNext};
        recvNext := Inc(recvNext);
      }
      assert handed + [] == handed;
    }

    static lemma PushOneMore(queue: seq<Bytes>, capacity: nat, handed: seq<Bytes>, payload: Bytes)
      ensures Push(Push(queue, capacity, handed), capacity, [payload]) == Push(queue, capacity, handed + [payload])
    {
      var room := Max(capacity - |queue|, 0);
      if |handed| < room {
        assert handed[..|handed|] == handed;
        assert (handed + [payload])[..|handed| + 1] == handed + [payload];
        assert [payload][..1] == [payload];
      } else {
        assert (handed + [payload])[..room] == handed[..room];
        assert [payload][..0] == [];
      }
    }

    /** The dispatcher: dropped when closed, and each packet touches only its own half of the engine. */
    method HandlePacket(pkt: Incoming, now: int) returns (ack: Option<Ack>, recovered: seq<Recovered>)
      requires fecDec.code.k > 0
      modifies this, pacer, fecDec
      ensures closed == old(closed)
      ensures closed ==>
                && Snd() == old(Snd()) && Rcv() == old(Rcv()) && fecDec.View() == old(fecDec.View())
                && ack == None && recovered == []
      ensures !closed ==>
                match pkt
                case AckPacket(num, hasSack, blocks) =>
                  && (exists order :: IsOrder(old(unacked), num, order)
                        && Snd() == ArqSender.HandleAck(old(Snd()), num, if hasSack then blocks else [], order, now))
                  && Rcv() == old(Rcv()) && fecDec.View() == old(fecDec.View()) && ack == None && recovered == []
                case DataPacket(n, payload) =>
                  && Rcv() == ReceiveData(old(Rcv()), n, payload) && Snd() == old(Snd())
                  && (fecDec.View(), recovered) == DataAdded(old(fecDec.View()), n, payload)
                  && (ack.Some? <==> n > old(recvNext) || old(unackedRecv) + 1 >= 32)
                  && (ack.Some? ==> ack.value.num == recvNext && IsSack(recvBuf, ack.value.sack))
                  && (ack.Some? ==> |ack.value.sack| == Min(|recvBuf|, 32))
                case FecPacket(parity) =>
                  && Snd() == old(Snd()) && Rcv() == old(Rcv()) && ack == None
                  && (fecDec.View(), recovered) == ParityAdded(old(fecDec.View()), parity)
                case OtherPacket =>
                  && Snd() == old(Snd()) && Rcv() == old(Rcv()) && fecDec.View() == old(fecDec.View())
                  && ack == None && recovered == []
    {
      ack, recovered := None, [];
      if closed {
        return;
      }
      match pkt
      case AckPacket(num, hasSack, blocks) =>
        ghost var order := HandleAck(num, hasSack, blocks, now);
      case DataPacket(n, payload) =>
        recovered := fecDec.AddData(n, payload);
        ack := HandleData(n, payload);
      case FecPacket(parity) =>
        recovered := fecDec.AddParity(parity);
      case OtherPacket =>
    }

    method Close()
      modifies this
      ensures closed && (old(closed) ==> Snd() == old(Snd()) && Rcv() == old(Rcv()))
      ensures !old(closed) ==>
                Snd() == old(Snd()).(unacked := map[]) && Rcv() == old(Rcv()).(timer := None, capacity := 0)
    {
      if closed {
        return;
      }
      closed := true;
      unacked := map[];
      if delayedAckTimer.Some? {
        delayedAckTimer := None;
      }
    }
  }
}
