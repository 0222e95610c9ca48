/**
 The send half of the ARQ engine (`Send`, `handleACK`, `processAckedPacket` and
 one cycle of `retransmissionLoop`) as functions on a value.
 */
module ArqSender {
  import opened Base
  import opened ArqReceiver
  import Rtt = RttEstimator
  import Cwnd = CongestionWindow

  const MAX_RETRANSMISSIONS: int := 8
  const U64: int := 0x1_0000_0000_0000_0000
  const INITIAL_MIN_RTT: int := 10_000 * Rtt.MILLISECOND

  /** One unacknowledged packet; `delivered` is bytesDelivered when it was queued. */
  datatype Inflight = Inflight(payload: Bytes, sentAt: int, retries: nat, delivered: nat, size: nat)

  datatype Sender = Sender(
    next: nat, window: Cwnd.Window, unacked: map<nat, Inflight>, rtt: Rtt.Rtt,
    minRtt: nat, btlBw: real, bytesDelivered: nat, packetsLost: nat, packetsSent: nat)

  const INITIAL := Sender(0, Cwnd.INITIAL, map[], Rtt.INITIAL, INITIAL_MIN_RTT, 0.0, 0, 0, 0)

  /** time.Since on the monotonic clock. */
  function Elapsed(now: int, since: int): nat {
    Max(now - since, 0)
  }

  /** Queueing one payload, with the window already found open. */
  function Submit(s: Sender, payload: Bytes, size: nat, now: int): Sender {
    s.(next := Inc(s.next),
       unacked := s.unacked[s.next := Inflight(payload, now, 0, s.bytesDelivered, size)],
       packetsSent := s.packetsSent + 1)
  }

  function Filter(btlBw: real, rate: real): real {
    if rate > btlBw then rate else btlBw * 0.85 + rate * 0.15
  }

  /** Bytes per nanosecond since the packet was queued; the difference is on uint64. */
  function DeliveryRate(bytesDelivered: nat, delivered: nat, time: nat): real
    requires time > 0
  {
    ((bytesDelivered - delivered) % U64) as real / time as real
  }

  function ProcessAcked(s: Sender, n: nat, now: int): Sender
    requires n in s.unacked
  {
    var inf := s.unacked[n];
    var t := s.(bytesDelivered := s.bytesDelivered + |inf.payload|, unacked := s.unacked - {n});
    if inf.retries == 0 then
      var time := Elapsed(now, inf.sentAt);
      t.(rtt := Rtt.Sample(s.rtt, time),
         minRtt := if s.minRtt == 0 || time < s.minRtt then time else s.minRtt,
         btlBw := if time > 0 then Filter(s.btlBw, DeliveryRate(t.bytesDelivered, inf.delivered, time)) else s.btlBw)
    else t
  }

  /** Acknowledge the listed packets one after the other, skipping those not in flight. */
  function ProcessAll(s: Sender, order: seq<nat>, now: int): Sender {
    if order == [] then s
    else
      var p := ProcessAll(s, order[..|order| - 1], now);
      var n := order[|order| - 1];
      if n in p.unacked then ProcessAcked(p, n, now) else p
  }

  /** Processing one more packet of a list; the loss counter is not looked at. */
  lemma ProcessOneMore(s: Sender, order: seq<nat>, n: nat, now: int, lost: nat)
    requires n in ProcessAll(s, order, now).unacked
    ensures ProcessAll(s, order + [n], now) == ProcessAcked(ProcessAll(s, order, now), n, now)
    ensures var p := ProcessAll(s, order, now);
            ProcessAcked(p.(packetsLost := lost), n, now) == ProcessAcked(p, n, now).(packetsLost := lost)
  {
    assert (order + [n])[..|order|] == order;
  }

  /** A visiting order of the packets a cumulative ACK covers; Go's map order is arbitrary. */
  ghost predicate IsOrder(unacked: map<nat, Inflight>, num: nat, order: seq<nat>) {
    && (forall n :: n in order <==> n in unacked && n < num)
    && (forall i, j :: 0 <= i < j < |order| ==> order[i] != order[j])
  }

  /** A visit under way: `order` has been visited, `todo` has not. */
  ghost predicate Visiting(unacked: map<nat, Inflight>, num: nat, todo: set<nat>, order: seq<nat>) {
    && (forall n :: n in unacked && n < num <==> n in todo || n in order)
    && (forall n <- todo :: n !in order)
    && (forall i, j :: 0 <= i < j < |order| ==> order[i] != order[j])
  }

  lemma VisitOne(unacked: map<nat, Inflight>, num: nat, todo: set<nat>, order: seq<nat>, n: nat)
    requires Visiting(unacked, num, todo, order) && n in todo
    ensures Visiting(unacked, num, todo - {n}, order + [n])
  {
  }

  /** The window target in packets, once there is a bandwidth estimate. */
  function Target(btlBw: real, minRtt: nat): Option<int> {
    if minRtt > 0 && btlBw > 0.0 then Some((btlBw * minRtt as real / 1000.0 * 1.5).Floor) else None
  }

  function HandleAck(s: Sender, num: nat, sack: seq<nat>, order: seq<nat>, now: int): Sender {
    var c := ProcessAll(s, order, now);
    var d := ProcessAll(c.(packetsLost := s.packetsLost + |order|), sack, now);
    d.(window := Cwnd.OnAck(d.window, Target(d.btlBw, d.minRtt)))
  }

  // ---- retransmission -----------------------------------------------------

  predicate TimedOut(s: Sender, inf: Inflight, now: int) {
    now - inf.sentAt > s.rtt.rto
  }

  ghost function Late(s: Sender, now: int): set<nat> {
    set n | n in s.unacked && TimedOut(s, s.unacked[n], now)
  }

  /** Late packets that have used up their retransmissions. */
  ghost function GivenUp(s: Sender, now: int): set<nat> {
    set n | n in Late(s, now) && s.unacked[n].retries >= MAX_RETRANSMISSIONS
  }

  /** Packets a cycle puts on the wire again; `failed` could not be encoded. */
  ghost function Resent(s: Sender, now: int, failed: set<nat>): set<nat> {
    Late(s, now) - GivenUp(s, now) - failed
  }

  function Retried(inf: Inflight, now: int, encoded: bool): Inflight {
    inf.(retries := inf.retries + 1, sentAt := if encoded then now else inf.sentAt)
  }

  /** One cycle: late packets are retried or given up, the rest stay as they are. */
  ghost function Tick(s: Sender, now: int, failed: set<nat>): Sender {
    if Late(s, now) == {} then s
    else
      s.(unacked := map n | n in s.unacked && n !in GivenUp(s, now) ::
                      if n in Late(s, now) then Retried(s.unacked[n], now, n !in failed) else s.unacked[n],
         window := Cwnd.OnTimeout(s.window),
         rtt := Rtt.Backoff(s.rtt))
  }

  // ---- effects of acknowledgement, whatever the visiting order -------------

  ghost predicate Healthy(s: Sender) {
    && Cwnd.Bounded(s.window)
    && |s.unacked| <= Cwnd.MAX_WINDOW
    && Rtt.MIN_RTO <= s.rtt.rto <= Rtt.MAX_RTO
    && s.btlBw >= 0.0
    && (forall n <- s.unacked :: s.unacked[n].delivered <= s.bytesDelivered)
    && (forall n <- s.unacked :: s.unacked[n].retries <= MAX_RETRANSMISSIONS)
  }

  lemma RemoveCardinality<V>(m: map<nat, V>, n: nat)
    requires n in m
    ensures |m - {n}| == |m| - 1
  {
    assert (m - {n}).Keys == m.Keys - {n};
  }

  /** `t` is `s` after the packets in `gone` were acknowledged. */
  ghost predicate Acknowledged(s: Sender, t: Sender, gone: set<nat>) {
    && t.next == s.next && t.packetsSent == s.packetsSent && t.packetsLost == s.packetsLost
    && t.window == s.window && t.bytesDelivered >= s.bytesDelivered
    && t.unacked == s.unacked - gone
  }

  function Listed(order: seq<nat>): set<nat> {
    set n | n in order
  }

  /** Acknowledging removes exactly the listed packets and touches no other. */
  lemma {:induction false} ProcessAllEffects(s: Sender, order: seq<nat>, now: int)
    ensures Acknowledged(s, ProcessAll(s, order, now), Listed(order))
  {
    if order == [] {
      assert s.unacked - Listed(order) == s.unacked;
    } else {
      var init, n := order[..|order| - 1], order[|order| - 1];
      ProcessAllEffects(s, init, now);
      ListedOneMore(s.unacked, init, n);
      assert order == init + [n];
    }
  }

  lemma ListedOneMore(unacked: map<nat, Inflight>, init: seq<nat>, n: nat)
    ensures unacked - Listed(init + [n]) == unacked - Listed(init) - {n}
    ensures n !in unacked - Listed(init) ==> unacked - Listed(init + [n]) == unacked - Listed(init)
  {
    assert Listed(init + [n]) == Listed(init) + {n};
  }

  lemma RateNonNegative(btlBw: real, bytesDelivered: nat, delivered: nat, time: nat)
    requires btlBw >= 0.0 && time > 0
    ensures Filter(btlBw, DeliveryRate(bytesDelivered, delivered, time)) >= 0.0
  {
    assert DeliveryRate(bytesDelivered, delivered, time) >= 0.0;
  }

  lemma ProcessAckedHealthy(s: Sender, n: nat, now: int)
    requires Healthy(s) && n in s.unacked
    ensures Healthy(ProcessAcked(s, n, now))
  {
    RemoveCardinality(s.unacked, n);
    var inf := s.unacked[n];
    var time := Elapsed(now, inf.sentAt);
    if time > 0 {
      RateNonNegative(s.btlBw, s.bytesDelivered + |inf.payload|, inf.delivered, time);
    }
  }

  lemma {:induction false} ProcessAllHealthy(s: Sender, order: seq<nat>, now: int)
    requires Healthy(s)
    ensures Healthy(ProcessAll(s, order, now))
  {
    if order != [] {
      var init, n := order[..|order| - 1], order[|order| - 1];
      ProcessAllHealthy(s, init, now);
      if n in ProcessAll(s, init, now).unacked {
        ProcessAckedHealthy(ProcessAll(s, init, now), n, now);
      }
    }
  }

  lemma AckedWindowHealthy(s: Sender, target: Option<int>)
    requires Healthy(s)
    ensures Healthy(s.(window := Cwnd.OnAck(s.window, target)))
  {
    Cwnd.OnAckBounded(s.window, target);
  }

  lemma HandleAckHealthy(s: Sender, num: nat, sack: seq<nat>, order: seq<nat>, now: int)
    requires Healthy(s)
    ensures Healthy(HandleAck(s, num, sack, order, now))
  {
    ProcessAllHealthy(s, order, now);
    var c := ProcessAll(s, order, now).(packetsLost := s.packetsLost + |order|);
    ProcessAllHealthy(c, sack, now);
    var d := ProcessAll(c, sack, now);
    AckedWindowHealthy(d, Target(d.btlBw, d.minRtt));
  }

  /** An ACK removes what it covers, and nothing that it does not. */
  lemma HandleAckEffects(s: Sender, num: nat, sack: seq<nat>, order: seq<nat>, now: int)
    requires IsOrder(s.unacked, num, order)
    ensures var t := HandleAck(s, num, sack, order, now);
            && t.next == s.next && t.packetsSent == s.packetsSent
            && t.packetsLost == s.packetsLost + |order|
            && t.bytesDelivered >= s.bytesDelivered
            && (forall n :: n in t.unacked <==> n in s.unacked && n >= num && n !in sack)
            && (forall n <- t.unacked :: t.unacked[n] == s.unacked[n])
  {
    ProcessAllEffects(s, order, now);
    ProcessAllEffects(ProcessAll(s, order, now).(packetsLost := s.packetsLost + |order|), sack, now);
  }

  lemma TickKeepsHealthy(s: Sender, now: int, failed: set<nat>)
    requires Healthy(s)
    ensures Healthy(Tick(s, now, failed))
  {
    var t := Tick(s, now, failed);
    SubsetCardinality(t.unacked.Keys, s.unacked.Keys);
  }

  lemma {:induction false} SubsetCardinality(a: set<nat>, b: set<nat>)
    requires a <= b
    ensures |a| <= |b|
    ensures a != b ==> |a| < |b|
  {
    assert |b| == |a| + |b - a| by {
      assert b == a + (b - a);
    }
    if a != b {
      assert b - a != {};
    }
  }

  // ---- the drain potential --------------------------------------------------

  /** Transmissions still allowed, summed over all packets in flight. */
  ghost function Budget(unacked: map<nat, Inflight>): nat
    decreases unacked.Keys
  {
    if unacked == map[] then 0
    else
      var n :| n in unacked;
      Allowance(unacked[n]) + Budget(unacked - {n})
  }

  function Allowance(inf: Inflight): nat {
    Max(MAX_RETRANSMISSIONS + 1 - inf.retries, 0)
  }

  lemma {:induction false} BudgetRemove(unacked: map<nat, Inflight>, n: nat)
    requires n in unacked
    ensures Budget(unacked) == Allowance(unacked[n]) + Budget(unacked - {n})
    decreases unacked.Keys
  {
    var k :| k in unacked && Budget(unacked) == Allowance(unacked[k]) + Budget(unacked - {k});
    if k != n {
      BudgetRemove(unacked - {k}, n);
      BudgetRemove(unacked - {n}, k);
      assert unacked - {k} - {n} == unacked - {n} - {k};
    }
  }

  lemma {:induction false} BudgetMonotone(a: map<nat, Inflight>, b: map<nat, Inflight>)
    requires a.Keys <= b.Keys && forall n <- a :: Allowance(a[n]) <= Allowance(b[n])
    ensures Budget(a) <= Budget(b)
    decreases b.Keys
  {
    if b != map[] {
      var n :| n in b;
      BudgetRemove(b, n);
      if n in a {
        BudgetRemove(a, n);
      } else {
        assert a - {n} == a;
      }
      BudgetMonotone(a - {n}, b - {n});
    }
  }

  /** Every cycle that finds a late packet spends budget, even when re-encoding fails. */
  lemma TickSpendsBudget(s: Sender, now: int, failed: set<nat>)
    requires Healthy(s) && Late(s, now) != {}
    ensures Budget(Tick(s, now, failed).unacked) < Budget(s.unacked)
  {
    var t := Tick(s, now, failed);
    var n :| n in Late(s, now);
    BudgetRemove(s.unacked, n);
    if n in t.unacked {
      BudgetRemove(t.unacked, n);
    } else {
      assert t.unacked - {n} == t.unacked;
    }
    BudgetMonotone(t.unacked - {n}, s.unacked - {n});
  }
}
