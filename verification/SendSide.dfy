/**
 Runs of the send half: writers submit, ACKs of any kind arrive, the
 retransmission loop ticks. The window wait of `Send` ends in Submit or Burn.
 */
module SendSide {
  import opened Base
  import opened ArqReceiver
  import opened ArqSender
  import Rtt = RttEstimator
  import Cwnd = CongestionWindow

  /** The longest pause between two ticks the loop asks for: MaxRTO / 4. */
  const TICK_GAP: int := Rtt.MAX_RTO / 4

  /** `n` retransmission periods, each MaxRTO plus one pause between ticks. */
  function Periods(n: nat): int {
    n * 6_250_000_000
  }

  /** A period is one timeout and one pause. */
  lemma OnePeriodMore(n: nat)
    ensures Periods(n + 1) == Periods(n) + Rtt.MAX_RTO + TICK_GAP
  {
  }

  /**
   The sender and its history: `log[n]` is the payload submitted as number n
   (None if encoding failed and the number was burned), `acked` and `abandoned`
   are the packets that left flight, `sent` counts transmissions, `born` is the
   time of submission, `late` records a tick that came later than TICK_GAP.
   */
  datatype Side = Side(
    s: Sender, log: seq<Option<Bytes>>, acked: set<nat>, abandoned: set<nat>,
    sent: map<nat, nat>, born: map<nat, int>, clock: int, lastTick: int, late: bool)

  const INITIAL := Side(ArqSender.INITIAL, [], {}, {}, map[], map[], 0, 0, false)

  datatype Event =
    | Submit(payload: Bytes, size: nat, at: int)
    | Burn(at: int)
    | AckIn(ack: Ack, order: seq<nat>, at: int)
    | Tick(failed: set<nat>, at: int)

  /** The condition Send waits for, while fewer than 2^32 numbers are used. */
  predicate WindowOpen(s: Sender) {
    |s.unacked| < s.window.size && s.next < U32 - 1
  }

  ghost predicate Enabled(x: Side, e: Event) {
    e.at >= x.clock &&
    match e
    case Submit(_, _, _) => WindowOpen(x.s)
    case Burn(_) => WindowOpen(x.s)
    case AckIn(ack, order, _) => IsOrder(x.s.unacked, ack.num, order)
    case Tick(_, _) => true
  }

  function OnSubmit(x: Side, payload: Bytes, size: nat, now: int): Side {
    x.(s := ArqSender.Submit(x.s, payload, size, now),
       log := x.log + [Some(payload)],
       sent := x.sent[x.s.next := 1],
       born := x.born[x.s.next := now])
  }

  function OnBurn(x: Side): Side {
    x.(s := x.s.(next := Inc(x.s.next)), log := x.log + [None])
  }

  function OnAck(x: Side, ack: Ack, order: seq<nat>, now: int): Side {
    var s' := HandleAck(x.s, ack.num, ack.sack, order, now);
    x.(s := s', acked := x.acked + (x.s.unacked.Keys - s'.unacked.Keys))
  }

  ghost function OnTick(x: Side, failed: set<nat>, now: int): Side {
    x.(s := ArqSender.Tick(x.s, now, failed),
       abandoned := x.abandoned + GivenUp(x.s, now),
       sent := map n | n in x.sent :: x.sent[n] + (if n in Resent(x.s, now, failed) then 1 else 0),
       lastTick := now)
  }

  ghost function Step(x: Side, e: Event): Side {
    if !Enabled(x, e) then x
    else
      var y := match e
        case Submit(payload, size, now) => OnSubmit(x, payload, size, now)
        case Burn(_) => OnBurn(x)
        case AckIn(ack, order, now) => OnAck(x, ack, order, now)
        case Tick(failed, now) => OnTick(x, failed, now);
      y.(clock := e.at, late := x.late || e.at > x.lastTick + TICK_GAP)
  }

  ghost function Exec(x: Side, es: seq<Event>): Side {
    if es == [] then x else Step(Exec(x, es[..|es| - 1]), es[|es| - 1])
  }

  // ---- invariants ---------------------------------------------------------

  /** Every number in use is burned, in flight, acknowledged or abandoned, and only one of these. */
  ghost predicate Conserved(x: Side) {
    && |x.log| == x.s.next < U32
    && (forall n <- x.s.unacked :: n < |x.log| && x.log[n] == Some(x.s.unacked[n].payload))
    && (forall n <- x.acked :: n < |x.log| && x.log[n].Some? && n !in x.s.unacked && n !in x.abandoned)
    && (forall n <- x.abandoned :: n < |x.log| && x.log[n].Some? && n !in x.s.unacked)
    && (forall n :: 0 <= n < |x.log| && x.log[n].Some? ==> n in x.s.unacked || n in x.acked || n in x.abandoned)
  }

  /** The counters agree with the sets. */
  ghost predicate Counted(x: Side) {
    && x.s.packetsSent == |x.s.unacked| + |x.acked| + |x.abandoned|
    && x.s.packetsLost <= |x.acked|
  }

  /** At most nine transmissions of any packet. */
  ghost predicate SentWithinBudget(x: Side) {
    && (forall n <- x.sent :: n < |x.log| && x.sent[n] <= MAX_RETRANSMISSIONS + 1)
    && (forall n <- x.s.unacked :: n in x.sent && x.sent[n] <= x.s.unacked[n].retries + 1)
  }

  /** With punctual ticks, retries bound the age of every packet in flight. */
  ghost predicate Timely(x: Side) {
    && x.lastTick <= x.clock && x.born.Keys == x.sent.Keys
    && (forall n <- x.born :: x.born[n] <= x.clock)
    && (forall n <- x.s.unacked :: x.s.unacked[n].sentAt <= x.clock)
    && (!x.late ==>
          && x.clock <= x.lastTick + TICK_GAP
          && forall n <- x.s.unacked :: n in x.born && AgeBounded(x, n))
  }

  ghost predicate AgeBounded(x: Side, n: nat)
    requires n in x.s.unacked && n in x.born
  {
    var inf := x.s.unacked[n];
    && inf.sentAt - x.born[n] <= Periods(inf.retries)
    && x.lastTick - x.born[n] <= Periods(inf.retries) + Rtt.MAX_RTO
  }

  ghost predicate Inv(x: Side) {
    Healthy(x.s) && Conserved(x) && Counted(x) && SentWithinBudget(x) && Timely(x)
  }

  lemma SubmitKeepsConserved(x: Side, payload: Bytes, size: nat, now: int)
    requires Conserved(x) && WindowOpen(x.s)
    ensures Conserved(OnSubmit(x, payload, size, now))
  {
    assert Inc(x.s.next) == x.s.next + 1;
  }

  lemma SubmitKeepsSizes(x: Side, payload: Bytes, size: nat, now: int)
    requires Healthy(x.s) && x.s.next !in x.s.unacked && Counted(x) && WindowOpen(x.s)
    ensures Healthy(OnSubmit(x, payload, size, now).s) && Counted(OnSubmit(x, payload, size, now))
  {
    var y := OnSubmit(x, payload, size, now);
    assert y.s.unacked.Keys == x.s.unacked.Keys + {x.s.next};
    assert |y.s.unacked| == |x.s.unacked| + 1;
  }

  lemma SubmitKeepsHistory(x: Side, payload: Bytes, size: nat, now: int)
    requires Inv(x) && Enabled(x, Submit(payload, size, now))
    ensures SentWithinBudget(Step(x, Submit(payload, size, now))) && Timely(Step(x, Submit(payload, size, now)))
  {
    var y := Step(x, Submit(payload, size, now));
    assert x.s.next !in x.s.unacked;
    if !y.late {
      forall n | n in y.s.unacked ensures n in y.born && AgeBounded(y, n) {
        if n != x.s.next {
          assert AgeBounded(x, n);
        }
      }
    }
  }

  lemma BurnKeepsConserved(x: Side)
    requires Conserved(x) && WindowOpen(x.s)
    ensures Conserved(OnBurn(x))
  {
    assert Inc(x.s.next) == x.s.next + 1;
  }

  /** Steps that retransmit nothing and add nothing keep the transmission history. */
  lemma QuietStepKeepsHistory(x: Side, y: Side, now: int)
    requires SentWithinBudget(x) && Timely(x)
    requires |x.log| <= |y.log| && y.sent == x.sent && y.born == x.born && y.lastTick == x.lastTick
    requires y.s.unacked.Keys <= x.s.unacked.Keys && forall n <- y.s.unacked :: y.s.unacked[n] == x.s.unacked[n]
    requires now >= x.clock && y.clock == now && y.late == (x.late || now > x.lastTick + TICK_GAP)
    ensures SentWithinBudget(y) && Timely(y)
  {
    if !y.late {
      forall n | n in y.s.unacked ensures n in y.born && AgeBounded(y, n) {
        assert AgeBounded(x, n);
      }
    }
  }

  /** A list without repetition is no longer than a set that contains it. */
  lemma {:induction false} DistinctFits(xs: seq<nat>, s: set<nat>)
    requires forall i :: 0 <= i < |xs| ==> xs[i] in s
    requires forall i, j :: 0 <= i < j < |xs| ==> xs[i] != xs[j]
    ensures |xs| <= |s|
  {
    if xs != [] {
      DistinctFits(xs[1..], s - {xs[0]});
    }
  }

  /** The flight shrank by `gone`, which went to `acked` or to `abandoned`. */
  ghost predicate Shrank(x: Side, y: Side, gone: set<nat>) {
    && y.log == x.log && y.s.next == x.s.next && y.s.packetsSent == x.s.packetsSent
    && gone <= x.s.unacked.Keys && y.s.unacked.Keys == x.s.unacked.Keys - gone
    && (forall n <- y.s.unacked :: y.s.unacked[n].payload == x.s.unacked[n].payload)
    && (|| (y.acked == x.acked + gone && y.abandoned == x.abandoned && y.s.packetsLost <= x.s.packetsLost + |gone|)
        || (y.abandoned == x.abandoned + gone && y.acked == x.acked && y.s.packetsLost == x.s.packetsLost))
  }

  lemma ShrinkKeepsConserved(x: Side, y: Side, gone: set<nat>)
    requires Conserved(x) && Shrank(x, y, gone)
    ensures Conserved(y)
  {
    forall n | n in y.acked ensures n < |y.log| && y.log[n].Some? && n !in y.s.unacked && n !in y.abandoned {
    }
  }

  lemma ShrinkKeepsCounted(x: Side, y: Side, gone: set<nat>)
    requires Conserved(x) && Counted(x) && Shrank(x, y, gone)
    ensures Counted(y)
  {
    assert x.s.unacked.Keys == y.s.unacked.Keys + gone;
    assert |x.s.unacked.Keys| == |y.s.unacked.Keys| + |gone|;
    assert x.acked !! gone;
    assert |x.acked + gone| == |x.acked| + |gone|;
    assert x.abandoned !! gone;
    assert |x.abandoned + gone| == |x.abandoned| + |gone|;
  }

  lemma AckShrinks(x: Side, ack: Ack, order: seq<nat>, now: int)
    requires Healthy(x.s) && IsOrder(x.s.unacked, ack.num, order)
    ensures var y := OnAck(x, ack, order, now);
            && Healthy(y.s)
            && Shrank(x, y, x.s.unacked.Keys - y.s.unacked.Keys)
            && forall n <- y.s.unacked :: y.s.unacked[n] == x.s.unacked[n]
  {
    var y := OnAck(x, ack, order, now);
    HandleAckHealthy(x.s, ack.num, ack.sack, order, now);
    HandleAckEffects(x.s, ack.num, ack.sack, order, now);
    DistinctFits(order, x.s.unacked.Keys - y.s.unacked.Keys);
  }

  lemma TickShrinks(x: Side, failed: set<nat>, now: int)
    ensures Shrank(x, OnTick(x, failed, now), GivenUp(x.s, now))
  {
  }

  lemma TickKeepsSent(x: Side, failed: set<nat>, now: int)
    requires Healthy(x.s) && SentWithinBudget(x)
    ensures SentWithinBudget(OnTick(x, failed, now))
  {
  }

  lemma TickAges(x: Side, failed: set<nat>, now: int, n: nat)
    requires x.lastTick <= now <= x.lastTick + TICK_GAP
    requires n in x.s.unacked && n in x.born && AgeBounded(x, n)
    requires Rtt.MIN_RTO <= x.s.rtt.rto <= Rtt.MAX_RTO
    ensures n in OnTick(x, failed, now).s.unacked ==> AgeBounded(OnTick(x, failed, now), n)
  {
    var inf := x.s.unacked[n];
    assert n in Late(x.s, now) <==> TimedOut(x.s, inf, now);
    OnePeriodMore(inf.retries);
  }

  lemma TickKeepsTimely(x: Side, failed: set<nat>, now: int)
    requires Timely(x) && SentWithinBudget(x) && Enabled(x, Tick(failed, now))
    requires Rtt.MIN_RTO <= x.s.rtt.rto <= Rtt.MAX_RTO
    ensures Timely(Step(x, Tick(failed, now)))
  {
    var y := Step(x, Tick(failed, now));
    if !y.late {
      forall n | n in y.s.unacked ensures n in y.born && AgeBounded(y, n) {
        TickAges(x, failed, now, n);
      }
    }
  }

  lemma AckKeepsInv(x: Side, ack: Ack, order: seq<nat>, now: int)
    requires Inv(x) && Enabled(x, AckIn(ack, order, now))
    ensures Inv(Step(x, AckIn(ack, order, now)))
  {
    var y := OnAck(x, ack, order, now);
    AckShrinks(x, ack, order, now);
    ShrinkKeepsConserved(x, y, x.s.unacked.Keys - y.s.unacked.Keys);
    ShrinkKeepsCounted(x, y, x.s.unacked.Keys - y.s.unacked.Keys);
    QuietStepKeepsHistory(x, Step(x, AckIn(ack, order, now)), now);
  }

  lemma TickKeepsInv(x: Side, failed: set<nat>, now: int)
    requires Inv(x) && Enabled(x, Tick(failed, now))
    ensures Inv(Step(x, Tick(failed, now)))
  {
    var y, z := OnTick(x, failed, now), Step(x, Tick(failed, now));
    assert Healthy(z.s) by { TickKeepsHealthy(x.s, now, failed); }
    assert Conserved(z) && Counted(z) by {
      TickShrinks(x, failed, now);
      ShrinkKeepsConserved(x, y, GivenUp(x.s, now));
      ShrinkKeepsCounted(x, y, GivenUp(x.s, now));
    }
    assert SentWithinBudget(z) by { TickKeepsSent(x, failed, now); }
    assert Timely(z) by { TickKeepsTimely(x, failed, now); }
  }

  lemma StepKeepsInv(x: Side, e: Event)
    requires Inv(x)
    ensures Inv(Step(x, e))
  {
    if Enabled(x, e) {
      match e
      case Submit(payload, size, now) =>
        SubmitKeepsConserved(x, payload, size, now);
        SubmitKeepsSizes(x, payload, size, now);
        SubmitKeepsHistory(x, payload, size, now);
      case Burn(now) =>
        BurnKeepsConserved(x);
        QuietStepKeepsHistory(x, Step(x, e), now);
      case AckIn(ack, order, now) => AckKeepsInv(x, ack, order, now);
      case Tick(failed, now) => TickKeepsInv(x, failed, now);
    }
  }

  lemma {:induction false} ExecKeepsInv(x: Side, es: seq<Event>)
    requires Inv(x)
    ensures Inv(Exec(x, es))
  {
    if es != [] {
      ExecKeepsInv(x, es[..|es| - 1]);
      StepKeepsInv(Exec(x, es[..|es| - 1]), es[|es| - 1]);
    }
  }

  // ---- consequences -------------------------------------------------------

  /** Conservation, the counters and the window bounds in every state of every run. */
  lemma RunConserves(es: seq<Event>)
    ensures var x := Exec(INITIAL, es);
            && Conserved(x) && SentWithinBudget(x)
            && x.s.packetsLost <= x.s.packetsSent - |x.s.unacked|
            && Cwnd.MIN_WINDOW <= x.s.window.size <= Cwnd.MAX_WINDOW
            && |x.s.unacked| <= Cwnd.MAX_WINDOW
            && Rtt.MIN_RTO <= x.s.rtt.rto <= Rtt.MAX_RTO
            && forall n <- x.s.unacked :: x.s.unacked[n].delivered <= x.s.bytesDelivered
  {
    ExecKeepsInv(INITIAL, es);
  }

  /** With ticks at most MaxRTO/4 apart no packet stays in flight for more than nine periods. */
  lemma InFlightTimeBounded(es: seq<Event>, n: nat)
    ensures var x := Exec(INITIAL, es);
            !x.late && n in x.s.unacked ==>
              n in x.born && x.clock - x.born[n] <= Periods(9)
  {
    ExecKeepsInv(INITIAL, es);
    var x := Exec(INITIAL, es);
    if !x.late && n in x.s.unacked {
      assert AgeBounded(x, n);
    }
  }

  ghost predicate NoSubmit(es: seq<Event>) {
    forall e <- es :: !e.Submit?
  }

  lemma {:induction false} OnlyOldPackets(past: seq<Event>, wait: seq<Event>)
    requires NoSubmit(wait)
    ensures var x, y := Exec(INITIAL, past), Exec(INITIAL, past + wait);
            y.s.unacked.Keys <= x.s.unacked.Keys && y.born == x.born
  {
    if wait == [] {
      assert past + wait == past;
    } else {
      var init, last := wait[..|wait| - 1], wait[|wait| - 1];
      assert last in wait;
      OnlyOldPackets(past, init);
      assert (past + wait)[..|past + wait| - 1] == past + init;
      StepAddsNothing(Exec(INITIAL, past + init), last);
    }
  }

  lemma StepAddsNothing(x: Side, e: Event)
    requires !e.Submit?
    ensures Step(x, e).s.unacked.Keys <= x.s.unacked.Keys && Step(x, e).born == x.born
  {
    if e.AckIn? && Enabled(x, e) {
      HandleAckEffects(x.s, e.ack.num, e.ack.sack, e.order, e.at);
    }
  }

  /**
   A writer that waits alone is released: after nine periods without another
   submission, whatever ACKs did or did not arrive, nothing is in flight and
   the window is open.
   */
  lemma BlockedSendReleased(past: seq<Event>, wait: seq<Event>)
    requires NoSubmit(wait)
    ensures var x := Exec(INITIAL, past);
            var y := Exec(INITIAL, past + wait);
            !y.late && y.clock - x.clock > Periods(9) ==>
              y.s.unacked == map[] && |y.s.unacked| < y.s.window.size
  {
    var x := Exec(INITIAL, past);
    var y := Exec(INITIAL, past + wait);
    ExecKeepsInv(INITIAL, past);
    ExecKeepsInv(INITIAL, past + wait);
    OnlyOldPackets(past, wait);
    if !y.late && y.clock - x.clock > Periods(9) {
      if n :| n in y.s.unacked {
        InFlightTimeBounded(past + wait, n);
        assert false;
      }
    }
  }
}
