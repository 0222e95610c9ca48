/**
 What the send half measures: which ACKs yield a round-trip sample, what the
 estimates and counters are in every run, and exactly what one retransmission
 cycle does.
 */
module Estimates {
  import opened Base
  import opened ArqReceiver
  import opened ArqSender
  import opened SendSide
  import Rtt = RttEstimator
  import Cwnd = CongestionWindow

  // ---- one acknowledged packet ------------------------------------------------------

  /** A packet that was retransmitted, or that the code tried to, changes no estimate. */
  lemma RetransmittedTellsNothing(s: Sender, n: nat, now: int)
    requires n in s.unacked && s.unacked[n].retries != 0
    ensures var t := ProcessAcked(s, n, now);
            t == s.(unacked := s.unacked - {n}, bytesDelivered := s.bytesDelivered + |s.unacked[n].payload|)
  {
  }

  /**
   Any other packet is a sample. The least round trip goes down to it, or is
   replaced if it was zero; the bandwidth goes up to the rate at which bytes were
   delivered since the packet was queued, or loses 15 hundredths of its excess.
   */
  lemma SampleUpdates(s: Sender, n: nat, now: int)
    requires n in s.unacked && s.unacked[n].retries == 0 && s.unacked[n].delivered <= s.bytesDelivered
    requires s.bytesDelivered + |s.unacked[n].payload| < 0x1_0000_0000_0000_0000
    ensures var t, inf := ProcessAcked(s, n, now), s.unacked[n];
            var time := Max(now - inf.sentAt, 0);
            && t.rtt == Rtt.Apply(s.rtt, [Rtt.Measured(time)])
            && (s.minRtt == 0 ==> t.minRtt == time)
            && (s.minRtt != 0 ==> t.minRtt == Min(time, s.minRtt))
            && (time == 0 ==> t.btlBw == s.btlBw)
            && (time > 0 ==>
                  var rate := (s.bytesDelivered + |inf.payload| - inf.delivered) as real / time as real;
                  if rate > s.btlBw then t.btlBw == rate else t.btlBw - rate == (s.btlBw - rate) * 0.85)
  {
    var inf := s.unacked[n];
    var time := Max(now - inf.sentAt, 0);
    assert [Rtt.Measured(time)][..0] == [];
    if time > 0 {
      RateIs(s.bytesDelivered + |inf.payload|, inf.delivered, time);
      FilterIs(s.btlBw, (s.bytesDelivered + |inf.payload| - inf.delivered) as real / time as real);
    }
  }

  lemma RateIs(bytes: nat, before: nat, time: nat)
    requires before <= bytes < 0x1_0000_0000_0000_0000 && time > 0
    ensures DeliveryRate(bytes, before, time) == (bytes - before) as real / time as real
  {
    assert (bytes - before) % U64 == bytes - before;
  }

  lemma FilterIs(btlBw: real, rate: real)
    ensures if rate > btlBw then Filter(btlBw, rate) == rate
            else Filter(btlBw, rate) - rate == (btlBw - rate) * 0.85
  {
  }

  // ---- a list of acknowledged packets -------------------------------------------------

  /** The listed packets that are in flight, each once. */
  function Acked(unacked: map<nat, Inflight>, list: seq<nat>): seq<nat> {
    if list == [] then []
    else
      var init, n := Acked(unacked, list[..|list| - 1]), list[|list| - 1];
      if n in unacked && n !in init then init + [n] else init
  }

  ghost predicate Distinct(list: seq<nat>) {
    forall i, j :: 0 <= i < j < |list| ==> list[i] != list[j]
  }

  lemma OneMoreDistinct(list: seq<nat>, n: nat)
    requires Distinct(list) && n !in list
    ensures Distinct(list + [n])
  {
  }

  lemma {:induction false} AckedAre(unacked: map<nat, Inflight>, list: seq<nat>)
    ensures forall n :: n in Acked(unacked, list) <==> n in list && n in unacked
    ensures Distinct(Acked(unacked, list))
  {
    if list != [] {
      var init, n := list[..|list| - 1], list[|list| - 1];
      AckedAre(unacked, init);
      assert list == init + [n];
      if n in unacked && n !in Acked(unacked, init) {
        OneMoreDistinct(Acked(unacked, init), n);
      }
    }
  }

  /** Round trips of those that were transmitted once, in order. */
  function SamplesOf(unacked: map<nat, Inflight>, acked: seq<nat>, now: int): seq<nat>
    requires forall n <- acked :: n in unacked
  {
    if acked == [] then []
    else
      var n := acked[|acked| - 1];
      SamplesOf(unacked, acked[..|acked| - 1], now)
      + (if unacked[n].retries == 0 then [Max(now - unacked[n].sentAt, 0)] else [])
  }

  function BytesOf(unacked: map<nat, Inflight>, acked: seq<nat>): nat
    requires forall n <- acked :: n in unacked
  {
    if acked == [] then 0
    else BytesOf(unacked, acked[..|acked| - 1]) + |unacked[acked[|acked| - 1]].payload|
  }

  function Measured(samples: seq<nat>): seq<Rtt.Event> {
    seq(|samples|, i requires 0 <= i < |samples| => Rtt.Measured(samples[i]))
  }

  lemma {:induction false} RttApplyAppend(r: Rtt.Rtt, a: seq<Rtt.Event>, b: seq<Rtt.Event>)
    ensures Rtt.Apply(r, a + b) == Rtt.Apply(Rtt.Apply(r, a), b)
  {
    if b == [] {
      assert a + b == a;
    } else {
      RttApplyAppend(r, a, b[..|b| - 1]);
      assert (a + b)[..|a + b| - 1] == a + b[..|b| - 1];
    }
  }

  lemma MeasuredOneMore(r: Rtt.Rtt, samples: seq<nat>, sample: nat)
    ensures Rtt.Apply(r, Measured(samples + [sample])) == Rtt.Sample(Rtt.Apply(r, Measured(samples)), sample)
  {
    assert Measured(samples + [sample])[..|samples|] == Measured(samples);
  }

  /** Least of a value and some others. */
  function Least(start: nat, samples: seq<nat>): nat {
    if samples == [] then start else Min(samples[|samples| - 1], Least(start, samples[..|samples| - 1]))
  }

  /** What acknowledging these packets does to estimates and counters. */
  ghost predicate Estimated(s: Sender, t: Sender, acked: seq<nat>, now: int) {
    && (forall n <- acked :: n in s.unacked)
    && var samples := SamplesOf(s.unacked, acked, now);
       && t.rtt == Rtt.Apply(s.rtt, Measured(samples))
       && t.bytesDelivered == s.bytesDelivered + BytesOf(s.unacked, acked)
       && (s.minRtt > 0 && 0 !in samples ==> t.minRtt == Least(s.minRtt, samples) > 0)
       && (samples == [] ==> t.minRtt == s.minRtt && t.btlBw == s.btlBw)
  }

  lemma SampleNext(s: Sender, p: Sender, t: Sender, acked: seq<nat>, n: nat, now: int)
    requires Estimated(s, p, acked, now) && n in s.unacked && s.unacked[n].retries == 0
    requires var time := Max(now - s.unacked[n].sentAt, 0);
             && t.rtt == Rtt.Sample(p.rtt, time)
             && t.bytesDelivered == p.bytesDelivered + |s.unacked[n].payload|
             && t.minRtt == if p.minRtt == 0 || time < p.minRtt then time else p.minRtt
    ensures Estimated(s, t, acked + [n], now)
  {
    var more, samples := acked + [n], SamplesOf(s.unacked, acked, now);
    var time := Max(now - s.unacked[n].sentAt, 0);
    assert more[..|acked|] == acked;
    assert SamplesOf(s.unacked, more, now) == samples + [time];
    MeasuredOneMore(s.rtt, samples, time);
    assert (samples + [time])[..|samples|] == samples;
    assert 0 !in samples + [time] ==> 0 !in samples && time != 0 by {
      assert time in samples + [time] && forall x <- samples :: x in samples + [time];
    }
  }

  lemma RetriedNext(s: Sender, p: Sender, t: Sender, acked: seq<nat>, n: nat, now: int)
    requires Estimated(s, p, acked, now) && n in s.unacked && s.unacked[n].retries != 0
    requires t.rtt == p.rtt && t.minRtt == p.minRtt && t.btlBw == p.btlBw
    requires t.bytesDelivered == p.bytesDelivered + |s.unacked[n].payload|
    ensures Estimated(s, t, acked + [n], now)
  {
    var more, samples := acked + [n], SamplesOf(s.unacked, acked, now);
    assert more[..|acked|] == acked;
    assert SamplesOf(s.unacked, more, now) == samples + [] == samples;
  }

  lemma NextEstimated(s: Sender, p: Sender, acked: seq<nat>, n: nat, now: int)
    requires Estimated(s, p, acked, now)
    requires n in s.unacked && n in p.unacked && p.unacked[n] == s.unacked[n]
    ensures Estimated(s, ProcessAcked(p, n, now), acked + [n], now)
  {
    if s.unacked[n].retries == 0 {
      SampleNext(s, p, ProcessAcked(p, n, now), acked, n, now);
    } else {
      RetriedNext(s, p, ProcessAcked(p, n, now), acked, n, now);
    }
  }

  lemma {:induction false} ListEstimated(s: Sender, list: seq<nat>, now: int)
    ensures Estimated(s, ProcessAll(s, list, now), Acked(s.unacked, list), now)
  {
    if list == [] {
      assert Measured([]) == [];
    } else {
      var init, n := list[..|list| - 1], list[|list| - 1];
      ListEstimated(s, init, now);
      ProcessAllEffects(s, init, now);
      AckedAre(s.unacked, init);
      if n in s.unacked && n !in init {
        NextEstimated(s, ProcessAll(s, init, now), Acked(s.unacked, init), n, now);
      }
    }
  }

  /** The loss counter is not looked at. */
  lemma {:induction false} LostIsIgnored(s: Sender, list: seq<nat>, now: int, lost: nat)
    ensures ProcessAll(s.(packetsLost := lost), list, now) == ProcessAll(s, list, now).(packetsLost := lost)
  {
    if list != [] {
      LostIsIgnored(s, list[..|list| - 1], now, lost);
    }
  }

  lemma {:induction false} ProcessAppend(s: Sender, a: seq<nat>, b: seq<nat>, now: int)
    ensures ProcessAll(s, a + b, now) == ProcessAll(ProcessAll(s, a, now), b, now)
  {
    if b == [] {
      assert a + b == a;
    } else {
      ProcessAppend(s, a, b[..|b| - 1], now);
      assert (a + b)[..|a + b| - 1] == a + b[..|b| - 1];
    }
  }

  /** Packets an ACK acknowledges: those below its number in some order, then those listed. */
  function AckedBy(unacked: map<nat, Inflight>, order: seq<nat>, sack: seq<nat>): seq<nat> {
    Acked(unacked, order + sack)
  }

  /**
   What one ACK does, whatever the visiting order: it samples the packets it
   covers that were transmitted once, counts their bytes, and moves the window
   once, toward one and a half times bandwidth times least round trip in
   thousands of bytes if both are known.
   */
  lemma AckEstimates(s: Sender, num: nat, sack: seq<nat>, order: seq<nat>, now: int)
    ensures var t := HandleAck(s, num, sack, order, now);
            && Estimated(s, t, AckedBy(s.unacked, order, sack), now)
            && t.packetsLost == s.packetsLost + |order|
            && WindowMoved(s.window, t.window, t.btlBw, t.minRtt)
  {
    var c, lost := ProcessAll(s, order, now), s.packetsLost + |order|;
    var p := ProcessAll(s, order + sack, now);
    ProcessAppend(s, order, sack, now);
    LostIsIgnored(c, sack, now, lost);
    ListEstimated(s, order + sack, now);
    var t := HandleAck(s, num, sack, order, now);
    assert t == p.(packetsLost := lost, window := Cwnd.OnAck(p.window, Target(p.btlBw, p.minRtt)));
    ProcessAllEffects(s, order + sack, now);
    WindowMoves(s.window, t.btlBw, t.minRtt);
  }

  /** The window after one ACK, with the estimates after it. */
  ghost predicate WindowMoved(w: Cwnd.Window, v: Cwnd.Window, btlBw: real, minRtt: nat) {
    if minRtt > 0 && btlBw > 0.0 then
      exists goal: int :: Goal(btlBw, minRtt, goal) && v == Cwnd.Apply(w, [Cwnd.Acked(Some(goal))])
    else v == Cwnd.Apply(w, [Cwnd.Acked(None)])
  }

  lemma WindowMoves(w: Cwnd.Window, btlBw: real, minRtt: nat)
    ensures WindowMoved(w, Cwnd.OnAck(w, Target(btlBw, minRtt)), btlBw, minRtt)
  {
    OneWindowEvent(w, Target(btlBw, minRtt));
    if minRtt > 0 && btlBw > 0.0 {
      TargetIsGoal(btlBw * minRtt as real, Target(btlBw, minRtt).value);
    }
  }

  lemma TargetIsGoal(product: real, goal: int)
    requires goal == (product / 1000.0 * 1.5).Floor
    ensures goal as real * 2000.0 <= product * 3.0 < (goal + 1) as real * 2000.0
  {
  }

  lemma OneWindowEvent(w: Cwnd.Window, target: Option<int>)
    ensures Cwnd.Apply(w, [Cwnd.Acked(target)]) == Cwnd.OnAck(w, target)
  {
    assert [Cwnd.Acked(target)][..0] == [];
  }

  /** The whole number of thousands in one and a half times bandwidth times round trip. */
  predicate Goal(btlBw: real, minRtt: nat, goal: int) {
    goal as real * 2000.0 <= btlBw * minRtt as real * 3.0 < (goal + 1) as real * 2000.0
  }

  // ---- one retransmission cycle --------------------------------------------------------

  /**
   One cycle, packet by packet. A packet whose last transmission is more than
   the timeout ago is given up after eight retries; otherwise its retries go up
   by one, and unless it cannot be encoded it is sent again now. All others stay
   as they are. If any was late, the timeout doubles up to 5 s and the window is
   cut; otherwise nothing changes.
   */
  lemma CycleIs(s: Sender, now: int, failed: set<nat>)
    ensures var t := ArqSender.Tick(s, now, failed);
            && (forall n :: n in t.unacked <==>
                  n in s.unacked && (now - s.unacked[n].sentAt > s.rtt.rto ==> s.unacked[n].retries < 8))
            && (forall n :: n in Resent(s, now, failed) <==>
                  && n in s.unacked && now - s.unacked[n].sentAt > s.rtt.rto && s.unacked[n].retries < 8
                  && n !in failed)
            && (forall n <- t.unacked ::
                  && t.unacked[n].payload == s.unacked[n].payload && t.unacked[n].size == s.unacked[n].size
                  && t.unacked[n].delivered == s.unacked[n].delivered
                  && t.unacked[n].sentAt == (if n in Resent(s, now, failed) then now else s.unacked[n].sentAt)
                  && t.unacked[n].retries == s.unacked[n].retries
                       + (if now - s.unacked[n].sentAt > s.rtt.rto then 1 else 0))
            && (if exists n :: n in s.unacked && now - s.unacked[n].sentAt > s.rtt.rto then
                  && t.rtt == Rtt.Apply(s.rtt, [Rtt.TimedOut]) && t.window == Cwnd.Apply(s.window, [Cwnd.TimedOut])
                  && t == s.(unacked := t.unacked, rtt := t.rtt, window := t.window)
                else t == s)
  {
    if n :| n in s.unacked && now - s.unacked[n].sentAt > s.rtt.rto {
      assert n in Late(s, now);
    }
    assert [Rtt.TimedOut][..0] == [] && [Cwnd.TimedOut][..0] == [];
  }

  // ---- whole runs -----------------------------------------------------------------------

  /** Some packet's last transmission is more than the timeout ago. */
  ghost predicate AnyLate(s: Sender, now: int) {
    exists n :: n in s.unacked && now - s.unacked[n].sentAt > s.rtt.rto
  }

  /** The samples and timeouts of a run, as the estimator sees them. */
  ghost function RttEvents(es: seq<Event>): seq<Rtt.Event> {
    if es == [] then []
    else
      var init, e := es[..|es| - 1], es[|es| - 1];
      var x := Exec(SendSide.INITIAL, init);
      if !Enabled(x, e) then RttEvents(init)
      else match e
           case AckIn(ack, order, now) =>
             AckedAre(x.s.unacked, order + ack.sack);
             RttEvents(init) + Measured(SamplesOf(x.s.unacked, AckedBy(x.s.unacked, order, ack.sack), now))
           case Tick(_, now) => if AnyLate(x.s, now) then RttEvents(init) + [Rtt.TimedOut] else RttEvents(init)
           case _ => RttEvents(init)
  }

  lemma {:induction false} RttOneMore(r: Rtt.Rtt, a: seq<Rtt.Event>, e: Rtt.Event)
    ensures Rtt.Apply(r, a + [e]) == Rtt.Apply(Rtt.Apply(r, a), [e])
  {
    RttApplyAppend(r, a, [e]);
  }

  /** In every run the estimator is where these samples and timeouts lead it from its initial state. */
  lemma {:induction false} EstimatorFollowsRun(es: seq<Event>)
    ensures Exec(SendSide.INITIAL, es).s.rtt == Rtt.Apply(Rtt.INITIAL, RttEvents(es))
  {
    if es != [] {
      var init, e := es[..|es| - 1], es[|es| - 1];
      var x := Exec(SendSide.INITIAL, init);
      EstimatorFollowsRun(init);
      if Enabled(x, e) {
        match e
        case AckIn(ack, order, now) =>
          AckEstimates(x.s, ack.num, ack.sack, order, now);
          RttApplyAppend(Rtt.INITIAL, RttEvents(init),
                         Measured(SamplesOf(x.s.unacked, AckedBy(x.s.unacked, order, ack.sack), now)));
        case Tick(failed, now) =>
          CycleIs(x.s, now, failed);
          RttOneMore(Rtt.INITIAL, RttEvents(init), Rtt.TimedOut);
        case _ =>
      }
    }
  }

  /** What a submission puts in flight, from which round trip and rate will be measured. */
  ghost predicate Queued(x: Side, y: Side, n: nat, payload: Bytes, size: nat, now: int) {
    && n !in x.s.unacked && n in y.s.unacked && y.s.unacked == x.s.unacked[n := y.s.unacked[n]]
    && var inf := y.s.unacked[n];
       && inf.payload == payload && inf.sentAt == now && inf.retries == 0 && inf.size == size
       && inf.delivered == x.s.bytesDelivered
  }

  lemma SubmitQueues(x: Side, payload: Bytes, size: nat, now: int)
    requires Conserved(x) && Enabled(x, Submit(payload, size, now))
    ensures var y := Step(x, Submit(payload, size, now));
            && Queued(x, y, |x.log|, payload, size, now)
            && y.s == x.s.(next := |x.log| + 1, unacked := y.s.unacked, packetsSent := x.s.packetsSent + 1)
  {
    assert |x.log| !in x.s.unacked;
    assert Inc(x.s.next) == x.s.next + 1;
  }

  /**
   In every run a submission takes the next number, which is the length of the
   log, and puts exactly that packet in flight: with its payload, its time, no
   retries, and the bytes delivered so far. The window had room for it.
   */
  lemma SubmissionIs(es: seq<Event>, payload: Bytes, size: nat, now: int)
    requires Enabled(Exec(SendSide.INITIAL, es), Submit(payload, size, now))
    ensures var x := Exec(SendSide.INITIAL, es);
            var y := Step(x, Submit(payload, size, now));
            && |x.s.unacked| < x.s.window.size
            && Queued(x, y, |x.log|, payload, size, now)
            && y.s == x.s.(next := |x.log| + 1, unacked := y.s.unacked, packetsSent := x.s.packetsSent + 1)
  {
    assert Conserved(Exec(SendSide.INITIAL, es)) by {
      ExecKeepsInv(SendSide.INITIAL, es);
    }
    SubmitQueues(Exec(SendSide.INITIAL, es), payload, size, now);
  }

  // ---- samples are unambiguous ------------------------------------------------------------

  /** A packet in flight without retries was transmitted once, when it was submitted. */
  ghost predicate SentOnce(x: Side) {
    forall n <- x.s.unacked :: n in x.sent && n in x.born
      && (x.s.unacked[n].retries == 0 ==> x.sent[n] == 1 && x.s.unacked[n].sentAt == x.born[n])
  }

  lemma StepKeepsSentOnce(x: Side, e: Event)
    requires Inv(x) && SentOnce(x)
    ensures SentOnce(Step(x, e))
  {
    if Enabled(x, e) {
      match e
      case AckIn(ack, order, now) => AckShrinks(x, ack, order, now);
      case Tick(failed, now) => CycleIs(x.s, now, failed);
      case _ =>
    }
  }

  lemma {:induction false} RunKeepsSentOnce(es: seq<Event>)
    ensures Inv(Exec(SendSide.INITIAL, es)) && SentOnce(Exec(SendSide.INITIAL, es))
  {
    ExecKeepsInv(SendSide.INITIAL, es);
    if es != [] {
      ExecKeepsInv(SendSide.INITIAL, es[..|es| - 1]);
      RunKeepsSentOnce(es[..|es| - 1]);
      StepKeepsSentOnce(Exec(SendSide.INITIAL, es[..|es| - 1]), es[|es| - 1]);
    }
  }

  lemma {:induction false} SamplesFrom(unacked: map<nat, Inflight>, acked: seq<nat>, now: int, sample: nat)
    requires (forall n <- acked :: n in unacked) && sample in SamplesOf(unacked, acked, now)
    ensures exists n :: n in acked && n in unacked && unacked[n].retries == 0
                        && sample == Max(now - unacked[n].sentAt, 0)
  {
    var init, n := acked[..|acked| - 1], acked[|acked| - 1];
    if sample in SamplesOf(unacked, init, now) {
      SamplesFrom(unacked, init, now, sample);
    }
  }

  /**
   No sample is ambiguous: in every run each sample an ACK yields is the time
   since the submission of a packet that it acknowledges and that was
   transmitted exactly once.
   */
  lemma SamplesUnambiguous(es: seq<Event>, ack: Ack, order: seq<nat>, now: int, sample: nat)
    requires var x := Exec(SendSide.INITIAL, es);
             && Enabled(x, AckIn(ack, order, now))
             && (forall n <- AckedBy(x.s.unacked, order, ack.sack) :: n in x.s.unacked)
             && sample in SamplesOf(x.s.unacked, AckedBy(x.s.unacked, order, ack.sack), now)
    ensures var x := Exec(SendSide.INITIAL, es);
            exists n :: n in x.s.unacked && (n < ack.num || n in ack.sack)
                        && n in x.sent && x.sent[n] == 1 && n in x.born && sample == now - x.born[n]
  {
    var x := Exec(SendSide.INITIAL, es);
    RunKeepsSentOnce(es);
    AckedAre(x.s.unacked, order + ack.sack);
    SamplesFrom(x.s.unacked, AckedBy(x.s.unacked, order, ack.sack), now, sample);
  }

  // ---- bytes delivered ----------------------------------------------------------------------

  /** Payload bytes of the submitted numbers in a set, below `k`. */
  ghost function Total(log: seq<Option<Bytes>>, acked: set<nat>, k: nat): nat
    requires k <= |log|
  {
    if k == 0 then 0
    else Total(log, acked, k - 1) + (if k - 1 in acked && log[k - 1].Some? then |log[k - 1].value| else 0)
  }

  lemma {:induction false} TotalAdd(log: seq<Option<Bytes>>, acked: set<nat>, n: nat, k: nat)
    requires k <= |log| && n < |log| && n !in acked && log[n].Some?
    ensures Total(log, acked + {n}, k) == Total(log, acked, k) + (if n < k then |log[n].value| else 0)
  {
    if k > 0 {
      TotalAdd(log, acked, n, k - 1);
    }
  }

  lemma {:induction false} TotalGrows(log: seq<Option<Bytes>>, e: Option<Bytes>, acked: set<nat>, k: nat)
    requires k <= |log|
    ensures Total(log + [e], acked, k) == Total(log, acked, k)
  {
    if k > 0 {
      TotalGrows(log, e, acked, k - 1);
    }
  }

  lemma {:induction false} TotalAcked(x: Side, acked: seq<nat>)
    requires Conserved(x) && (forall n <- acked :: n in x.s.unacked) && Distinct(acked)
    ensures Total(x.log, x.acked + Listed(acked), |x.log|) ==
            Total(x.log, x.acked, |x.log|) + BytesOf(x.s.unacked, acked)
  {
    if acked == [] {
      assert x.acked + Listed(acked) == x.acked;
    } else {
      var init, n := acked[..|acked| - 1], acked[|acked| - 1];
      TotalAcked(x, init);
      assert acked == init + [n];
      assert Listed(acked) == Listed(init) + {n};
      assert x.acked + Listed(acked) == (x.acked + Listed(init)) + {n};
      TotalAdd(x.log, x.acked + Listed(init), n, |x.log|);
    }
  }

  /** What an ACK takes out of flight is what it acknowledges. */
  lemma GoneIsAcked(x: Side, ack: Ack, order: seq<nat>, now: int)
    requires IsOrder(x.s.unacked, ack.num, order)
    ensures OnAck(x, ack, order, now).acked == x.acked + Listed(AckedBy(x.s.unacked, order, ack.sack))
    ensures forall n <- AckedBy(x.s.unacked, order, ack.sack) :: n in x.s.unacked
    ensures Distinct(AckedBy(x.s.unacked, order, ack.sack))
  {
    var y := OnAck(x, ack, order, now);
    AckedAre(x.s.unacked, order + ack.sack);
    HandleAckEffects(x.s, ack.num, ack.sack, order, now);
    assert x.s.unacked.Keys - y.s.unacked.Keys == Listed(AckedBy(x.s.unacked, order, ack.sack));
  }

  lemma BytesCounted(x: Side, ack: Ack, order: seq<nat>, now: int)
    ensures (forall n <- AckedBy(x.s.unacked, order, ack.sack) :: n in x.s.unacked)
    ensures OnAck(x, ack, order, now).s.bytesDelivered
         == x.s.bytesDelivered + BytesOf(x.s.unacked, AckedBy(x.s.unacked, order, ack.sack))
  {
    AckEstimates(x.s, ack.num, ack.sack, order, now);
  }

  lemma AckCounts(x: Side, ack: Ack, order: seq<nat>, now: int)
    requires Conserved(x) && Enabled(x, AckIn(ack, order, now))
    requires x.s.bytesDelivered == Total(x.log, x.acked, |x.log|)
    ensures var y := OnAck(x, ack, order, now);
            y.s.bytesDelivered == Total(y.log, y.acked, |y.log|)
  {
    GoneIsAcked(x, ack, order, now);
    BytesCounted(x, ack, order, now);
    TotalAcked(x, AckedBy(x.s.unacked, order, ack.sack));
  }

  /** In every run bytesDelivered is the size of all acknowledged payloads, each counted once. */
  lemma {:induction false} DeliveredIsAcknowledged(es: seq<Event>)
    ensures var x := Exec(SendSide.INITIAL, es);
            x.s.bytesDelivered == Total(x.log, x.acked, |x.log|)
  {
    if es != [] {
      var init, e := es[..|es| - 1], es[|es| - 1];
      var x := Exec(SendSide.INITIAL, init);
      DeliveredIsAcknowledged(init);
      ExecKeepsInv(SendSide.INITIAL, init);
      if Enabled(x, e) {
        match e
        case Submit(payload, _, _) => LogGrows(x, Some(payload));
        case Burn(_) => LogGrows(x, None);
        case AckIn(ack, order, now) => AckCounts(x, ack, order, now);
        case Tick(failed, now) => CycleIs(x.s, now, failed);
      }
    }
  }

  lemma LogGrows(x: Side, e: Option<Bytes>)
    requires Conserved(x)
    ensures Total(x.log + [e], x.acked, |x.log + [e]|) == Total(x.log, x.acked, |x.log|)
  {
    TotalGrows(x.log, e, x.acked, |x.log|);
  }
}
