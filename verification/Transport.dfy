/**
 Two endpoints and a network that may lose, duplicate and reorder. Data flows
 one way and ACKs the other; the opposite direction is a second, independent
 instance, since the AckNum carried by DATA is never processed.
 */
module Transport {
  import opened Base
  import opened ArqReceiver
  import opened ArqSender
  import opened Stream
  import S = SendSide
  import R = ReceiveSide

  /** `wire` and `ackWire` are the copies the network may still deliver, any number of times. */
  datatype State = State(snd: S.Side, rcv: R.Side, wire: set<(nat, Bytes)>, ackWire: set<Ack>)

  function Initial(capacity: nat): State {
    State(S.INITIAL, R.Initial(capacity), {}, {})
  }

  datatype Event =
    | SendSideStep(sent: S.Event)
    | DataIn(n: nat, payload: Bytes, sack: seq<nat>, stopped: bool)
    | Recovered(n: nat, payload: Bytes, sack: seq<nat>, stopped: bool)
    | ReceiveSideStep(received: R.Event)
    | LoseData(n: nat, payload: Bytes)
    | LoseAck(ack: Ack)

  /** A packet the sender really queued. */
  ghost predicate Genuine(log: seq<Option<Bytes>>, n: nat, payload: Bytes) {
    n < |log| && log[n] == Some(payload)
  }

  /**
   Only copies on the wire arrive, only ACKs on the wire are processed. A
   payload rebuilt by FEC may enter at any time (FecSoundness shows that it is
   genuine when every block of the encoder is harmless).
   */
  ghost predicate Enabled(x: State, ev: Event) {
    match ev
    case SendSideStep(e) => S.Enabled(x.snd, e) && (e.AckIn? ==> e.ack in x.ackWire)
    case DataIn(n, p, sack, stopped) => (n, p) in x.wire && R.Enabled(x.rcv, R.Arrive(n, p, sack, stopped))
    case Recovered(n, p, sack, stopped) => Genuine(x.snd.log, n, p) && R.Enabled(x.rcv, R.Arrive(n, p, sack, stopped))
    case ReceiveSideStep(e) => !e.Arrive? && R.Enabled(x.rcv, e)
    case LoseData(n, p) => true
    case LoseAck(a) => true
  }

  /** Copies a send-half event puts on the wire. */
  ghost function Transmitted(x: S.Side, e: S.Event): set<(nat, Bytes)> {
    match e
    case Submit(payload, _, _) => {(x.s.next, payload)}
    case Tick(failed, now) => set n | n in Resent(x.s, now, failed) :: (n, x.s.unacked[n].payload)
    case _ => {}
  }

  ghost function Receive(x: State, e: R.Event): State {
    var y := R.Step(x.rcv, e);
    x.(rcv := y, ackWire := x.ackWire + (set i | |x.rcv.acks| <= i < |y.acks| :: y.acks[i]))
  }

  ghost function Step(x: State, ev: Event): State {
    if !Enabled(x, ev) then x
    else match ev
         case SendSideStep(e) => x.(snd := S.Step(x.snd, e), wire := x.wire + Transmitted(x.snd, e))
         case DataIn(n, p, sack, stopped) => Receive(x, R.Arrive(n, p, sack, stopped))
         case Recovered(n, p, sack, stopped) => Receive(x, R.Arrive(n, p, sack, stopped))
         case ReceiveSideStep(e) => Receive(x, e)
         case LoseData(n, p) => x.(wire := x.wire - {(n, p)})
         case LoseAck(a) => x.(ackWire := x.ackWire - {a})
  }

  ghost function Exec(x: State, es: seq<Event>): State {
    if es == [] then x else Step(Exec(x, es[..|es| - 1]), es[|es| - 1])
  }

  // ---- invariant ------------------------------------------------------------

  /** Everything under way or received was submitted; everything acknowledged was received. */
  ghost predicate Agreement(x: State) {
    && (forall m <- x.wire :: Genuine(x.snd.log, m.0, m.1))
    && (forall n <- x.rcv.arrived :: Genuine(x.snd.log, n, x.rcv.arrived[n]))
    && (forall a <- x.ackWire :: R.AckHonest(x.rcv, a))
    && x.snd.acked <= x.rcv.arrived.Keys
  }

  ghost predicate Inv(x: State) {
    S.Inv(x.snd) && R.Inv(x.rcv) && Agreement(x)
  }

  lemma ReceiveGrows(x: R.Side, e: R.Event)
    requires R.Inv(x)
    ensures var y := R.Step(x, e);
            && R.Inv(y) && x.arrived.Keys <= y.arrived.Keys && x.r.next <= y.r.next
            && x.acks <= y.acks && y.r.capacity == x.r.capacity
            && (forall n <- y.arrived ::
                  if n in x.arrived then y.arrived[n] == x.arrived[n]
                  else e.Arrive? && e.seqNum == n && e.payload == y.arrived[n])
  {
    R.StepKeepsInv(x, e);
    if R.Enabled(x, e) && e.Arrive? {
      AcceptTracks(x.r, x.handed, x.arrived, e.seqNum, e.payload);
    }
  }

  lemma ReceiveKeepsInv(x: State, e: R.Event)
    requires Inv(x) && (e.Arrive? ==> Genuine(x.snd.log, e.seqNum, e.payload))
    ensures Inv(Receive(x, e))
  {
    var y := Receive(x, e);
    ReceiveGrows(x.rcv, e);
    forall a | a in y.ackWire ensures R.AckHonest(y.rcv, a) {
      if a in x.ackWire {
        assert R.AckHonest(x.rcv, a);
      }
    }
  }

  lemma AckCoversArrived(x: State, ack: Ack, order: seq<nat>, now: int)
    requires Inv(x) && R.AckHonest(x.rcv, ack) && S.Enabled(x.snd, S.AckIn(ack, order, now))
    ensures S.Step(x.snd, S.AckIn(ack, order, now)).acked <= x.rcv.arrived.Keys
  {
    HandleAckEffects(x.snd.s, ack.num, ack.sack, order, now);
    var y := S.OnAck(x.snd, ack, order, now);
    forall n | n in x.snd.s.unacked && n !in y.s.unacked ensures n in x.rcv.arrived {
      assert n < ack.num || n in ack.sack;
    }
  }

  lemma SenderKeepsLog(x: S.Side, e: S.Event)
    ensures x.log <= S.Step(x, e).log
    ensures !e.AckIn? ==> S.Step(x, e).acked == x.acked
  {
  }

  lemma TransmittedIsGenuine(x: S.Side, e: S.Event)
    requires S.Conserved(x) && S.Enabled(x, e)
    ensures forall m <- Transmitted(x, e) :: Genuine(S.Step(x, e).log, m.0, m.1)
  {
  }

  lemma SenderKeepsAgreement(x: State, y: S.Side, copies: set<(nat, Bytes)>)
    requires Agreement(x) && x.snd.log <= y.log && y.acked <= x.rcv.arrived.Keys
    requires forall m <- copies :: Genuine(y.log, m.0, m.1)
    ensures Agreement(x.(snd := y, wire := x.wire + copies))
  {
  }

  lemma SenderKeepsInv(x: State, e: S.Event)
    requires Inv(x) && Enabled(x, SendSideStep(e))
    ensures Inv(Step(x, SendSideStep(e)))
  {
    var y := S.Step(x.snd, e);
    assert S.Inv(y) by { S.StepKeepsInv(x.snd, e); }
    assert y.acked <= x.rcv.arrived.Keys by {
      if e.AckIn? {
        AckCoversArrived(x, e.ack, e.order, e.at);
      } else {
        SenderKeepsLog(x.snd, e);
      }
    }
    SenderKeepsAgreement(x, y, Transmitted(x.snd, e)) by {
      SenderKeepsLog(x.snd, e);
      TransmittedIsGenuine(x.snd, e);
    }
  }

  lemma StepKeepsInv(x: State, ev: Event)
    requires Inv(x)
    ensures Inv(Step(x, ev))
  {
    if Enabled(x, ev) {
      match ev
      case SendSideStep(e) => SenderKeepsInv(x, e);
      case DataIn(n, p, sack, stopped) =>
        assert Genuine(x.snd.log, (n, p).0, (n, p).1);
        ReceiveKeepsInv(x, R.Arrive(n, p, sack, stopped));
      case Recovered(n, p, sack, stopped) => ReceiveKeepsInv(x, R.Arrive(n, p, sack, stopped));
      case ReceiveSideStep(e) => ReceiveKeepsInv(x, e);
      case LoseData(n, p) =>
      case LoseAck(a) =>
    }
  }

  lemma {:induction false} ExecKeepsInv(x: State, es: seq<Event>)
    requires Inv(x)
    ensures Inv(Exec(x, es)) && Exec(x, es).rcv.r.capacity == x.rcv.r.capacity
  {
    if es != [] {
      var p := Exec(x, es[..|es| - 1]);
      ExecKeepsInv(x, es[..|es| - 1]);
      StepKeepsInv(p, es[|es| - 1]);
      StepKeepsCapacity(p, es[|es| - 1]);
    }
  }

  lemma RunKeepsInv(capacity: nat, es: seq<Event>)
    ensures Inv(Exec(Initial(capacity), es))
  {
    ExecKeepsInv(Initial(capacity), es);
  }

  /** States that some run from the beginning comes to. */
  ghost predicate Reached(x: State) {
    exists capacity, es :: RunTo(capacity, es, x)
  }

  ghost predicate RunTo(capacity: nat, es: seq<Event>, x: State) {
    Exec(Initial(capacity), es) == x
  }

  lemma ReachedKeepsInv(x: State)
    requires Reached(x)
    ensures Inv(x)
  {
    var capacity, es :| RunTo(capacity, es, x);
    RunKeepsInv(capacity, es);
  }

  lemma ReachedStep(x: State, ev: Event)
    requires Reached(x)
    ensures Reached(Step(x, ev))
  {
    var capacity, es :| RunTo(capacity, es, x);
    assert (es + [ev])[..|es|] == es;
    assert RunTo(capacity, es + [ev], Step(x, ev));
  }

  lemma {:induction false} ReachedExec(x: State, es: seq<Event>)
    requires Reached(x)
    ensures Reached(Exec(x, es))
  {
    if es != [] {
      ReachedExec(x, es[..|es| - 1]);
      ReachedStep(Exec(x, es[..|es| - 1]), es[|es| - 1]);
    }
  }

  lemma StepKeepsCapacity(x: State, ev: Event)
    requires Inv(x)
    ensures Step(x, ev).rcv.r.capacity == x.rcv.r.capacity
  {
    match ev
    case DataIn(n, p, sack, stopped) => ReceiveGrows(x.rcv, R.Arrive(n, p, sack, stopped));
    case Recovered(n, p, sack, stopped) => ReceiveGrows(x.rcv, R.Arrive(n, p, sack, stopped));
    case ReceiveSideStep(e) => ReceiveGrows(x.rcv, e);
    case _ =>
  }

  // ---- main results -----------------------------------------------------------

  /** Payloads the engine accepted, in order; burned numbers carry none. */
  function Accepted(log: seq<Option<Bytes>>): seq<Bytes> {
    if log == [] then []
    else (if log[0].Some? then [log[0].value] else []) + Accepted(log[1..])
  }

  lemma HandedWasSubmitted(x: State)
    requires Agreement(x) && Tracks(x.rcv.r, x.rcv.handed, x.rcv.arrived)
    ensures |x.rcv.handed| <= |x.snd.log|
    ensures forall i :: 0 <= i < |x.rcv.handed| ==> x.snd.log[i] == Some(x.rcv.handed[i])
  {
    assert |x.snd.log| !in x.rcv.arrived;
    forall i | 0 <= i < |x.rcv.handed| ensures i < |x.snd.log| && x.snd.log[i] == Some(x.rcv.handed[i]) {
      assert i in x.rcv.arrived;
      assert Genuine(x.snd.log, i, x.rcv.arrived[i]);
    }
  }

  /** Payloads before the first burned number: nothing after it can be handed over. */
  function LivePart(log: seq<Option<Bytes>>): seq<Bytes> {
    if log == [] || log[0].None? then [] else [log[0].value] + LivePart(log[1..])
  }

  lemma {:induction false} PrefixOfLivePart(handed: seq<Bytes>, log: seq<Option<Bytes>>)
    requires |handed| <= |log| && forall i :: 0 <= i < |handed| ==> log[i] == Some(handed[i])
    ensures handed <= LivePart(log)
    ensures |handed| == |log| ==> handed == LivePart(log)
  {
    if handed != [] {
      PrefixOfLivePart(handed[1..], log[1..]);
      assert handed == [handed[0]] + handed[1..];
    }
  }

  lemma {:induction false} LivePartOfAccepted(log: seq<Option<Bytes>>)
    ensures LivePart(log) <= Accepted(log)
  {
    if log != [] && log[0].Some? {
      LivePartOfAccepted(log[1..]);
    }
  }

  lemma OutputIsPrefix(x: State)
    requires Inv(x) && !x.rcv.overflowed
    ensures x.rcv.output <= Flatten(LivePart(x.snd.log))
  {
    HandedWasSubmitted(x);
    PrefixOfLivePart(x.rcv.handed, x.snd.log);
    FlattenPrefix(x.rcv.handed, LivePart(x.snd.log));
    FlattenConcat(x.rcv.taken, x.rcv.r.queue);
  }

  /**
   End-to-end safety. In every run in which the delivered queue never
   overflows, what Read has returned is a prefix of the bytes accepted by the
   sender before the first burned number, also when packets were abandoned.
   */
  lemma ReadIsPrefixOfWritten(capacity: nat, es: seq<Event>)
    ensures var x := Exec(Initial(capacity), es);
            !x.rcv.overflowed ==>
              && x.rcv.output <= Flatten(LivePart(x.snd.log))
              && LivePart(x.snd.log) <= Accepted(x.snd.log)
  {
    ExecKeepsInv(Initial(capacity), es);
    var x := Exec(Initial(capacity), es);
    LivePartOfAccepted(x.snd.log);
    if !x.rcv.overflowed {
      OutputIsPrefix(x);
    }
  }

  lemma ArrivedIsHeld(x: State)
    requires Agreement(x) && Tracks(x.rcv.r, x.rcv.handed, x.rcv.arrived)
    ensures forall n <- x.snd.acked :: n < x.rcv.r.next || n in x.rcv.r.buf
  {
  }

  /**
   Acknowledged means received, under stale, duplicated and reordered ACKs:
   every acknowledged packet was handed over or waits in recvBuf.
   */
  lemma AcknowledgedMeansReceived(capacity: nat, es: seq<Event>)
    ensures var x := Exec(Initial(capacity), es);
            && S.Conserved(x.snd)
            && forall n <- x.snd.acked :: n < x.rcv.r.next || n in x.rcv.r.buf
  {
    ExecKeepsInv(Initial(capacity), es);
    ArrivedIsHeld(Exec(Initial(capacity), es));
  }
}
