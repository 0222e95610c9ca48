/**
 Runs of the receive half: packets arrive, delayed-ACK callbacks fire (also
 stale ones), the application reads. Each event is one lock-protected region.
 */
module ReceiveSide {
  import opened Base
  import opened ArqReceiver
  import opened Stream

  /**
   The receiver with its surroundings and its history. `live` are timer
   callbacks that are scheduled or wait for the lock; `arrived` and `handed` are
   everything that arrived and everything given to deliverPacket; `taken` are
   the packets Read took from the channel, `readBuf` and `output` its bytes.
   */
  datatype Side = Side(
    r: Receiver, live: set<nat>, arrived: map<nat, Bytes>, handed: seq<Bytes>,
    overflowed: bool, taken: seq<Bytes>, readBuf: Bytes, output: Bytes, acks: seq<Ack>)

  function Initial(capacity: nat): Side {
    Side(ArqReceiver.Initial(capacity), {}, map[], [], false, [], [], [], [])
  }

  datatype Event =
    | Arrive(seqNum: nat, payload: Bytes, sack: seq<nat>, stopped: bool)
    | Fire(timer: nat, sack: seq<nat>, stopped: bool)
    | Read(room: nat)

  /** Fewer than 2^32 packets, one payload per number, and a SACK list the code could build. */
  ghost predicate Enabled(x: Side, e: Event) {
    match e
    case Arrive(s, p, sack, _) =>
      && s < U32 - 1 && (s in x.arrived ==> x.arrived[s] == p)
      && (FlushesNow(x.r, s) ==> IsSack(Accept(x.r, s, p).buf, sack))
    case Fire(timer, sack, _) => timer in x.live && IsSack(x.r.buf, sack)
    case Read(_) => ReadOnce(x.readBuf, x.r.queue, 0).Copied?
  }

  /** Stop keeps the callback from running only if it has not begun to. */
  function AfterStop(live: set<nat>, timer: Option<nat>, stopped: bool): set<nat> {
    if timer.Some? && stopped then live - {timer.value} else live
  }

  function OnArrive(x: Side, s: nat, p: Bytes, sack: seq<nat>, stopped: bool): Side {
    var r' := ReceiveData(x.r, s, p);
    var flushed := FlushesNow(x.r, s);
    x.(r := r',
       live := if flushed then AfterStop(x.live, x.r.timer, stopped)
               else if x.r.timer.None? then x.live + {x.r.timersMade} else x.live,
       arrived := x.arrived[s := p],
       handed := x.handed + Handed(x.r, s, p),
       overflowed := x.overflowed || |r'.queue| < |x.r.queue| + |Handed(x.r, s, p)|,
       acks := if flushed then x.acks + [Ack(r'.next, sack)] else x.acks)
  }

  function OnFire(x: Side, timer: nat, sack: seq<nat>, stopped: bool): Side {
    x.(r := Flush(x.r),
       live := AfterStop(x.live - {timer}, x.r.timer, stopped),
       acks := x.acks + [Ack(x.r.next, sack)])
  }

  /** Packets a Read takes from the channel. */
  function Front(queue: seq<Bytes>, rest: seq<Bytes>): seq<Bytes>
    requires |rest| <= |queue|
  {
    queue[..|queue| - |rest|]
  }

  function OnRead(x: Side, room: nat): Side {
    match ReadOnce(x.readBuf, x.r.queue, room)
    case Nothing => x
    case Copied(bytes, readBuf, queue) =>
      x.(r := x.r.(queue := queue), readBuf := readBuf, output := x.output + bytes,
         taken := x.taken + Front(x.r.queue, queue))
  }

  ghost function Step(x: Side, e: Event): Side {
    if !Enabled(x, e) then x
    else match e
         case Arrive(s, p, sack, stopped) => OnArrive(x, s, p, sack, stopped)
         case Fire(timer, sack, stopped) => OnFire(x, timer, sack, stopped)
         case Read(room) => OnRead(x, room)
  }

  ghost function Exec(capacity: nat, es: seq<Event>): Side {
    if es == [] then Initial(capacity) else Step(Exec(capacity, es[..|es| - 1]), es[|es| - 1])
  }

  // ---- invariants ---------------------------------------------------------

  /** A packet is owed an ACK only while a callback that will send one is pending. */
  ghost predicate AckObligation(x: Side) {
    && x.r.owed < ACK_THRESHOLD
    && (x.r.owed > 0 ==> x.r.timer.Some?)
    && (x.r.timer.Some? ==> x.r.timer.value in x.live)
    && (forall t <- x.live :: t < x.r.timersMade)
  }

  ghost predicate AcksHonest(x: Side) {
    && (forall i, j :: 0 <= i < j < |x.acks| ==> x.acks[i].num <= x.acks[j].num)
    && (forall i :: 0 <= i < |x.acks| ==> AckHonest(x, x.acks[i]))
  }

  /** What an ACK reports has arrived, and its SACK list lies above its number. */
  ghost predicate AckHonest(x: Side, a: Ack) {
    && a.num <= x.r.next && |a.sack| <= MAX_SACK
    && forall s <- a.sack :: a.num < s && s in x.arrived
  }

  /** The application has seen exactly the bytes it took; the channel holds the rest unless it overflowed. */
  ghost predicate StreamKept(x: Side) {
    && |x.r.queue| <= x.r.capacity
    && x.output + x.readBuf == Flatten(x.taken)
    && (!x.overflowed ==> x.taken + x.r.queue == x.handed)
    && (x.overflowed ==> |x.taken| + |x.r.queue| < |x.handed|)
  }

  ghost predicate Inv(x: Side) {
    Tracks(x.r, x.handed, x.arrived) && AckObligation(x) && AcksHonest(x) && StreamKept(x)
  }

  lemma PushKeepsStream(taken: seq<Bytes>, queue: seq<Bytes>, capacity: nat, before: seq<Bytes>, handed: seq<Bytes>)
    requires |queue| <= capacity
    ensures var queue' := Push(queue, capacity, handed);
            && |queue'| <= capacity && |queue'| <= |queue| + |handed|
            && (|queue'| == |queue| + |handed| && taken + queue == before ==> taken + queue' == before + handed)
  {
    var queue' := Push(queue, capacity, handed);
    if |queue'| == |queue| + |handed| {
      assert handed[..|handed|] == handed;
      assert taken + (queue + handed) == (taken + queue) + handed;
    }
  }

  lemma ArriveKeepsStream(x: Side, s: nat, p: Bytes, sack: seq<nat>, stopped: bool)
    requires StreamKept(x)
    ensures StreamKept(OnArrive(x, s, p, sack, stopped))
  {
    var handed := Handed(x.r, s, p);
    var queue' := ReceiveData(x.r, s, p).queue;
    PushKeepsStream(x.taken, x.r.queue, x.r.capacity, x.handed, handed);
    assert x.r.queue + [] == x.r.queue && x.handed + [] == x.handed;
    assert queue' == if s == x.r.next then Push(x.r.queue, x.r.capacity, handed) else x.r.queue;
  }

  /** Sending at most one more ACK, for the current recvNext, keeps the history honest. */
  lemma AcksStayHonest(x: Side, y: Side, a: Ack)
    requires AcksHonest(x) && x.r.next <= y.r.next && x.arrived.Keys <= y.arrived.Keys
    requires y.acks == x.acks || (y.acks == x.acks + [a] && a.num == y.r.next && AckHonest(y, a))
    ensures AcksHonest(y)
  {
    forall i | 0 <= i < |y.acks| ensures AckHonest(y, y.acks[i]) {
      if i < |x.acks| { assert AckHonest(x, x.acks[i]); }
    }
  }

  lemma SackIsHonest(r: Receiver, handed: seq<Bytes>, arrived: map<nat, Bytes>, sack: seq<nat>)
    requires Tracks(r, handed, arrived) && IsSack(r.buf, sack)
    ensures |sack| <= MAX_SACK && forall s <- sack :: r.next < s && s in arrived
  {
  }

  lemma ArriveKeepsAcks(x: Side, s: nat, p: Bytes, sack: seq<nat>, stopped: bool)
    requires Tracks(x.r, x.handed, x.arrived) && AcksHonest(x) && Enabled(x, Arrive(s, p, sack, stopped))
    ensures AcksHonest(OnArrive(x, s, p, sack, stopped))
  {
    var y := OnArrive(x, s, p, sack, stopped);
    var a := Ack(y.r.next, sack);
    assert x.r.next <= y.r.next by { AcceptTracks(x.r, x.handed, x.arrived, s, p); }
    if FlushesNow(x.r, s) {
      assert AckHonest(y, a) by {
        AcceptTracks(x.r, x.handed, x.arrived, s, p);
        SackIsHonest(Accept(x.r, s, p), x.handed + Handed(x.r, s, p), x.arrived[s := p], sack);
      }
    }
    AcksStayHonest(x, y, a);
  }

  lemma ArriveKeepsInv(x: Side, s: nat, p: Bytes, sack: seq<nat>, stopped: bool)
    requires Inv(x) && Enabled(x, Arrive(s, p, sack, stopped))
    ensures Inv(OnArrive(x, s, p, sack, stopped))
  {
    var y := OnArrive(x, s, p, sack, stopped);
    assert Tracks(y.r, y.handed, y.arrived) by { AcceptTracks(x.r, x.handed, x.arrived, s, p); }
    assert StreamKept(y) by { ArriveKeepsStream(x, s, p, sack, stopped); }
    assert AcksHonest(y) by { ArriveKeepsAcks(x, s, p, sack, stopped); }
    assert AckObligation(y);
  }

  lemma FireKeepsInv(x: Side, timer: nat, sack: seq<nat>, stopped: bool)
    requires Inv(x) && Enabled(x, Fire(timer, sack, stopped))
    ensures Inv(OnFire(x, timer, sack, stopped))
  {
    AcksStayHonest(x, OnFire(x, timer, sack, stopped), Ack(x.r.next, sack));
  }

  lemma Regroup(output: Bytes, held: Bytes, taken: Bytes, bytes: Bytes, rest: Bytes, front: Bytes)
    requires output + held == taken && bytes + rest == held + front
    ensures (output + bytes) + rest == taken + front
  {
    assert (output + bytes) + rest == output + (bytes + rest);
    assert output + (held + front) == (output + held) + front;
  }

  lemma ReadFront(readBuf: Bytes, queue: seq<Bytes>, room: nat)
    requires ReadOnce(readBuf, queue, room).Copied?
    ensures var got := ReadOnce(readBuf, queue, room);
            && |got.queue| <= |queue| && queue == Front(queue, got.queue) + got.queue
            && got.bytes + got.readBuf == readBuf + Flatten(Front(queue, got.queue))
  {
    if readBuf == [] {
      var n := Min(room, |queue[0]|);
      assert Front(queue, queue[1..]) == [queue[0]];
      FlattenOne(queue[0]);
      SplitAt(queue[0], n);
    } else {
      var n := Min(room, |readBuf|);
      assert Front(queue, queue) == queue[..0] + [] == [];
      SplitAt(readBuf, n);
    }
  }

  lemma SplitAt(b: Bytes, n: nat)
    requires n <= |b|
    ensures b[..n] + b[n..] == b
    ensures b[..n] + ([] + b[n..]) == [] + b && b + [] == b
  {
    assert [] + b[n..] == b[n..] && [] + b == b;
  }

  lemma ReadKeepsBytes(output: Bytes, taken: seq<Bytes>, readBuf: Bytes, queue: seq<Bytes>, room: nat)
    requires output + readBuf == Flatten(taken) && ReadOnce(readBuf, queue, room).Copied?
    ensures var got := ReadOnce(readBuf, queue, room);
            && |got.queue| <= |queue|
            && output + got.bytes + got.readBuf == Flatten(taken + Front(queue, got.queue))
  {
    var got := ReadOnce(readBuf, queue, room);
    ReadFront(readBuf, queue, room);
    FlattenConcat(taken, Front(queue, got.queue));
    Regroup(output, readBuf, Flatten(taken), got.bytes, got.readBuf, Flatten(Front(queue, got.queue)));
  }

  lemma TakenAndQueue(taken: seq<Bytes>, readBuf: Bytes, queue: seq<Bytes>, room: nat)
    requires ReadOnce(readBuf, queue, room).Copied?
    ensures var rest := ReadOnce(readBuf, queue, room).queue;
            && |rest| <= |queue|
            && (taken + Front(queue, rest)) + rest == taken + queue
            && |taken + Front(queue, rest)| + |rest| == |taken| + |queue|
  {
    var rest := ReadOnce(readBuf, queue, room).queue;
    assert queue == Front(queue, rest) + rest by { ReadFront(readBuf, queue, room); }
    assert (taken + Front(queue, rest)) + rest == taken + (Front(queue, rest) + rest);
  }

  lemma ReadKeepsStream(x: Side, room: nat)
    requires StreamKept(x)
    ensures StreamKept(OnRead(x, room))
  {
    var got := ReadOnce(x.readBuf, x.r.queue, room);
    if got.Copied? {
      var y := OnRead(x, room);
      assert y.output + y.readBuf == Flatten(y.taken) by {
        ReadKeepsBytes(x.output, x.taken, x.readBuf, x.r.queue, room);
      }
      TakenAndQueue(x.taken, x.readBuf, x.r.queue, room);
    }
  }

  lemma ReadKeepsInv(x: Side, room: nat)
    requires Inv(x)
    ensures Inv(OnRead(x, room))
  {
    var y := OnRead(x, room);
    assert StreamKept(y) by { ReadKeepsStream(x, room); }
    assert AcksHonest(y) by { assert forall i :: 0 <= i < |x.acks| ==> AckHonest(x, x.acks[i]); }
  }

  lemma StepKeepsInv(x: Side, e: Event)
    requires Inv(x)
    ensures Inv(Step(x, e))
  {
    if Enabled(x, e) {
      match e
      case Arrive(s, p, sack, stopped) => ArriveKeepsInv(x, s, p, sack, stopped);
      case Fire(timer, sack, stopped) => FireKeepsInv(x, timer, sack, stopped);
      case Read(room) => ReadKeepsInv(x, room);
    }
  }

  /** All of the above holds in every state of every run. */
  lemma {:induction false} RunKeepsInv(capacity: nat, es: seq<Event>)
    ensures Inv(Exec(capacity, es))
    ensures Exec(capacity, es).r.capacity == capacity
  {
    if es != [] {
      RunKeepsInv(capacity, es[..|es| - 1]);
      StepKeepsInv(Exec(capacity, es[..|es| - 1]), es[|es| - 1]);
    }
  }

  /** An ACK sent by a step reports recvNext and a SACK list taken from recvBuf, strictly above it. */
  lemma AcksReportTheBuffer(capacity: nat, es: seq<Event>, e: Event)
    ensures var x := Exec(capacity, es);
            var y := Step(x, e);
            && x.acks <= y.acks && |y.acks| <= |x.acks| + 1
            && (|y.acks| > |x.acks| ==>
                  var a := y.acks[|x.acks|];
                  && a.num == y.r.next && y.r.owed == 0
                  && forall s <- a.sack :: s in y.r.buf && a.num < s)
  {
    RunKeepsInv(capacity, es);
    StepKeepsInv(Exec(capacity, es), e);
  }

  // ---- when and what a packet is answered ---------------------------------

  /**
   In every run a DATA packet is acknowledged at once exactly if its number is
   above recvNext or it makes 32 packets owed. The ACK carries recvNext and the
   buffered numbers, 32 of them if there are more, and clears the debt;
   otherwise one more is owed and a timer is armed, or stays armed.
   */
  lemma ArrivalAcknowledgedIff(capacity: nat, es: seq<Event>, s: nat, p: Bytes, sack: seq<nat>, stopped: bool)
    requires Enabled(Exec(capacity, es), Arrive(s, p, sack, stopped))
    ensures var x := Exec(capacity, es);
            var y := Step(x, Arrive(s, p, sack, stopped));
            && (y.acks != x.acks <==> s > x.r.next || x.r.owed >= 31)
            && (y.acks != x.acks ==>
                  && y.acks == x.acks + [Ack(y.r.next, sack)] && Reported(y.r.buf, sack)
                  && y.r.owed == 0 && y.r.timer == None)
            && (y.acks == x.acks ==>
                  && y.r.owed == x.r.owed + 1 && y.r.timer.Some?
                  && (x.r.timer.Some? ==> y.r.timer == x.r.timer && y.live == x.live))
  {
    RunKeepsInv(capacity, es);
  }

  /** Different buffered numbers, as many as there are, but at most 32. */
  ghost predicate Reported(buf: map<nat, Bytes>, sack: seq<nat>) {
    && (forall n <- sack :: n in buf)
    && (forall i, j :: 0 <= i < j < |sack| ==> sack[i] != sack[j])
    && |sack| == if |buf| < 32 then |buf| else 32
  }

  /** A list of different members of a set that is as long as the set has them all. */
  lemma {:induction false} DistinctCovers(xs: seq<nat>, s: set<nat>)
    requires (forall x <- xs :: x in s) && |xs| == |s|
    requires forall i, j :: 0 <= i < j < |xs| ==> xs[i] != xs[j]
    ensures forall x <- s :: x in xs
  {
    if xs != [] {
      var rest := xs[1..];
      assert xs == [xs[0]] + rest;
      forall x | x in rest ensures x in s - {xs[0]} {
        assert x in xs;
      }
      DistinctCovers(rest, s - {xs[0]});
    }
  }

  /**
   A lost packet is reported by the first packet after it: an arrival above
   recvNext is answered at once, and as long as at most 32 are buffered the SACK
   list names exactly those, this one among them.
   */
  lemma GapReportedAtOnce(capacity: nat, es: seq<Event>, s: nat, p: Bytes, sack: seq<nat>, stopped: bool)
    requires Enabled(Exec(capacity, es), Arrive(s, p, sack, stopped)) && s > Exec(capacity, es).r.next
    ensures var x := Exec(capacity, es);
            var y := Step(x, Arrive(s, p, sack, stopped));
            && y.r.next == x.r.next && y.acks == x.acks + [Ack(x.r.next, sack)]
            && (|y.r.buf| <= 32 ==> s in sack && forall n :: n in sack <==> n in y.r.buf)
  {
    ArrivalAcknowledgedIff(capacity, es, s, p, sack, stopped);
    var y := Step(Exec(capacity, es), Arrive(s, p, sack, stopped));
    if |y.r.buf| <= 32 {
      DistinctCovers(sack, y.r.buf.Keys);
    }
  }

  /** A timer that runs sends exactly one ACK, for all that is owed. */
  lemma TimerAcknowledges(capacity: nat, es: seq<Event>, timer: nat, sack: seq<nat>, stopped: bool)
    requires Enabled(Exec(capacity, es), Fire(timer, sack, stopped))
    ensures var x := Exec(capacity, es);
            var y := Step(x, Fire(timer, sack, stopped));
            && y.acks == x.acks + [Ack(x.r.next, sack)] && Reported(x.r.buf, sack) && y.r.owed == 0
            && y.r.next == x.r.next && y.r.buf == x.r.buf && timer !in y.live
  {
    RunKeepsInv(capacity, es);
  }

  lemma PushFills(queue: seq<Bytes>, capacity: nat, handed: seq<Bytes>)
    requires |queue| <= capacity
    ensures var after := Push(queue, capacity, handed);
            queue <= after && after[|queue|..] <= handed && |after| == Min(capacity, |queue| + |handed|)
  {
  }

  lemma ArriveHands(x: Side, s: nat, p: Bytes, sack: seq<nat>, stopped: bool)
    requires |x.r.queue| <= x.r.capacity
    ensures var y := OnArrive(x, s, p, sack, stopped);
            && y.handed == x.handed + Handed(x.r, s, p)
            && y.r.queue == Push(x.r.queue, x.r.capacity, Handed(x.r, s, p))
  {
    assert x.r.queue + [] == x.r.queue;
  }

  lemma ArriveFills(x: Side, s: nat, p: Bytes, sack: seq<nat>, stopped: bool)
    requires |x.r.queue| <= x.r.capacity
    ensures var y := OnArrive(x, s, p, sack, stopped);
            && x.handed <= y.handed
            && x.r.queue <= y.r.queue && y.r.queue[|x.r.queue|..] <= y.handed[|x.handed|..]
            && |y.r.queue| == Min(x.r.capacity, |x.r.queue| + (|y.handed| - |x.handed|))
  {
    ArriveHands(x, s, p, sack, stopped);
    PushFills(x.r.queue, x.r.capacity, Handed(x.r, s, p));
  }

  /** The channel takes what it has room for, from the front of what is handed over. */
  lemma ChannelFills(capacity: nat, es: seq<Event>, s: nat, p: Bytes, sack: seq<nat>, stopped: bool)
    requires Enabled(Exec(capacity, es), Arrive(s, p, sack, stopped))
    ensures var x := Exec(capacity, es);
            var y := Step(x, Arrive(s, p, sack, stopped));
            && x.handed <= y.handed && |x.r.queue| <= capacity
            && x.r.queue <= y.r.queue && y.r.queue[|x.r.queue|..] <= y.handed[|x.handed|..]
            && |y.r.queue| == Min(capacity, |x.r.queue| + (|y.handed| - |x.handed|))
  {
    var x := Exec(capacity, es);
    assert |x.r.queue| <= x.r.capacity == capacity by {
      RunKeepsInv(capacity, es);
    }
    ArriveFills(x, s, p, sack, stopped);
  }

  /**
   The stream is intact exactly when no arrival found the channel short of
   room: then what Read returned, what it holds back and what waits in the
   channel are together everything handed over, in order.
   */
  lemma StreamIntactIffRoom(capacity: nat, es: seq<Event>)
    ensures var x := Exec(capacity, es);
            && (!x.overflowed <==> x.taken + x.r.queue == x.handed)
            && (!x.overflowed ==> x.output + x.readBuf + Flatten(x.r.queue) == Flatten(x.handed))
            && |x.handed| == x.r.next
  {
    RunKeepsInv(capacity, es);
    var x := Exec(capacity, es);
    FlattenConcat(x.taken, x.r.queue);
  }

  /** The test before an arrival: it overflows iff it hands over more than the channel has room for. */
  lemma OverflowsIffShortOfRoom(capacity: nat, es: seq<Event>, s: nat, p: Bytes, sack: seq<nat>, stopped: bool)
    requires Enabled(Exec(capacity, es), Arrive(s, p, sack, stopped)) && !Exec(capacity, es).overflowed
    ensures var x := Exec(capacity, es);
            Step(x, Arrive(s, p, sack, stopped)).overflowed <==> |Handed(x.r, s, p)| > capacity - |x.r.queue|
  {
    RunKeepsInv(capacity, es);
  }

  /** A channel of one slot: the second packet is acknowledged, and lost. */
  lemma OverflowLosesAcknowledgedPacket(p: Bytes, q: Bytes)
    ensures var x := Exec(1, [Arrive(0, p, [], true), Arrive(1, q, [], true), Fire(0, [], true)]);
            x.acks == [Ack(2, [])] && x.handed == [p, q] && x.taken + x.r.queue == [p]
  {
    var e0, e1, e2 := Arrive(0, p, [], true), Arrive(1, q, [], true), Fire(0, [], true);
    assert [e0][..0] == [] && [e0, e1][..1] == [e0] && [e0, e1, e2][..2] == [e0, e1];
    assert Exec(1, [e0]) == Step(Initial(1), e0);
    FirstFills(p);
    assert Exec(1, [e0, e1]) == Step(OneWaiting(p), e1);
    SecondIsDropped(p, q);
    assert Exec(1, [e0, e1, e2]) == Step(OneDropped(p, q), e2);
  }

  function OneWaiting(p: Bytes): Side {
    Side(Receiver(1, map[], [p], 1, 1, Some(0), 1), {0}, map[0 := p], [p], false, [], [], [], [])
  }

  function OneDropped(p: Bytes, q: Bytes): Side {
    Side(Receiver(2, map[], [p], 1, 2, Some(0), 1), {0}, map[0 := p, 1 := q], [p, q], true, [], [], [], [])
  }

  lemma FirstFills(p: Bytes)
    ensures Step(Initial(1), Arrive(0, p, [], true)) == OneWaiting(p)
  {
    assert [p][..1] == [p];
    assert ReceiveData(ArqReceiver.Initial(1), 0, p) == OneWaiting(p).r;
  }

  lemma SecondIsDropped(p: Bytes, q: Bytes)
    ensures Step(OneWaiting(p), Arrive(1, q, [], true)) == OneDropped(p, q)
  {
    assert [q][..0] == [] && [p] + [] == [p] && [p] + [q] == [p, q];
    assert ReceiveData(OneWaiting(p).r, 1, q) == OneDropped(p, q).r;
  }
}
