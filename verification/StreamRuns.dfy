/**
 One writer on one connection: the calls of Write, segment by segment, in the
 same runs as both engines and the network. What the calls were given, and
 what Send did with each segment, decides what Read can return.
 */
module StreamRuns {
  import opened Base
  import opened Stream
  import T = Transport
  import S = SendSide

  /** One call of Write: its argument, and what Send did with the segments so far. */
  datatype Call = Call(bytes: Bytes, outcomes: seq<SendOutcome>)

  datatype State = State(net: T.State, calls: seq<Call>, closed: bool)

  function Initial(capacity: nat): State {
    State(T.Initial(capacity), [], false)
  }

  datatype Event =
    | WriteBegins(bytes: Bytes)
    | SegmentGoes(outcome: SendOutcome, size: nat, at: int)
    | Elsewhere(e: T.Event)

  /** All segments are sent, or Write has returned an error. */
  predicate Finished(c: Call) {
    |c.outcomes| >= |Segments(c.bytes)| || (c.outcomes != [] && c.outcomes[|c.outcomes| - 1] != Sent)
  }

  predicate Idle(x: State) {
    x.calls == [] || Finished(x.calls[|x.calls| - 1])
  }

  /** What Send does on the engine for a segment with this outcome. */
  function Sending(segment: Bytes, outcome: SendOutcome, size: nat, at: int): Option<S.Event> {
    match outcome
    case Sent => Some(S.Submit(segment, size, at))
    case TransportError => Some(S.Submit(segment, size, at))
    case EncodeError => Some(S.Burn(at))
    case Closed => None
  }

  function Segment(c: Call): Bytes
    requires !Finished(c)
  {
    Segments(c.bytes)[|c.outcomes|]
  }

  predicate ByWriter(e: T.Event) {
    e.SendSideStep? && (e.sent.Submit? || e.sent.Burn?)
  }

  /** Only the writer submits. Once closed, the engine takes nothing more. */
  ghost predicate Enabled(x: State, e: Event) {
    match e
    case WriteBegins(_) => Idle(x)
    case SegmentGoes(outcome, size, at) =>
      && !Idle(x) && (x.closed ==> outcome == Closed)
      && var sending := Sending(Segment(x.calls[|x.calls| - 1]), outcome, size, at);
         sending.Some? ==> S.Enabled(x.net.snd, sending.value)
    case Elsewhere(e) => !ByWriter(e)
  }

  ghost function AfterSend(net: T.State, segment: Bytes, outcome: SendOutcome, size: nat, at: int): T.State {
    var sending := Sending(segment, outcome, size, at);
    if sending.Some? then T.Step(net, T.SendSideStep(sending.value)) else net
  }

  ghost function OnSegment(x: State, outcome: SendOutcome, size: nat, at: int): State
    requires !Idle(x)
  {
    var n := |x.calls| - 1;
    var c := x.calls[n];
    x.(net := AfterSend(x.net, Segment(c), outcome, size, at),
       calls := x.calls[n := c.(outcomes := c.outcomes + [outcome])],
       closed := x.closed || outcome == Closed)
  }

  ghost function Step(x: State, e: Event): State {
    if !Enabled(x, e) then x
    else match e
         case WriteBegins(bytes) => x.(calls := x.calls + [Call(bytes, [])])
         case SegmentGoes(outcome, size, at) => OnSegment(x, outcome, size, at)
         case Elsewhere(e) => x.(net := T.Step(x.net, e))
  }

  ghost function Exec(x: State, es: seq<Event>): State {
    if es == [] then x else Step(Exec(x, es[..|es| - 1]), es[|es| - 1])
  }

  // ---- what the calls say ---------------------------------------------------

  /** Segments of one call that the engine owns. */
  function Taken(c: Call): seq<Bytes> {
    Written(c.bytes, c.outcomes).2
  }

  /** Segments the engine owns, call after call. */
  function AllTaken(calls: seq<Call>): seq<Bytes> {
    if calls == [] then [] else AllTaken(calls[..|calls| - 1]) + Taken(calls[|calls| - 1])
  }

  function Passed(calls: seq<Call>): Bytes {
    if calls == [] then [] else Passed(calls[..|calls| - 1]) + calls[|calls| - 1].bytes
  }

  /** A call after which nothing more can be delivered: it burned a number, or found the engine closed. */
  predicate Ends(c: Call) {
    EncodeError in c.outcomes || Closed in c.outcomes
  }

  predicate Ended(calls: seq<Call>) {
    exists i :: 0 <= i < |calls| && Ends(calls[i])
  }

  /** The part of AllTaken that Read can ever return. */
  function Deliverable(calls: seq<Call>): seq<Bytes> {
    if calls == [] then []
    else
      var init := calls[..|calls| - 1];
      if Ended(init) then Deliverable(init) else Deliverable(init) + Taken(calls[|calls| - 1])
  }

  /** Only the last outcome of a call can be an error, and after Closed there is nothing else. */
  ghost predicate Proper(c: Call) {
    && |c.outcomes| <= |Segments(c.bytes)|
    && forall i :: 0 <= i < |c.outcomes| - 1 ==> c.outcomes[i] == Sent
  }

  /** Numbers the calls used up. */
  function Numbers(calls: seq<Call>): nat {
    if calls == [] then 0 else Numbers(calls[..|calls| - 1]) + Used(calls[|calls| - 1].outcomes)
  }

  function Used(outcomes: seq<SendOutcome>): nat {
    if outcomes == [] then 0
    else Used(outcomes[..|outcomes| - 1]) + (if outcomes[|outcomes| - 1] == Closed then 0 else 1)
  }

  ghost predicate AllSome(log: seq<Option<Bytes>>) {
    forall i :: 0 <= i < |log| ==> log[i].Some?
  }

  ghost predicate SomeClosed(calls: seq<Call>) {
    exists i :: 0 <= i < |calls| && Closed in calls[i].outcomes
  }

  // ---- every run --------------------------------------------------------------

  /** The engine's log is what the calls say, whole and up to the first burned number. */
  ghost predicate LogTold(log: seq<Option<Bytes>>, calls: seq<Call>, closed: bool) {
    && T.Accepted(log) == AllTaken(calls)
    && T.LivePart(log) == Deliverable(calls)
    && |log| == Numbers(calls)
    && (!AllSome(log) ==> Ended(calls))
    && (Ended(calls) && AllSome(log) ==> closed)
  }

  ghost predicate CallsProper(calls: seq<Call>) {
    && (forall i :: 0 <= i < |calls| ==> Proper(calls[i]))
    && (forall i :: 0 <= i < |calls| - 1 ==> Finished(calls[i]))
  }

  /** Once a segment found the engine closed, so does every later one. */
  ghost predicate ClosedTold(calls: seq<Call>, closed: bool) {
    && (closed <==> SomeClosed(calls))
    && forall i, j, o :: 0 <= i < j < |calls| && Closed in calls[i].outcomes && o in calls[j].outcomes ==> o == Closed
  }

  ghost predicate Inv(x: State) {
    && T.Reached(x.net) && CallsProper(x.calls)
    && LogTold(x.net.snd.log, x.calls, x.closed) && ClosedTold(x.calls, x.closed)
  }

  lemma {:induction false} AcceptedAppend(log: seq<Option<Bytes>>, e: Option<Bytes>)
    ensures T.Accepted(log + [e]) == T.Accepted(log) + (if e.Some? then [e.value] else [])
  {
    if log == [] {
      assert (log + [e])[1..] == [];
    } else {
      assert (log + [e])[1..] == log[1..] + [e];
      AcceptedAppend(log[1..], e);
      var first := if log[0].Some? then [log[0].value] else [];
      var last := if e.Some? then [e.value] else [];
      assert T.Accepted(log + [e]) == first + (T.Accepted(log[1..]) + last);
      assert first + (T.Accepted(log[1..]) + last) == (first + T.Accepted(log[1..])) + last;
    }
  }

  lemma {:induction false} LivePartAppend(log: seq<Option<Bytes>>, e: Option<Bytes>)
    ensures T.LivePart(log + [e]) == T.LivePart(log) + (if AllSome(log) && e.Some? then [e.value] else [])
  {
    if log == [] {
      assert (log + [e])[1..] == [];
    } else {
      assert (log + [e])[1..] == log[1..] + [e];
      LivePartAppend(log[1..], e);
      assert AllSome(log) <==> log[0].Some? && AllSome(log[1..]) by {
        if log[0].Some? && AllSome(log[1..]) {
          assert forall i :: 0 < i < |log| ==> log[i] == log[1..][i - 1];
        }
        if AllSome(log) {
          assert forall i :: 0 <= i < |log| - 1 ==> log[1..][i] == log[i + 1];
        }
      }
    }
  }

  lemma {:induction false} StopAllSent(outcomes: seq<SendOutcome>, count: nat)
    requires forall i :: 0 <= i < |outcomes| - 1 ==> outcomes[i] == Sent
    requires |outcomes| <= count
    ensures Stop(outcomes, count) ==
              if outcomes != [] && outcomes[|outcomes| - 1] != Sent then |outcomes| - 1 else |outcomes|
  {
    if outcomes != [] && outcomes[0] == Sent {
      StopAllSent(outcomes[1..], count - 1);
    }
  }

  /** What one more outcome adds to a call under way. */
  lemma {:induction false} TakenOneMore(c: Call, outcome: SendOutcome)
    requires Proper(c) && !Finished(c)
    ensures Proper(c.(outcomes := c.outcomes + [outcome]))
    ensures Taken(c.(outcomes := c.outcomes + [outcome])) ==
              Taken(c) + (if outcome == Sent || outcome == TransportError then [Segment(c)] else [])
  {
    var segments, k := Segments(c.bytes), |c.outcomes|;
    StopAllSent(c.outcomes, |segments|);
    StopAllSent(c.outcomes + [outcome], |segments|);
    assert segments[..k + 1] == segments[..k] + [segments[k]];
  }

  /** The calls after one more outcome of the last one. */
  function WithOutcome(calls: seq<Call>, outcome: SendOutcome): seq<Call>
    requires calls != []
  {
    var n := |calls| - 1;
    calls[n := calls[n].(outcomes := calls[n].outcomes + [outcome])]
  }

  /** The engine's log after one more outcome. */
  function Logged(log: seq<Option<Bytes>>, segment: Bytes, outcome: SendOutcome): seq<Option<Bytes>> {
    match outcome
    case Sent => log + [Some(segment)]
    case TransportError => log + [Some(segment)]
    case EncodeError => log + [None]
    case Closed => log
  }

  /** What one more outcome adds to AllTaken, unless the stream has ended to Deliverable too. */
  function Added(calls: seq<Call>, outcome: SendOutcome): seq<Bytes>
    requires calls != [] && !Finished(calls[|calls| - 1])
  {
    if outcome == Sent || outcome == TransportError then [Segment(calls[|calls| - 1])] else []
  }

  lemma {:induction false} InitUnchanged(calls: seq<Call>, outcome: SendOutcome)
    requires calls != []
    ensures WithOutcome(calls, outcome)[..|calls| - 1] == calls[..|calls| - 1]
  {
  }

  lemma {:induction false} OutcomeKeepsProper(calls: seq<Call>, outcome: SendOutcome)
    requires calls != [] && CallsProper(calls) && !Finished(calls[|calls| - 1])
    ensures CallsProper(WithOutcome(calls, outcome))
  {
    TakenOneMore(calls[|calls| - 1], outcome);
  }

  lemma {:induction false} OutcomeAddsTaken(calls: seq<Call>, outcome: SendOutcome)
    requires calls != [] && Proper(calls[|calls| - 1]) && !Finished(calls[|calls| - 1])
    ensures AllTaken(WithOutcome(calls, outcome)) == AllTaken(calls) + Added(calls, outcome)
  {
    var n := |calls| - 1;
    InitUnchanged(calls, outcome);
    TakenOneMore(calls[n], outcome);
    var before, more := AllTaken(calls[..n]), Added(calls, outcome);
    assert before + (Taken(calls[n]) + more) == (before + Taken(calls[n])) + more;
  }

  /** A call under way has not ended the stream, so an ended stream ended before it. */
  lemma {:induction false} EndedBefore(calls: seq<Call>)
    requires calls != [] && Proper(calls[|calls| - 1]) && !Finished(calls[|calls| - 1])
    ensures Ended(calls) <==> Ended(calls[..|calls| - 1])
  {
    var n := |calls| - 1;
    assert !Ends(calls[n]);
    if Ended(calls) {
      var i :| 0 <= i < |calls| && Ends(calls[i]);
      assert Ends(calls[..n][i]);
    }
  }

  lemma {:induction false} OutcomeAddsDeliverable(calls: seq<Call>, outcome: SendOutcome)
    requires calls != [] && Proper(calls[|calls| - 1]) && !Finished(calls[|calls| - 1])
    ensures Deliverable(WithOutcome(calls, outcome)) ==
              Deliverable(calls) + (if Ended(calls) then [] else Added(calls, outcome))
  {
    var n := |calls| - 1;
    InitUnchanged(calls, outcome);
    EndedBefore(calls);
    TakenOneMore(calls[n], outcome);
    var before, more := Deliverable(calls[..n]), Added(calls, outcome);
    assert before + (Taken(calls[n]) + more) == (before + Taken(calls[n])) + more;
  }

  lemma {:induction false} OutcomeAddsNumbers(calls: seq<Call>, outcome: SendOutcome)
    requires calls != []
    ensures Numbers(WithOutcome(calls, outcome)) == Numbers(calls) + (if outcome == Closed then 0 else 1)
  {
    var n := |calls| - 1;
    InitUnchanged(calls, outcome);
    assert (calls[n].outcomes + [outcome])[..|calls[n].outcomes|] == calls[n].outcomes;
  }

  lemma {:induction false} OutcomeEnds(calls: seq<Call>, outcome: SendOutcome)
    requires calls != []
    ensures Ended(WithOutcome(calls, outcome)) <==> Ended(calls) || outcome == EncodeError || outcome == Closed
  {
    var n, after := |calls| - 1, WithOutcome(calls, outcome);
    if Ended(calls) {
      var i :| 0 <= i < |calls| && Ends(calls[i]);
      assert Ends(after[i]);
    }
    if outcome == EncodeError || outcome == Closed {
      assert outcome in after[n].outcomes;
      assert Ends(after[n]);
    } else if Ended(after) {
      var i :| 0 <= i < |after| && Ends(after[i]);
      assert Ends(calls[i]);
    }
  }

  lemma AllSomeAppend(log: seq<Option<Bytes>>, e: Option<Bytes>)
    ensures AllSome(log + [e]) <==> AllSome(log) && e.Some?
  {
    if AllSome(log + [e]) {
      assert forall i :: 0 <= i < |log| ==> (log + [e])[i] == log[i];
      assert (log + [e])[|log|] == e;
    }
  }

  /** The log grew as the calls did. */
  lemma {:induction false} GrowthKeepsTold(
    log: seq<Option<Bytes>>, calls: seq<Call>, closed: bool, after: seq<Call>, e: Option<Bytes>)
    requires LogTold(log, calls, closed) && !closed
    requires AllTaken(after) == AllTaken(calls) + (if e.Some? then [e.value] else [])
    requires Deliverable(after) == Deliverable(calls) + (if e.Some? && !Ended(calls) then [e.value] else [])
    requires Numbers(after) == Numbers(calls) + 1
    requires Ended(after) <==> Ended(calls) || e.None?
    ensures LogTold(log + [e], after, closed)
  {
    AcceptedAppend(log, e);
    LivePartAppend(log, e);
    AllSomeAppend(log, e);
  }

  /** The log stayed as it is, and so did all that the calls say about it. */
  lemma {:induction false} ClosingKeepsTold(log: seq<Option<Bytes>>, calls: seq<Call>, closed: bool, after: seq<Call>)
    requires LogTold(log, calls, closed)
    requires AllTaken(after) == AllTaken(calls) && Deliverable(after) == Deliverable(calls)
    requires Numbers(after) == Numbers(calls) && Ended(after)
    ensures LogTold(log, after, true)
  {
  }

  /** What a segment with this outcome leaves in the log; None if nothing, or a burned number. */
  function Entry(segment: Bytes, outcome: SendOutcome): Option<Bytes> {
    if outcome == EncodeError || outcome == Closed then None else Some(segment)
  }

  /** What one more outcome does to the calls, in terms of what it logs. */
  lemma {:induction false} OutcomeAdds(calls: seq<Call>, outcome: SendOutcome, e: Option<Bytes>)
    requires calls != [] && CallsProper(calls) && !Finished(calls[|calls| - 1])
    requires e == Entry(Segment(calls[|calls| - 1]), outcome)
    ensures var after := WithOutcome(calls, outcome);
            && AllTaken(after) == AllTaken(calls) + (if e.Some? then [e.value] else [])
            && Deliverable(after) == Deliverable(calls) + (if e.Some? && !Ended(calls) then [e.value] else [])
            && Numbers(after) == Numbers(calls) + (if outcome == Closed then 0 else 1)
            && (Ended(after) <==> Ended(calls) || e.None?)
  {
    assert Added(calls, outcome) == if e.Some? then [e.value] else [];
    OutcomeAddsTaken(calls, outcome);
    OutcomeAddsDeliverable(calls, outcome);
    OutcomeAddsNumbers(calls, outcome);
    OutcomeEnds(calls, outcome);
  }

  lemma {:induction false} EntryKeepsTold(
    log: seq<Option<Bytes>>, calls: seq<Call>, closed: bool, segment: Bytes, outcome: SendOutcome, after: seq<Call>)
    requires LogTold(log, calls, closed) && (closed ==> outcome == Closed)
    requires var e := Entry(segment, outcome);
             && AllTaken(after) == AllTaken(calls) + (if e.Some? then [e.value] else [])
             && Deliverable(after) == Deliverable(calls) + (if e.Some? && !Ended(calls) then [e.value] else [])
             && Numbers(after) == Numbers(calls) + (if outcome == Closed then 0 else 1)
             && (Ended(after) <==> Ended(calls) || e.None?)
    ensures LogTold(Logged(log, segment, outcome), after, closed || outcome == Closed)
  {
    if outcome == Closed {
      ClosingKeepsTold(log, calls, closed, after);
    } else {
      GrowthKeepsTold(log, calls, closed, after, Entry(segment, outcome));
    }
  }

  lemma {:induction false} OutcomeKeepsTold(
    log: seq<Option<Bytes>>, calls: seq<Call>, closed: bool, outcome: SendOutcome)
    requires calls != [] && CallsProper(calls) && !Finished(calls[|calls| - 1])
    requires LogTold(log, calls, closed) && (closed ==> outcome == Closed)
    ensures LogTold(Logged(log, Segment(calls[|calls| - 1]), outcome), WithOutcome(calls, outcome),
                    closed || outcome == Closed)
  {
    var segment := Segment(calls[|calls| - 1]);
    OutcomeAdds(calls, outcome, Entry(segment, outcome));
    EntryKeepsTold(log, calls, closed, segment, outcome, WithOutcome(calls, outcome));
  }

  lemma {:induction false} OutcomeKeepsClosed(calls: seq<Call>, closed: bool, outcome: SendOutcome)
    requires calls != [] && ClosedTold(calls, closed) && (closed ==> outcome == Closed)
    ensures ClosedTold(WithOutcome(calls, outcome), closed || outcome == Closed)
  {
    var n, after := |calls| - 1, WithOutcome(calls, outcome);
    assert after[n].outcomes == calls[n].outcomes + [outcome];
    if closed {
      var i :| 0 <= i < |calls| && Closed in calls[i].outcomes;
      assert Closed in after[i].outcomes;
    } else {
      if outcome == Closed {
        assert Closed in after[n].outcomes;
      }
      assert forall i :: 0 <= i < |calls| ==> Closed !in calls[i].outcomes;
    }
  }

  lemma {:induction false} SendingIsLogged(net: T.State, segment: Bytes, outcome: SendOutcome, size: nat, at: int)
    requires var sending := Sending(segment, outcome, size, at); sending.Some? ==> S.Enabled(net.snd, sending.value)
    ensures AfterSend(net, segment, outcome, size, at).snd.log == Logged(net.snd.log, segment, outcome)
    ensures T.Reached(net) ==> T.Reached(AfterSend(net, segment, outcome, size, at))
  {
    var sending := Sending(segment, outcome, size, at);
    if sending.Some? && T.Reached(net) {
      T.ReachedStep(net, T.SendSideStep(sending.value));
    }
  }

  lemma {:induction false} SegmentKeepsInv(x: State, outcome: SendOutcome, size: nat, at: int)
    requires Inv(x) && Enabled(x, SegmentGoes(outcome, size, at))
    ensures Inv(OnSegment(x, outcome, size, at))
  {
    SendingIsLogged(x.net, Segment(x.calls[|x.calls| - 1]), outcome, size, at);
    CallsKept(x.net.snd.log, x.calls, x.closed, outcome);
  }

  lemma {:induction false} CallsKept(log: seq<Option<Bytes>>, calls: seq<Call>, closed: bool, outcome: SendOutcome)
    requires calls != [] && CallsProper(calls) && !Finished(calls[|calls| - 1])
    requires LogTold(log, calls, closed) && ClosedTold(calls, closed) && (closed ==> outcome == Closed)
    ensures var n := |calls| - 1;
            var after := calls[n := calls[n].(outcomes := calls[n].outcomes + [outcome])];
            && CallsProper(after) && ClosedTold(after, closed || outcome == Closed)
            && LogTold(Logged(log, Segment(calls[n]), outcome), after, closed || outcome == Closed)
  {
    OutcomeKeepsProper(calls, outcome);
    OutcomeKeepsTold(log, calls, closed, outcome);
    OutcomeKeepsClosed(calls, closed, outcome);
  }

  lemma {:induction false} BeginKeepsTold(log: seq<Option<Bytes>>, calls: seq<Call>, closed: bool, bytes: Bytes)
    requires LogTold(log, calls, closed)
    ensures LogTold(log, calls + [Call(bytes, [])], closed)
  {
    var after := calls + [Call(bytes, [])];
    assert after[..|calls|] == calls;
    assert Taken(Call(bytes, [])) == [];
    assert Ended(after) <==> Ended(calls) by {
      assert forall i :: 0 <= i < |calls| ==> after[i] == calls[i];
      assert !Ends(after[|calls|]);
    }
  }

  lemma {:induction false} BeginKeepsClosed(calls: seq<Call>, closed: bool, bytes: Bytes)
    requires ClosedTold(calls, closed)
    ensures ClosedTold(calls + [Call(bytes, [])], closed)
  {
    var after := calls + [Call(bytes, [])];
    assert forall i :: 0 <= i < |calls| ==> after[i] == calls[i];
    assert after[|calls|].outcomes == [];
  }

  lemma {:induction false} BeginKeepsProper(calls: seq<Call>, bytes: Bytes)
    requires CallsProper(calls) && (calls != [] ==> Finished(calls[|calls| - 1]))
    ensures CallsProper(calls + [Call(bytes, [])])
  {
  }

  lemma BeginKeepsInv(x: State, bytes: Bytes)
    requires Inv(x) && Idle(x)
    ensures Inv(Step(x, WriteBegins(bytes)))
  {
    var y := Step(x, WriteBegins(bytes));
    assert CallsProper(y.calls) by { BeginKeepsProper(x.calls, bytes); }
    assert LogTold(y.net.snd.log, y.calls, y.closed) by {
      BeginKeepsTold(x.net.snd.log, x.calls, x.closed, bytes);
    }
    assert ClosedTold(y.calls, y.closed) by { BeginKeepsClosed(x.calls, x.closed, bytes); }
  }

  /** Nothing but the writer changes the log. */
  lemma ElsewhereKeepsLog(net: T.State, e: T.Event)
    requires !ByWriter(e)
    ensures T.Step(net, e).snd.log == net.snd.log
  {
  }

  lemma StepKeepsInv(x: State, e: Event)
    requires Inv(x)
    ensures Inv(Step(x, e))
  {
    if Enabled(x, e) {
      match e
      case WriteBegins(bytes) => BeginKeepsInv(x, bytes);
      case SegmentGoes(outcome, size, at) => SegmentKeepsInv(x, outcome, size, at);
      case Elsewhere(e) =>
        T.ReachedStep(x.net, e);
        ElsewhereKeepsLog(x.net, e);
    }
  }

  lemma {:induction false} ExecKeepsInv(x: State, es: seq<Event>)
    requires Inv(x)
    ensures Inv(Exec(x, es))
  {
    if es != [] {
      ExecKeepsInv(x, es[..|es| - 1]);
      StepKeepsInv(Exec(x, es[..|es| - 1]), es[|es| - 1]);
    }
  }

  lemma InitialKept(capacity: nat)
    ensures Inv(Initial(capacity))
  {
    assert T.RunTo(capacity, [], T.Initial(capacity));
  }

  /**
   In every run the payloads the engine accepted are the segments Write says
   it queued, call after call, and while the delivered queue never overflows
   what Read has returned is a prefix of those that can be delivered.
   */
  lemma ReadIsPrefixOfTaken(capacity: nat, es: seq<Event>)
    ensures var x := Exec(Initial(capacity), es);
            && Inv(x)
            && T.Accepted(x.net.snd.log) == AllTaken(x.calls)
            && (!x.net.rcv.overflowed ==> x.net.rcv.output <= Flatten(Deliverable(x.calls)))
  {
    InitialKept(capacity);
    ExecKeepsInv(Initial(capacity), es);
    var x := Exec(Initial(capacity), es);
    if !x.net.rcv.overflowed {
      T.ReachedKeepsInv(x.net);
      T.OutputIsPrefix(x.net);
    }
  }

  /** What a finished call reports and leaves queued is what the Write loop computes from all that Send would answer. */
  lemma {:induction false} FinishedIsWritten(c: Call, more: seq<SendOutcome>)
    requires Proper(c) && Finished(c)
    ensures Written(c.bytes, c.outcomes + more) == Written(c.bytes, c.outcomes)
  {
    StopExtends(c.outcomes, more, |Segments(c.bytes)|);
    StopAllSent(c.outcomes, |Segments(c.bytes)|);
  }

  lemma {:induction false} StopExtends(outcomes: seq<SendOutcome>, more: seq<SendOutcome>, count: nat)
    requires |outcomes| >= count || (outcomes != [] && outcomes[|outcomes| - 1] != Sent)
    ensures Stop(outcomes + more, count) == Stop(outcomes, count)
  {
    if count > 0 && outcomes[0] == Sent {
      assert (outcomes + more)[1..] == outcomes[1..] + more;
      StopExtends(outcomes[1..], more, count - 1);
    }
  }

  // ---- skipped segments ---------------------------------------------------------

  /** A socket write failed on a segment that was not the last: the segments behind it are not sent. */
  predicate Skips(c: Call) {
    var k := Stop(c.outcomes, |Segments(c.bytes)|);
    k < |Segments(c.bytes)| - 1 && k < |c.outcomes| && c.outcomes[k] == TransportError
  }

  lemma {:induction false} SegmentsFrom(b: Bytes, k: nat)
    requires k <= |Segments(b)|
    ensures |Flatten(Segments(b)[..k])| <= |b|
    ensures Segments(b)[k..] == Segments(b[|Flatten(Segments(b)[..k])|..])
  {
    if k == 0 {
      assert b[0..] == b && Segments(b)[0..] == Segments(b);
    } else {
      var n := Min(|b|, MAX_PAYLOAD);
      SegmentsFrom(b[n..], k - 1);
      assert Segments(b)[1..] == Segments(b[n..]);
      assert Segments(b)[..k] == [b[..n]] + Segments(b[n..])[..k - 1];
      assert Segments(b)[..k][1..] == Segments(b[n..])[..k - 1];
      assert b[n..][|Flatten(Segments(b[n..])[..k - 1])|..] == b[|Flatten(Segments(b)[..k])|..];
    }
  }

  /** What the caller of Write sees of it: a failed socket write with more than one segment still to go. */
  lemma SkipsIff(c: Call)
    ensures var (n, err, _) := Written(c.bytes, c.outcomes);
            Skips(c) <==> err == TransportFailed && |c.bytes| - n > MAX_PAYLOAD
  {
    var segments := Segments(c.bytes);
    var k := Stop(c.outcomes, |segments|);
    SegmentsFrom(c.bytes, k);
    var rest := c.bytes[|Flatten(segments[..k])|..];
    assert |Segments(rest)| == |segments| - k;
    assert |Segments(rest)| >= 2 <==> |rest| > MAX_PAYLOAD;
  }

  ghost predicate NoneSkips(calls: seq<Call>) {
    forall i :: 0 <= i < |calls| ==> !Skips(calls[i])
  }

  // ---- bytes ----------------------------------------------------------------------

  ghost predicate AllFinished(calls: seq<Call>) {
    forall i :: 0 <= i < |calls| ==> Finished(calls[i])
  }

  /** Every skip comes after the end of the stream, where it harms no more. */
  ghost predicate NoSkipBeforeEnd(calls: seq<Call>) {
    forall i :: 0 <= i < |calls| && Skips(calls[i]) ==> Ended(calls[..i])
  }

  lemma TakenIsPrefix(c: Call)
    ensures Taken(c) <= Segments(c.bytes) && Flatten(Taken(c)) <= c.bytes
  {
    SegmentsPartition(c.bytes);
    FlattenPrefix(Taken(c), Segments(c.bytes));
  }

  lemma {:induction false} ShorterFlattens(part: seq<Bytes>, whole: seq<Bytes>)
    requires part <= whole && part != whole && forall i :: 0 <= i < |whole| ==> whole[i] != []
    ensures |Flatten(part)| < |Flatten(whole)|
  {
    assert whole == part + whole[|part|..];
    FlattenConcat(part, whole[|part|..]);
  }

  /** A call that did not end the stream is taken whole exactly if it skips nothing. */
  lemma WholeIff(c: Call)
    requires Proper(c) && Finished(c) && !Ends(c)
    ensures Skips(c) ==> |Flatten(Taken(c))| < |c.bytes|
    ensures !Skips(c) ==> Flatten(Taken(c)) == c.bytes
  {
    var segments := Segments(c.bytes);
    StopAllSent(c.outcomes, |segments|);
    SegmentsPartition(c.bytes);
    TakenIsPrefix(c);
    if c.outcomes != [] {
      assert c.outcomes[|c.outcomes| - 1] in c.outcomes;
    }
    if Skips(c) {
      ShorterFlattens(Taken(c), segments);
    } else {
      assert Taken(c) == segments;
    }
  }

  lemma EndedPrefix(calls: seq<Call>, n: nat)
    requires n <= |calls| && Ended(calls[..n])
    ensures Ended(calls)
  {
    var i :| 0 <= i < n && Ends(calls[..n][i]);
    assert Ends(calls[i]);
  }

  lemma NoSkipInit(calls: seq<Call>)
    requires calls != [] && NoSkipBeforeEnd(calls)
    ensures NoSkipBeforeEnd(calls[..|calls| - 1])
  {
    var init := calls[..|calls| - 1];
    assert forall i :: 0 <= i < |init| ==> init[i] == calls[i] && init[..i] == calls[..i];
  }

  /** Without a skip, a stream that has not ended is delivered as it was passed. */
  lemma {:induction false} WholeStream(calls: seq<Call>)
    requires CallsProper(calls) && AllFinished(calls) && !Ended(calls) && NoSkipBeforeEnd(calls)
    ensures Flatten(Deliverable(calls)) == Passed(calls)
  {
    if calls != [] {
      var n := |calls| - 1;
      assert !Ended(calls[..n]) by { if Ended(calls[..n]) { EndedPrefix(calls, n); } }
      assert !Ends(calls[n]) && !Skips(calls[n]);
      NoSkipInit(calls);
      WholeStream(calls[..n]);
      WholeIff(calls[n]);
      FlattenConcat(Deliverable(calls[..n]), Taken(calls[n]));
    }
  }

  lemma {:induction false} SafeStream(calls: seq<Call>)
    requires CallsProper(calls) && (calls != [] ==> NoSkipBeforeEnd(calls[..|calls| - 1]))
    ensures Flatten(Deliverable(calls)) <= Passed(calls)
  {
    if calls != [] {
      var n := |calls| - 1;
      var init := calls[..n];
      if Ended(init) {
        if n > 0 {
          NoSkipInit(init);
        }
        SafeStream(init);
      } else {
        WholeStream(init);
        TakenIsPrefix(calls[n]);
        FlattenConcat(Deliverable(init), Taken(calls[n]));
      }
    }
  }

  /**
   Stream safety. With one writer, in every run without overflow in which no
   call but the last skipped a segment (or the stream had ended before), Read
   returns a prefix of the bytes passed to Write.
   */
  lemma StreamSafety(capacity: nat, es: seq<Event>)
    ensures var x := Exec(Initial(capacity), es);
            !x.net.rcv.overflowed && (x.calls != [] ==> NoSkipBeforeEnd(x.calls[..|x.calls| - 1])) ==>
              x.net.rcv.output <= Passed(x.calls)
  {
    ReadIsPrefixOfTaken(capacity, es);
    var x := Exec(Initial(capacity), es);
    if x.calls != [] ==> NoSkipBeforeEnd(x.calls[..|x.calls| - 1]) {
      SafeStream(x.calls);
    }
  }
}
