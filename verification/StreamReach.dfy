/**
 What the runs with a writer can reach: every list of calls is made by some
 run that delivers all it can. Hence the exact condition under which a caller
 may go on writing.
 */
module StreamReach {
  import opened Base
  import A = ArqReceiver
  import opened ArqSender
  import opened Stream
  import opened StreamRuns
  import T = Transport
  import S = SendSide
  import R = ReceiveSide
  import P = Progress
  import Rtt = RttEstimator

  // ---- what a run can reach -----------------------------------------------------

  /** Nothing is in flight or waiting, and everything that can be delivered has been read. */
  ghost predicate Settled(net: T.State) {
    && T.Reached(net) && net.snd.s.unacked == map[] && !net.rcv.overflowed && net.rcv.r.capacity > 0
    && net.rcv.readBuf == [] && net.rcv.r.queue == [] && net.rcv.handed == T.LivePart(net.snd.log)
  }

  lemma SettledOutput(net: T.State)
    requires Settled(net)
    ensures net.rcv.output == Flatten(T.LivePart(net.snd.log))
  {
    T.ReachedKeepsInv(net);
    assert net.rcv.taken + [] == net.rcv.taken;
    assert net.rcv.output + [] == net.rcv.output;
  }

  /** Reading on until nothing is left. */
  lemma {:induction false} ReadAll(net: T.State) returns (es: seq<T.Event>, after: T.State)
    ensures after == T.Exec(net, es)
    ensures after.snd == net.snd && after.rcv.handed == net.rcv.handed
    ensures after.rcv.overflowed == net.rcv.overflowed && after.rcv.r.capacity == net.rcv.r.capacity
    ensures after.rcv.readBuf == [] && after.rcv.r.queue == []
    decreases |net.rcv.r.queue|, |net.rcv.readBuf|
  {
    if net.rcv.readBuf == [] && net.rcv.r.queue == [] {
      es, after := [], net;
    } else {
      var room := if net.rcv.readBuf != [] then |net.rcv.readBuf| else |net.rcv.r.queue[0]|;
      var e := T.ReceiveSideStep(R.Read(room));
      var z := T.Step(net, e);
      assert z.rcv == R.OnRead(net.rcv, room);
      var rest;
      rest, after := ReadAll(z);
      es := [e] + rest;
      P.ExecOne(net, e);
      P.ExecSplits(net, [e], rest);
    }
  }

  lemma LateTick(net: T.State) returns (e: T.Event, z: T.State)
    requires T.Reached(net) && net.snd.s.unacked != map[]
    ensures z == T.Step(net, e) && T.Reached(z) && z.rcv == net.rcv && z.snd.log == net.snd.log
    ensures Budget(z.snd.s.unacked) < Budget(net.snd.s.unacked)
  {
    var now := net.snd.clock + Rtt.MAX_RTO + 1;
    e := T.SendSideStep(S.Tick({}, now));
    z := T.Step(net, e);
    T.ReachedStep(net, e);
    TimeoutSpendsBudget(net.snd, now) by { T.ReachedKeepsInv(net); }
  }

  lemma TimeoutSpendsBudget(x: S.Side, now: int)
    requires Healthy(x.s) && S.Timely(x) && now > x.clock + Rtt.MAX_RTO && x.s.unacked != map[]
    ensures Budget(S.Step(x, S.Tick({}, now)).s.unacked) < Budget(x.s.unacked)
  {
    var n :| n in x.s.unacked;
    assert n in Late(x.s, now);
    TickSpendsBudget(x.s, now, {});
  }

  /** Ticking until everything in flight has been given up. */
  lemma {:induction false} AbandonAll(net: T.State) returns (es: seq<T.Event>, after: T.State)
    requires T.Reached(net)
    ensures after == T.Exec(net, es) && T.Reached(after)
    ensures after.rcv == net.rcv && after.snd.log == net.snd.log && after.snd.s.unacked == map[]
    decreases Budget(net.snd.s.unacked)
  {
    if net.snd.s.unacked == map[] {
      es, after := [], net;
    } else {
      var e, z := LateTick(net);
      var rest;
      rest, after := AbandonAll(z);
      es := [e] + rest;
      P.ExecOne(net, e);
      P.ExecSplits(net, [e], rest);
    }
  }

  lemma {:induction false} LivePartWhole(log: seq<Option<Bytes>>)
    ensures |T.LivePart(log)| <= |log|
    ensures |T.LivePart(log)| == |log| <==> AllSome(log)
  {
    if log != [] {
      LivePartWhole(log[1..]);
      if log[0].Some? {
        assert AllSome(log) <==> AllSome(log[1..]) by {
          assert forall i :: 0 < i < |log| ==> log[i] == log[1..][i - 1];
          assert forall i :: 0 <= i < |log| - 1 ==> log[1..][i] == log[i + 1];
        }
      }
    }
  }

  lemma QuiescentIsDelivered(net: T.State)
    requires T.Reached(net) && P.Quiescent(net)
    ensures net.rcv.handed == T.LivePart(net.snd.log)
  {
    T.ReachedKeepsInv(net);
    T.HandedWasSubmitted(net);
    T.PrefixOfLivePart(net.rcv.handed, net.snd.log);
  }

  /** From a state in which only recoverable packets are missing, all can be delivered, acknowledged and read. */
  lemma SettleAlive(net: T.State) returns (es: seq<T.Event>, after: T.State)
    requires T.Reached(net) && P.Recoverable(net) && P.HasRoom(net) && !net.rcv.overflowed && net.rcv.r.capacity > 0
    ensures after == T.Exec(net, es) && Settled(after) && after.snd.log == net.snd.log
  {
    assert exists first :: P.Settles(net, first) by {
      T.ReachedKeepsInv(net);
      P.SettlingRun(net);
    }
    var first :| P.Settles(net, first);
    var y := T.Exec(net, first);
    assert y.rcv.r.capacity == net.rcv.r.capacity by {
      T.ReachedKeepsInv(net);
      T.ExecKeepsInv(net, first);
    }
    var rest;
    rest, after := ReadAll(y);
    es := first + rest;
    P.ExecSplits(net, first, rest);
    T.ReachedExec(net, es);
    T.ReachedExec(net, first);
    QuiescentIsDelivered(y);
  }

  // ---- every list of calls can be run, and all it can deliver be delivered ---------

  /** One segment on a settled network, and what follows until it is settled again. */
  lemma {:induction false} SegmentSettles(net: T.State, segment: Bytes, outcome: SendOutcome)
    returns (es: seq<T.Event>, after: T.State)
    requires Settled(net) && outcome != Closed && |net.snd.log| < U32 - 1
    ensures var sending := Sending(segment, outcome, 0, net.snd.clock).value;
            && S.Enabled(net.snd, sending)
            && after == T.Exec(T.Step(net, T.SendSideStep(sending)), es)
            && T.Step(net, T.SendSideStep(sending)).snd.log == after.snd.log == Logged(net.snd.log, segment, outcome)
    ensures Settled(after)
  {
    var sending := Sending(segment, outcome, 0, net.snd.clock).value;
    var z := T.Step(net, T.SendSideStep(sending));
    WindowIsOpen(net);
    SendingIsLogged(net, segment, outcome, 0, net.snd.clock);
    LivePartWhole(net.snd.log);
    if outcome == EncodeError {
      es, after := [], z;
      LivePartAppend(net.snd.log, None);
    } else {
      LivePartAppend(net.snd.log, Some(segment));
      if AllSome(net.snd.log) {
        es, after := SettleOne(net, z, segment);
      } else {
        es, after := AbandonAll(z);
      }
    }
  }

  /** With nothing in flight and a number left, Send does not wait. */
  lemma WindowIsOpen(net: T.State)
    requires T.Reached(net) && net.snd.s.unacked == map[] && |net.snd.log| < U32 - 1
    ensures S.WindowOpen(net.snd.s) && net.snd.s.next == |net.snd.log|
  {
    T.ReachedKeepsInv(net);
  }

  lemma SubmitOne(x: S.Side, segment: Bytes)
    requires S.Conserved(x) && S.Enabled(x, S.Submit(segment, 0, x.clock)) && x.s.unacked == map[]
    ensures var y := S.Step(x, S.Submit(segment, 0, x.clock));
            && y.log == x.log + [Some(segment)]
            && |x.log| in y.s.unacked && y.s.unacked[|x.log|].retries == 0
  {
  }

  lemma OneMissing(z: T.State, n: nat)
    requires A.Tracks(z.rcv.r, z.rcv.handed, z.rcv.arrived) && z.rcv.r.next == n && |z.snd.log| == n + 1
    requires n in z.snd.s.unacked && z.snd.s.unacked[n].retries == 0
    ensures P.Recoverable(z)
  {
  }

  lemma SettleOne(net: T.State, z: T.State, segment: Bytes) returns (es: seq<T.Event>, after: T.State)
    requires Settled(net) && |T.LivePart(net.snd.log)| == |net.snd.log| < U32 - 1 && T.Reached(z)
    requires z == T.Step(net, T.SendSideStep(S.Submit(segment, 0, net.snd.clock)))
    ensures after == T.Exec(z, es) && Settled(after) && after.snd.log == z.snd.log
  {
    assert z.rcv == net.rcv;
    assert net.rcv.r.next == |net.snd.log| && P.Recoverable(z) by {
      T.ReachedKeepsInv(net);
      T.ReachedKeepsInv(z);
      SubmitOne(net.snd, segment);
      OneMissing(z, |net.snd.log|);
    }
    es, after := SettleAlive(z);
  }

  // ---- the same in runs with the writer ---------------------------------------------

  function Lifted(es: seq<T.Event>): seq<Event> {
    seq(|es|, i requires 0 <= i < |es| => Elsewhere(es[i]))
  }

  lemma LogGrows(net: T.State, e: T.Event)
    ensures net.snd.log <= T.Step(net, e).snd.log
    ensures ByWriter(e) && T.Step(net, e).snd.log == net.snd.log ==> T.Step(net, e) == net
  {
    if e.SendSideStep? {
      T.SenderKeepsLog(net.snd, e.sent);
    }
  }

  lemma {:induction false} ExecLogGrows(net: T.State, es: seq<T.Event>)
    ensures net.snd.log <= T.Exec(net, es).snd.log
  {
    if es != [] {
      ExecLogGrows(net, es[..|es| - 1]);
      LogGrows(T.Exec(net, es[..|es| - 1]), es[|es| - 1]);
    }
  }

  /** Events of the network that leave the log alone run beside an idle writer. */
  lemma {:induction false} LiftedRuns(x: State, es: seq<T.Event>)
    requires T.Exec(x.net, es).snd.log == x.net.snd.log
    ensures Exec(x, Lifted(es)) == x.(net := T.Exec(x.net, es))
  {
    if es != [] {
      var n := |es| - 1;
      var mid := T.Exec(x.net, es[..n]);
      ExecLogGrows(x.net, es[..n]);
      LogGrows(mid, es[n]);
      LiftedRuns(x, es[..n]);
      assert Lifted(es)[..n] == Lifted(es[..n]);
    }
  }

  lemma {:induction false} ExecSplits(x: State, a: seq<Event>, b: seq<Event>)
    ensures Exec(x, a + b) == Exec(Exec(x, a), b)
  {
    if b == [] {
      assert a + b == a;
    } else {
      assert (a + b)[..|a + b| - 1] == a + b[..|b| - 1];
      ExecSplits(x, a, b[..|b| - 1]);
    }
  }

  lemma ExecOne(x: State, e: Event)
    ensures Exec(x, [e]) == Step(x, e)
  {
    assert [e][..0] == [];
  }

  lemma {:induction false} SegmentRun(x: State, outcome: SendOutcome) returns (es: seq<Event>, y: State)
    requires Inv(x) && Settled(x.net) && !Idle(x) && (x.closed ==> outcome == Closed)
    requires outcome != Closed ==> |x.net.snd.log| < U32 - 1
    ensures y == Exec(x, es) && Inv(y) && Settled(y.net)
    ensures y.calls == WithOutcome(x.calls, outcome) && y.closed == (x.closed || outcome == Closed)
  {
    var e := SegmentGoes(outcome, 0, x.net.snd.clock);
    var z := OnSegment(x, outcome, 0, x.net.snd.clock);
    if outcome == Closed {
      es, y := [e], z;
    } else {
      var rest, after := SegmentSettles(x.net, Segment(x.calls[|x.calls| - 1]), outcome);
      LiftedRuns(z, rest);
      es, y := [e] + Lifted(rest), z.(net := after);
      ExecSplits(x, [e], Lifted(rest));
    }
    ExecOne(x, e);
    ExecKeepsInv(x, es);
  }

  /** A list of calls that some run could make: proper, finished in turn, and within the sequence numbers. */
  ghost predicate Possible(calls: seq<Call>) {
    CallsProper(calls) && Numbers(calls) <= U32 - 1 && ClosedTold(calls, SomeClosed(calls))
  }

  lemma {:induction false} UsedPrefix(outcomes: seq<SendOutcome>, k: nat)
    requires k < |outcomes|
    ensures Used(outcomes[..k + 1]) == Used(outcomes[..k]) + (if outcomes[k] == Closed then 0 else 1)
    ensures Used(outcomes[..k + 1]) <= Used(outcomes)
    decreases |outcomes|
  {
    assert outcomes[..k + 1][..k] == outcomes[..k];
    var n := |outcomes| - 1;
    if k < n {
      UsedPrefix(outcomes[..n], k);
      assert outcomes[..n][..k + 1] == outcomes[..k + 1] && outcomes[..n][..k] == outcomes[..k];
    } else {
      assert outcomes[..k + 1] == outcomes;
    }
  }

  /** The last call, up to its k-th outcome. */
  function UpTo(calls: seq<Call>, c: Call, k: nat): seq<Call>
    requires k <= |c.outcomes|
  {
    calls + [Call(c.bytes, c.outcomes[..k])]
  }

  lemma {:induction false} UpToOneMore(calls: seq<Call>, c: Call, k: nat)
    requires k < |c.outcomes| && Proper(c)
    ensures UpTo(calls, c, k + 1) == WithOutcome(UpTo(calls, c, k), c.outcomes[k])
    ensures !Finished(Call(c.bytes, c.outcomes[..k]))
  {
    assert c.outcomes[..k + 1] == c.outcomes[..k] + [c.outcomes[k]];
  }

  lemma {:induction false} UpToNumbers(calls: seq<Call>, c: Call, k: nat)
    requires k <= |c.outcomes|
    ensures Numbers(UpTo(calls, c, k)) == Numbers(calls) + Used(c.outcomes[..k])
  {
    assert UpTo(calls, c, k)[..|calls|] == calls;
  }

  /** Whether the engine is found closed by the first `k` segments of a further call. */
  lemma {:induction false} UpToClosed(calls: seq<Call>, c: Call, k: nat)
    requires k < |c.outcomes| && Proper(c) && ClosedTold(calls + [c], SomeClosed(calls + [c]))
    ensures SomeClosed(UpTo(calls, c, k)) ==> c.outcomes[k] == Closed
  {
    var after := UpTo(calls, c, k);
    assert forall j :: 0 <= j < k ==> c.outcomes[j] == Sent;
    assert Closed !in after[|calls|].outcomes;
    if SomeClosed(after) {
      var i :| 0 <= i < |after| && Closed in after[i].outcomes;
      assert Closed in (calls + [c])[i].outcomes && c.outcomes[k] in (calls + [c])[|calls|].outcomes;
    }
  }

  lemma {:induction false} CallRun(x: State, calls: seq<Call>, c: Call, k: nat) returns (es: seq<Event>, y: State)
    requires Inv(x) && Settled(x.net) && Idle(x) && x.calls == calls
    requires Possible(calls + [c]) && k <= |c.outcomes|
    ensures y == Exec(x, es) && Inv(y) && Settled(y.net) && y.calls == UpTo(calls, c, k)
    decreases k
  {
    assert (calls + [c])[|calls|] == c && (calls + [c])[..|calls|] == calls;
    if k == 0 {
      es := [WriteBegins(c.bytes)];
      y := Step(x, es[0]);
      ExecOne(x, es[0]);
      StepKeepsInv(x, es[0]);
    } else {
      var first, z := CallRun(x, calls, c, k - 1);
      UpToOneMore(calls, c, k - 1);
      UpToNumbers(calls, c, k - 1);
      UsedPrefix(c.outcomes, k - 1);
      UpToClosed(calls, c, k - 1);
      var rest;
      rest, y := SegmentRun(z, c.outcomes[k - 1]);
      es := first + rest;
      ExecSplits(x, first, rest);
    }
  }

  lemma {:induction false} PossibleInit(calls: seq<Call>)
    requires calls != [] && Possible(calls)
    ensures Possible(calls[..|calls| - 1]) && AllFinished(calls[..|calls| - 1])
  {
    var init := calls[..|calls| - 1];
    assert forall i :: 0 <= i < |init| ==> init[i] == calls[i];
  }

  lemma InitialSettled(capacity: nat)
    requires capacity > 0
    ensures Inv(Initial(capacity)) && Settled(T.Initial(capacity))
  {
    InitialKept(capacity);
  }

  /** Every possible list of calls is made by some run whose output is all that it can deliver. */
  lemma {:induction false} CallsRun(capacity: nat, calls: seq<Call>) returns (es: seq<Event>, y: State)
    requires Possible(calls) && capacity > 0
    ensures y == Exec(Initial(capacity), es) && Inv(y) && Settled(y.net) && y.calls == calls
  {
    if calls == [] {
      es, y := [], Initial(capacity);
      InitialSettled(capacity);
    } else {
      var n := |calls| - 1;
      PossibleInit(calls);
      var first, z := CallsRun(capacity, calls[..n]);
      assert calls[..n] + [calls[n]] == calls;
      var rest;
      rest, y := CallRun(z, calls[..n], calls[n], |calls[n].outcomes|);
      assert calls[n].outcomes[..|calls[n].outcomes|] == calls[n].outcomes;
      es := first + rest;
      ExecSplits(Initial(capacity), first, rest);
    }
  }

  /** What can be delivered is delivered by some run. */
  lemma DeliverableIsReached(capacity: nat, calls: seq<Call>)
    requires Possible(calls) && capacity > 0
    ensures exists es :: Delivers(capacity, es, calls, Flatten(Deliverable(calls)))
  {
    var es, y := CallsRun(capacity, calls);
    SettledOutput(y.net);
    assert Delivers(capacity, es, calls, Flatten(Deliverable(calls)));
  }

  /** The run makes exactly these calls, without overflow, and Read has returned exactly these bytes. */
  ghost predicate Delivers(capacity: nat, es: seq<Event>, calls: seq<Call>, output: Bytes) {
    var x := Exec(Initial(capacity), es);
    x.calls == calls && !x.net.rcv.overflowed && x.net.rcv.output == output
  }

  // ---- when the caller may go on ------------------------------------------------------

  /** In every run that makes these calls and at most one more, Read returns a prefix of the bytes passed. */
  ghost predicate NextWriteSafe(calls: seq<Call>) {
    forall capacity, es :: SafeRun(calls, capacity, es)
  }

  ghost predicate SafeRun(calls: seq<Call>, capacity: nat, es: seq<Event>) {
    var x := Exec(Initial(capacity), es);
    calls <= x.calls && |x.calls| <= |calls| + 1 && !x.net.rcv.overflowed ==> x.net.rcv.output <= Passed(x.calls)
  }

  lemma {:induction false} PossibleOneMore(calls: seq<Call>, c: Call)
    requires Possible(calls) && AllFinished(calls) && Proper(c)
    requires Numbers(calls) + Used(c.outcomes) <= U32 - 1 && (SomeClosed(calls) ==> c.outcomes == [])
    ensures Possible(calls + [c])
  {
    var after := calls + [c];
    assert after[..|calls|] == calls && after[|calls|] == c;
    assert forall i :: 0 <= i < |calls| ==> after[i] == calls[i];
    if SomeClosed(calls) {
      var i :| 0 <= i < |calls| && Closed in calls[i].outcomes;
      assert Closed in after[i].outcomes;
    }
  }

  /** After an unharmful skip the shorter stream meets a byte that was passed before it. */
  lemma ExtendedPrefix(delivered: Bytes, passed: Bytes, b: byte)
    requires |delivered| < |passed| && delivered + [b] <= passed + [b]
    ensures b == passed[|delivered|]
  {
    assert (delivered + [b])[|delivered|] == (passed + [b])[|delivered|];
  }

  lemma {:induction false} SkippedIsShorter(calls: seq<Call>)
    requires CallsProper(calls) && AllFinished(calls) && !Ended(calls)
    ensures |Flatten(Deliverable(calls))| <= |Passed(calls)|
    ensures |Flatten(Deliverable(calls))| == |Passed(calls)| <==> NoneSkips(calls)
  {
    if calls != [] {
      var n := |calls| - 1;
      var init := calls[..n];
      assert !Ended(init) by { if Ended(init) { EndedPrefix(calls, n); } }
      assert !Ends(calls[n]);
      SkippedIsShorter(init);
      WholeIff(calls[n]);
      TakenIsPrefix(calls[n]);
      FlattenConcat(Deliverable(init), Taken(calls[n]));
      assert NoneSkips(calls) <==> NoneSkips(init) && !Skips(calls[n]) by {
        assert forall i :: 0 <= i < n ==> init[i] == calls[i];
      }
    }
  }

  /** One more call of a single byte. */
  function OneByte(b: byte): Call {
    Call([b], [Sent])
  }

  lemma OneByteTaken(b: byte)
    ensures Segments([b]) == [[b]] && Proper(OneByte(b)) && Used(OneByte(b).outcomes) == 1
    ensures Taken(OneByte(b)) == [[b]] && Flatten(Taken(OneByte(b))) == [b]
  {
    assert [b][..1] == [b] && [b][1..] == [];
    StopAllSent([Sent], 1);
    assert [[b]][..1] == [[b]];
    assert [Sent][..0] == [];
    FlattenOne([b]);
  }

  lemma ClosedEnds(calls: seq<Call>)
    ensures SomeClosed(calls) ==> Ended(calls)
  {
    if SomeClosed(calls) {
      var i :| 0 <= i < |calls| && Closed in calls[i].outcomes;
      assert Ends(calls[i]);
    }
  }

  /** If some byte is missing, a further write shows it: a run in which what Read returns is no prefix. */
  lemma SkipBreaksStream(calls: seq<Call>, b: byte)
    requires Possible(calls) && AllFinished(calls) && !Ended(calls) && Numbers(calls) < U32 - 1
    requires |Flatten(Deliverable(calls))| < |Passed(calls)| && b != Passed(calls)[|Flatten(Deliverable(calls))|]
    ensures exists es :: !SafeRun(calls, 1, es)
  {
    OneByteTaken(b);
    var after := calls + [OneByte(b)];
    assert after[..|calls|] == calls;
    assert !SomeClosed(calls) by { ClosedEnds(calls); }
    PossibleOneMore(calls, OneByte(b));
    FlattenConcat(Deliverable(calls), Taken(OneByte(b)));
    DeliverableIsReached(1, after);
    var es :| Delivers(1, es, after, Flatten(Deliverable(after)));
    assert Passed(after) == Passed(calls) + [b];
    if Flatten(Deliverable(after)) <= Passed(after) {
      ExtendedPrefix(Flatten(Deliverable(calls)), Passed(calls), b);
    }
    assert !SafeRun(calls, 1, es);
  }

  lemma AliveSafeIf(calls: seq<Call>, capacity: nat, es: seq<Event>)
    requires AllFinished(calls) && !Ended(calls) && NoneSkips(calls)
    ensures SafeRun(calls, capacity, es)
  {
    var x := Exec(Initial(capacity), es);
    if calls <= x.calls && |x.calls| <= |calls| + 1 && x.calls != [] {
      var init := x.calls[..|x.calls| - 1];
      assert forall i :: 0 <= i < |init| ==> init[i] == calls[i];
      StreamSafety(capacity, es);
    } else {
      StreamSafety(capacity, es);
    }
  }

  lemma EndedSafeIff(calls: seq<Call>)
    requires Possible(calls) && AllFinished(calls) && Ended(calls)
    ensures NextWriteSafe(calls) <==> Flatten(Deliverable(calls)) <= Passed(calls)
  {
    if Flatten(Deliverable(calls)) <= Passed(calls) {
      forall capacity, es ensures SafeRun(calls, capacity, es) {
        EndedRunSafe(calls, capacity, es);
      }
    } else {
      DeliverableIsReached(1, calls);
      var es :| Delivers(1, es, calls, Flatten(Deliverable(calls)));
      assert !SafeRun(calls, 1, es);
    }
  }

  lemma EndedRunSafe(calls: seq<Call>, capacity: nat, es: seq<Event>)
    requires Ended(calls) && Flatten(Deliverable(calls)) <= Passed(calls)
    ensures SafeRun(calls, capacity, es)
  {
    ReadIsPrefixOfTaken(capacity, es);
    var x := Exec(Initial(capacity), es);
    if calls <= x.calls && |x.calls| <= |calls| + 1 {
      EndedGrows(calls, x.calls);
    }
  }

  lemma EndedGrows(calls: seq<Call>, after: seq<Call>)
    requires Ended(calls) && calls <= after && |after| <= |calls| + 1
    ensures Deliverable(after) == Deliverable(calls) && Passed(calls) <= Passed(after)
  {
    if |after| == |calls| {
      assert after == calls;
    } else {
      assert after[..|after| - 1] == calls;
    }
  }

  lemma SafeIff(calls: seq<Call>)
    requires Possible(calls) && AllFinished(calls) && (Ended(calls) || Numbers(calls) < U32 - 1)
    ensures NextWriteSafe(calls) <==>
              if Ended(calls) then Flatten(Deliverable(calls)) <= Passed(calls) else NoneSkips(calls)
  {
    if Ended(calls) {
      EndedSafeIff(calls);
    } else if NoneSkips(calls) {
      forall c, es ensures SafeRun(calls, c, es) {
        AliveSafeIf(calls, c, es);
      }
    } else {
      SkippedIsShorter(calls);
      var missing := Passed(calls)[|Flatten(Deliverable(calls))|];
      SkipBreaksStream(calls, if missing == 0 then 1 else 0);
      var es :| !SafeRun(calls, 1, es);
    }
  }

  lemma ReachedIsPossible(x: State)
    requires Inv(x) && Idle(x)
    ensures Possible(x.calls) && AllFinished(x.calls) && Numbers(x.calls) == |x.net.snd.log|
  {
    assert |x.net.snd.log| < U32 by { T.ReachedKeepsInv(x.net); }
  }

  /**
   When the caller may go on writing. After any calls that a run has made, one
   more Write never makes Read return anything but a prefix of the bytes
   passed exactly if no call skipped a segment, that is, if no socket write
   failed with more than one segment to go. If the stream has ended, nothing
   more is delivered, and what counts is what was delivered of the calls.
   */
  lemma NextWriteSafeIff(capacity: nat, past: seq<Event>)
    requires var x := Exec(Initial(capacity), past);
             Idle(x) && (Ended(x.calls) || |x.net.snd.log| < U32 - 1)
    ensures var calls := Exec(Initial(capacity), past).calls;
            NextWriteSafe(calls) <==>
              if Ended(calls) then Flatten(Deliverable(calls)) <= Passed(calls) else NoneSkips(calls)
  {
    var x := Exec(Initial(capacity), past);
    ReadIsPrefixOfTaken(capacity, past);
    ReachedIsPossible(x);
    SafeIff(x.calls);
  }

  /**
   A run that breaks the stream: a socket write fails on the first of two
   segments, and the caller writes one more byte. Read returns the first
   segment and that byte, without the second segment.
   */
  lemma SkippedSegmentIsMissing(first: Bytes, b: byte)
    requires MAX_PAYLOAD < |first| <= 2 * MAX_PAYLOAD && b != first[MAX_PAYLOAD]
    ensures var calls := [Call(first, [TransportError]), OneByte(b)];
            && (exists es :: Delivers(1, es, calls, first[..MAX_PAYLOAD] + [b]))
            && !(first[..MAX_PAYLOAD] + [b] <= Passed(calls))
  {
    var c := Call(first, [TransportError]);
    var calls := [c, OneByte(b)];
    FailedCall(first);
    OneByteTaken(b);
    assert calls[..1] == [c] && [c][..0] == [] && [] + [OneByte(b)] == [OneByte(b)];
    assert Passed([c]) == [] + first == first;
    assert Passed(calls) == Passed(calls[..1]) + [b] == first + [b];
    assert !Ended([c]);
    assert Deliverable([c]) == [] + Taken(c) == [first[..MAX_PAYLOAD]];
    assert Deliverable(calls) == [first[..MAX_PAYLOAD]] + [[b]];
    FlattenConcat([first[..MAX_PAYLOAD]], [[b]]);
    FlattenOne(first[..MAX_PAYLOAD]);
    assert Possible(calls) by {
      assert Numbers([c]) == 1 by { assert [TransportError][..0] == []; }
      PossibleOneMore([c], OneByte(b));
      assert [c] + [OneByte(b)] == calls;
    }
    DeliverableIsReached(1, calls);
    if first[..MAX_PAYLOAD] + [b] <= first + [b] {
      ExtendedPrefix(first[..MAX_PAYLOAD], first, b);
    }
  }

  lemma FailedCall(first: Bytes)
    requires MAX_PAYLOAD < |first| <= 2 * MAX_PAYLOAD
    ensures var c := Call(first, [TransportError]);
            Taken(c) == [first[..MAX_PAYLOAD]] && Proper(c) && Finished(c) && !Ends(c) && Skips(c)
  {
    var segments := Segments(first);
    assert segments == [first[..MAX_PAYLOAD]] + Segments(first[MAX_PAYLOAD..]);
    assert |Segments(first[MAX_PAYLOAD..])| >= 1;
    StopAllSent([TransportError], |segments|);
    assert segments[..1] == [first[..MAX_PAYLOAD]];
  }
}
