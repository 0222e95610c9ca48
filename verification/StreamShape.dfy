/**
 When a caller may go on writing, told by the lengths and outcomes of its calls
 alone: which calls skipped a segment, and whether anything was delivered after.
 */
module StreamShape {
  import opened Base
  import opened Stream
  import opened StreamRuns
  import opened StreamReach

  /** The same lengths and outcomes, with other bytes. */
  ghost predicate SameShape(calls: seq<Call>, other: seq<Call>) {
    |calls| == |other| && forall i :: 0 <= i < |calls| ==> SameCall(calls[i], other[i])
  }

  predicate SameCall(c: Call, d: Call) {
    |c.bytes| == |d.bytes| && c.outcomes == d.outcomes
  }

  // ---- what the shape decides -------------------------------------------------------------

  lemma {:induction false} SegmentsSame(b: Bytes, c: Bytes, k: nat)
    requires |b| == |c|
    ensures |Segments(b)| == |Segments(c)|
    ensures k <= |Segments(b)| ==> |Flatten(Segments(b)[..k])| == |Flatten(Segments(c)[..k])|
    decreases |b|
  {
    if b != [] {
      var n := Min(|b|, MAX_PAYLOAD);
      SegmentsSame(b[n..], c[n..], if k > 0 then k - 1 else 0);
      if 0 < k <= |Segments(b)| {
        assert Segments(b)[..k] == [b[..n]] + Segments(b[n..])[..k - 1];
        assert Segments(c)[..k] == [c[..n]] + Segments(c[n..])[..k - 1];
      }
    }
  }

  lemma CallSame(c: Call, d: Call)
    requires SameCall(c, d)
    ensures |Flatten(Taken(c))| == |Flatten(Taken(d))|
    ensures (Finished(c) <==> Finished(d)) && (Proper(c) <==> Proper(d)) && (Skips(c) <==> Skips(d))
  {
    SegmentsSame(c.bytes, d.bytes, |Taken(c)|);
    assert Taken(c) == Segments(c.bytes)[..|Taken(c)|];
    assert Taken(d) == Segments(d.bytes)[..|Taken(d)|];
  }

  lemma {:induction false} DeliverableSame(calls: seq<Call>, other: seq<Call>)
    requires SameShape(calls, other)
    ensures |Flatten(Deliverable(calls))| == |Flatten(Deliverable(other))|
  {
    if calls != [] {
      var n := |calls| - 1;
      DeliverableSame(calls[..n], other[..n]);
      CallSame(calls[n], other[n]);
      EndedSame(calls[..n], other[..n]);
      FlattenConcat(Deliverable(calls[..n]), Taken(calls[n]));
      FlattenConcat(Deliverable(other[..n]), Taken(other[n]));
    }
  }

  lemma {:induction false} PassedSame(calls: seq<Call>, other: seq<Call>)
    requires SameShape(calls, other)
    ensures |Passed(calls)| == |Passed(other)| && Numbers(calls) == Numbers(other)
  {
    if calls != [] {
      var n := |calls| - 1;
      PassedSame(calls[..n], other[..n]);
      assert SameCall(calls[n], other[n]);
    }
  }

  lemma ShapeDecides(calls: seq<Call>, other: seq<Call>)
    requires SameShape(calls, other)
    ensures |Flatten(Deliverable(calls))| == |Flatten(Deliverable(other))| && |Passed(calls)| == |Passed(other)|
    ensures Numbers(calls) == Numbers(other)
  {
    DeliverableSame(calls, other);
    PassedSame(calls, other);
  }

  lemma EndedSame(calls: seq<Call>, other: seq<Call>)
    requires SameShape(calls, other)
    ensures Ended(calls) <==> Ended(other)
  {
    if i :| 0 <= i < |calls| && Ends(calls[i]) {
      assert Ends(other[i]);
    }
    if i :| 0 <= i < |other| && Ends(other[i]) {
      assert Ends(calls[i]);
    }
  }

  lemma ClosedSame(calls: seq<Call>, other: seq<Call>)
    requires SameShape(calls, other)
    ensures SomeClosed(calls) <==> SomeClosed(other)
    ensures ClosedTold(calls, SomeClosed(calls)) ==> ClosedTold(other, SomeClosed(other))
  {
    if i :| 0 <= i < |calls| && Closed in calls[i].outcomes {
      assert Closed in other[i].outcomes;
    }
    if i :| 0 <= i < |other| && Closed in other[i].outcomes {
      assert Closed in calls[i].outcomes;
    }
  }

  lemma PossibleSame(calls: seq<Call>, other: seq<Call>)
    requires SameShape(calls, other) && Possible(calls) && AllFinished(calls)
    ensures Possible(other) && AllFinished(other) && (NoneSkips(calls) <==> NoneSkips(other))
  {
    ShapeDecides(calls, other);
    ClosedSame(calls, other);
    forall i | 0 <= i < |calls|
      ensures Proper(other[i]) && Finished(other[i]) && (Skips(calls[i]) <==> Skips(other[i]))
    {
      CallSame(calls[i], other[i]);
    }
  }

  // ---- skips that do no harm ---------------------------------------------------------------

  /** Call `i` skipped a segment while the stream had not ended. */
  predicate SkipsAt(calls: seq<Call>, i: nat)
    requires i < |calls|
  {
    Skips(calls[i]) && !Ended(calls[..i])
  }

  /** Nothing was delivered after a call that skipped a segment. */
  ghost predicate SkipsHarmless(calls: seq<Call>) {
    forall i :: 0 <= i < |calls| && SkipsAt(calls, i) ==>
                  |Flatten(Deliverable(calls[..i + 1]))| == |Flatten(Deliverable(calls))|
  }

  lemma HarmlessSame(calls: seq<Call>, other: seq<Call>)
    requires SameShape(calls, other)
    ensures SkipsHarmless(calls) <==> SkipsHarmless(other)
  {
    ShapeDecides(calls, other);
    forall i | 0 <= i < |calls|
      ensures SkipsAt(calls, i) <==> SkipsAt(other, i)
      ensures |Flatten(Deliverable(calls[..i + 1]))| == |Flatten(Deliverable(other[..i + 1]))|
    {
      CallSame(calls[i], other[i]);
      EndedSame(calls[..i], other[..i]);
      ShapeDecides(calls[..i + 1], other[..i + 1]);
    }
  }

  lemma {:induction false} PassedPrefix(calls: seq<Call>, n: nat)
    requires n <= |calls|
    ensures Passed(calls[..n]) <= Passed(calls)
  {
    if n < |calls| {
      PassedPrefix(calls[..|calls| - 1], n);
      assert calls[..|calls| - 1][..n] == calls[..n];
    } else {
      assert calls[..n] == calls;
    }
  }

  ghost predicate AllBytes(b: Bytes, v: byte) {
    forall i :: 0 <= i < |b| ==> b[i] == v
  }

  lemma PrefixBytes(part: Bytes, whole: Bytes, v: byte)
    requires part <= whole && AllBytes(whole, v)
    ensures AllBytes(part, v)
  {
  }

  /** What later calls add to the delivered bytes is made of their bytes. */
  lemma {:induction false} DeliverableGrows(calls: seq<Call>, n: nat, v: byte) returns (more: Bytes)
    requires n <= |calls| && forall i :: n <= i < |calls| ==> AllBytes(calls[i].bytes, v)
    ensures Flatten(Deliverable(calls)) == Flatten(Deliverable(calls[..n])) + more && AllBytes(more, v)
  {
    if n == |calls| {
      more := [];
      assert calls[..n] == calls;
    } else {
      var last := |calls| - 1;
      var before := DeliverableGrows(calls[..last], n, v);
      assert calls[..last][..n] == calls[..n];
      more := before + LastAdds(calls);
      LastAddsIts(calls, v);
    }
  }

  /** The bytes the last call adds. */
  function LastAdds(calls: seq<Call>): Bytes
    requires calls != []
  {
    if Ended(calls[..|calls| - 1]) then [] else Flatten(Taken(calls[|calls| - 1]))
  }

  lemma LastAddsIts(calls: seq<Call>, v: byte)
    requires calls != []
    ensures Flatten(Deliverable(calls)) == Flatten(Deliverable(calls[..|calls| - 1])) + LastAdds(calls)
    ensures AllBytes(calls[|calls| - 1].bytes, v) ==> AllBytes(LastAdds(calls), v)
  {
    var last := |calls| - 1;
    FlattenConcat(Deliverable(calls[..last]), Taken(calls[last]));
    TakenIsPrefix(calls[last]);
    if AllBytes(calls[last].bytes, v) {
      PrefixBytes(Flatten(Taken(calls[last])), calls[last].bytes, v);
    }
  }

  /** The first call that skips, if there is one. */
  lemma {:induction false} FirstSkip(calls: seq<Call>) returns (i: nat)
    ensures i <= |calls| && NoSkipBeforeEnd(calls[..i]) && (i < |calls| ==> SkipsAt(calls, i))
  {
    if calls == [] {
      i := 0;
    } else {
      var n := |calls| - 1;
      i := FirstSkip(calls[..n]);
      assert calls[..n][..i] == calls[..i];
      if i == n && !SkipsAt(calls, n) {
        i := |calls|;
        assert forall j :: 0 <= j < n ==> calls[..i][..j] == calls[..n][..j] && calls[..i][j] == calls[..n][j];
        assert calls[..i][..n] == calls[..n];
      }
    }
  }

  lemma HarmlessIsPrefix(calls: seq<Call>)
    requires CallsProper(calls) && AllFinished(calls) && SkipsHarmless(calls)
    ensures Flatten(Deliverable(calls)) <= Passed(calls)
  {
    var i := FirstSkip(calls);
    var n := if i < |calls| then i + 1 else i;
    var part := calls[..n];
    assert part != [] ==> NoSkipBeforeEnd(part[..|part| - 1]) by {
      if i < |calls| {
        assert part[..n - 1] == calls[..i];
      } else if part != [] {
        NoSkipInit(part);
      }
    }
    SafeStream(part);
    PassedPrefix(calls, n);
    SameIfAsLong(calls, n);
    assert i == |calls| ==> part == calls;
  }

  lemma {:induction false} SameIfAsLong(calls: seq<Call>, n: nat)
    requires n <= |calls|
    ensures Flatten(Deliverable(calls[..n])) <= Flatten(Deliverable(calls))
    ensures |Flatten(Deliverable(calls[..n]))| == |Flatten(Deliverable(calls))| ==>
              Flatten(Deliverable(calls[..n])) == Flatten(Deliverable(calls))
  {
    if n < |calls| {
      var last := |calls| - 1;
      SameIfAsLong(calls[..last], n);
      assert calls[..last][..n] == calls[..n];
      FlattenConcat(Deliverable(calls[..last]), Taken(calls[last]));
    } else {
      assert calls[..n] == calls;
    }
  }

  // ---- skips that do harm -------------------------------------------------------------------

  /** The same calls with zeros up to call `n` and ones from there on. */
  function Marked(calls: seq<Call>, n: nat): seq<Call> {
    seq(|calls|, i requires 0 <= i < |calls| =>
      Call(seq(|calls[i].bytes|, _ => if i < n then 0 else 1), calls[i].outcomes))
  }

  lemma {:induction false} PassedAll(calls: seq<Call>, v: byte)
    requires forall i :: 0 <= i < |calls| ==> AllBytes(calls[i].bytes, v)
    ensures AllBytes(Passed(calls), v)
  {
    if calls != [] {
      PassedAll(calls[..|calls| - 1], v);
    }
  }

  lemma SkipDoesNotEnd(c: Call)
    requires Proper(c) && Skips(c)
    ensures !Ends(c)
  {
    var k := Stop(c.outcomes, |Segments(c.bytes)|);
    assert k == |c.outcomes| - 1;
  }

  /** Up to a call that skips, less is delivered than was passed. */
  lemma SkipShortens(calls: seq<Call>, i: nat)
    requires i < |calls| && CallsProper(calls) && AllFinished(calls) && SkipsAt(calls, i)
    ensures |Flatten(Deliverable(calls[..i + 1]))| < |Passed(calls[..i + 1])|
  {
    var part := calls[..i + 1];
    assert part[..i] == calls[..i];
    SkipDoesNotEnd(calls[i]);
    SkippedIsShorter(calls[..i]);
    WholeIff(calls[i]);
    FlattenConcat(Deliverable(calls[..i]), Taken(calls[i]));
  }

  /** Ones after too few zeros. */
  lemma Breaks(start: Bytes, more: Bytes, head: Bytes, passed: Bytes)
    requires |start| < |head| && head <= passed && more != [] && AllBytes(head, 0) && AllBytes(more, 1)
    ensures !(start + more <= passed)
  {
    assert (start + more)[|start|] == 1 && passed[|start|] == 0;
  }

  lemma MarkedBreaks(calls: seq<Call>, i: nat)
    requires Possible(calls) && AllFinished(calls) && i < |calls| && SkipsAt(calls, i)
    requires |Flatten(Deliverable(calls[..i + 1]))| != |Flatten(Deliverable(calls))|
    ensures var other := Marked(calls, i + 1);
            SameShape(calls, other) && !(Flatten(Deliverable(other)) <= Passed(other))
  {
    var other, n := Marked(calls, i + 1), i + 1;
    SkipShortens(calls, i);
    DeliverableSame(calls, other);
    DeliverableSame(calls[..n], other[..n]);
    PassedSame(calls[..n], other[..n]);
    var more := DeliverableGrows(other, n, 1);
    PassedAll(other[..n], 0);
    PassedPrefix(other, n);
    Breaks(Flatten(Deliverable(other[..n])), more, Passed(other[..n]), Passed(other));
  }

  // ---- when the caller may go on ----------------------------------------------------------------

  lemma EndedShapeIff(calls: seq<Call>)
    requires Possible(calls) && AllFinished(calls) && Ended(calls)
    ensures (forall other :: SameShape(calls, other) ==> NextWriteSafe(other)) <==> SkipsHarmless(calls)
  {
    if SkipsHarmless(calls) {
      forall other | SameShape(calls, other) ensures NextWriteSafe(other) {
        PossibleSame(calls, other);
        EndedSame(calls, other);
        HarmlessSame(calls, other);
        HarmlessIsPrefix(other);
        EndedSafeIff(other);
      }
    } else {
      var i :| 0 <= i < |calls| && SkipsAt(calls, i)
               && |Flatten(Deliverable(calls[..i + 1]))| != |Flatten(Deliverable(calls))|;
      MarkedBreaks(calls, i);
      var other := Marked(calls, i + 1);
      PossibleSame(calls, other);
      EndedSame(calls, other);
      EndedSafeIff(other);
    }
  }

  lemma AliveShapeIff(calls: seq<Call>)
    requires Possible(calls) && AllFinished(calls) && !Ended(calls) && Numbers(calls) < U32 - 1
    ensures (forall other :: SameShape(calls, other) ==> NextWriteSafe(other)) <==> NoneSkips(calls)
  {
    forall other | SameShape(calls, other) ensures NextWriteSafe(other) <==> NoneSkips(calls) {
      PossibleSame(calls, other);
      EndedSame(calls, other);
      ShapeDecides(calls, other);
      SafeIff(other);
    }
    assert SameShape(calls, calls);
  }

  /**
   When the caller may go on writing, whatever bytes its calls carry. After any
   calls that a run has made, one more Write never makes Read return anything
   but a prefix of the bytes passed exactly if no call skipped a segment, or, if
   the stream has ended, nothing was delivered after a call that skipped one.
   */
  lemma NextWriteShapeIff(capacity: nat, past: seq<Event>)
    requires var x := Exec(Initial(capacity), past);
             Idle(x) && (Ended(x.calls) || |x.net.snd.log| < U32 - 1)
    ensures var calls := Exec(Initial(capacity), past).calls;
            (forall other :: SameShape(calls, other) ==> NextWriteSafe(other)) <==>
              if Ended(calls) then SkipsHarmless(calls) else NoneSkips(calls)
  {
    var x := Exec(Initial(capacity), past);
    ReadIsPrefixOfTaken(capacity, past);
    ReachedIsPossible(x);
    if Ended(x.calls) {
      EndedShapeIff(x.calls);
    } else {
      AliveShapeIff(x.calls);
    }
  }
}
