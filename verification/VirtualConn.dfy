/**
 The swap-buffering connection wrapper of virtual_conn.go. Each lock-protected
 region is one function on `Wrapper`; writers and the swapper interleave
 between regions. Writes are told apart by a number of their own.
 */
module VirtualConnection {
  import opened Base

  /** `conn` names the current underlying connection. */
  datatype Wrapper<T> = Wrapper(conn: nat, swapping: bool, swapBuf: seq<T>)

  /** Write's first region: buffer during a swap. */
  function Gate<T>(w: Wrapper<T>, data: T): (Wrapper<T>, bool) {
    if w.swapping then (w.(swapBuf := w.swapBuf + [data]), true) else (w, false)
  }

  function BeginSwap<T>(w: Wrapper<T>): Wrapper<T> {
    w.(swapping := true, swapBuf := [])
  }

  function Install<T>(w: Wrapper<T>, conn: nat): Wrapper<T> {
    w.(conn := conn)
  }

  /** The swap's last region: the buffer is taken out for replay. */
  function EndSwap<T>(w: Wrapper<T>): (Wrapper<T>, seq<T>) {
    (w.(swapping := false, swapBuf := []), w.swapBuf)
  }

  // ---- interleaved runs -------------------------------------------------------

  /** Where a Write call is: past the gate, holding a connection, or returned. */
  datatype Phase = Gated | Holding(conn: nat) | Accepted

  /** Where a SwapConnectionSeamless call is; `rest` is what it still has to replay. */
  datatype Swapper = Began(conn: nat) | Installed(conn: nat) | Replaying(conn: nat, rest: seq<nat>) | Done

  /**
   `landed` are the underlying writes in the order they happened, with their
   connection; `lost` are the writes a later swap threw out of the buffer.
   */
  datatype State = State(
    w: Wrapper<nat>, writers: map<nat, Phase>, swappers: seq<Swapper>, landed: seq<(nat, nat)>, lost: seq<nat>)

  function Initial(conn: nat): State {
    State(Wrapper(conn, false, []), map[], [], [], [])
  }

  /** A swap may begin at any time, also while others are under way; `k` is its number. */
  datatype Event =
    | WriteStarts(id: nat)
    | WritePicks(id: nat)
    | WriteLands(id: nat)
    | SwapBegins(conn: nat)
    | SwapInstalls(k: nat)
    | SwapEnds(k: nat)
    | SwapReplays(k: nat)

  predicate Enabled(x: State, e: Event) {
    match e
    case WriteStarts(id) => id !in x.writers
    case WritePicks(id) => id in x.writers && x.writers[id].Gated?
    case WriteLands(id) => id in x.writers && x.writers[id].Holding?
    case SwapBegins(_) => true
    case SwapInstalls(k) => k < |x.swappers| && x.swappers[k].Began?
    case SwapEnds(k) => k < |x.swappers| && x.swappers[k].Installed?
    case SwapReplays(k) => k < |x.swappers| && x.swappers[k].Replaying?
  }

  /** One round of the replay loop, or its end. */
  function Replayed(x: State, k: nat): State
    requires k < |x.swappers| && x.swappers[k].Replaying?
  {
    var s := x.swappers[k];
    if s.rest == [] then x.(swappers := x.swappers[k := Done])
    else x.(landed := x.landed + [(s.conn, s.rest[0])], swappers := x.swappers[k := Replaying(s.conn, s.rest[1..])])
  }

  function Step(x: State, e: Event): State {
    if !Enabled(x, e) then x
    else match e
         case WriteStarts(id) =>
           var (w, buffered) := Gate(x.w, id);
           x.(w := w, writers := x.writers[id := if buffered then Accepted else Gated])
         case WritePicks(id) => x.(writers := x.writers[id := Holding(x.w.conn)])
         case WriteLands(id) =>
           x.(landed := x.landed + [(x.writers[id].conn, id)], writers := x.writers[id := Accepted])
         case SwapBegins(conn) =>
           x.(w := BeginSwap(x.w), swappers := x.swappers + [Began(conn)], lost := x.lost + x.w.swapBuf)
         case SwapInstalls(k) =>
           var conn := x.swappers[k].conn;
           x.(w := Install(x.w, conn), swappers := x.swappers[k := Installed(conn)])
         case SwapEnds(k) =>
           var (w, buffered) := EndSwap(x.w);
           x.(w := w, swappers := x.swappers[k := Replaying(x.swappers[k].conn, buffered)])
         case SwapReplays(k) => Replayed(x, k)
  }

  function Exec(conn: nat, es: seq<Event>): State {
    if es == [] then Initial(conn) else Step(Exec(conn, es[..|es| - 1]), es[|es| - 1])
  }

  /** Numbers of the landed writes. */
  function Ids(landed: seq<(nat, nat)>): seq<nat> {
    seq(|landed|, i requires 0 <= i < |landed| => landed[i].1)
  }

  /** Writes taken out of the buffer and not yet replayed. */
  function Rest(s: Swapper): multiset<nat> {
    if s.Replaying? then multiset(s.rest) else multiset{}
  }

  function Rests(ss: seq<Swapper>): multiset<nat> {
    if ss == [] then multiset{} else Rests(ss[..|ss| - 1]) + Rest(ss[|ss| - 1])
  }

  ghost function AcceptedIds(x: State): set<nat> {
    set id | id in x.writers && x.writers[id].Accepted?
  }

  /** Where the accepted writes are: on a connection, in the buffer, or waiting for their replay. */
  ghost function Placed(x: State): multiset<nat> {
    multiset(Ids(x.landed)) + multiset(x.w.swapBuf) + Rests(x.swappers)
  }

  /** Every accepted write is in exactly one place, once, and no other write is anywhere. */
  ghost predicate Conserved(x: State) {
    Placed(x) == multiset(AcceptedIds(x))
  }

  /** What every run keeps: only writes thrown out of the buffer are missing. */
  ghost predicate Accounted(x: State) {
    Placed(x) + multiset(x.lost) == multiset(AcceptedIds(x))
  }

  /** The buffer is in use only while some swap has begun and not ended. */
  ghost predicate BufferInUse(x: State) {
    && (x.w.swapBuf != [] ==> x.w.swapping)
    && (x.w.swapping ==> exists k :: 0 <= k < |x.swappers| && (x.swappers[k].Began? || x.swappers[k].Installed?))
  }

  ghost predicate NoSwapUnderWay(x: State) {
    forall k :: 0 <= k < |x.swappers| ==> x.swappers[k].Done?
  }

  lemma IdsAppend(landed: seq<(nat, nat)>, conn: nat, id: nat)
    ensures Ids(landed + [(conn, id)]) == Ids(landed) + [id]
  {
  }

  lemma MultisetAdd(s: set<nat>, id: nat)
    requires id !in s
    ensures multiset(s + {id}) == multiset(s) + multiset{id}
  {
  }

  lemma RestsAppend(ss: seq<Swapper>, s: Swapper)
    ensures Rests(ss + [s]) == Rests(ss) + Rest(s)
  {
    assert (ss + [s])[..|ss|] == ss;
  }

  lemma {:induction false} RestsUpdate(ss: seq<Swapper>, k: nat, s: Swapper)
    requires k < |ss|
    ensures Rests(ss[k := s]) + Rest(ss[k]) == Rests(ss) + Rest(s)
  {
    var n := |ss| - 1;
    if k < n {
      RestsUpdate(ss[..n], k, s);
      assert ss[k := s][..n] == ss[..n][k := s];
      AddBoth(Rests(ss[..n][k := s]), Rest(ss[k]), Rests(ss[..n]), Rest(s), Rest(ss[n]));
    } else {
      assert ss[k := s][..n] == ss[..n];
      Exchange(Rests(ss[..n]), Rest(s), Rest(ss[k]));
    }
  }

  lemma AddBoth(a: multiset<nat>, r: multiset<nat>, b: multiset<nat>, s: multiset<nat>, more: multiset<nat>)
    requires a + r == b + s
    ensures (a + more) + r == (b + more) + s
  {
    assert (a + more) + r == (a + r) + more;
    assert (b + more) + s == (b + s) + more;
  }

  lemma Exchange(a: multiset<nat>, r: multiset<nat>, s: multiset<nat>)
    ensures (a + r) + s == (a + s) + r
  {
  }

  lemma Cancel(a: multiset<nat>, b: multiset<nat>, more: multiset<nat>)
    requires a + more == b + more
    ensures a == b
  {
    forall id ensures a[id] == b[id] {
      assert (a + more)[id] == (b + more)[id];
    }
  }

  lemma {:induction false} NoRests(ss: seq<Swapper>)
    requires forall k :: 0 <= k < |ss| ==> ss[k].Done?
    ensures Rests(ss) == multiset{}
  {
    if ss != [] {
      NoRests(ss[..|ss| - 1]);
    }
  }

  lemma StartKeepsAccounted(x: State, id: nat)
    requires Accounted(x) && id !in x.writers
    ensures Accounted(Step(x, WriteStarts(id)))
  {
    var y := Step(x, WriteStarts(id));
    if x.w.swapping {
      assert AcceptedIds(y) == AcceptedIds(x) + {id};
      MultisetAdd(AcceptedIds(x), id);
      assert multiset(y.w.swapBuf) == multiset(x.w.swapBuf) + multiset{id};
    } else {
      assert AcceptedIds(y) == AcceptedIds(x);
    }
  }

  lemma LandKeepsAccounted(x: State, id: nat)
    requires Accounted(x) && id in x.writers && x.writers[id].Holding?
    ensures Accounted(Step(x, WriteLands(id)))
  {
    var y := Step(x, WriteLands(id));
    IdsAppend(x.landed, x.writers[id].conn, id);
    assert AcceptedIds(y) == AcceptedIds(x) + {id};
    MultisetAdd(AcceptedIds(x), id);
    assert multiset(Ids(y.landed)) == multiset(Ids(x.landed)) + multiset{id};
  }

  lemma RestsReplayed(ss: seq<Swapper>, k: nat)
    requires k < |ss| && ss[k].Replaying? && ss[k].rest != []
    ensures Rests(ss[k := Replaying(ss[k].conn, ss[k].rest[1..])]) + multiset{ss[k].rest[0]} == Rests(ss)
  {
    var rest, next := ss[k].rest, Replaying(ss[k].conn, ss[k].rest[1..]);
    var first, others, after := multiset{rest[0]}, multiset(rest[1..]), Rests(ss[k := next]);
    assert rest == [rest[0]] + rest[1..];
    assert multiset(rest) == first + others;
    RestsUpdate(ss, k, next);
    assert (after + first) + others == after + multiset(rest);
    Cancel(after + first, Rests(ss), others);
  }

  lemma Landed(landed: multiset<nat>, first: multiset<nat>, buffered: multiset<nat>, rests: multiset<nat>)
    ensures (landed + first) + buffered + rests == landed + buffered + (rests + first)
  {
  }

  lemma ReplayKeepsAccounted(x: State, k: nat)
    requires Accounted(x) && k < |x.swappers| && x.swappers[k].Replaying?
    ensures Accounted(Replayed(x, k))
  {
    var y, s := Replayed(x, k), x.swappers[k];
    assert AcceptedIds(y) == AcceptedIds(x);
    if s.rest == [] {
      RestsUpdate(x.swappers, k, Done);
      Cancel(Rests(y.swappers), Rests(x.swappers), multiset{});
    } else {
      RestsReplayed(x.swappers, k);
      IdsAppend(x.landed, s.conn, s.rest[0]);
      assert multiset(Ids(y.landed)) == multiset(Ids(x.landed)) + multiset{s.rest[0]};
      Landed(multiset(Ids(x.landed)), multiset{s.rest[0]}, multiset(x.w.swapBuf), Rests(y.swappers));
    }
  }

  lemma BeginKeepsAccounted(x: State, conn: nat)
    requires Accounted(x)
    ensures Accounted(Step(x, SwapBegins(conn)))
  {
    var y := Step(x, SwapBegins(conn));
    assert AcceptedIds(y) == AcceptedIds(x);
    RestsAppend(x.swappers, Began(conn));
    assert multiset(y.lost) == multiset(x.lost) + multiset(x.w.swapBuf);
    assert Rests(y.swappers) == Rests(x.swappers);
    ThrownOut(multiset(Ids(x.landed)), multiset(x.w.swapBuf), Rests(x.swappers), multiset(x.lost));
  }

  lemma ThrownOut(landed: multiset<nat>, buffered: multiset<nat>, rests: multiset<nat>, lost: multiset<nat>)
    ensures (landed + multiset{} + rests) + (lost + buffered) == (landed + buffered + rests) + lost
  {
  }

  lemma InstallKeepsAccounted(x: State, k: nat)
    requires Accounted(x) && Enabled(x, SwapInstalls(k))
    ensures Accounted(Step(x, SwapInstalls(k)))
  {
    var y := Step(x, SwapInstalls(k));
    assert AcceptedIds(y) == AcceptedIds(x);
    RestsUpdate(x.swappers, k, y.swappers[k]);
    Cancel(Rests(y.swappers), Rests(x.swappers), multiset{});
  }

  lemma EndKeepsAccounted(x: State, k: nat)
    requires Accounted(x) && Enabled(x, SwapEnds(k))
    ensures Accounted(Step(x, SwapEnds(k)))
  {
    var y := Step(x, SwapEnds(k));
    assert AcceptedIds(y) == AcceptedIds(x);
    RestsUpdate(x.swappers, k, y.swappers[k]);
    assert Rests(y.swappers) == Rests(x.swappers) + multiset(x.w.swapBuf);
    assert Placed(y) == Placed(x);
  }

  lemma StepKeepsAccounted(x: State, e: Event)
    requires Accounted(x)
    ensures Accounted(Step(x, e))
  {
    if Enabled(x, e) {
      match e
      case WriteStarts(id) => StartKeepsAccounted(x, id);
      case WritePicks(id) => assert AcceptedIds(Step(x, e)) == AcceptedIds(x);
      case WriteLands(id) => LandKeepsAccounted(x, id);
      case SwapBegins(conn) => BeginKeepsAccounted(x, conn);
      case SwapInstalls(k) => InstallKeepsAccounted(x, k);
      case SwapEnds(k) => EndKeepsAccounted(x, k);
      case SwapReplays(k) => ReplayKeepsAccounted(x, k);
    }
  }

  lemma StepKeepsBufferInUse(x: State, e: Event)
    requires BufferInUse(x)
    ensures BufferInUse(Step(x, e))
  {
    var y := Step(x, e);
    if Enabled(x, e) && y.w.swapping {
      if e.SwapBegins? {
        assert y.swappers[|x.swappers|].Began?;
      } else {
        var k :| 0 <= k < |x.swappers| && (x.swappers[k].Began? || x.swappers[k].Installed?);
        assert y.swappers[k].Began? || y.swappers[k].Installed?;
      }
    }
  }

  lemma {:induction false} RunKeepsAccounted(conn: nat, es: seq<Event>)
    ensures Accounted(Exec(conn, es)) && BufferInUse(Exec(conn, es))
  {
    if es == [] {
      assert AcceptedIds(Initial(conn)) == {};
    } else {
      RunKeepsAccounted(conn, es[..|es| - 1]);
      StepKeepsAccounted(Exec(conn, es[..|es| - 1]), es[|es| - 1]);
      StepKeepsBufferInUse(Exec(conn, es[..|es| - 1]), es[|es| - 1]);
    }
  }

  /** The test a caller could make before each swap: no swap begins while the buffer holds a write. */
  ghost predicate SwapsFindBufferEmpty(conn: nat, es: seq<Event>) {
    forall i :: 0 <= i < |es| && es[i].SwapBegins? ==> Exec(conn, es[..i]).w.swapBuf == []
  }

  lemma {:induction false} LostIff(conn: nat, es: seq<Event>)
    ensures Exec(conn, es).lost == [] <==> SwapsFindBufferEmpty(conn, es)
  {
    if es != [] {
      var n := |es| - 1;
      LostIff(conn, es[..n]);
      assert SwapsFindBufferEmpty(conn, es) <==>
             SwapsFindBufferEmpty(conn, es[..n]) && (es[n].SwapBegins? ==> Exec(conn, es[..n]).w.swapBuf == []) by {
        assert forall i :: 0 <= i < n ==> es[..n][..i] == es[..i] && es[..n][i] == es[i];
      }
    }
  }

  /**
   For any number of writers and any number of swaps, also overlapping ones,
   with underlying writes that succeed: every accepted write is in exactly one
   of the connections, the swap buffer and the replay lists exactly when no
   swap began on a buffer that held a write. What is missing otherwise is what
   those swaps threw out. With no swap under way the buffer is empty, and each
   accepted write that was not thrown out reached a connection exactly once.
   */
  lemma SwapConservesWrites(conn: nat, es: seq<Event>)
    ensures var x := Exec(conn, es);
            && (Conserved(x) <==> SwapsFindBufferEmpty(conn, es))
            && Accounted(x)
            && (NoSwapUnderWay(x) ==>
                  x.w.swapBuf == [] && multiset(Ids(x.landed)) + multiset(x.lost) == multiset(AcceptedIds(x)))
  {
    var x := Exec(conn, es);
    RunKeepsAccounted(conn, es);
    LostIff(conn, es);
    if x.lost != [] {
      assert multiset(x.lost)[x.lost[0]] > 0;
      assert (Placed(x) + multiset(x.lost))[x.lost[0]] > Placed(x)[x.lost[0]];
    }
    if NoSwapUnderWay(x) {
      NoRests(x.swappers);
    }
  }

  /** Two swaps that overlap while a write is buffered. */
  function LosingRun(id: nat): seq<Event> {
    [SwapBegins(1), WriteStarts(id), SwapBegins(2), SwapInstalls(0), SwapInstalls(1), SwapEnds(0), SwapEnds(1),
     SwapReplays(0), SwapReplays(1)]
  }

  /** When both swaps are done, the accepted write is nowhere. */
  lemma OverlappingSwapsLose(id: nat)
    ensures var x := Exec(0, LosingRun(id));
            && NoSwapUnderWay(x) && AcceptedIds(x) == {id} && x.lost == [id] && x.landed == [] && x.w.swapBuf == []
  {
    var es := LosingRun(id);
    LosingEnds(id);
    ExecTake(0, es, 7);
    assert Exec(0, es[..8])
        == State(Wrapper(2, false, []), map[id := Accepted], [Done, Replaying(2, [])], [], [id]);
    ExecTake(0, es, 8);
    assert es[..9] == es;
  }

  lemma LosingEnds(id: nat)
    ensures Exec(0, LosingRun(id)[..7])
         == State(Wrapper(2, false, []), map[id := Accepted], [Replaying(1, []), Replaying(2, [])], [], [id])
  {
    var es, m := LosingRun(id), map[id := Accepted];
    LosingBegins(id);
    ExecTake(0, es, 4);
    assert Exec(0, es[..5]) == State(Wrapper(2, true, []), m, [Installed(1), Installed(2)], [], [id]);
    ExecTake(0, es, 5);
    assert Exec(0, es[..6]) == State(Wrapper(2, false, []), m, [Replaying(1, []), Installed(2)], [], [id]);
    ExecTake(0, es, 6);
  }

  lemma LosingBegins(id: nat)
    ensures Exec(0, LosingRun(id)[..4])
         == State(Wrapper(1, true, []), map[id := Accepted], [Installed(1), Began(2)], [], [id])
  {
    var es := LosingRun(id);
    ExecTake(0, es, 0);
    assert Exec(0, es[..1]) == State(Wrapper(0, true, []), map[], [Began(1)], [], []);
    ExecTake(0, es, 1);
    assert Exec(0, es[..2]) == State(Wrapper(0, true, [id]), map[id := Accepted], [Began(1)], [], []);
    ExecTake(0, es, 2);
    assert Exec(0, es[..3]) == State(Wrapper(0, true, []), map[id := Accepted], [Began(1), Began(2)], [], [id]);
    ExecTake(0, es, 3);
  }

  lemma ExecTake(conn: nat, es: seq<Event>, k: nat)
    requires k < |es|
    ensures Exec(conn, es[..k + 1]) == Step(Exec(conn, es[..k]), es[k])
    ensures k == 0 ==> Exec(conn, es[..k]) == Initial(conn)
  {
    assert es[..k + 1][..k] == es[..k];
  }

  // ---- order --------------------------------------------------------------------

  /** The write `later` starts now and runs to its end without interference. */
  function Written(x: State, later: nat): State {
    Step(Step(Step(x, WriteStarts(later)), WritePicks(later)), WriteLands(later))
  }

  /** A write that had returned before `later` started is still on no connection. */
  ghost predicate Overtaken(x: State, later: nat) {
    && later in Ids(Written(x, later).landed)
    && exists id :: id in AcceptedIds(x) && id !in Ids(Written(x, later).landed)
  }

  /**
   When order is kept: in any reached state, a write that starts now lands
   before an earlier, accepted one exactly if no swap is buffering and some
   replay is unfinished (or an earlier write was thrown out and never lands).
   While a swap is buffering, the write waits in the buffer and overtakes
   nothing.
   */
  lemma WriterOvertakesIff(conn: nat, es: seq<Event>, later: nat)
    requires later !in Exec(conn, es).writers
    ensures var x := Exec(conn, es);
            Overtaken(x, later) <==>
              !x.w.swapping && (Rests(x.swappers) != multiset{} || !SwapsFindBufferEmpty(conn, es))
  {
    var x := Exec(conn, es);
    RunKeepsAccounted(conn, es);
    LostIff(conn, es);
    var y := Written(x, later);
    if x.w.swapping {
      assert y.landed == x.landed;
      LandedWereAccepted(x, later);
    } else {
      IdsAppend(x.landed, x.w.conn, later);
      assert y.landed == x.landed + [(x.w.conn, later)];
      MissingAre(x);
      if x.lost != [] {
        assert multiset(x.lost)[x.lost[0]] > 0;
      }
    }
  }

  /** A number that no write has used is on no connection. */
  lemma LandedWereAccepted(x: State, id: nat)
    requires Accounted(x) && id !in x.writers
    ensures id !in Ids(x.landed)
  {
    assert multiset(AcceptedIds(x))[id] == 0;
    assert multiset(Ids(x.landed))[id] == 0;
  }

  /** With an empty buffer, the accepted writes that have not landed are those to be replayed and those thrown out. */
  lemma MissingAre(x: State)
    requires Accounted(x) && x.w.swapBuf == []
    ensures forall id :: id in AcceptedIds(x) && id !in Ids(x.landed) ==> id in Rests(x.swappers) || id in x.lost
    ensures forall id :: id in Rests(x.swappers) || id in multiset(x.lost) ==>
                           id in AcceptedIds(x) && id !in Ids(x.landed)
  {
    var landed, rests, lost := multiset(Ids(x.landed)), Rests(x.swappers), multiset(x.lost);
    assert landed + rests + lost == multiset(AcceptedIds(x));
    forall id ensures landed[id] + rests[id] + lost[id] == multiset(AcceptedIds(x))[id] {}
  }

  /** A swap with write 7 in its buffer, up to the point where 7 waits for its replay. */
  function BufferedSwap(): seq<Event> {
    [SwapBegins(1), WriteStarts(7), SwapInstalls(0), SwapEnds(0)]
  }

  lemma BufferedSwapReached()
    ensures Exec(0, BufferedSwap()) == State(Wrapper(1, false, []), map[7 := Accepted], [Replaying(1, [7])], [], [])
  {
    var es := BufferedSwap();
    ExecTake(0, es, 0);
    assert Exec(0, es[..1]) == State(Wrapper(0, true, []), map[], [Began(1)], [], []);
    ExecTake(0, es, 1);
    assert Exec(0, es[..2]) == State(Wrapper(0, true, [7]), map[7 := Accepted], [Began(1)], [], []);
    ExecTake(0, es, 2);
    assert Exec(0, es[..3]) == State(Wrapper(1, true, [7]), map[7 := Accepted], [Installed(1)], [], []);
    ExecTake(0, es, 3);
    assert es[..4] == es;
  }

  /** A reached state in which a write overtakes: 8 starts after 7 had returned, and lands before it. */
  lemma OvertakingRun()
    ensures var x := Exec(0, BufferedSwap());
            && SwapsFindBufferEmpty(0, BufferedSwap()) && Overtaken(x, 8)
            && Step(Written(x, 8), SwapReplays(0)).landed == [(1, 8), (1, 7)]
  {
    var x := Exec(0, BufferedSwap());
    BufferedSwapReached();
    LostIff(0, BufferedSwap());
    assert Rests(x.swappers) != multiset{} by {
      RestsAppend([], x.swappers[0]);
      assert [] + [x.swappers[0]] == x.swappers;
      assert multiset([7])[7] == 1;
      assert Rests(x.swappers)[7] > 0;
    }
    WriterOvertakesIff(0, BufferedSwap(), 8);
    assert Written(x, 8).landed == [(1, 8)] && Written(x, 8).swappers == [Replaying(1, [7])];
  }

  // ---- the objects --------------------------------------------------------------

  class NetConn<T> {
    const id: nat
    var log: seq<T>

    constructor (id: nat)
      ensures this.id == id && log == []
    {
      this.id, log := id, [];
    }

    method Write(data: T)
      modifies this
      ensures log == old(log) + [data]
    {
      log := log + [data];
    }
  }

  class VirtualConn<T> {
    var conn: NetConn<T>
    var swapping: bool
    var swapBuf: seq<T>

    function View(): Wrapper<T>
      reads this
    {
      Wrapper(conn.id, swapping, swapBuf)
    }

    constructor (conn: NetConn<T>)
      ensures this.conn == conn && View() == Wrapper(conn.id, false, [])
    {
      this.conn, swapping, swapBuf := conn, false, [];
    }

    method EnterWrite(data: T) returns (buffered: bool)
      modifies this`swapBuf
      ensures (View(), buffered) == Gate(old(View()), data)
      ensures buffered == swapping && swapBuf == if swapping then old(swapBuf) + [data] else old(swapBuf)
    {
      if swapping {
        swapBuf := swapBuf + [data];
        return true;
      }
      buffered := false;
    }

    /** Write without interference: the data goes to the buffer or to the current connection. */
    method Write(data: T)
      modifies this`swapBuf, conn
      ensures conn == old(conn) && View() == Gate(old(View()), data).0
      ensures conn.log == if old(swapping) then old(conn.log) else old(conn.log) + [data]
      ensures swapBuf == if swapping then old(swapBuf) + [data] else old(swapBuf)
    {
      var buffered := EnterWrite(data);
      if !buffered {
        conn.Write(data);
      }
    }

    method Begin()
      modifies this`swapping, this`swapBuf
      ensures View() == BeginSwap(old(View())) && swapping && swapBuf == [] && conn == old(conn)
    {
      swapping := true;
      swapBuf := [];
    }

    method SetConn(newConn: NetConn<T>)
      modifies this`conn
      ensures conn == newConn && View() == Install(old(View()), newConn.id)
    {
      conn := newConn;
    }

    method End() returns (buffered: seq<T>)
      modifies this`swapping, this`swapBuf
      ensures (View(), buffered) == EndSwap(old(View()))
      ensures buffered == old(swapBuf) && !swapping && swapBuf == [] && conn == old(conn)
    {
      swapping := false;
      buffered := swapBuf;
      swapBuf := [];
    }

    /** `failing` is the position of the first underlying write that fails; the loop stops there. */
    static method Replay(newConn: NetConn<T>, buffered: seq<T>, failing: nat) returns (ok: bool)
      modifies newConn
      ensures newConn.log == old(newConn.log) + buffered[..Min(failing, |buffered|)]
      ensures ok <==> failing >= |buffered|
    {
      var i := 0;
      while i < |buffered|
        invariant 0 <= i <= |buffered| && i <= failing
        invariant newConn.log == old(newConn.log) + buffered[..i]
      {
        if i == failing {
          return false;
        }
        newConn.Write(buffered[i]);
        i := i + 1;
      }
      ok := true;
    }

    /** A swap without interference leaves an empty buffer and writes nothing. */
    method SwapConnectionSeamless(newConn: NetConn<T>) returns (ok: bool)
      modifies this, newConn
      ensures conn == newConn && !swapping && swapBuf == []
      ensures ok && newConn.log == old(newConn.log)
    {
      Begin();
      SetConn(newConn);
      var buffered := End();
      ok := Replay(newConn, buffered, |buffered|);
      assert buffered == [];
    }
  }
}
