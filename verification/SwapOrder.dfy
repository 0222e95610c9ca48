/**
 The order of buffered writes: what a swap replays are the writes buffered
 since the buffer was last emptied, in the order in which they started.
 */
module SwapOrder {
  import opened Base
  import opened VirtualConnection

  /**
   The writes that found a swap under way, in the order of their starts, since
   a swap last began or ended.
   */
  function Waiting(conn: nat, es: seq<Event>): seq<nat> {
    if es == [] then []
    else
      var init, e := es[..|es| - 1], es[|es| - 1];
      var x := Exec(conn, init);
      if !Enabled(x, e) then Waiting(conn, init)
      else match e
           case WriteStarts(id) => if x.w.swapping then Waiting(conn, init) + [id] else Waiting(conn, init)
           case SwapBegins(_) => []
           case SwapEnds(_) => []
           case _ => Waiting(conn, init)
  }

  /** The writes that waited when swap `k` ended. */
  function Taken(conn: nat, es: seq<Event>, k: nat): seq<nat> {
    if es == [] then []
    else
      var init, e := es[..|es| - 1], es[|es| - 1];
      if e == SwapEnds(k) && Enabled(Exec(conn, init), e) then Waiting(conn, init) else Taken(conn, init, k)
  }

  /** What the replay steps of swap `k` put on a connection, as (connection, write), in order. */
  function LandedBy(conn: nat, es: seq<Event>, k: nat): seq<(nat, nat)> {
    if es == [] then []
    else
      var init, e := es[..|es| - 1], es[|es| - 1];
      var x, y := Exec(conn, init), Exec(conn, es);
      if e == SwapReplays(k) && |y.landed| > |x.landed| then LandedBy(conn, init, k) + y.landed[|x.landed|..]
      else LandedBy(conn, init, k)
  }

  /** The buffer holds the waiting writes, in order, in every state of every run. */
  lemma {:induction false} BufferInOrder(conn: nat, es: seq<Event>)
    ensures Exec(conn, es).w.swapBuf == Waiting(conn, es)
  {
    if es != [] {
      BufferInOrder(conn, es[..|es| - 1]);
    }
  }

  /** Where swap `k` is: not yet at its end, replaying, or done. */
  ghost predicate ReplayTold(x: State, k: nat, taken: seq<nat>, landed: seq<(nat, nat)>) {
    k < |x.swappers| &&
    match x.swappers[k]
    case Began(_) => taken == [] && landed == []
    case Installed(_) => taken == [] && landed == []
    case Replaying(conn, rest) => Ids(landed) + rest == taken && OnConn(landed, conn)
    case Done => Ids(landed) == taken
  }

  ghost predicate OnConn(landed: seq<(nat, nat)>, conn: nat) {
    forall i :: 0 <= i < |landed| ==> landed[i].0 == conn
  }

  ghost predicate NotYet(x: State, k: nat, taken: seq<nat>, landed: seq<(nat, nat)>) {
    k >= |x.swappers| && taken == [] && landed == []
  }

  lemma EndTold(x: State, k: nat)
    requires Enabled(x, SwapEnds(k))
    ensures ReplayTold(Step(x, SwapEnds(k)), k, x.w.swapBuf, [])
  {
    assert Ids([]) + x.w.swapBuf == x.w.swapBuf;
  }

  lemma OneReplayTold(x: State, k: nat, taken: seq<nat>, landed: seq<(nat, nat)>)
    requires Enabled(x, SwapReplays(k)) && ReplayTold(x, k, taken, landed)
    ensures var y := Step(x, SwapReplays(k));
            && |y.landed| >= |x.landed|
            && ReplayTold(y, k, taken, landed + y.landed[|x.landed|..])
  {
    var s := x.swappers[k];
    var y := Step(x, SwapReplays(k));
    if s.rest == [] {
      assert landed + y.landed[|x.landed|..] == landed;
    } else {
      assert y.landed[|x.landed|..] == [(s.conn, s.rest[0])];
      IdsAppend(landed, s.conn, s.rest[0]);
      assert Ids(landed) + [s.rest[0]] + s.rest[1..] == Ids(landed) + s.rest;
    }
  }

  lemma OthersTold(x: State, e: Event, k: nat, taken: seq<nat>, landed: seq<(nat, nat)>)
    requires e != SwapEnds(k) && e != SwapReplays(k)
    ensures ReplayTold(x, k, taken, landed) ==> ReplayTold(Step(x, e), k, taken, landed)
    ensures NotYet(x, k, taken, landed) ==>
              NotYet(Step(x, e), k, taken, landed) || ReplayTold(Step(x, e), k, taken, landed)
  {
  }

  lemma {:induction false} ReplayToldAlways(conn: nat, es: seq<Event>, k: nat)
    ensures var x := Exec(conn, es);
            NotYet(x, k, Taken(conn, es, k), LandedBy(conn, es, k))
            || ReplayTold(x, k, Taken(conn, es, k), LandedBy(conn, es, k))
  {
    if es != [] {
      var init, e := es[..|es| - 1], es[|es| - 1];
      var x := Exec(conn, init);
      ReplayToldAlways(conn, init, k);
      if e == SwapEnds(k) && Enabled(x, e) {
        BufferInOrder(conn, init);
        EndTold(x, k);
      } else if e == SwapReplays(k) && Enabled(x, e) {
        OneReplayTold(x, k, Taken(conn, init, k), LandedBy(conn, init, k));
        var y := Exec(conn, es);
        assert |y.landed| == |x.landed| ==> y.landed[|x.landed|..] == [];
      } else if e != SwapEnds(k) && e != SwapReplays(k) {
        OthersTold(x, e, k, Taken(conn, init, k), LandedBy(conn, init, k));
      }
    }
  }

  /**
   Replay keeps the order. In every interleaving of writers and swaps, what a
   swap has put on a connection so far is a prefix of the writes that waited
   when it ended, in the order in which they started, and all of them once it is
   done; while it replays they all went to its own connection.
   */
  lemma ReplayKeepsOrder(conn: nat, es: seq<Event>, k: nat)
    requires k < |Exec(conn, es).swappers|
    ensures var x := Exec(conn, es);
            var landed, taken := LandedBy(conn, es, k), Taken(conn, es, k);
            && Ids(landed) <= taken
            && (x.swappers[k].Replaying? ==>
                  Ids(landed) + x.swappers[k].rest == taken
                  && forall l <- landed :: l.0 == x.swappers[k].conn)
            && (x.swappers[k].Done? ==> Ids(landed) == taken)
  {
    ReplayToldAlways(conn, es, k);
  }

  // ---- uninterrupted ------------------------------------------------------------------

  /** One Write after the other, as far as the wrapper is concerned. */
  function GateAll<T>(w: Wrapper<T>, datas: seq<T>): Wrapper<T> {
    if datas == [] then w else Gate(GateAll(w, datas[..|datas| - 1]), datas[|datas| - 1]).0
  }

  /** Any list of writes made while a swap is under way comes out of the buffer as that list. */
  lemma {:induction false} SwapHandsOverInOrder<T>(w: Wrapper<T>, conn: nat, datas: seq<T>)
    ensures var (after, buffered) := EndSwap(GateAll(Install(BeginSwap(w), conn), datas));
            buffered == datas && after == Wrapper(conn, false, [])
    ensures GateAll(Install(BeginSwap(w), conn), datas) == Wrapper(conn, true, datas)
  {
    if datas != [] {
      SwapHandsOverInOrder(w, conn, datas[..|datas| - 1]);
      assert datas[..|datas| - 1] + [datas[|datas| - 1]] == datas;
    }
  }

  /** Any list of writes made while no swap is under way leaves the wrapper as it is. */
  lemma {:induction false} NothingBuffered<T>(w: Wrapper<T>, datas: seq<T>)
    requires !w.swapping
    ensures GateAll(w, datas) == w
  {
    if datas != [] {
      NothingBuffered(w, datas[..|datas| - 1]);
    }
  }
}
