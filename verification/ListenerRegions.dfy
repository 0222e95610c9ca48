/**
 Runs of the listener, region by region. The read loop handles one datagram at
 a time; each of its handlers takes the table locks one after the other and
 writes a connection's remoteAddr outside them. RemoveConnection runs on other
 goroutines, any number at once, and interleaves with the handlers.
 */
module ListenerRegions {
  import opened Base
  import opened Listening

  /** Where the read loop is. */
  datatype Handler =
    | Ready
    | Looked(addr: string, request: Request)              // the address was not in the table
    | Inserted(id: nat)                                   // a new connection is in `connections` only
    | Found(id: nat, addr: string)                        // the session to migrate was looked up
    | Addressed(id: nat, from: string, addr: string)      // remoteAddr is written, the table is not

  /** Where a RemoveConnection call is: it took the session out, read remoteAddr, or is done. */
  datatype Removal = Unlinked(id: nat) | Read(id: nat, addr: string) | Finished

  /** What the tables mean changes when a session is bound to an address or dropped. */
  datatype Change = BoundTo(session: string, addr: string) | Dropped(session: string)

  /**
   `raced` records that a removal took out a session while it was being
   migrated, `reused` an AUTH for a live session; `changes` is the history of
   the regions that complete a handler.
   */
  datatype State = State(
    t: Tables, handler: Handler, removals: map<nat, Removal>, raced: bool, reused: bool, changes: seq<Change>)

  const INITIAL := State(EMPTY, Ready, map[], false, false, [])

  /** One region each; `k` numbers the calls of RemoveConnection. */
  datatype Event =
    | Receives(addr: string, request: Request)
    | InsertsConnection
    | InsertsSession
    | FindsSession
    | WritesAddress
    | Rebinds
    | Unlinks(k: nat, session: string)
    | ReadsAddress(k: nat)
    | Unbinds(k: nat)

  predicate Enabled(x: State, e: Event) {
    match e
    case Receives(_, _) => x.handler.Ready?
    case InsertsConnection => x.handler.Looked? && x.handler.request.Auth?
    case InsertsSession => x.handler.Inserted? && x.handler.id < |x.t.conns|
    case FindsSession => x.handler.Looked? && x.handler.request.Migration?
    case WritesAddress => x.handler.Found? && x.handler.id < |x.t.conns|
    case Rebinds => x.handler.Addressed? && x.handler.id < |x.t.conns|
    case Unlinks(k, _) => k !in x.removals
    case ReadsAddress(k) => k in x.removals && x.removals[k].Unlinked? && x.removals[k].id < |x.t.conns|
    case Unbinds(k) => k in x.removals && x.removals[k].Read?
  }

  predicate Migrating(x: State, id: nat) {
    (x.handler.Found? || x.handler.Addressed?) && x.handler.id == id
  }

  /** A datagram from a known address goes to its connection; an unknown one is handled if it asks for something. */
  function OnReceive(x: State, addr: string, request: Request): State {
    if addr in x.t.connections || request.Unknown? then x else x.(handler := Looked(addr, request))
  }

  function OnInsertSession(x: State, id: nat): State
    requires id < |x.t.conns|
  {
    var c := x.t.conns[id];
    x.(t := SessionInserted(x.t, id), handler := Ready, changes := x.changes + [BoundTo(c.session, c.addr)],
       reused := x.reused || c.session in x.t.sessions)
  }

  function OnUnlink(x: State, k: nat, session: string): State {
    if session !in x.t.sessions then x.(removals := x.removals[k := Finished])
    else
      var id := x.t.sessions[session];
      x.(t := SessionDropped(x.t, session), removals := x.removals[k := Unlinked(id)],
         changes := x.changes + [Dropped(session)], raced := x.raced || Migrating(x, id))
  }

  function Step(x: State, e: Event): State {
    if !Enabled(x, e) then x
    else match e
         case Receives(addr, request) => OnReceive(x, addr, request)
         case InsertsConnection =>
           x.(t := ConnectionInserted(x.t, x.handler.addr, x.handler.request.session), handler := Inserted(|x.t.conns|))
         case InsertsSession => OnInsertSession(x, x.handler.id)
         case FindsSession =>
           var s := x.handler.request.session;
           x.(handler := if s in x.t.sessions then Found(x.t.sessions[s], x.handler.addr) else Ready)
         case WritesAddress =>
           var id := x.handler.id;
           x.(t := AddressSet(x.t, id, x.handler.addr), handler := Addressed(id, x.t.conns[id].addr, x.handler.addr))
         case Rebinds =>
           var h := x.handler;
           x.(t := Rebound(x.t, h.id, h.from, h.addr), handler := Ready,
              changes := x.changes + [BoundTo(x.t.conns[h.id].session, h.addr)])
         case Unlinks(k, session) => OnUnlink(x, k, session)
         case ReadsAddress(k) =>
           var id := x.removals[k].id;
           x.(removals := x.removals[k := Read(id, x.t.conns[id].addr)])
         case Unbinds(k) =>
           x.(t := Unbound(x.t, x.removals[k].addr), removals := x.removals[k := Finished])
  }

  function Exec(es: seq<Event>): State {
    if es == [] then INITIAL else Step(Exec(es[..|es| - 1]), es[|es| - 1])
  }

  /** A race or a reuse stays on record. */
  lemma FlagsStay(x: State, e: Event)
    ensures (x.raced ==> Step(x, e).raced) && (x.reused ==> Step(x, e).reused)
  {
  }

  // ---- what every region keeps --------------------------------------------------

  /** The address under which a connection is in the table, if it is there at all. */
  function Home(x: State, id: nat): string
    requires id < |x.t.conns|
  {
    if x.handler.Addressed? && x.handler.id == id then x.handler.from else x.t.conns[id].addr
  }

  ghost predicate AtHome(x: State, id: nat) {
    id < |x.t.conns| && Home(x, id) in x.t.connections && x.t.connections[Home(x, id)] == id
  }

  ghost predicate InFlight(x: State, k: nat, id: nat) {
    k in x.removals && !x.removals[k].Finished? && x.removals[k].id == id
  }

  /** Kept by every region, whatever interleaves. */
  ghost predicate Wired(x: State) {
    && (forall a <- x.t.connections :: x.t.connections[a] < |x.t.conns| && Home(x, x.t.connections[a]) == a)
    && (forall s <- x.t.sessions :: x.t.sessions[s] < |x.t.conns| && x.t.conns[x.t.sessions[s]].session == s)
    && (forall k: nat, id: nat :: InFlight(x, k, id) ==> id < |x.t.conns|)
    && HandlerWired(x)
  }

  ghost predicate HandlerWired(x: State) {
    match x.handler
    case Ready => true
    case Looked(addr, _) => addr !in x.t.connections
    case Inserted(id) => id < |x.t.conns| && !Live(x.t, id) && forall k: nat :: !InFlight(x, k, id)
    case Found(id, addr) => id < |x.t.conns| && addr !in x.t.connections
    case Addressed(id, _, addr) => id < |x.t.conns| && x.t.conns[id].addr == addr && addr !in x.t.connections
  }

  lemma HandlerKeepsWired(x: State, e: Event)
    requires Wired(x) && Enabled(x, e) && !e.Unlinks? && !e.ReadsAddress? && !e.Unbinds?
    ensures Wired(Step(x, e))
  {
    var y := Step(x, e);
    forall k: nat, id: nat | InFlight(y, k, id) ensures id < |y.t.conns| {
      assert InFlight(x, k, id);
    }
    if y.handler.Inserted? {
      forall k: nat ensures !InFlight(y, k, y.handler.id) {
        assert !InFlight(x, k, y.handler.id);
      }
    }
  }

  lemma RemovalKeepsWired(x: State, e: Event)
    requires Wired(x) && Enabled(x, e) && (e.Unlinks? || e.ReadsAddress? || e.Unbinds?)
    ensures Wired(Step(x, e))
  {
    var y := Step(x, e);
    forall k: nat, id: nat | InFlight(y, k, id) ensures id < |y.t.conns| {
      if !e.Unlinks? || e.k != k {
        assert InFlight(x, k, id);
      }
    }
    if y.handler.Inserted? {
      forall k: nat ensures !InFlight(y, k, y.handler.id) {
        assert !InFlight(x, k, y.handler.id);
      }
    }
  }

  lemma StepKeepsWired(x: State, e: Event)
    requires Wired(x)
    ensures Wired(Step(x, e))
  {
    if Enabled(x, e) {
      if e.Unlinks? || e.ReadsAddress? || e.Unbinds? {
        RemovalKeepsWired(x, e);
      } else {
        HandlerKeepsWired(x, e);
      }
    }
  }

  lemma {:induction false} RunKeepsWired(es: seq<Event>)
    ensures Wired(Exec(es))
  {
    if es != [] {
      RunKeepsWired(es[..|es| - 1]);
      StepKeepsWired(Exec(es[..|es| - 1]), es[|es| - 1]);
    }
  }

  // ---- runs in which no removal hits a migration ------------------------------------

  ghost predicate Homes(x: State) {
    forall s <- x.t.sessions :: AtHome(x, x.t.sessions[s])
  }

  /** A connection under removal is out of its session, still in the table, and not being migrated. */
  ghost predicate RemovalsOrderly(x: State) {
    && (forall k: nat, id: nat :: InFlight(x, k, id) ==> AtHome(x, id) && !Live(x.t, id) && !Migrating(x, id))
    && (forall k: nat, l: nat, id: nat :: InFlight(x, k, id) && InFlight(x, l, id) ==> k == l)
    && (forall k <- x.removals :: x.removals[k].Read? ==> AddressRead(x, x.removals[k]))
  }

  ghost predicate AddressRead(x: State, r: Removal) {
    r.Read? && r.id < |x.t.conns| && r.addr == x.t.conns[r.id].addr
  }

  /** A connection being inserted is in the table; one being migrated has its session. */
  ghost predicate HandlerOrderly(x: State) {
    match x.handler
    case Inserted(id) => AtHome(x, id)
    case Found(id, _) => Live(x.t, id)
    case Addressed(id, _, _) => Live(x.t, id)
    case _ => true
  }

  ghost predicate Orderly(x: State) {
    Homes(x) && RemovalsOrderly(x) && HandlerOrderly(x)
  }

  /** Where the live sessions are, a migration counting once its table update is done. */
  ghost function Located(x: State): map<string, string>
    requires Wired(x)
  {
    map s | s in x.t.sessions :: Home(x, x.t.sessions[s])
  }

  lemma InsertsConnectionOrderly(x: State)
    requires Wired(x) && Orderly(x) && Enabled(x, InsertsConnection)
    ensures Orderly(Step(x, InsertsConnection))
  {
    var y := Step(x, InsertsConnection);
    forall s | s in y.t.sessions ensures AtHome(y, y.t.sessions[s]) {
      assert AtHome(x, x.t.sessions[s]);
    }
    forall k: nat, id: nat | InFlight(y, k, id) ensures AtHome(y, id) && !Live(y.t, id) && !Migrating(y, id) {
      assert InFlight(x, k, id);
      assert AtHome(x, id);
    }
    forall k: nat, l: nat, id: nat | InFlight(y, k, id) && InFlight(y, l, id) ensures k == l {
      assert InFlight(x, k, id) && InFlight(x, l, id);
    }
  }

  /** A region that leaves the connection table and the removals alone. */
  lemma SameTableOrderly(x: State, y: State)
    requires Wired(x) && Orderly(x) && Wired(y) && HandlerOrderly(y)
    requires y.t.connections == x.t.connections && |y.t.conns| == |x.t.conns|
    requires forall id: nat :: id < |x.t.conns| ==>
               y.t.conns[id].session == x.t.conns[id].session && Home(y, id) == Home(x, id)
    requires y.removals == x.removals
    requires forall k: nat, id: nat :: InFlight(x, k, id) ==>
               !Live(y.t, id) && !Migrating(y, id) && y.t.conns[id] == x.t.conns[id]
    requires forall s <- y.t.sessions :: AtHome(x, y.t.sessions[s])
    ensures Orderly(y)
  {
    forall k: nat, id: nat | InFlight(y, k, id) ensures AtHome(y, id) && !Live(y.t, id) && !Migrating(y, id) {
      assert InFlight(x, k, id);
    }
    forall k: nat, l: nat, id: nat | InFlight(y, k, id) && InFlight(y, l, id) ensures k == l {
      assert InFlight(x, k, id) && InFlight(x, l, id);
    }
    forall k | k in y.removals && y.removals[k].Read? ensures AddressRead(y, y.removals[k]) {
      assert InFlight(x, k, x.removals[k].id);
    }
  }

  lemma HandlerKeepsOrderly(x: State, e: Event)
    requires Wired(x) && Orderly(x) && Enabled(x, e)
    requires e.Receives? || e.InsertsSession? || e.FindsSession? || e.WritesAddress?
    ensures Orderly(Step(x, e))
  {
    var y := Step(x, e);
    StepKeepsWired(x, e);
    forall s | s in y.t.sessions ensures AtHome(x, y.t.sessions[s]) {
      if s in x.t.sessions {
        assert AtHome(x, x.t.sessions[s]);
      }
    }
    forall k: nat, id: nat | InFlight(x, k, id)
      ensures !Live(y.t, id) && !Migrating(y, id) && y.t.conns[id] == x.t.conns[id]
    {
      assert AtHome(x, id) && !Live(x.t, id) && !Migrating(x, id);
    }
    SameTableOrderly(x, y);
  }

  lemma RebindsOrderly(x: State)
    requires Wired(x) && Orderly(x) && Enabled(x, Rebinds)
    ensures Orderly(Step(x, Rebinds))
  {
    var y := Step(x, Rebinds);
    var id := x.handler.id;
    assert AtHome(x, id);
    forall s | s in y.t.sessions ensures AtHome(y, y.t.sessions[s]) {
      assert AtHome(x, x.t.sessions[s]);
    }
    forall k: nat, j: nat | InFlight(y, k, j) ensures AtHome(y, j) && !Live(y.t, j) && !Migrating(y, j) {
      assert InFlight(x, k, j);
      assert AtHome(x, j);
    }
    forall k: nat, l: nat, j: nat | InFlight(y, k, j) && InFlight(y, l, j) ensures k == l {
      assert InFlight(x, k, j) && InFlight(x, l, j);
    }
  }

  lemma UnlinksOrderly(x: State, k: nat, session: string)
    requires Wired(x) && Orderly(x) && Enabled(x, Unlinks(k, session)) && !Step(x, Unlinks(k, session)).raced
    ensures Orderly(Step(x, Unlinks(k, session)))
  {
    var y := Step(x, Unlinks(k, session));
    forall s | s in y.t.sessions ensures AtHome(y, y.t.sessions[s]) {
      assert AtHome(x, x.t.sessions[s]);
    }
    forall l: nat, j: nat | InFlight(y, l, j) ensures AtHome(y, j) && !Live(y.t, j) && !Migrating(y, j) {
      if l == k {
        assert AtHome(x, x.t.sessions[session]);
      } else {
        assert InFlight(x, l, j);
      }
    }
    forall l: nat, m: nat, j: nat | InFlight(y, l, j) && InFlight(y, m, j) ensures l == m {
      assert l != k ==> InFlight(x, l, j);
      assert m != k ==> InFlight(x, m, j);
    }
  }

  lemma ReadsAddressOrderly(x: State, k: nat)
    requires Wired(x) && Orderly(x) && Enabled(x, ReadsAddress(k))
    ensures Orderly(Step(x, ReadsAddress(k)))
  {
    var y := Step(x, ReadsAddress(k));
    assert forall l: nat, j: nat :: InFlight(y, l, j) <==> InFlight(x, l, j);
    forall s | s in y.t.sessions ensures AtHome(y, y.t.sessions[s]) {
      assert AtHome(x, x.t.sessions[s]);
    }
    forall l: nat, j: nat | InFlight(y, l, j) ensures AtHome(y, j) && !Live(y.t, j) && !Migrating(y, j) {
      assert InFlight(x, l, j);
    }
    forall l: nat, m: nat, j: nat | InFlight(y, l, j) && InFlight(y, m, j) ensures l == m {
      assert InFlight(x, l, j) && InFlight(x, m, j);
    }
  }

  lemma UnbindsOrderly(x: State, k: nat)
    requires Wired(x) && Orderly(x) && Enabled(x, Unbinds(k))
    ensures Orderly(Step(x, Unbinds(k)))
  {
    var y, id := Step(x, Unbinds(k)), x.removals[k].id;
    assert InFlight(x, k, id);
    assert AtHome(x, id) && AddressRead(x, x.removals[k]);
    forall s | s in y.t.sessions ensures AtHome(y, y.t.sessions[s]) {
      assert AtHome(x, x.t.sessions[s]);
    }
    forall l: nat, j: nat | InFlight(y, l, j) ensures AtHome(y, j) && !Live(y.t, j) && !Migrating(y, j) {
      assert InFlight(x, l, j);
      assert AtHome(x, j);
    }
    forall l: nat, m: nat, j: nat | InFlight(y, l, j) && InFlight(y, m, j) ensures l == m {
      assert InFlight(x, l, j) && InFlight(x, m, j);
    }
    forall l | l in y.removals && y.removals[l].Read? ensures AddressRead(y, y.removals[l]) {
      assert AddressRead(x, x.removals[l]);
    }
    if x.handler.Inserted? {
      assert !InFlight(x, k, x.handler.id);
    }
  }

  lemma StepKeepsOrderly(x: State, e: Event)
    requires Wired(x) && Orderly(x) && !Step(x, e).raced
    ensures Orderly(Step(x, e))
  {
    if Enabled(x, e) {
      match e
      case InsertsConnection => InsertsConnectionOrderly(x);
      case Rebinds => RebindsOrderly(x);
      case Unlinks(k, session) => UnlinksOrderly(x, k, session);
      case ReadsAddress(k) => ReadsAddressOrderly(x, k);
      case Unbinds(k) => UnbindsOrderly(x, k);
      case _ => HandlerKeepsOrderly(x, e);
    }
  }

  lemma {:induction false} RunKeepsOrderly(es: seq<Event>)
    ensures Wired(Exec(es)) && (!Exec(es).raced ==> Orderly(Exec(es)))
  {
    RunKeepsWired(es);
    if es != [] {
      var x := Exec(es[..|es| - 1]);
      RunKeepsOrderly(es[..|es| - 1]);
      if !Exec(es).raced {
        assert !x.raced;
        StepKeepsOrderly(x, es[|es| - 1]);
      }
    }
  }

  // ---- what the tables say, and when --------------------------------------------

  /**
   The tables are consistent in every state of every run in which no removal
   hits a migration, except exactly between the write of remoteAddr and the
   table update of a migration.
   */
  lemma ConsistentIff(es: seq<Event>)
    ensures var x := Exec(es); !x.raced ==> (Consistent(x.t) <==> !x.handler.Addressed?)
  {
    RunKeepsOrderly(es);
    var x := Exec(es);
    if !x.raced {
      if x.handler.Addressed? {
        var s := x.t.conns[x.handler.id].session;
        assert !Reachable(x.t, x.t.sessions[s]);
      } else {
        forall s | s in x.t.sessions ensures Reachable(x.t, x.t.sessions[s]) {
          assert AtHome(x, x.t.sessions[s]);
        }
      }
    }
  }

  // ---- leaks ----------------------------------------------------------------------

  /** A removal in flight will delete this entry. */
  ghost predicate Clearing(x: State, a: string, id: nat) {
    exists k: nat :: Clears(x, k, a, id)
  }

  ghost predicate Clears(x: State, k: nat, a: string, id: nat) {
    && k in x.removals && id < |x.t.conns|
    && ((x.removals[k] == Unlinked(id) && x.t.conns[id].addr == a) || x.removals[k] == Read(id, a))
  }

  /** The entry belongs to a live session, or the handler or a removal in flight will still deal with it. */
  ghost predicate Covered(x: State, a: string, id: nat) {
    || Live(x.t, id) || x.handler == Inserted(id)
    || (x.handler.Addressed? && x.handler.id == id && x.handler.from == a)
    || Clearing(x, a, id)
  }

  /** Nothing has leaked: every entry of the connection table is covered. */
  ghost predicate NoLeak(x: State) {
    forall a <- x.t.connections :: Covered(x, a, x.t.connections[a])
  }

  /** The test before each region: it strands an entry of the connection table. */
  ghost predicate Leaks(x: State, e: Event) {
    && Enabled(x, e)
    && match e
       case InsertsSession =>
         var s := x.t.conns[x.handler.id].session;
         s in x.t.sessions && AtHome(x, x.t.sessions[s])
         && !Clearing(x, Home(x, x.t.sessions[s]), x.t.sessions[s])
       case Rebinds => !Live(x.t, x.handler.id) && !Clearing(x, x.handler.addr, x.handler.id)
       case _ => false
  }

  lemma ClearingKept(x: State, y: State, a: string, id: nat)
    requires Clearing(x, a, id) && |x.t.conns| <= |y.t.conns|
    requires forall k <- x.removals :: k in y.removals && y.removals[k] == x.removals[k]
    requires id < |x.t.conns| ==> y.t.conns[id].addr == x.t.conns[id].addr
    ensures Clearing(y, a, id)
  {
    var k: nat :| Clears(x, k, a, id);
    assert Clears(y, k, a, id);
  }

  lemma ClearingOnlyIf(x: State, y: State, a: string, id: nat)
    requires Clearing(y, a, id) && id < |x.t.conns| <= |y.t.conns|
    requires y.removals == x.removals && y.t.conns[id].addr == x.t.conns[id].addr
    ensures Clearing(x, a, id)
  {
    var k: nat :| Clears(y, k, a, id);
    assert Clears(x, k, a, id);
  }

  lemma InsertsSessionLeaksIff(x: State)
    requires Wired(x) && NoLeak(x) && Enabled(x, InsertsSession)
    ensures NoLeak(Step(x, InsertsSession)) <==> !Leaks(x, InsertsSession)
  {
    var y, id := Step(x, InsertsSession), x.handler.id;
    var s := x.t.conns[id].session;
    forall a | a in x.t.connections && x.t.connections[a] != id
               && (s in x.t.sessions ==> x.t.connections[a] != x.t.sessions[s])
      ensures Covered(y, a, y.t.connections[a])
    {
      assert Covered(x, a, x.t.connections[a]);
      if Clearing(x, a, x.t.connections[a]) {
        ClearingKept(x, y, a, x.t.connections[a]);
      }
    }
    if s in x.t.sessions && AtHome(x, x.t.sessions[s]) {
      var other := x.t.sessions[s];
      var a := Home(x, other);
      assert !Live(y.t, other);
      if Clearing(x, a, other) {
        ClearingKept(x, y, a, other);
      } else if Clearing(y, a, other) {
        ClearingOnlyIf(x, y, a, other);
      }
      assert Covered(y, a, other) <==> !Leaks(x, InsertsSession);
    }
  }

  lemma RebindsLeaksIff(x: State)
    requires Wired(x) && NoLeak(x) && Enabled(x, Rebinds)
    ensures NoLeak(Step(x, Rebinds)) <==> !Leaks(x, Rebinds)
  {
    var y, id, addr := Step(x, Rebinds), x.handler.id, x.handler.addr;
    forall a | a in y.t.connections && a != addr ensures Covered(y, a, y.t.connections[a]) {
      assert Covered(x, a, x.t.connections[a]);
      if Clearing(x, a, x.t.connections[a]) {
        ClearingKept(x, y, a, x.t.connections[a]);
      }
    }
    if Clearing(x, addr, id) {
      ClearingKept(x, y, addr, id);
    } else if Clearing(y, addr, id) {
      ClearingOnlyIf(x, y, addr, id);
    }
    assert addr in y.t.connections && y.t.connections[addr] == id;
    assert Covered(y, addr, id) <==> Live(x.t, id) || Clearing(x, addr, id) by {
      assert Live(y.t, id) <==> Live(x.t, id);
    }
  }

  lemma HandlerCovers(x: State, e: Event)
    requires Wired(x) && NoLeak(x) && Enabled(x, e)
    requires e.Receives? || e.InsertsConnection? || e.FindsSession? || e.WritesAddress?
    ensures NoLeak(Step(x, e))
  {
    var y := Step(x, e);
    forall a | a in y.t.connections ensures Covered(y, a, y.t.connections[a]) {
      if a in x.t.connections && y.t.connections[a] == x.t.connections[a] {
        var id := x.t.connections[a];
        assert Covered(x, a, id);
        if Clearing(x, a, id) && !(e.WritesAddress? && x.handler.id == id) {
          ClearingKept(x, y, a, id);
        }
      }
    }
  }

  lemma UnlinksCovers(x: State, k: nat, session: string)
    requires Wired(x) && NoLeak(x) && Enabled(x, Unlinks(k, session))
    ensures NoLeak(Step(x, Unlinks(k, session)))
  {
    var y := Step(x, Unlinks(k, session));
    forall a | a in y.t.connections ensures Covered(y, a, y.t.connections[a]) {
      var id := x.t.connections[a];
      assert Covered(x, a, id);
      if Clearing(x, a, id) {
        ClearingKept(x, y, a, id);
      }
      if session in x.t.sessions && x.t.sessions[session] == id {
        assert Home(x, id) == a;
        assert Clears(y, k, a, id) || (x.handler.Addressed? && x.handler.id == id && x.handler.from == a);
      }
    }
  }

  lemma RemovalCovers(x: State, e: Event)
    requires Wired(x) && NoLeak(x) && Enabled(x, e) && (e.ReadsAddress? || e.Unbinds?)
    ensures NoLeak(Step(x, e))
  {
    var y := Step(x, e);
    forall a | a in y.t.connections ensures Covered(y, a, y.t.connections[a]) {
      var id := x.t.connections[a];
      assert Covered(x, a, id);
      if k: nat :| Clears(x, k, a, id) {
        assert Clears(y, k, a, id);
      }
    }
  }

  /**
   When a region leaks, whatever interleaves: the table update of a migration
   leaks exactly if the session is gone and no removal will still delete the
   new entry, and the last region of an AUTH exactly if it takes a live session
   from a connection that no removal deals with. No other region leaks.
   */
  lemma LeakIff(es: seq<Event>, e: Event)
    requires NoLeak(Exec(es))
    ensures NoLeak(Step(Exec(es), e)) <==> !Leaks(Exec(es), e)
  {
    RunKeepsWired(es);
    var x := Exec(es);
    if Enabled(x, e) {
      match e
      case InsertsSession => InsertsSessionLeaksIff(x);
      case Rebinds => RebindsLeaksIff(x);
      case Unlinks(k, session) => UnlinksCovers(x, k, session);
      case ReadsAddress(_) => RemovalCovers(x, e);
      case Unbinds(_) => RemovalCovers(x, e);
      case _ => HandlerCovers(x, e);
    }
  }

  /** Without a race and without reuse, nothing leaks. */
  lemma {:induction false} OrderlyRunsDoNotLeak(es: seq<Event>)
    ensures !Exec(es).raced && !Exec(es).reused ==> NoLeak(Exec(es))
  {
    if es != [] {
      var init, e := es[..|es| - 1], es[|es| - 1];
      OrderlyRunsDoNotLeak(init);
      if !Exec(es).raced && !Exec(es).reused {
        RunKeepsOrderly(init);
        LeakIff(init, e);
      }
    }
  }

  /** No half-done handler and no removal in flight. */
  ghost predicate Quiet(x: State) {
    !x.handler.Inserted? && !x.handler.Addressed? && forall k: nat, id: nat :: !InFlight(x, k, id)
  }

  /**
   The two tables list the same connections, in every state of every run
   without a race and without reuse, exactly while nothing is half done.
   */
  lemma BijectiveIff(es: seq<Event>)
    ensures var x := Exec(es); !x.raced && !x.reused ==> (Bijective(x.t) <==> Quiet(x))
  {
    RunKeepsOrderly(es);
    OrderlyRunsDoNotLeak(es);
    ConsistentIff(es);
    var x := Exec(es);
    if !x.raced && !x.reused {
      if Quiet(x) {
        forall a | a in x.t.connections ensures Live(x.t, x.t.connections[a]) {
          assert Covered(x, a, x.t.connections[a]);
          if k: nat :| Clears(x, k, a, x.t.connections[a]) {
            assert InFlight(x, k, x.t.connections[a]);
          }
        }
      } else if x.handler.Inserted? {
        assert AtHome(x, x.handler.id) && !Live(x.t, x.handler.id);
      } else if !x.handler.Addressed? {
        var k: nat, id: nat :| InFlight(x, k, id);
        assert AtHome(x, id) && !Live(x.t, id);
      }
    }
  }

  // ---- stranded sessions --------------------------------------------------------------

  /** The test before each region: it takes the table entry of a live session away, or starts a session without one. */
  ghost predicate Strands(x: State, e: Event) {
    && Enabled(x, e)
    && match e
       case InsertsSession => !AtHome(x, x.handler.id)
       case Rebinds =>
         var from := x.handler.from;
         from in x.t.connections && x.t.connections[from] != x.handler.id && Live(x.t, x.t.connections[from])
       case Unbinds(k) =>
         var a := x.removals[k].addr;
         a in x.t.connections && Live(x.t, x.t.connections[a])
       case _ => false
  }

  lemma InsertsSessionStrandsIff(x: State)
    requires Wired(x) && Homes(x) && Enabled(x, InsertsSession)
    ensures Homes(Step(x, InsertsSession)) <==> !Strands(x, InsertsSession)
  {
    var y, id := Step(x, InsertsSession), x.handler.id;
    var s := x.t.conns[id].session;
    assert AtHome(y, y.t.sessions[s]) <==> AtHome(x, id);
    forall r | r in y.t.sessions && r != s ensures AtHome(y, y.t.sessions[r]) {
      assert AtHome(x, x.t.sessions[r]);
    }
  }

  lemma RebindsStrandsIff(x: State)
    requires Wired(x) && Homes(x) && Enabled(x, Rebinds)
    ensures Homes(Step(x, Rebinds)) <==> !Strands(x, Rebinds)
  {
    var y, h := Step(x, Rebinds), x.handler;
    if Strands(x, Rebinds) {
      var other := x.t.connections[h.from];
      assert !AtHome(y, y.t.sessions[x.t.conns[other].session]);
    } else {
      forall s | s in y.t.sessions ensures AtHome(y, y.t.sessions[s]) {
        assert AtHome(x, x.t.sessions[s]);
      }
    }
  }

  lemma UnbindsStrandsIff(x: State, k: nat)
    requires Wired(x) && Homes(x) && Enabled(x, Unbinds(k))
    ensures Homes(Step(x, Unbinds(k))) <==> !Strands(x, Unbinds(k))
  {
    var y := Step(x, Unbinds(k));
    if Strands(x, Unbinds(k)) {
      var other := x.t.connections[x.removals[k].addr];
      assert !AtHome(y, y.t.sessions[x.t.conns[other].session]);
    } else {
      forall s | s in y.t.sessions ensures AtHome(y, y.t.sessions[s]) {
        assert AtHome(x, x.t.sessions[s]);
      }
    }
  }

  lemma OthersStrandNobody(x: State, e: Event)
    requires Wired(x) && Homes(x) && Enabled(x, e)
    requires !e.InsertsSession? && !e.Rebinds? && !e.Unbinds?
    ensures Homes(Step(x, e))
  {
    var y := Step(x, e);
    forall s | s in y.t.sessions ensures AtHome(y, y.t.sessions[s]) {
      assert AtHome(x, x.t.sessions[s]);
    }
  }

  /**
   When a region makes a live session unreachable, whatever interleaves:
   exactly if it deletes the table entry of another connection's live session
   under an address read earlier, or completes an AUTH whose entry is gone.
   */
  lemma StrandedIff(es: seq<Event>, e: Event)
    requires Homes(Exec(es))
    ensures Homes(Step(Exec(es), e)) <==> !Strands(Exec(es), e)
  {
    RunKeepsWired(es);
    var x := Exec(es);
    if Enabled(x, e) {
      match e
      case InsertsSession => InsertsSessionStrandsIff(x);
      case Rebinds => RebindsStrandsIff(x);
      case Unbinds(k) => UnbindsStrandsIff(x, k);
      case _ => OthersStrandNobody(x, e);
    }
  }

  // ---- the tables as one map from session to address -------------------------------------

  /** The same change on the simple map. An address in use is not bound again. */
  function SimpleStep(m: map<string, string>, c: Change): map<string, string> {
    match c
    case BoundTo(session, addr) => if addr in m.Values then m else m[session := addr]
    case Dropped(session) => m - {session}
  }

  function SimpleExec(changes: seq<Change>): map<string, string> {
    if changes == [] then map[]
    else SimpleStep(SimpleExec(changes[..|changes| - 1]), changes[|changes| - 1])
  }

  lemma SimpleOneMore(changes: seq<Change>, c: Change)
    ensures SimpleExec(changes + [c]) == SimpleStep(SimpleExec(changes), c)
  {
    assert (changes + [c])[..|changes|] == changes;
  }

  /** An address that is free, or held by a connection without session, is nobody's. */
  lemma NotLocated(x: State, addr: string)
    requires Wired(x) && Homes(x)
    requires addr in x.t.connections ==> !Live(x.t, x.t.connections[addr])
    ensures addr !in Located(x).Values
  {
    forall s | s in x.t.sessions ensures Home(x, x.t.sessions[s]) != addr {
      assert AtHome(x, x.t.sessions[s]) && Live(x.t, x.t.sessions[s]);
    }
  }

  ghost predicate Refined(x: State) {
    Wired(x) && Located(x) == SimpleExec(x.changes)
  }

  /** The simple map follows this step. */
  ghost predicate Refines(x: State, y: State) {
    Refined(x) ==> Refined(y)
  }

  lemma InsertRefines(x: State)
    requires Wired(x) && Orderly(x) && Enabled(x, InsertsSession)
    ensures Refines(x, Step(x, InsertsSession))
  {
    var c := x.t.conns[x.handler.id];
    StepKeepsWired(x, InsertsSession);
    assert c.addr !in Located(x).Values by {
      NotLocated(x, c.addr);
    }
    SimpleOneMore(x.changes, BoundTo(c.session, c.addr));
    assert Located(Step(x, InsertsSession)) == Located(x)[c.session := c.addr];
  }

  lemma RebindRefines(x: State)
    requires Wired(x) && Orderly(x) && Enabled(x, Rebinds)
    ensures Refines(x, Step(x, Rebinds))
  {
    var session := x.t.conns[x.handler.id].session;
    StepKeepsWired(x, Rebinds);
    assert x.handler.addr !in Located(x).Values by {
      NotLocated(x, x.handler.addr);
    }
    SimpleOneMore(x.changes, BoundTo(session, x.handler.addr));
    RebindLocates(x);
  }

  /** After the table update the migrated session is at its new address, and no other has moved. */
  lemma RebindLocates(x: State)
    requires Wired(x) && Orderly(x) && Enabled(x, Rebinds) && Wired(Step(x, Rebinds))
    ensures Located(Step(x, Rebinds)) == Located(x)[x.t.conns[x.handler.id].session := x.handler.addr]
  {
    var y, id := Step(x, Rebinds), x.handler.id;
    var session := x.t.conns[id].session;
    assert y.t.sessions == x.t.sessions && y.t.conns == x.t.conns && Live(x.t, id);
    forall s | s in x.t.sessions
      ensures Home(y, x.t.sessions[s]) == if s == session then x.handler.addr else Home(x, x.t.sessions[s])
    {
      assert x.t.conns[x.t.sessions[s]].session == s;
    }
  }

  lemma UnlinkRefines(x: State, k: nat, session: string)
    requires Wired(x) && Enabled(x, Unlinks(k, session))
    ensures Refines(x, Step(x, Unlinks(k, session)))
  {
    var y := Step(x, Unlinks(k, session));
    StepKeepsWired(x, Unlinks(k, session));
    if session in x.t.sessions {
      SimpleOneMore(x.changes, Dropped(session));
      assert Located(y) == Located(x) - {session};
    } else {
      assert Located(y) == Located(x);
    }
  }

  lemma OthersRefine(x: State, e: Event)
    requires Wired(x) && Enabled(x, e) && !e.InsertsSession? && !e.Rebinds? && !e.Unlinks?
    ensures Refines(x, Step(x, e))
  {
    StepKeepsWired(x, e);
    assert Located(Step(x, e)) == Located(x);
  }

  lemma StepRefinesSimple(x: State, e: Event)
    requires Wired(x) && (!x.raced ==> Orderly(x)) && !Step(x, e).raced
    ensures Refines(x, Step(x, e))
  {
    if Enabled(x, e) {
      match e
      case InsertsSession => InsertRefines(x);
      case Rebinds => RebindRefines(x);
      case Unlinks(k, session) => UnlinkRefines(x, k, session);
      case _ => OthersRefine(x, e);
    }
  }

  lemma {:induction false} RunRefinesSimple(es: seq<Event>)
    ensures !Exec(es).raced ==> Refined(Exec(es))
  {
    if es == [] {
      NothingRefined();
    } else {
      RunRefinesSimple(es[..|es| - 1]);
      LastRefines(es);
    }
  }

  lemma NothingRefined()
    ensures Refined(INITIAL)
  {
    assert Located(INITIAL) == map[];
  }

  lemma {:induction false} LastRefines(es: seq<Event>)
    requires es != []
    ensures var x := Exec(es[..|es| - 1]);
            !Exec(es).raced ==> !x.raced && Refines(x, Exec(es))
  {
    RunKeepsOrderly(es[..|es| - 1]);
    if !Exec(es).raced {
      StepRefinesSimple(Exec(es[..|es| - 1]), es[|es| - 1]);
    }
  }

  /**
   The two tables are one map. In every run in which no removal hits a
   migration, however its regions interleave, the sessions and their addresses
   are those of a simple map on which each handler acts at one moment; and
   outside a migration's table update each is reachable under its address.
   */
  lemma TablesRefineSimpleMap(es: seq<Event>)
    ensures var x := Exec(es);
            !x.raced ==>
              && Wired(x) && Located(x) == SimpleExec(x.changes)
              && (!x.handler.Addressed? ==>
                    forall s <- x.t.sessions ::
                      Located(x)[s] == x.t.conns[x.t.sessions[s]].addr && Reachable(x.t, x.t.sessions[s]))
  {
    RunRefinesSimple(es);
    RunKeepsOrderly(es);
    if !Exec(es).raced && !Exec(es).handler.Addressed? {
      HomeIsReachable(Exec(es));
    }
  }

  lemma HomeIsReachable(x: State)
    requires Wired(x) && Homes(x) && !x.handler.Addressed?
    ensures forall s <- x.t.sessions ::
              Located(x)[s] == x.t.conns[x.t.sessions[s]].addr && Reachable(x.t, x.t.sessions[s])
  {
    forall s | s in x.t.sessions
      ensures Located(x)[s] == x.t.conns[x.t.sessions[s]].addr && Reachable(x.t, x.t.sessions[s])
    {
      assert AtHome(x, x.t.sessions[s]);
    }
  }

  // ---- handlers that nothing interrupts ----------------------------------------------------

  /** The rest of a migration, after its session was found. */
  function MigrationRest(x: State): State {
    Step(Step(x, WritesAddress), Rebinds)
  }

  function WholeRemoval(x: State, k: nat, session: string): State {
    Step(Step(Step(x, Unlinks(k, session)), ReadsAddress(k)), Unbinds(k))
  }

  /** Uninterrupted, the regions of a handler make up the whole handler. */
  lemma AuthInRegions(x: State, addr: string, session: string)
    requires x.handler.Ready? && addr !in x.t.connections
    ensures Step(Step(Step(x, Receives(addr, Auth(session))), InsertsConnection), InsertsSession).t
         == Authed(x.t, addr, session)
  {
    var looked := Step(x, Receives(addr, Auth(session)));
    assert looked == x.(handler := Looked(addr, Auth(session)));
    var inserted := Step(looked, InsertsConnection);
    assert inserted.t == ConnectionInserted(x.t, addr, session) && inserted.handler == Inserted(|x.t.conns|);
  }

  lemma RestOfMigration(x: State)
    requires x.handler.Found? && x.handler.id < |x.t.conns|
    ensures var id, addr := x.handler.id, x.handler.addr;
            MigrationRest(x).t == Rebound(AddressSet(x.t, id, addr), id, x.t.conns[id].addr, addr)
  {
    var id, addr := x.handler.id, x.handler.addr;
    assert Step(x, WritesAddress) ==
           x.(t := AddressSet(x.t, id, addr), handler := Addressed(id, x.t.conns[id].addr, addr));
  }

  lemma MigrationInRegions(x: State, addr: string, session: string)
    requires Wired(x) && x.handler.Ready? && addr !in x.t.connections && session in x.t.sessions
    ensures MigrationRest(Step(Step(x, Receives(addr, Migration(session))), FindsSession)).t
         == Migrated(x.t, addr, session)
  {
    var looked := Step(x, Receives(addr, Migration(session)));
    assert looked == x.(handler := Looked(addr, Migration(session)));
    var found := Step(looked, FindsSession);
    assert found == x.(handler := Found(x.t.sessions[session], addr));
    RestOfMigration(found);
  }

  lemma RemovalInRegions(x: State, k: nat, session: string)
    requires Wired(x) && k !in x.removals
    ensures WholeRemoval(x, k, session).t == Removed(x.t, session)
    ensures WholeRemoval(x, k, session).handler == x.handler
  {
    if session in x.t.sessions {
      var id := x.t.sessions[session];
      var dropped := Step(x, Unlinks(k, session));
      assert dropped.t == SessionDropped(x.t, session) && dropped.removals[k] == Unlinked(id);
      var read := Step(dropped, ReadsAddress(k));
      assert read.t == dropped.t && read.removals[k] == Read(id, x.t.conns[id].addr);
    }
  }

  /**
   A whole removal that comes between a migration's lookup and its updates
   leaves the tables in bijection exactly if it is another session's.
   */
  lemma RemovalDuringMigrationIff(x: State, k: nat, removed: string)
    requires Wired(x) && Bijective(x.t) && x.handler.Found? && Live(x.t, x.handler.id) && k !in x.removals
    ensures Bijective(MigrationRest(WholeRemoval(x, k, removed)).t) <==> removed != x.t.conns[x.handler.id].session
  {
    var id, addr, s := x.handler.id, x.handler.addr, x.t.conns[x.handler.id].session;
    var u := Removed(x.t, removed);
    RemovalInRegions(x, k, removed);
    RestOfMigration(WholeRemoval(x, k, removed));
    RebindAfterRemovalIff(x.t, id, addr, removed);
  }

  lemma RebindAfterRemovalIff(t: Tables, id: nat, addr: string, removed: string)
    requires Bijective(t) && Live(t, id) && addr !in t.connections
    ensures var u := Removed(t, removed);
            && id < |u.conns|
            && (Bijective(Rebound(AddressSet(u, id, addr), id, u.conns[id].addr, addr)) <==>
                removed != t.conns[id].session)
  {
    var u, s := Removed(t, removed), t.conns[id].session;
    assert Reachable(t, id);
    var v := Rebound(AddressSet(u, id, addr), id, u.conns[id].addr, addr);
    if removed == s {
      assert v.connections[addr] == id && !Live(v, id);
    } else {
      RemovalKeepsBijective(t, removed);
      assert Live(u, id);
      MigrationKeepsBijective(u, addr, s);
      assert v == Migrated(u, addr, s);
    }
  }

  lemma RemovalKeepsBijective(t: Tables, session: string)
    requires Bijective(t)
    ensures Bijective(Removed(t, session))
  {
    RemovalKeepsConsistent(t, session);
    var u := Removed(t, session);
    forall a | a in u.connections ensures Live(u, u.connections[a]) {
      assert Live(t, t.connections[a]);
      if session in t.sessions {
        assert Reachable(t, t.sessions[session]);
      }
    }
  }

  lemma MigrationKeepsBijective(t: Tables, addr: string, session: string)
    requires Bijective(t) && addr !in t.connections && session in t.sessions
    ensures Bijective(Migrated(t, addr, session))
  {
    MigrationKeepsConsistent(t, addr, session);
    var u := Migrated(t, addr, session);
    assert Reachable(t, t.sessions[session]);
    forall a | a in u.connections ensures Live(u, u.connections[a]) {
      if a != addr {
        assert Live(t, t.connections[a]);
      }
    }
  }
}
