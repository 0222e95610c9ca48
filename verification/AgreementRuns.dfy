/**
 Runs of clients, listener and connections that end badly: steps that take an
 address or a session away while the client knows nothing of it, and SYN-ACKs
 that report too little.
 */
module AgreementRuns {
  import opened Base
  import opened Listening
  import opened Agreement
  import opened Routing
  import L = ListenerRegions
  import H = Handshake

  lemma Then(es: seq<Event>, e: Event) returns (more: seq<Event>)
    ensures more == es + [e] && Exec(more) == Step(Exec(es), e)
  {
    more := es + [e];
    assert more[..|es|] == es;
  }

  // ---- what a client does -----------------------------------------------------------------

  /** The SYN of the current attempt is written. */
  lemma WritesSyn(es: seq<Event>, c: nat) returns (more: seq<Event>)
    requires var x := Exec(es);
             c in x.clients && x.clients[c].exchange.Some? && !x.clients[c].exchange.value.written
    ensures var x := Exec(es);
            var cl := x.clients[c];
            var ex := cl.exchange.value;
            Exec(more) == x.(clients := x.clients[c := cl.(exchange := Some(ex.(written := true)))],
                             wire := x.wire + {SynMsg(ex.src, Wanted(cl, ex))}, now := x.now + 1)
  {
    more := Then(es, Writes(c));
  }

  /** A client that has written its first SYN. */
  function Dialling(s: string, a: string): Client {
    NOBODY.(uuid := s, exchange := Some(Exchange(a, false, [], true)))
  }

  /** A new client opens a socket and writes its SYN. */
  lemma Opens(es: seq<Event>, c: nat, s: string, a: string) returns (more: seq<Event>)
    requires c !in Exec(es).clients
    ensures var x := Exec(es);
            Exec(more) == x.(clients := x.clients[c := Dialling(s, a)], used := x.used + {(a, s)},
                             wire := x.wire + {SynMsg(a, Auth(s))}, now := x.now + 2)
  {
    more := Then(es, Dials(c, s, a));
    more := WritesSyn(more, c);
  }

  /** A client opens a socket for a migration and writes its SYN. */
  lemma OpensMigration(es: seq<Event>, c: nat, q: string) returns (more: seq<Event>)
    requires var x := Exec(es); c in x.clients && x.clients[c].socket.Some? && x.clients[c].exchange.None?
    ensures var x := Exec(es);
            var cl := x.clients[c];
            Exec(more) == x.(clients := x.clients[c := cl.(exchange := Some(Exchange(q, true, [], true)))],
                             used := x.used + {(q, cl.sessionId)},
                             wire := x.wire + {SynMsg(q, Migration(cl.sessionId))}, now := x.now + 2)
  {
    more := Then(es, Moves(c, q));
    more := WritesSyn(more, c);
  }

  /** It writes its SYN once more after a timeout. */
  lemma WritesAgain(es: seq<Event>, c: nat) returns (more: seq<Event>)
    requires var x := Exec(es);
             && c in x.clients && x.clients[c].exchange.Some? && x.clients[c].exchange.value.written
             && x.clients[c].exchange.value.seen == []
    ensures var x := Exec(es);
            var cl := x.clients[c];
            var ex := cl.exchange.value;
            Exec(more) == x.(clients := x.clients[c := cl.(exchange := Some(ex.(seen := [H.ReadTimesOut])))],
                             wire := x.wire + {SynMsg(ex.src, Wanted(cl, ex))}, now := x.now + 2)
  {
    var x := Exec(es);
    var cl := x.clients[c];
    var ex := cl.exchange.value;
    assert ex.seen + [H.ReadTimesOut] == [H.ReadTimesOut];
    more := Then(es, Ends(c, H.ReadTimesOut, SynMsg("", Unknown)));
    assert Exec(more) ==
           x.(clients := x.clients[c := cl.(exchange := Some(ex.(seen := [H.ReadTimesOut], written := false)))],
              now := x.now + 1);
    more := WritesSyn(more, c);
  }

  /** An attempt ends with this SYN-ACK. */
  lemma Accepts(es: seq<Event>, c: nat, m: Message) returns (more: seq<Event>)
    requires var x := Exec(es);
             && c in x.clients && x.clients[c].exchange.Some?
             && ExchangeSane(x.clients[c], x.clients[c].exchange.value)
             && x.clients[c].exchange.value.written && m in x.wire && m.SynAckMsg?
             && m.dst == x.clients[c].exchange.value.src && MayDecode(m.payload)
    ensures more == es + [Ends(c, H.Receives(H.SynAck(m.payload)), m)]
    ensures var x := Exec(es);
            var cl := x.clients[c];
            Exec(more) == x.(clients := x.clients[c := AfterSuccess(cl, cl.exchange.value, m.payload, m)],
                             now := x.now + 1)
  {
    var cl := Exec(es).clients[c];
    AfterAttemptIs(cl, cl.exchange.value, H.Receives(H.SynAck(m.payload)), m);
    more := Then(es, Ends(c, H.Receives(H.SynAck(m.payload)), m));
  }

  // ---- what the listener does ---------------------------------------------------------------

  /** Nothing under way at the listener and its connections, nothing closed, no race. */
  ghost predicate Idle(x: State) {
    x.l.handler.Ready? && !x.l.raced && x.replying.None? && x.answering == map[] && x.closed == {}
  }

  function AuthRegions(s: string, a: string): seq<Event> {
    [Listens(L.Receives(a, Auth(s))), Listens(L.InsertsConnection), Listens(L.InsertsSession)]
  }

  /** An AUTH from a free address is handled, up to its answer. */
  lemma EntersAuth(es: seq<Event>, s: string, a: string) returns (more: seq<Event>)
    requires var x := Exec(es);
             x.l.handler.Ready? && x.replying.None? && a !in x.l.t.connections && SynMsg(a, Auth(s)) in x.wire
    ensures more == es + AuthRegions(s, a)
    ensures var x, y := Exec(es), Exec(more);
            && y.l.t == Authed(x.l.t, a, s) && y.l.handler.Ready? && y.l.removals == x.l.removals
            && y.l.raced == x.l.raced && y.l.reused == (x.l.reused || s in x.l.t.sessions)
            && y == x.(l := y.l, replying := Some(SynAckMsg(a, s, |x.l.t.conns|, x.now + 3)), now := x.now + 3)
  {
    var l := Exec(es).l;
    more := Then(es, Listens(L.Receives(a, Auth(s))));
    assert Exec(more).l == l.(handler := L.Looked(a, Auth(s)));
    more := Then(more, Listens(L.InsertsConnection));
    assert Exec(more).l == l.(handler := L.Inserted(|l.t.conns|), t := ConnectionInserted(l.t, a, s));
    more := Then(more, Listens(L.InsertsSession));
  }

  /** The read loop's SYN-ACK goes out. */
  lemma RepliesOut(es: seq<Event>) returns (more: seq<Event>)
    requires Exec(es).replying.Some?
    ensures more == es + [Replies]
    ensures var x := Exec(es);
            Exec(more) == x.(wire := x.wire + {x.replying.value}, replying := None, now := x.now + 1)
  {
    more := Then(es, Replies);
  }

  /** A migration SYN from a free address finds its session. */
  lemma FindsMigration(es: seq<Event>, s: string, q: string) returns (more: seq<Event>)
    requires var x := Exec(es);
             && x.l.handler.Ready? && x.replying.None? && q !in x.l.t.connections && s in x.l.t.sessions
             && SynMsg(q, Migration(s)) in x.wire
    ensures var x := Exec(es);
            Exec(more) == x.(l := x.l.(handler := L.Found(x.l.t.sessions[s], q)), now := x.now + 2)
  {
    more := Then(es, Listens(L.Receives(q, Migration(s))));
    assert Exec(more).l == Exec(es).l.(handler := L.Looked(q, Migration(s)));
    more := Then(more, Listens(L.FindsSession));
  }

  /** Its new address is written. */
  lemma WritesAddress(es: seq<Event>) returns (more: seq<Event>)
    requires var l := Exec(es).l; l.handler.Found? && l.handler.id < |l.t.conns|
    ensures var x := Exec(es);
            var id, q := x.l.handler.id, x.l.handler.addr;
            Exec(more) == x.(l := x.l.(t := AddressSet(x.l.t, id, q),
                                       handler := L.Addressed(id, x.l.t.conns[id].addr, q)), now := x.now + 1)
  {
    more := Then(es, Listens(L.WritesAddress));
  }

  /** The table is updated. */
  lemma UpdatesTable(es: seq<Event>) returns (more: seq<Event>)
    requires var l := Exec(es).l; l.handler.Addressed? && l.handler.id < |l.t.conns|
    ensures var x, y := Exec(es), Exec(more);
            var h := x.l.handler;
            && y.l.t == Rebound(x.l.t, h.id, h.from, h.addr) && y.l.handler.Ready? && y.l.removals == x.l.removals
            && y.l.raced == x.l.raced && y.l.reused == x.l.reused
            && y == x.(l := y.l, replying := Some(SynAckMsg(h.addr, "OK", h.id, x.now + 1)), now := x.now + 1)
  {
    more := Then(es, Listens(L.Rebinds));
  }

  /** A migration SYN is handled and answered. */
  lemma HandlesMigration(es: seq<Event>, s: string, q: string) returns (more: seq<Event>)
    requires var x := Exec(es);
             && Idle(x) && q !in x.l.t.connections && s in x.l.t.sessions && x.l.t.sessions[s] < |x.l.t.conns|
             && SynMsg(q, Migration(s)) in x.wire
    ensures var x, y := Exec(es), Exec(more);
            && y.l.t == Migrated(x.l.t, q, s) && y.l.removals == x.l.removals && Idle(y)
            && y == x.(l := y.l, wire := y.wire, now := y.now) && x.wire <= y.wire
  {
    more := FindsMigration(es, s, q);
    more := WritesAddress(more);
    more := UpdatesTable(more);
    more := RepliesOut(more);
  }

  /** A SYN from a known address goes to its connection. */
  lemma Dispatches(es: seq<Event>, a: string, request: Request) returns (more: seq<Event>)
    requires var x := Exec(es);
             x.l.handler.Ready? && x.replying.None? && a in x.l.t.connections && SynMsg(a, request) in x.wire
    ensures var x := Exec(es);
            Exec(more) == x.(waiting := x.waiting + {x.l.t.connections[a]}, now := x.now + 1)
  {
    more := Then(es, Listens(L.Receives(a, request)));
  }

  /** The connection tests its flag, reads its address, writes. */
  lemma AnswersItself(es: seq<Event>, id: nat) returns (more: seq<Event>)
    requires var x := Exec(es);
             x.answering == map[] && id in x.waiting && id !in x.closed && id < |x.l.t.conns|
    ensures more == es + [Answers(id), AnswerReads(id), AnswerGoesOut(id)]
    ensures var x := Exec(es);
            var conn := x.l.t.conns[id];
            Exec(more) == x.(wire := x.wire + {SynAckMsg(conn.addr, conn.session, id, x.now + 1)}, now := x.now + 3)
  {
    var x := Exec(es);
    var m := SynAckMsg(x.l.t.conns[id].addr, x.l.t.conns[id].session, id, x.now + 1);
    more := Then(es, Answers(id));
    assert Exec(more) == x.(answering := map[id := Tested(x.now + 1)], now := x.now + 1);
    more := Then(more, AnswerReads(id));
    assert Exec(more) == x.(answering := map[id := Drafted(m)], now := x.now + 2);
    more := Then(more, AnswerGoesOut(id));
    assert map[id := Drafted(m)] - {id} == map[];
  }

  // ---- whole exchanges -----------------------------------------------------------------------

  /** A client dials from a free address, and its SYN is handled and answered. */
  lemma IsAnswered(es: seq<Event>, c: nat, s: string, a: string) returns (more: seq<Event>)
    requires var x := Exec(es);
             x.l.handler.Ready? && x.replying.None? && c !in x.clients && a !in x.l.t.connections
    ensures var x, y := Exec(es), Exec(more);
            var m := SynAckMsg(a, s, |x.l.t.conns|, x.now + 5);
            && y.l.t == Authed(x.l.t, a, s) && y.l.handler.Ready? && y.l.removals == x.l.removals
            && y.l.raced == x.l.raced && y.l.reused == (x.l.reused || s in x.l.t.sessions)
            && y == x.(l := y.l, clients := x.clients[c := Dialling(s, a)], used := x.used + {(a, s)},
                       wire := x.wire + {SynMsg(a, Auth(s)), m}, now := x.now + 6)
  {
    more := Opens(es, c, s, a);
    more := EntersAuth(more, s, a);
    more := RepliesOut(more);
    assert Exec(more).wire ==
           Exec(es).wire + {SynMsg(a, Auth(s)), SynAckMsg(a, s, |Exec(es).l.t.conns|, Exec(es).now + 5)};
  }

  /** A client finishes its handshake at a free address. */
  lemma Joins(es: seq<Event>, c: nat, s: string, a: string) returns (more: seq<Event>)
    requires var x := Exec(es);
             && MayDecode(s) && x.l.handler.Ready? && x.replying.None? && c !in x.clients
             && a !in x.l.t.connections
    ensures var x, y := Exec(es), Exec(more);
            var m := SynAckMsg(a, s, |x.l.t.conns|, x.now + 5);
            && y.l.t == Authed(x.l.t, a, s) && y.l.handler.Ready? && y.l.removals == x.l.removals
            && y.l.raced == x.l.raced && y.l.reused == (x.l.reused || s in x.l.t.sessions)
            && y == x.(l := y.l, clients := x.clients[c := Client(s, s, a, Some(a), Some(m), None)],
                       used := x.used + {(a, s)}, wire := x.wire + {SynMsg(a, Auth(s)), m}, now := x.now + 7)
  {
    more := IsAnswered(es, c, s, a);
    var m := SynAckMsg(a, s, |Exec(es).l.t.conns|, Exec(es).now + 5);
    var cl := Exec(more).clients[c];
    assert cl == Dialling(s, a) && ExchangeSane(cl, cl.exchange.value);
    assert AfterSuccess(cl, cl.exchange.value, s, m) == Client(s, s, a, Some(a), Some(m), None);
    more := Accepts(more, c, m);
  }

  /** One session, known at `p`, and the client that uses it there. */
  ghost predicate Alone(x: State, s: string, p: string) {
    && x.l.t == Tables(map[p := 0], map[s := 0], [Conn(s, p)]) && Idle(x) && x.clients.Keys == {0}
    && x.clients[0].uuid == x.clients[0].sessionId == s && x.clients[0].socket == Some(p)
    && x.clients[0].exchange.None?
    && forall u <- x.used :: u.1 == s
  }

  lemma FirstJoins(s: string, a: string) returns (es: seq<Event>)
    requires MayDecode(s)
    ensures Alone(Exec(es), s, a) && SynMsg(a, Auth(s)) in Exec(es).wire
    ensures Exec(es).l.removals == map[] && !Exec(es).l.reused
    ensures Exec(es).clients[0].accepted == Some(SynAckMsg(a, s, 0, 5)) && Exec(es).used == {(a, s)}
  {
    es := Joins([], 0, s, a);
  }

  /** The client's SYN from `q` was handled; its second SYN goes to the connection, which answers it. */
  lemma SecondAttempt(es: seq<Event>, s: string, q: string) returns (more: seq<Event>)
    requires MayDecode(s)
    requires var x := Exec(es);
             && x.l.t == Tables(map[q := 0], map[s := 0], [Conn(s, q)]) && Idle(x) && x.clients.Keys == {0}
             && x.clients[0].exchange == Some(Exchange(q, true, [], true)) && x.clients[0].sessionId == s
             && x.clients[0].socket.Some?
    ensures var x, y := Exec(es), Exec(more);
            && y.l == x.l && Idle(y) && x.wire <= y.wire && y.used == x.used && y.clients.Keys == {0}
            && y.clients[0].uuid == x.clients[0].uuid && y.clients[0].sessionId == s
            && y.clients[0].socket == Some(q) && y.clients[0].exchange.None?
  {
    more := WritesAgain(es, 0);
    more := Dispatches(more, q, Migration(s));
    var n := Exec(more).now;
    more := AnswersItself(more, 0);
    more := Accepts(more, 0, SynAckMsg(q, s, 0, n + 1));
  }

  /** It migrates from `p` to `q`: the listener's own answer is lost on the decoder, the connection's is not. */
  lemma Migrates(es: seq<Event>, s: string, p: string, q: string) returns (more: seq<Event>)
    requires MayDecode(s) && p != q && Alone(Exec(es), s, p)
    ensures var x, y := Exec(es), Exec(more);
            Alone(y, s, q) && x.wire <= y.wire && SynMsg(q, Migration(s)) in y.wire
  {
    more := OpensMigration(es, 0, q);
    more := HandlesMigration(more, s, q);
    assert (map[p := 0] - {p})[q := 0] == map[q := 0];
    more := SecondAttempt(more, s, q);
  }

  // ---- a migration SYN from elsewhere ----------------------------------------------------------

  /**
   Nothing closed or raced, one session id: the client's last migration ended
   at `c`, and the listener knows it at `b` only.
   */
  ghost predicate StaleOutcome(es: seq<Event>, s: string, b: string, c: string) {
    var x := Exec(es);
    && Idle(x) && x.clients.Keys == {0} && x.clients[0].socket == Some(c) && x.clients[0].exchange.None?
    && (forall u <- x.used :: u.1 == s)
    && s in x.l.t.sessions && x.l.t.connections == map[b := x.l.t.sessions[s]]
  }

  /**
   A client authenticates at `a`, migrates to `b` and then to `c`, and a copy
   of the SYN from `b` arrives once more: the listener no longer knows `c`.
   */
  lemma StaleMigrationWins(s: string, a: string, b: string, c: string)
    requires MayDecode(s) && a != b && b != c
    ensures exists es :: StaleOutcome(es, s, b, c)
  {
    var es := FirstJoins(s, a);
    es := Migrates(es, s, a, b);
    es := Migrates(es, s, b, c);
    es := HandlesMigration(es, s, b);
    assert (map[c := 0] - {c})[b := 0] == map[b := 0];
    assert StaleOutcome(es, s, b, c);
  }

  // ---- another AUTH for the session ------------------------------------------------------------

  /**
   After `k` steps the socket of the only client is bound; then an AUTH for its
   session is handled, and it is bound no longer.
   */
  ghost predicate LosesSession(es: seq<Event>, k: nat, s: string, a: string, b: string) {
    && k <= |es| && es[k..] == AuthRegions(s, a)
    && Alone(Exec(es[..k]), s, b) && Bound(Exec(es[..k]), b, s)
    && Exec(es).clients == Exec(es[..k]).clients && Exec(es).closed == {} && !Exec(es).l.raced
    && !Bound(Exec(es), b, s) && RoutedTo(Exec(es), b, 0)
  }

  /**
   A client authenticates at `a` and migrates to `b`. A late copy of its AUTH
   makes a new connection for `a`, which takes the session: `b` still leads to
   the client's connection, but that is no longer its session's.
   */
  lemma LateAuthTakesSession(s: string, a: string, b: string)
    requires MayDecode(s) && a != b
    ensures exists es, k: nat :: LosesSession(es, k, s, a, b)
  {
    var moved := FirstJoins(s, a);
    moved := Migrates(moved, s, a, b);
    var es := EntersAuth(moved, s, a);
    assert Exec(es).l.t == Tables(map[b := 0, a := 1], map[s := 1], [Conn(s, b), Conn(s, a)]);
    assert es[..|moved|] == moved && es[|moved|..] == AuthRegions(s, a);
    assert LosesSession(es, |moved|, s, a, b);
  }

  // ---- the removal of another connection of the session ------------------------------------------

  function RemovalOf(k: nat, s: string): seq<Event> {
    [Closes(k), Listens(L.Unlinks(k, s)), Listens(L.ReadsAddress(k)), Listens(L.Unbinds(k))]
  }

  /** Two clients authenticated with the same id, at `a` and then at `b`. */
  lemma TwoJoin(s: string, a: string, b: string) returns (es: seq<Event>)
    requires MayDecode(s) && a != b
    ensures var x := Exec(es);
            && x.l.t == Tables(map[a := 0, b := 1], map[s := 1], [Conn(s, a), Conn(s, b)]) && Idle(x)
            && x.l.removals == map[] && x.clients.Keys == {0, 1}
            && x.clients[0].socket == Some(a) && x.clients[1].socket == Some(b)
  {
    es := FirstJoins(s, a);
    es := Joins(es, 1, s, b);
    assert Exec(es).clients.Keys == {0, 1};
  }

  /** After `k` steps `b` is bound; then another connection closes and is removed, and `b` is unknown. */
  ghost predicate LosesEntry(es: seq<Event>, k: nat, s: string, b: string) {
    && k <= |es| && es[k..] == RemovalOf(0, s)
    && Bound(Exec(es[..k]), b, s) && RoutedTo(Exec(es[..k]), b, 1)
    && Exec(es).clients == Exec(es[..k]).clients && 1 in Exec(es).clients && Exec(es).clients[1].socket == Some(b)
    && Exec(es).closed == {0} && !Exec(es).l.raced && b !in Exec(es).l.t.connections
  }

  /**
   RemoveConnection goes by the session id: when the older of two connections
   with one id closes, it takes the newer one out of both tables.
   */
  lemma OldCloseRemovesNewer(s: string, a: string, b: string)
    requires MayDecode(s) && a != b
    ensures exists es, k: nat :: LosesEntry(es, k, s, b)
  {
    var two := TwoJoin(s, a, b);
    var es := RemovesOlder(two, s, a, b);
    assert es[..|two|] == two && es[|two|..] == RemovalOf(0, s);
    assert LosesEntry(es, |two|, s, b);
  }

  /** A connection closes, and its removal takes out whatever connection has its session. */
  lemma ClosesAndUnlinks(es: seq<Event>, k: nat, s: string) returns (more: seq<Event>)
    requires var x := Exec(es);
             && Registered(x.l, k) && k !in x.closed && k !in x.l.removals && x.l.t.conns[k].session == s
             && s in x.l.t.sessions
    ensures more == es + [Closes(k), Listens(L.Unlinks(k, s))]
    ensures var x, y := Exec(es), Exec(more);
            && y.l.t == SessionDropped(x.l.t, s) && y.l.removals == x.l.removals[k := L.Unlinked(x.l.t.sessions[s])]
            && y.l.handler == x.l.handler && y.l.reused == x.l.reused
            && y.l.raced == (x.l.raced || L.Migrating(x.l, x.l.t.sessions[s]))
            && y == x.(l := y.l, closed := x.closed + {k}, now := x.now + 2)
  {
    more := Then(es, Closes(k));
    more := Then(more, Listens(L.Unlinks(k, s)));
  }

  /** The removal reads the address of the connection it took out. */
  lemma ReadsAddress(es: seq<Event>, k: nat) returns (more: seq<Event>)
    requires var l := Exec(es).l; k in l.removals && l.removals[k].Unlinked? && l.removals[k].id < |l.t.conns|
    ensures more == es + [Listens(L.ReadsAddress(k))]
    ensures var x := Exec(es);
            var id := x.l.removals[k].id;
            Exec(more) == x.(l := x.l.(removals := x.l.removals[k := L.Read(id, x.l.t.conns[id].addr)]),
                             now := x.now + 1)
  {
    more := Then(es, Listens(L.ReadsAddress(k)));
  }

  /** It deletes what is in the table for that address. */
  lemma UnbindsEntry(es: seq<Event>, k: nat) returns (more: seq<Event>)
    requires var l := Exec(es).l; k in l.removals && l.removals[k].Read?
    ensures more == es + [Listens(L.Unbinds(k))]
    ensures var x, y := Exec(es), Exec(more);
            && y.l.t == Unbound(x.l.t, x.l.removals[k].addr) && y.l.raced == x.l.raced && y.l.reused == x.l.reused
            && y == x.(l := y.l, now := x.now + 1)
  {
    more := Then(es, Listens(L.Unbinds(k)));
  }

  lemma RemovesOlder(two: seq<Event>, s: string, a: string, b: string) returns (es: seq<Event>)
    requires var x := Exec(two);
             && x.l.t == Tables(map[a := 0, b := 1], map[s := 1], [Conn(s, a), Conn(s, b)]) && Idle(x)
             && x.l.removals == map[]
    requires a != b
    ensures es == two + RemovalOf(0, s)
    ensures var x, y := Exec(two), Exec(es);
            y.l.t.connections == map[a := 0] && y.clients == x.clients && y.closed == {0} && !y.l.raced
  {
    es := ClosesAndUnlinks(two, 0, s);
    es := ReadsAddress(es, 0);
    es := UnbindsEntry(es, 0);
    assert map[a := 0, b := 1] - {b} == map[a := 0];
  }

  // ---- a connection that lost its session answers --------------------------------------------------

  /** A handshake succeeded through a connection that is listed, but was not its session's when it found itself open. */
  ghost predicate AnsweredByLost(es: seq<Event>, s: string, a: string) {
    var x := Exec(es);
    && Idle(x) && 0 in x.clients && x.clients[0].socket == Some(a) && x.clients[0].sessionId == s
    && x.clients[0].accepted.Some? && x.clients[0].accepted.value.SynAckMsg?
    && var m := x.clients[0].accepted.value;
       && ListedAt(es, m.at, m.id) && AddressKept(es, m.at, a, m.id) && SessionKept(es, m.at, s)
       && !LiveAt(es, m.at, m.id) && RoutedTo(x, a, m.id) && !Bound(x, a, s)
  }

  /** Where no region runs and nothing closes, addresses and sessions stay. */
  lemma QuietKeeps(es: seq<Event>, start: nat, addr: string, id: nat, s: string)
    requires forall j :: start <= j < |es| ==> !es[j].Listens? && !es[j].Closes?
    ensures AddressKept(es, start, addr, id) && SessionKept(es, start, s)
  {
  }

  lemma TestChangesNothing(before: seq<Event>, more: seq<Event>, id: nat)
    requires more != [] && more[0] == Answers(id)
    ensures Exec((before + more)[..|before| + 1]).l == Exec(before).l
  {
    var tested := (before + more)[..|before| + 1];
    assert tested[..|before|] == before && tested[|before|] == Answers(id);
    ListenerMoves(Exec(before), Answers(id));
  }

  lemma LostIsListed(l: L.State, s: string, a: string, b: string)
    requires l.t == Tables(map[a := 0, b := 1], map[s := 1], [Conn(s, a), Conn(s, b)]) && a != b
    ensures Listed(l, 0) && !Live(l.t, 0)
  {
  }

  /**
   A client's first SYN-ACK is lost, a second client with the same id joins at
   `b`, and the first one's next SYN is answered by its connection.
   */
  lemma LostSessionAnswers(s: string, a: string, b: string)
    requires MayDecode(s) && a != b
    ensures exists es :: AnsweredByLost(es, s, a)
  {
    var before := LosesAnswer(s, a, b);
    var es := AnsweredAndAccepted(before, s, a, b);
    LostIsListed(Exec(before).l, s, a, b);
    assert AnsweredByLost(es, s, a);
  }

  lemma AnsweredAndAccepted(before: seq<Event>, s: string, a: string, b: string) returns (es: seq<Event>)
    requires MayDecode(s) && a != b && AnswerLost(Exec(before), s, a, b)
    ensures var x, y, m := Exec(before), Exec(es), SynAckMsg(a, s, 0, |before| + 1);
            && y.l == x.l && Idle(y) && 0 in y.clients && y.clients[0] == Client(s, s, a, Some(a), Some(m), None)
            && m.at <= |es| && Exec(es[..m.at]).l == x.l
            && AddressKept(es, m.at, a, 0) && SessionKept(es, m.at, s)
  {
    RunKeepsInv(before);
    var m := SynAckMsg(a, s, 0, |before| + 1);
    var more := [Answers(0), AnswerReads(0), AnswerGoesOut(0), Ends(0, H.Receives(H.SynAck(s)), m)];
    es := AnswersItself(before, 0);
    es := Accepts(es, 0, m);
    assert es == before + more;
    TestChangesNothing(before, more, 0);
    QuietKeeps(es, m.at, a, 0, s);
  }

  /** Two connections of one session, and a client whose second SYN was given to the older one. */
  ghost predicate AnswerLost(x: State, s: string, a: string, b: string) {
    && x.l.t == Tables(map[a := 0, b := 1], map[s := 1], [Conn(s, a), Conn(s, b)]) && Idle(x)
    && 0 in x.waiting && 0 in x.clients
    && x.clients[0] == NOBODY.(uuid := s, exchange := Some(Exchange(a, false, [H.ReadTimesOut], true)))
  }

  /** One client was answered and has not read it, another one with its id joined. */
  lemma SecondJoins(s: string, a: string, b: string) returns (es: seq<Event>)
    requires MayDecode(s) && a != b
    ensures var x := Exec(es);
            && x.l.t == Tables(map[a := 0, b := 1], map[s := 1], [Conn(s, a), Conn(s, b)]) && Idle(x)
            && 0 in x.clients && x.clients[0] == Dialling(s, a)
  {
    es := IsAnswered([], 0, s, a);
    assert Exec(es).l.t == Tables(map[a := 0], map[s := 0], [Conn(s, a)]);
    es := Joins(es, 1, s, b);
  }

  /** Up to the second SYN of the first client. */
  lemma LosesAnswer(s: string, a: string, b: string) returns (es: seq<Event>)
    requires MayDecode(s) && a != b
    ensures AnswerLost(Exec(es), s, a, b)
  {
    es := SecondJoins(s, a, b);
    es := WritesAgain(es, 0);
    es := Dispatches(es, a, Auth(s));
  }

  // ---- a removal that hits a migration ---------------------------------------------------------------

  /**
   After `k` steps `a` is bound; then a removal of another connection, which had
   read `a` earlier, deletes its entry.
   */
  ghost predicate LosesEntryToRace(es: seq<Event>, k: nat, s: string, a: string) {
    && k <= |es| && es[k..] == [Listens(L.Unbinds(0))]
    && Bound(Exec(es[..k]), a, s) && RoutedTo(Exec(es[..k]), a, 1)
    && 1 in Exec(es).clients && Exec(es).clients[1].socket == Some(a) && Exec(es).closed == {0} && !Exec(es).l.reused
    && s in Exec(es).l.t.sessions && Exec(es).l.t.sessions[s] == 1 && a !in Exec(es).l.t.connections
  }

  /**
   A client's connection closes while its migration from `a` to `b` is under
   way, and its removal reads `a`. A second client joins at `a`, and then the
   removal deletes its entry.
   */
  lemma RaceTakesAddress(s: string, a: string, b: string)
    requires MayDecode(s) && a != b
    ensures exists es, k: nat :: LosesEntryToRace(es, k, s, a)
  {
    var raced := RacedMigration(s, a, b);
    var joined := JoinsOldAddress(raced, s, a, b);
    var es := UnbindsEntry(joined, 0);
    assert map[b := 0, a := 1] - {a} == map[b := 0];
    assert es[..|joined|] == joined && es[|joined|..] == [Listens(L.Unbinds(0))];
    assert LosesEntryToRace(es, |joined|, s, a);
  }

  /** The migration is found, and the connection's removal reads the old address. */
  lemma RemovalHits(s: string, a: string, b: string) returns (es: seq<Event>)
    requires MayDecode(s) && a != b
    ensures var x := Exec(es);
            && x.l.t == Tables(map[a := 0], map[], [Conn(s, a)]) && x.l.handler == L.Found(0, b)
            && x.l.removals == map[0 := L.Read(0, a)] && !x.l.reused
            && x.closed == {0} && x.clients.Keys == {0} && x.replying.None? && x.answering == map[]
  {
    es := FirstJoins(s, a);
    es := OpensMigration(es, 0, b);
    es := FindsMigration(es, s, b);
    assert Exec(es).l.handler == L.Found(0, b) && !Exec(es).l.reused;
    es := ClosesAndUnlinks(es, 0, s);
    assert map[s := 0] - {s} == map[];
    es := ReadsAddress(es, 0);
  }

  /** The migration goes on to its end. */
  lemma RacedMigration(s: string, a: string, b: string) returns (es: seq<Event>)
    requires MayDecode(s) && a != b
    ensures Raced(Exec(es), s, a, b)
  {
    es := RemovalHits(s, a, b);
    es := WritesAddress(es);
    assert Exec(es).l.t == Tables(map[a := 0], map[], [Conn(s, b)]);
    es := UpdatesTable(es);
    assert map[a := 0] - {a} == map[];
    es := RepliesOut(es);
  }

  ghost predicate Raced(x: State, s: string, a: string, b: string) {
    && x.l.t == Tables(map[b := 0], map[], [Conn(s, b)]) && x.l.handler.Ready?
    && x.l.removals == map[0 := L.Read(0, a)] && !x.l.reused
    && x.closed == {0} && x.clients.Keys == {0} && x.replying.None? && x.answering == map[]
  }

  /** A second client finishes its handshake at the address left behind. */
  lemma JoinsOldAddress(raced: seq<Event>, s: string, a: string, b: string) returns (es: seq<Event>)
    requires MayDecode(s) && a != b && Raced(Exec(raced), s, a, b)
    ensures var x := Exec(es);
            && x.l.t == Tables(map[b := 0, a := 1], map[s := 1], [Conn(s, b), Conn(s, a)])
            && x.l.removals == map[0 := L.Read(0, a)] && !x.l.reused && x.closed == {0}
            && 1 in x.clients && x.clients[1].socket == Some(a)
  {
    es := Joins(raced, 1, s, a);
  }

  // ---- the write of a SYN-ACK -----------------------------------------------------------------------

  /**
   The client's SYN-ACK is written by step `k`; nothing after that step takes
   the address, and the connection is closed.
   */
  ghost predicate SentTooLate(es: seq<Event>, k: nat, a: string) {
    var x := Exec(es);
    && k < |es| && !x.l.raced && !x.l.reused && 0 in x.clients
    && x.clients[0].socket == Some(a) && x.clients[0].accepted.Some? && x.clients[0].accepted.value.SynAckMsg?
    && var m := x.clients[0].accepted.value;
       && m !in Exec(es[..k]).wire && m in Exec(es[..k + 1]).wire
       && AddressKept(es, k + 1, a, m.id) && !Held(x, a, m.id)
  }

  /** A connection that closes between its registration and the read loop's SYN-ACK. */
  lemma ClosesBeforeAnswer(s: string, a: string) returns (es: seq<Event>)
    requires MayDecode(s)
    ensures var x := Exec(es);
            && x.closed == {0} && !x.l.raced && !x.l.reused && x.clients == map[0 := Dialling(s, a)]
            && x.wire == {SynMsg(a, Auth(s))} && x.replying == Some(SynAckMsg(a, s, 0, 5))
  {
    es := Opens([], 0, s, a);
    assert Exec(es).wire == {SynMsg(a, Auth(s))};
    es := EntersAuth(es, s, a);
    es := Then(es, Closes(0));
  }

  /**
   Why the agreement counts from the step a SYN-ACK reports, and not from the
   step that writes it: the connection may close between the two.
   */
  lemma SentAfterClose(s: string, a: string)
    requires MayDecode(s)
    ensures exists es, k: nat :: SentTooLate(es, k, a)
  {
    var before := ClosesBeforeAnswer(s, a);
    var sent := RepliesOut(before);
    var m := SynAckMsg(a, s, 0, 5);
    var es := Accepts(sent, 0, m);
    assert es[..|before| + 1] == sent && es[..|before|] == before;
    QuietKeeps(es, |before| + 1, a, 0, s);
    assert SentTooLate(es, |before|, a);
  }

  // ---- an address that serves two sessions -------------------------------------------------------------

  /** A client's handshake succeeded, and it was given another session than it asked for. */
  ghost predicate Misled(es: seq<Event>, c: nat, s: string) {
    var x := Exec(es);
    && Idle(x) && c in x.clients && x.clients[c].socket.Some?
    && x.clients[c].sessionId == s && x.clients[c].uuid != s
  }

  /**
   The listener's protocol lets an address that served one session serve a
   client of another while its connection is still known: the connection
   answers its SYN with the first session. Clients made by DialWithConfig share
   one id per listener, so they do not get there.
   */
  lemma SharedAddressMisleads(s: string, r: string, a: string)
    requires MayDecode(s) && r != s
    ensures exists es :: Misled(es, 1, s)
  {
    var es := FirstJoins(s, a);
    es := Opens(es, 1, r, a);
    es := Dispatches(es, a, Auth(r));
    var n := Exec(es).now;
    es := AnswersItself(es, 0);
    es := Accepts(es, 1, SynAckMsg(a, s, 0, n + 1));
    assert Misled(es, 1, s);
  }
}
