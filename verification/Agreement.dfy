/**
 Clients, the listener and its connections over a network that loses,
 duplicates, delays and reorders. The listener takes its steps region by
 region; several clients may use one session id.
 */
module Agreement {
  import opened Base
  import opened Listening
  import L = ListenerRegions
  import H = Handshake

  /**
   `id` and `at` are marks for the proofs, which the code does not send: the
   connection a SYN-ACK comes from, and the step it reports, that is, the number
   of steps taken when the listener had bound the connection, or when the
   connection had found itself open.
   */
  datatype Message =
    | SynMsg(src: string, request: Request)
    | SynAckMsg(dst: string, payload: string, id: nat, at: nat)

  /** A handshake or migration under way: its socket, the attempts so far, and whether the current SYN is written. */
  datatype Exchange = Exchange(src: string, migrates: bool, seen: seq<H.Attempt>, written: bool)

  /**
   `uuid` is what the client authenticates with, `sessionId` what its handshake
   gave it, `joined` the address of that handshake; `socket` is the address its
   last successful exchange left it with, `accepted` the SYN-ACK that ended it.
   */
  datatype Client = Client(
    uuid: string, sessionId: string, joined: string,
    socket: Option<string>, accepted: Option<Message>, exchange: Option<Exchange>)

  const NOBODY := Client("", "", "", None, None, None)

  /** A connection that is answering a SYN: its flag was tested, or its address is read too. */
  datatype Answering = Tested(at: nat) | Drafted(m: Message)

  /**
   `wire` holds every message sent so far: the network delivers any of them at
   any time, any number of times or never. `replying` is the SYN-ACK the read
   loop is about to write, `waiting` are the connections with a SYN in their
   channel, `closed` those whose flag is set. `used` lists which address was
   used to speak for which session; `now` counts the steps.
   */
  datatype State = State(
    l: L.State, wire: set<Message>, replying: Option<Message>,
    waiting: set<nat>, answering: map<nat, Answering>, closed: set<nat>,
    clients: map<nat, Client>, used: set<(string, string)>, now: nat)

  const INITIAL := State(L.INITIAL, {}, None, {}, map[], {}, map[], {}, 0)

  /**
   Client `c` dials, migrates, writes its SYN, ends an attempt. A connection
   tests its flag, reads its address, writes its answer, closes.
   */
  datatype Event =
    | Dials(c: nat, uuid: string, src: string)
    | Moves(c: nat, src: string)
    | Writes(c: nat)
    | Ends(c: nat, a: H.Attempt, m: Message)
    | Listens(e: L.Event)
    | Replies
    | Answers(id: nat)
    | AnswerReads(id: nat)
    | AnswerGoesOut(id: nat)
    | Closes(id: nat)

  function ClientOf(x: State, c: nat): Client {
    if c in x.clients then x.clients[c] else NOBODY
  }

  /** Shorter SYN-ACKs are lost on the decoder (Handshake.SynAckDecodableIff), the listener's "OK" among them. */
  predicate MayDecode(payload: string) {
    |payload| >= 11
  }

  function SessionOf(request: Request): string {
    match request
    case Auth(s) => s
    case Migration(s) => s
    case Unknown => ""
  }

  /** What the client's SYN asks for. */
  function Wanted(cl: Client, ex: Exchange): Request {
    if ex.migrates then Migration(cl.sessionId) else Auth(cl.uuid)
  }

  /** The SYN the client writes, as Client.HandshakeClient and Client.Migrate make it. */
  function SynOf(cl: Client, ex: Exchange): Datagram {
    if ex.migrates then SynPacket(true, "MIGRATE:" + cl.sessionId) else SynPacket(false, "AUTH:" + cl.uuid)
  }

  /** The listener reads it as what the client wants. */
  lemma SynIsUnderstood(cl: Client, ex: Exchange)
    ensures var syn := SynOf(cl, ex); Parse(syn.migrate, syn.payload) == Wanted(cl, ex)
  {
    ParseIff(false, "AUTH:" + cl.uuid, cl.uuid);
    ParseIff(true, "MIGRATE:" + cl.sessionId, cl.sessionId);
  }

  /** Its session is entered, and the callback that removes it is set. */
  predicate Registered(x: L.State, id: nat) {
    id < |x.t.conns| && x.handler != L.Inserted(id)
  }

  predicate EndPossible(x: State, ex: Exchange, a: H.Attempt, m: Message) {
    && (a.WriteFails? <==> !ex.written)
    && (!H.Retried(a) && a.Receives? ==>
          m in x.wire && m.SynAckMsg? && m.dst == ex.src && m.payload == a.answer.payload && MayDecode(m.payload))
  }

  predicate ListenerEnabled(x: State, e: L.Event) {
    && L.Enabled(x.l, e)
    && match e
       case Receives(addr, request) => x.replying.None? && SynMsg(addr, request) in x.wire
       case Unlinks(k, s) => k in x.closed && k < |x.l.t.conns| && s == x.l.t.conns[k].session
       case _ => true
  }

  predicate Enabled(x: State, e: Event) {
    match e
    case Dials(c, _, _) => ClientOf(x, c).exchange.None?
    case Moves(c, _) => ClientOf(x, c).exchange.None? && ClientOf(x, c).socket.Some?
    case Writes(c) => ClientOf(x, c).exchange.Some? && !ClientOf(x, c).exchange.value.written
    case Ends(c, a, m) => ClientOf(x, c).exchange.Some? && EndPossible(x, ClientOf(x, c).exchange.value, a, m)
    case Listens(e) => ListenerEnabled(x, e)
    case Replies => x.replying.Some?
    case Answers(id) => id in x.waiting && id !in x.closed && id !in x.answering
    case AnswerReads(id) => id in x.answering && x.answering[id].Tested? && id < |x.l.t.conns|
    case AnswerGoesOut(id) => id in x.answering && x.answering[id].Drafted?
    case Closes(id) => Registered(x.l, id) && id !in x.closed
  }

  /** DialWithConfig makes a new client, Migrate goes on with the old one. */
  function OnStart(x: State, c: nat, cl: Client, ex: Exchange): State {
    x.(clients := x.clients[c := cl.(exchange := Some(ex))],
       used := x.used + {(ex.src, SessionOf(Wanted(cl, ex)))})
  }

  function OnWrite(x: State, c: nat): State
    requires ClientOf(x, c).exchange.Some?
  {
    var cl := ClientOf(x, c);
    var ex := cl.exchange.value;
    x.(wire := x.wire + {SynMsg(ex.src, Wanted(cl, ex))},
       clients := x.clients[c := cl.(exchange := Some(ex.(written := true)))])
  }

  /** The retry loop has its result. */
  predicate Decided(seen: seq<H.Attempt>) {
    |seen| >= H.ATTEMPTS || (seen != [] && !H.Retried(seen[|seen| - 1]))
  }

  function OnEnd(x: State, c: nat, a: H.Attempt, m: Message): State
    requires ClientOf(x, c).exchange.Some?
  {
    var cl := ClientOf(x, c);
    x.(clients := x.clients[c := AfterAttempt(cl, cl.exchange.value, a, m)])
  }

  function AfterSuccess(cl: Client, ex: Exchange, payload: string, m: Message): Client {
    if ex.migrates then cl.(socket := Some(ex.src), accepted := Some(m), exchange := None)
    else Client(cl.uuid, payload, ex.src, Some(ex.src), Some(m), None)
  }

  /** The next attempt, or the end of Client.HandshakeClient or Client.Migrate. */
  function AfterAttempt(cl: Client, ex: Exchange, a: H.Attempt, m: Message): Client {
    var seen := ex.seen + [a];
    if !Decided(seen) then cl.(exchange := Some(ex.(seen := seen, written := false)))
    else
      var r := H.Result(seen, |seen|);
      if r.Succeeded? then AfterSuccess(cl, ex, r.payload, m) else cl.(exchange := None)
  }

  function OnListener(x: State, e: L.Event): State
    requires ListenerEnabled(x, e)
  {
    var x' := x.(l := L.Step(x.l, e));
    match e
    case Receives(addr, _) =>
      if addr in x.l.t.connections then x.(waiting := x.waiting + {x.l.t.connections[addr]}) else x'
    case InsertsSession =>
      var id := x.l.handler.id;
      var conn := x.l.t.conns[id];
      x'.(replying := Some(SynAckMsg(conn.addr, conn.session, id, x.now + 1)))
    case Rebinds => x'.(replying := Some(SynAckMsg(x.l.handler.addr, "OK", x.l.handler.id, x.now + 1)))
    case _ => x'
  }

  /** sendRaw reads the address after the test of the flag, and writes after that. */
  function OnAnswerRead(x: State, id: nat): State
    requires Enabled(x, AnswerReads(id))
  {
    var conn := x.l.t.conns[id];
    x.(answering := x.answering[id := Drafted(SynAckMsg(conn.addr, conn.session, id, x.answering[id].at))])
  }

  function Next(x: State, e: Event): State
    requires Enabled(x, e)
  {
    match e
    case Dials(c, uuid, src) => OnStart(x, c, NOBODY.(uuid := uuid), Exchange(src, false, [], false))
    case Moves(c, src) => OnStart(x, c, ClientOf(x, c), Exchange(src, true, [], false))
    case Writes(c) => OnWrite(x, c)
    case Ends(c, a, m) => OnEnd(x, c, a, m)
    case Listens(e) => OnListener(x, e)
    case Replies => x.(wire := x.wire + {x.replying.value}, replying := None)
    case Answers(id) => x.(answering := x.answering[id := Tested(x.now + 1)])
    case AnswerReads(id) => OnAnswerRead(x, id)
    case AnswerGoesOut(id) => x.(wire := x.wire + {x.answering[id].m}, answering := x.answering - {id})
    case Closes(id) => x.(closed := x.closed + {id})
  }

  function Step(x: State, e: Event): State {
    (if Enabled(x, e) then Next(x, e) else x).(now := x.now + 1)
  }

  function Exec(es: seq<Event>): State {
    if es == [] then INITIAL else Step(Exec(es[..|es| - 1]), es[|es| - 1])
  }

  // ---- the exchange is the client's retry loop -----------------------------------------

  /** What an exchange ends with is what HandshakeClient and Migrate return on these attempts, whatever would follow. */
  lemma {:induction false} ExchangeIsRetryLoop(seen: seq<H.Attempt>, attempts: seq<H.Attempt>, left: nat)
    requires |seen| <= left <= |attempts| && seen <= attempts
    requires seen != [] ==> H.AllRetried(seen[..|seen| - 1])
    requires |seen| == left || (seen != [] && !H.Retried(seen[|seen| - 1]))
    ensures H.Result(seen, |seen|) == H.Result(attempts, left)
    decreases left
  {
    if seen != [] && H.Retried(seen[0]) {
      assert |seen| == 1 ==> left == 1;
      assert |seen| > 1 ==> seen[1..][..|seen| - 2] == seen[..|seen| - 1][1..];
      ExchangeIsRetryLoop(seen[1..], attempts[1..], left - 1);
    }
  }

  /** All but the last attempt failed softly: the result is a success exactly if the last one is a SYN-ACK. */
  lemma {:induction false} LastDecides(seen: seq<H.Attempt>)
    requires seen != [] && H.AllRetried(seen[..|seen| - 1])
    ensures var a := seen[|seen| - 1];
            H.Result(seen, |seen|) == if H.Retried(a) then H.GaveUp
                                      else if a.Receives? then H.Succeeded(a.answer.payload) else H.Failed
    decreases |seen|
  {
    if |seen| > 1 {
      assert seen[1..][..|seen| - 2] == seen[..|seen| - 1][1..];
      assert seen[..|seen| - 1][0] == seen[0];
      LastDecides(seen[1..]);
    } else {
      assert H.Result(seen[1..], 0) == H.GaveUp;
    }
  }

  // ---- what every step keeps -----------------------------------------------------------

  ghost predicate ListenerSound(l: L.State) {
    L.Wired(l) && (!l.raced ==> L.Orderly(l))
  }

  /** Without reuse, a registered connection has its session until its own removal begins. */
  ghost predicate OpenIsLive(l: L.State, closed: set<nat>) {
    && (forall id <- closed :: Registered(l, id))
    && (forall k <- l.removals :: k in closed)
    && (!l.reused ==> forall id: nat :: Registered(l, id) && id !in l.removals ==> Live(l.t, id))
  }

  /** Nothing is answered by a connection that is not registered. */
  ghost predicate AnswersRegistered(x: State) {
    && (forall id <- x.waiting :: Registered(x.l, id))
    && (forall id <- x.answering :: Registered(x.l, id))
  }

  /** A client that succeeded got its SYN-ACK at the socket it uses. */
  ghost predicate ClientSane(cl: Client, wire: set<Message>) {
    && (cl.socket.Some? ==>
          && cl.accepted.Some? && cl.accepted.value in wire && cl.accepted.value.SynAckMsg?
          && cl.accepted.value.dst == cl.socket.value && MayDecode(cl.accepted.value.payload))
    && (cl.exchange.Some? ==> ExchangeSane(cl, cl.exchange.value))
  }

  ghost predicate ExchangeSane(cl: Client, ex: Exchange) {
    && |ex.seen| < H.ATTEMPTS && H.AllRetried(ex.seen)
    && (ex.migrates ==> cl.socket.Some?)
  }

  ghost predicate ClientsSane(clients: map<nat, Client>, wire: set<Message>) {
    forall c <- clients :: ClientSane(clients[c], wire)
  }

  /**
   Requests come from addresses that speak for their session; an answer that
   can be decoded names its connection's session.
   */
  ghost predicate MessageTrue(m: Message, conns: seq<Conn>, used: set<(string, string)>) {
    match m
    case SynMsg(src, request) => !request.Unknown? && (src, SessionOf(request)) in used
    case SynAckMsg(dst, payload, id, _) =>
      id < |conns| && (MayDecode(payload) ==> payload == conns[id].session && (dst, payload) in used)
  }

  ghost predicate WireTrue(wire: set<Message>, conns: seq<Conn>, used: set<(string, string)>) {
    forall m <- wire :: MessageTrue(m, conns, used)
  }

  /** The SYN-ACKs that are on their way to the wire. */
  ghost predicate DraftsTrue(x: State) {
    && (x.replying.Some? ==> x.replying.value.SynAckMsg? && MessageTrue(x.replying.value, x.l.t.conns, x.used))
    && (forall id <- x.answering :: x.answering[id].Drafted? ==>
          x.answering[id].m.SynAckMsg? && MessageTrue(x.answering[id].m, x.l.t.conns, x.used))
  }

  ghost predicate ConnsTrue(conns: seq<Conn>, used: set<(string, string)>) {
    forall conn <- conns :: (conn.addr, conn.session) in used
  }

  ghost predicate HandlerTrue(h: L.Handler, conns: seq<Conn>, used: set<(string, string)>) {
    match h
    case Looked(addr, request) => !request.Unknown? && (addr, SessionOf(request)) in used
    case Found(id, addr) => id < |conns| && (addr, conns[id].session) in used
    case _ => true
  }

  /** A client's addresses speak for what it wants and for what it was given. */
  ghost predicate ClientTrue(cl: Client, used: set<(string, string)>) {
    && (cl.socket.Some? ==>
          && (cl.socket.value, cl.sessionId) in used
          && (cl.joined, cl.sessionId) in used && (cl.joined, cl.uuid) in used)
    && (cl.exchange.Some? ==> (cl.exchange.value.src, SessionOf(Wanted(cl, cl.exchange.value))) in used)
  }

  ghost predicate ClientsTrue(clients: map<nat, Client>, used: set<(string, string)>) {
    forall c <- clients :: ClientTrue(clients[c], used)
  }

  ghost predicate Truthful(x: State) {
    && WireTrue(x.wire, x.l.t.conns, x.used) && DraftsTrue(x)
    && ConnsTrue(x.l.t.conns, x.used) && HandlerTrue(x.l.handler, x.l.t.conns, x.used)
    && ClientsTrue(x.clients, x.used)
  }

  ghost predicate Inv(x: State) {
    && ListenerSound(x.l) && OpenIsLive(x.l, x.closed) && AnswersRegistered(x)
    && ClientsSane(x.clients, x.wire) && Truthful(x)
  }

  // ---- the clients' steps ----------------------------------------------------------------

  lemma AttemptKeepsSane(cl: Client, ex: Exchange, a: H.Attempt, m: Message, wire: set<Message>)
    requires ClientSane(cl, wire) && cl.exchange == Some(ex)
    requires !H.Retried(a) && a.Receives? ==>
               m in wire && m.SynAckMsg? && m.dst == ex.src && m.payload == a.answer.payload && MayDecode(m.payload)
    ensures ClientSane(AfterAttempt(cl, ex, a, m), wire)
  {
    var seen := ex.seen + [a];
    assert seen[..|seen| - 1] == ex.seen;
    LastDecides(seen);
  }

  /** A decided exchange changes the client exactly if its last attempt got a SYN-ACK. */
  lemma AfterAttemptIs(cl: Client, ex: Exchange, a: H.Attempt, m: Message)
    requires ExchangeSane(cl, ex)
    ensures AfterAttempt(cl, ex, a, m) ==
            if a.Receives? && a.answer.SynAck? then AfterSuccess(cl, ex, a.answer.payload, m)
            else if H.Retried(a) && |ex.seen| + 1 < H.ATTEMPTS
            then cl.(exchange := Some(ex.(seen := ex.seen + [a], written := false)))
            else cl.(exchange := None)
  {
    var seen := ex.seen + [a];
    assert seen[..|seen| - 1] == ex.seen;
    LastDecides(seen);
  }

  lemma ClientKeepsSane(x: State, e: Event)
    requires Inv(x) && Enabled(x, e)
    ensures ClientsSane(Next(x, e).clients, Next(x, e).wire)
  {
    var y := Next(x, e);
    forall c | c in y.clients ensures ClientSane(y.clients[c], y.wire) {
      assert ClientSane(ClientOf(x, c), x.wire);
      if e.Ends? && e.c == c {
        AttemptKeepsSane(ClientOf(x, c), ClientOf(x, c).exchange.value, e.a, e.m, x.wire);
      }
    }
  }

  lemma StartKeepsTrue(x: State, c: nat, cl: Client, ex: Exchange)
    requires Truthful(x) && (cl.socket.Some? ==> ClientTrue(cl, x.used))
    ensures Truthful(OnStart(x, c, cl, ex))
  {
    var y := OnStart(x, c, cl, ex);
    assert forall m: Message :: MessageTrue(m, x.l.t.conns, x.used) ==> MessageTrue(m, y.l.t.conns, y.used);
    assert forall d <- x.clients :: ClientTrue(x.clients[d], y.used);
  }

  lemma WriteKeepsTrue(x: State, c: nat)
    requires Truthful(x) && Enabled(x, Writes(c))
    ensures Truthful(OnWrite(x, c))
  {
    assert ClientTrue(x.clients[c], x.used);
  }

  lemma EndKeepsTrue(x: State, c: nat, a: H.Attempt, m: Message)
    requires Truthful(x) && ClientsSane(x.clients, x.wire) && Enabled(x, Ends(c, a, m))
    ensures Truthful(OnEnd(x, c, a, m))
  {
    var y, cl := OnEnd(x, c, a, m), x.clients[c];
    assert ClientTrue(cl, x.used) && ClientSane(cl, x.wire);
    AfterAttemptIs(cl, cl.exchange.value, a, m);
    assert ClientTrue(y.clients[c], x.used) by {
      if a.Receives? && a.answer.SynAck? {
        assert MessageTrue(m, x.l.t.conns, x.used);
      }
    }
  }

  // ---- the listener's steps ----------------------------------------------------------------

  lemma UnlinkKeepsLive(l: L.State, closed: set<nat>, k: nat)
    requires L.Wired(l) && OpenIsLive(l, closed) && k in closed && k < |l.t.conns|
    requires L.Enabled(l, L.Unlinks(k, l.t.conns[k].session))
    ensures OpenIsLive(L.Step(l, L.Unlinks(k, l.t.conns[k].session)), closed)
  {
    var m := L.Step(l, L.Unlinks(k, l.t.conns[k].session));
    if !m.reused {
      assert Live(l.t, k);
      forall id: nat | Registered(m, id) && id !in m.removals ensures Live(m.t, id) {
        assert Live(l.t, id);
      }
    }
  }

  lemma InsertKeepsLive(l: L.State, closed: set<nat>)
    requires L.Wired(l) && OpenIsLive(l, closed) && L.Enabled(l, L.InsertsSession)
    ensures OpenIsLive(L.Step(l, L.InsertsSession), closed)
  {
    var m := L.Step(l, L.InsertsSession);
    if !m.reused {
      forall id: nat | Registered(m, id) && id !in m.removals ensures Live(m.t, id) {
        if id != l.handler.id {
          assert Live(l.t, id);
        }
      }
    }
  }

  lemma OthersKeepLive(l: L.State, closed: set<nat>, e: L.Event)
    requires L.Wired(l) && OpenIsLive(l, closed) && L.Enabled(l, e) && !e.InsertsSession? && !e.Unlinks?
    ensures OpenIsLive(L.Step(l, e), closed)
  {
    var m := L.Step(l, e);
    assert forall k <- m.removals :: k in l.removals;
    if !m.reused {
      forall id: nat | Registered(m, id) && id !in m.removals ensures Live(m.t, id) {
        assert Registered(l, id);
        assert Live(l.t, id);
      }
    }
  }

  lemma ListenerKeepsSound(x: State, e: L.Event)
    requires ListenerSound(x.l) && OpenIsLive(x.l, x.closed) && ListenerEnabled(x, e)
    ensures ListenerSound(L.Step(x.l, e)) && OpenIsLive(L.Step(x.l, e), x.closed)
  {
    L.StepKeepsWired(x.l, e);
    if !L.Step(x.l, e).raced {
      L.StepKeepsOrderly(x.l, e);
    }
    match e
    case InsertsSession => InsertKeepsLive(x.l, x.closed);
    case Unlinks(k, s) => UnlinkKeepsLive(x.l, x.closed, k);
    case _ => OthersKeepLive(x.l, x.closed, e);
  }

  /** Registered connections stay registered. */
  lemma RegisteredKept(l: L.State, e: L.Event, id: nat)
    requires L.Wired(l) && Registered(l, id)
    ensures Registered(L.Step(l, e), id)
    ensures L.Step(l, e).t.conns[id].session == l.t.conns[id].session
  {
  }

  lemma ListenerKeepsTrue(x: State, e: L.Event)
    requires Truthful(x) && L.Wired(x.l) && ListenerEnabled(x, e)
    ensures ConnsTrue(L.Step(x.l, e).t.conns, x.used)
    ensures HandlerTrue(L.Step(x.l, e).handler, L.Step(x.l, e).t.conns, x.used)
  {
    if e.Receives? {
      assert MessageTrue(SynMsg(e.addr, e.request), x.l.t.conns, x.used);
    }
  }

  /** No connection changes its session. */
  lemma SessionsFixed(l: L.State, e: L.Event)
    ensures |l.t.conns| <= |L.Step(l, e).t.conns|
    ensures forall id: nat :: id < |l.t.conns| ==> L.Step(l, e).t.conns[id].session == l.t.conns[id].session
  {
  }

  lemma ListenerKeepsMessages(x: State, e: L.Event)
    requires Truthful(x) && L.Wired(x.l) && ListenerEnabled(x, e)
    ensures WireTrue(OnListener(x, e).wire, OnListener(x, e).l.t.conns, x.used)
    ensures DraftsTrue(OnListener(x, e))
  {
    var y := OnListener(x, e);
    SessionsFixed(x.l, e);
    assert y.l == x.l || y.l == L.Step(x.l, e);
    assert forall m: Message :: MessageTrue(m, x.l.t.conns, x.used) ==> MessageTrue(m, y.l.t.conns, x.used);
    assert y.answering == x.answering;
  }

  // ---- all steps -------------------------------------------------------------------------------

  lemma ClientStepKeepsInv(x: State, e: Event)
    requires Inv(x) && Enabled(x, e) && (e.Dials? || e.Moves? || e.Writes? || e.Ends?)
    ensures Inv(Next(x, e))
  {
    ClientKeepsSane(x, e);
    match e
    case Dials(c, uuid, src) => StartKeepsTrue(x, c, NOBODY.(uuid := uuid), Exchange(src, false, [], false));
    case Moves(c, src) => StartKeepsTrue(x, c, ClientOf(x, c), Exchange(src, true, [], false));
    case Writes(c) => WriteKeepsTrue(x, c);
    case Ends(c, a, m) => EndKeepsTrue(x, c, a, m);
  }

  lemma ListenerStepKeepsInv(x: State, e: L.Event)
    requires Inv(x) && ListenerEnabled(x, e)
    ensures Inv(OnListener(x, e))
  {
    var y := OnListener(x, e);
    ListenerKeepsSound(x, e);
    assert AnswersRegistered(y) by {
      forall id: nat | Registered(x.l, id) ensures Registered(y.l, id) {
        RegisteredKept(x.l, e, id);
      }
    }
    assert Truthful(y) by {
      ListenerKeepsTrue(x, e);
      ListenerKeepsMessages(x, e);
    }
  }

  lemma AnswerKeepsInv(x: State, e: Event)
    requires Inv(x) && Enabled(x, e)
    requires e.Replies? || e.Answers? || e.AnswerReads? || e.AnswerGoesOut? || e.Closes?
    ensures Inv(Next(x, e))
  {
    ClientKeepsSane(x, e);
  }

  lemma StepKeepsInv(x: State, e: Event)
    requires Inv(x)
    ensures Inv(Step(x, e))
  {
    if Enabled(x, e) {
      match e
      case Listens(e) => ListenerStepKeepsInv(x, e);
      case Dials(_, _, _) => ClientStepKeepsInv(x, e);
      case Moves(_, _) => ClientStepKeepsInv(x, e);
      case Writes(_) => ClientStepKeepsInv(x, e);
      case Ends(_, _, _) => ClientStepKeepsInv(x, e);
      case _ => AnswerKeepsInv(x, e);
    }
  }

  lemma {:induction false} RunKeepsInv(es: seq<Event>)
    ensures Inv(Exec(es)) && Exec(es).now == |es|
  {
    if es != [] {
      RunKeepsInv(es[..|es| - 1]);
      StepKeepsInv(Exec(es[..|es| - 1]), es[|es| - 1]);
    }
  }

  /** The listener moves by its own regions only. */
  lemma ListenerMoves(x: State, e: Event)
    ensures Step(x, e).l == if e.Listens? && ListenerEnabled(x, e.e) then L.Step(x.l, e.e) else x.l
  {
  }
}
