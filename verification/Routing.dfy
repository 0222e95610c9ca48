/**
 What a SYN-ACK tells the client that gets it: how long the listener routes the
 client's address to the connection that answered, and to its session. The
 per-step statements hold in every state that can be reached, whatever races.
 */
module Routing {
  import opened Base
  import opened Listening
  import opened Agreement
  import L = ListenerRegions

  // ---- an address and a connection ---------------------------------------------------------

  /** A migration of this connection to this address has written the address and not yet the table. */
  predicate Pending(l: L.State, addr: string, id: nat) {
    l.handler.Addressed? && l.handler.id == id && l.handler.addr == addr
  }

  /** The address is in the table for this connection, or a migration is about to enter it. */
  ghost predicate Holds(l: L.State, addr: string, id: nat) {
    (addr in l.t.connections && l.t.connections[addr] == id) || Pending(l, addr, id)
  }

  ghost predicate Held(x: State, addr: string, id: nat) {
    id !in x.closed && Holds(x.l, addr, id)
  }

  /**
   The steps after which an open connection no longer has this address: it
   closes, it is entered under another address, another connection leaves the
   address behind, or a removal deletes it, unless the connection's own
   migration will enter it again.
   */
  predicate Frees(x: State, e: Event, addr: string, id: nat) {
    && Enabled(x, e)
    && match e
       case Closes(other) => other == id
       case Listens(e) =>
         var h := x.l.handler;
         || (e.Rebinds? && if h.id == id then h.addr != addr else h.from == addr)
         || (e.Unbinds? && x.l.removals[e.k].addr == addr && !Pending(x.l, addr, id))
       case _ => false
  }

  lemma RebindKeepsHoldIff(x: State, addr: string, id: nat)
    requires L.Wired(x.l) && Held(x, addr, id) && Enabled(x, Listens(L.Rebinds))
    ensures Held(Step(x, Listens(L.Rebinds)), addr, id) <==> !Frees(x, Listens(L.Rebinds), addr, id)
  {
  }

  lemma OthersKeepHold(x: State, e: L.Event, addr: string, id: nat)
    requires L.Wired(x.l) && Held(x, addr, id) && Enabled(x, Listens(e)) && !e.Rebinds? && !e.Unbinds?
    ensures Held(Step(x, Listens(e)), addr, id)
  {
    ListenerMoves(x, Listens(e));
    assert Holds(L.Step(x.l, e), addr, id);
  }

  lemma ListenerKeepsHoldIff(x: State, e: L.Event, addr: string, id: nat)
    requires L.Wired(x.l) && Held(x, addr, id) && Enabled(x, Listens(e))
    ensures Held(Step(x, Listens(e)), addr, id) <==> !Frees(x, Listens(e), addr, id)
  {
    if e.Rebinds? {
      RebindKeepsHoldIff(x, addr, id);
    } else if !e.Unbinds? {
      OthersKeepHold(x, e, addr, id);
    }
  }

  /** An open connection keeps an address by a step exactly if the step is none of those. */
  lemma HeldKeptIff(x: State, e: Event, addr: string, id: nat)
    requires L.Wired(x.l) && Held(x, addr, id)
    ensures Held(Step(x, e), addr, id) <==> !Frees(x, e, addr, id)
  {
    if Enabled(x, e) && e.Listens? {
      ListenerKeepsHoldIff(x, e.e, addr, id);
    }
  }

  // ---- a session and a connection ----------------------------------------------------------

  /**
   The steps after which a session is no longer its connection's: another AUTH
   for it is entered, or a removal takes it out.
   */
  predicate Ousts(x: State, e: Event, s: string) {
    && Enabled(x, e) && e.Listens?
    && match e.e
       case InsertsSession => x.l.t.conns[x.l.handler.id].session == s
       case Unlinks(_, session) => session == s
       case _ => false
  }

  lemma InsertOustsIff(l: L.State, id: nat)
    requires L.Wired(l) && Live(l.t, id) && L.Enabled(l, L.InsertsSession)
    ensures Live(L.Step(l, L.InsertsSession).t, id) <==> l.t.conns[l.handler.id].session != l.t.conns[id].session
  {
    assert id != l.handler.id;
  }

  lemma UnlinkOustsIff(l: L.State, k: nat, session: string, id: nat)
    requires Live(l.t, id) && L.Enabled(l, L.Unlinks(k, session))
    ensures Live(L.Step(l, L.Unlinks(k, session)).t, id) <==> session != l.t.conns[id].session
  {
  }

  lemma OthersKeepLive(l: L.State, e: L.Event, id: nat)
    requires Live(l.t, id) && !e.InsertsSession? && !e.Unlinks?
    ensures Live(L.Step(l, e).t, id)
  {
    SessionsFixed(l, e);
    assert L.Step(l, e).t.sessions == l.t.sessions;
  }

  /** A connection keeps its session by a step exactly if the step is none of those. */
  lemma LiveKeptIff(x: State, e: Event, id: nat)
    requires L.Wired(x.l) && Live(x.l.t, id)
    ensures Live(Step(x, e).l.t, id) <==> !Ousts(x, e, x.l.t.conns[id].session)
  {
    ListenerMoves(x, e);
    if Enabled(x, e) && e.Listens? {
      match e.e
      case InsertsSession => InsertOustsIff(x.l, id);
      case Unlinks(k, session) => UnlinkOustsIff(x.l, k, session, id);
      case _ => OthersKeepLive(x.l, e.e, id);
    }
  }

  // ---- an address and a session --------------------------------------------------------------

  /** The address belongs to the session's open connection. */
  ghost predicate Bound(x: State, addr: string, s: string) {
    s in x.l.t.sessions && Held(x, addr, x.l.t.sessions[s])
  }

  predicate Takes(x: State, e: Event, addr: string, s: string) {
    s in x.l.t.sessions && (Frees(x, e, addr, x.l.t.sessions[s]) || Ousts(x, e, s))
  }

  /** A connection that is just entered has no address that another one has. */
  lemma OustedIsUnbound(x: State, e: Event, addr: string, s: string)
    requires L.Wired(x.l) && Bound(x, addr, s) && Ousts(x, e, s)
    ensures !Bound(Step(x, e), addr, s)
  {
    ListenerMoves(x, e);
  }

  /**
   In every state that can be reached, with races, reuse and shared addresses:
   an address bound to a session's open connection stays so by a step exactly
   if the step neither takes the address from that connection nor the session.
   */
  lemma BoundKeptIff(x: State, e: Event, addr: string, s: string)
    requires Inv(x) && Bound(x, addr, s)
    ensures Bound(Step(x, e), addr, s) <==> !Takes(x, e, addr, s)
  {
    var id := x.l.t.sessions[s];
    HeldKeptIff(x, e, addr, id);
    LiveKeptIff(x, e, id);
    if Ousts(x, e, s) {
      OustedIsUnbound(x, e, addr, s);
    } else {
      SessionStays(x, e, id);
    }
  }

  lemma SessionStays(x: State, e: Event, id: nat)
    requires id < |x.l.t.conns|
    ensures id < |Step(x, e).l.t.conns| && Step(x, e).l.t.conns[id].session == x.l.t.conns[id].session
  {
    ListenerMoves(x, e);
    if e.Listens? {
      SessionsFixed(x.l, e.e);
    }
  }

  // ---- stretches of a run ---------------------------------------------------------------------

  /** Nothing in this stretch of the run took the address from the connection. */
  ghost predicate AddressKept(es: seq<Event>, start: nat, addr: string, id: nat) {
    forall j :: start <= j < |es| ==> !Frees(Exec(es[..j]), es[j], addr, id)
  }

  /** Nothing in this stretch of the run took the session from its connection. */
  ghost predicate SessionKept(es: seq<Event>, start: nat, s: string) {
    forall j :: start <= j < |es| ==> !Ousts(Exec(es[..j]), es[j], s)
  }

  lemma AddressKeptBefore(es: seq<Event>, start: nat, addr: string, id: nat)
    requires es != [] && AddressKept(es, start, addr, id)
    ensures AddressKept(es[..|es| - 1], start, addr, id)
    ensures start < |es| ==> !Frees(Exec(es[..|es| - 1]), es[|es| - 1], addr, id)
  {
    var init := es[..|es| - 1];
    forall j | start <= j < |init| ensures !Frees(Exec(init[..j]), init[j], addr, id) {
      assert init[..j] == es[..j];
    }
  }

  lemma SessionKeptOneMore(es: seq<Event>, start: nat, s: string)
    requires start < |es|
    ensures SessionKept(es, start, s) <==>
              SessionKept(es[..|es| - 1], start, s) && !Ousts(Exec(es[..|es| - 1]), es[|es| - 1], s)
  {
    var init := es[..|es| - 1];
    assert forall j :: 0 <= j < |init| ==> init[..j] == es[..j] && init[j] == es[j];
  }

  lemma Earlier(es: seq<Event>, start: nat)
    requires start < |es|
    ensures es[..|es| - 1][..start] == es[..start]
  {
  }

  /** The connection is open, and if this is its address, the address is its own. */
  ghost predicate Faithful(x: State, addr: string, id: nat) {
    && id < |x.l.t.conns| && id !in x.closed
    && (x.l.t.conns[id].addr == addr ==> Holds(x.l, addr, id))
  }

  lemma OpenKept(x: State, e: Event, addr: string, id: nat)
    requires id !in x.closed && !Frees(x, e, addr, id)
    ensures id !in Step(x, e).closed
  {
  }

  /** A connection's address changes by the write of a migration only. */
  lemma AddressIsPending(l: L.State, e: L.Event, addr: string, id: nat)
    requires id < |l.t.conns| && l.t.conns[id].addr != addr
    ensures id < |L.Step(l, e).t.conns|
    ensures L.Step(l, e).t.conns[id].addr == addr ==> Pending(L.Step(l, e), addr, id)
  {
  }

  lemma NewAddressHeld(x: State, e: Event, addr: string, id: nat)
    requires id < |x.l.t.conns| && x.l.t.conns[id].addr != addr
    ensures id < |Step(x, e).l.t.conns|
    ensures Step(x, e).l.t.conns[id].addr == addr ==> Holds(Step(x, e).l, addr, id)
  {
    ListenerMoves(x, e);
    if e.Listens? {
      AddressIsPending(x.l, e.e, addr, id);
    }
  }

  /** A connection that gets a new address holds it at once. */
  lemma FaithfulKept(x: State, e: Event, addr: string, id: nat)
    requires L.Wired(x.l) && Faithful(x, addr, id) && !Frees(x, e, addr, id)
    ensures Faithful(Step(x, e), addr, id)
  {
    OpenKept(x, e, addr, id);
    if x.l.t.conns[id].addr == addr {
      SessionStays(x, e, id);
      HeldKeptIff(x, e, addr, id);
    } else {
      NewAddressHeld(x, e, addr, id);
    }
  }

  lemma {:induction false} FaithfulSince(es: seq<Event>, start: nat, addr: string, id: nat)
    requires start <= |es| && Faithful(Exec(es[..start]), addr, id) && AddressKept(es, start, addr, id)
    ensures Faithful(Exec(es), addr, id)
    decreases |es|
  {
    if start < |es| {
      Earlier(es, start);
      AddressKeptBefore(es, start, addr, id);
      FaithfulSince(es[..|es| - 1], start, addr, id);
      RunKeepsInv(es[..|es| - 1]);
      FaithfulKept(Exec(es[..|es| - 1]), es[|es| - 1], addr, id);
    } else {
      assert es[..start] == es;
    }
  }

  lemma RegisteredStays(x: State, e: Event, id: nat)
    requires L.Wired(x.l) && Registered(x.l, id)
    ensures Registered(Step(x, e).l, id)
  {
    ListenerMoves(x, e);
    if e.Listens? {
      RegisteredKept(x.l, e.e, id);
    }
  }

  /** A registered connection without its session never gets it again. */
  lemma LostStaysLost(l: L.State, e: L.Event, id: nat)
    requires Registered(l, id) && !Live(l.t, id)
    ensures !Live(L.Step(l, e).t, id)
  {
    SessionsFixed(l, e);
    if e.InsertsSession? {
      assert L.Enabled(l, e) ==> l.handler.id != id;
    } else {
      SessionsShrink(l, e);
    }
  }

  lemma SessionsShrink(l: L.State, e: L.Event)
    requires !e.InsertsSession?
    ensures forall s <- L.Step(l, e).t.sessions :: s in l.t.sessions && l.t.sessions[s] == L.Step(l, e).t.sessions[s]
  {
  }

  ghost predicate Known(x: State, id: nat, s: string) {
    Registered(x.l, id) && x.l.t.conns[id].session == s
  }

  lemma StepKeepsLiveIff(x: State, e: Event, id: nat, s: string)
    requires L.Wired(x.l) && Known(x, id, s)
    ensures Known(Step(x, e), id, s)
    ensures Live(Step(x, e).l.t, id) <==> Live(x.l.t, id) && !Ousts(x, e, s)
  {
    SessionStays(x, e, id);
    RegisteredStays(x, e, id);
    if Live(x.l.t, id) {
      LiveKeptIff(x, e, id);
    } else {
      ListenerMoves(x, e);
      if e.Listens? {
        LostStaysLost(x.l, e.e, id);
      }
    }
  }

  /** A connection that was registered has its session now exactly if it had it then and nothing took it since. */
  lemma {:induction false} LiveSinceIff(es: seq<Event>, start: nat, id: nat, s: string)
    requires start <= |es| && Known(Exec(es[..start]), id, s)
    ensures Known(Exec(es), id, s)
    ensures Live(Exec(es).l.t, id) <==> Live(Exec(es[..start]).l.t, id) && SessionKept(es, start, s)
    decreases |es|
  {
    if start < |es| {
      Earlier(es, start);
      LiveSinceIff(es[..|es| - 1], start, id, s);
      RunKeepsInv(es[..|es| - 1]);
      SessionKeptOneMore(es, start, s);
      StepKeepsLiveIff(Exec(es[..|es| - 1]), es[|es| - 1], id, s);
    } else {
      assert es[..start] == es;
    }
  }

  // ---- the step that a SYN-ACK reports ----------------------------------------------------------

  /** A SYN-ACK that can be decoded, on the wire or on its way to it. */
  ghost predicate UnderWay(x: State, m: Message) {
    && m.SynAckMsg? && MayDecode(m.payload)
    && (m in x.wire || x.replying == Some(m) || exists id :: id in x.answering && x.answering[id] == Drafted(m))
  }

  /**
   Where a decodable SYN-ACK comes from: the last region of an AUTH, or an
   answering connection that reads its address.
   */
  lemma NewAck(x: State, e: Event, m: Message)
    requires Inv(x) && UnderWay(Step(x, e), m) && !UnderWay(x, m)
    ensures Enabled(x, e) && AddressedByConn(Step(x, e), m)
    ensures || (e == Listens(L.InsertsSession) && m.id == x.l.handler.id && m.at == x.now + 1)
            || (e == AnswerReads(m.id) && x.answering[m.id] == Tested(m.at))
  {
  }

  /** What is known of the connection at the step its SYN-ACK reports: it is registered and open. */
  ghost predicate Reports(es: seq<Event>, at: nat, id: nat) {
    at <= |es| && Registered(Exec(es[..at]).l, id) && id !in Exec(es[..at]).closed
  }

  lemma ReportsLater(es: seq<Event>, at: nat, id: nat)
    requires es != [] && Reports(es[..|es| - 1], at, id)
    ensures Reports(es, at, id)
  {
    Earlier(es, at);
  }

  ghost predicate TestedAt(x: State, id: nat, at: nat) {
    id in x.answering && x.answering[id] == Tested(at)
  }

  lemma TestedBefore(x: State, e: Event, id: nat, at: nat)
    requires TestedAt(Step(x, e), id, at)
    ensures var y := Step(x, e);
            || TestedAt(x, id, at)
            || (at == x.now + 1 && id in x.waiting && id !in x.closed && y.l == x.l && y.closed == x.closed)
  {
  }

  lemma {:induction false} TestedReports(es: seq<Event>, id: nat, at: nat)
    requires TestedAt(Exec(es), id, at)
    ensures Reports(es, at, id)
    decreases |es|
  {
    if es != [] {
      var init := es[..|es| - 1];
      TestedBefore(Exec(init), es[|es| - 1], id, at);
      if TestedAt(Exec(init), id, at) {
        TestedReports(init, id, at);
        ReportsLater(es, at, id);
      } else {
        TestReports(es, id, at);
      }
    }
  }

  /** The step that tests the flag. */
  lemma {:induction false} TestReports(es: seq<Event>, id: nat, at: nat)
    requires es != []
    requires var x, y := Exec(es[..|es| - 1]), Exec(es);
             at == x.now + 1 && id in x.waiting && id !in x.closed && y.l == x.l && y.closed == x.closed
    ensures Reports(es, at, id)
  {
    RunKeepsInv(es[..|es| - 1]);
    WaitingIsRegistered(Exec(es[..|es| - 1]), id);
    assert es[..|es|] == es;
  }

  lemma WaitingIsRegistered(x: State, id: nat)
    requires Inv(x) && id in x.waiting
    ensures Registered(x.l, id)
  {
  }

  ghost predicate AddressedByConn(x: State, m: Message) {
    m.SynAckMsg? && m.id < |x.l.t.conns| && m.dst == x.l.t.conns[m.id].addr
  }

  lemma {:induction false} NewAckReports(es: seq<Event>, m: Message)
    requires es != [] && UnderWay(Exec(es), m) && !UnderWay(Exec(es[..|es| - 1]), m)
    ensures m.SynAckMsg? && Reports(es, m.at, m.id) && AddressedByConn(Exec(es), m)
  {
    var init := es[..|es| - 1];
    RunKeepsInv(init);
    NewAck(Exec(init), es[|es| - 1], m);
    if es[|es| - 1] == AnswerReads(m.id) {
      TestedReports(init, m.id, m.at);
      ReportsLater(es, m.at, m.id);
    } else {
      assert es[..|es|] == es;
    }
  }

  /** Every decodable SYN-ACK of a run reports a step at which its connection was registered and open. */
  lemma {:induction false} AckReports(es: seq<Event>, m: Message)
    requires UnderWay(Exec(es), m)
    ensures Reports(es, m.at, m.id)
    decreases |es|
  {
    if es != [] {
      if UnderWay(Exec(es[..|es| - 1]), m) {
        AckReports(es[..|es| - 1], m);
        ReportsLater(es, m.at, m.id);
      } else {
        NewAckReports(es, m);
      }
    }
  }

  // ---- what a SYN-ACK tells ----------------------------------------------------------------------

  /** The connection is in the table under its address, or its migration is about to enter it. */
  ghost predicate Listed(l: L.State, id: nat) {
    id < |l.t.conns| && Holds(l, l.t.conns[id].addr, id)
  }

  /** What to ask of the step that a SYN-ACK reports. */
  ghost predicate ListedAt(es: seq<Event>, at: nat, id: nat) {
    at <= |es| && Listed(Exec(es[..at]).l, id)
  }

  ghost predicate LiveAt(es: seq<Event>, at: nat, id: nat) {
    at <= |es| && Live(Exec(es[..at]).l.t, id)
  }

  /**
   What to ask for is always there unless a removal hit a migration before that
   step, or a live session id was reused before it.
   */
  lemma ReportedStep(es: seq<Event>, m: Message)
    requires UnderWay(Exec(es), m)
    ensures Reports(es, m.at, m.id)
    ensures !Exec(es[..m.at]).l.raced && LiveAt(es, m.at, m.id) ==> ListedAt(es, m.at, m.id)
    ensures !Exec(es[..m.at]).l.raced && !Exec(es[..m.at]).l.reused ==> LiveAt(es, m.at, m.id)
  {
    AckReports(es, m);
    RunKeepsInv(es[..m.at]);
    var x := Exec(es[..m.at]);
    if !x.l.raced && Live(x.l.t, m.id) {
      assert L.AtHome(x.l, x.l.t.sessions[x.l.t.conns[m.id].session]);
    }
  }

  lemma ReportIsFaithful(es: seq<Event>, m: Message)
    requires m.SynAckMsg? && Reports(es, m.at, m.id) && ListedAt(es, m.at, m.id)
    ensures Faithful(Exec(es[..m.at]), m.dst, m.id)
  {
  }

  lemma {:induction false} NewAckHeld(es: seq<Event>, m: Message)
    requires es != [] && UnderWay(Exec(es), m) && !UnderWay(Exec(es[..|es| - 1]), m)
    requires ListedAt(es, m.at, m.id) && AddressKept(es, m.at, m.dst, m.id)
    ensures Held(Exec(es), m.dst, m.id)
  {
    NewAckReports(es, m);
    ReportIsFaithful(es, m);
    FaithfulSince(es, m.at, m.dst, m.id);
  }

  lemma {:induction false} OldAckHeld(es: seq<Event>, m: Message)
    requires es != [] && m.SynAckMsg? && m.at < |es| && Held(Exec(es[..|es| - 1]), m.dst, m.id)
    requires AddressKept(es, m.at, m.dst, m.id)
    ensures Held(Exec(es), m.dst, m.id)
  {
    RunKeepsInv(es[..|es| - 1]);
    AddressKeptBefore(es, m.at, m.dst, m.id);
    HeldKeptIff(Exec(es[..|es| - 1]), es[|es| - 1], m.dst, m.id);
  }

  /**
   In every run: a SYN-ACK that can be decoded was sent to an address that
   still is its open connection's, if the connection was listed at the step the
   SYN-ACK reports and nothing took the address from it since.
   */
  lemma {:induction false} SynAckMeansHeld(es: seq<Event>, m: Message)
    requires UnderWay(Exec(es), m) && ListedAt(es, m.at, m.id) && AddressKept(es, m.at, m.dst, m.id)
    ensures Held(Exec(es), m.dst, m.id)
    decreases |es|
  {
    if es != [] {
      var init := es[..|es| - 1];
      if UnderWay(Exec(init), m) {
        AckReports(init, m);
        Earlier(es, m.at);
        AddressKeptBefore(es, m.at, m.dst, m.id);
        SynAckMeansHeld(init, m);
        OldAckHeld(es, m);
      } else {
        NewAckHeld(es, m);
      }
    }
  }

  /** The connection a SYN-ACK comes from has the session it names. */
  lemma AckNames(x: State, m: Message)
    requires Inv(x) && UnderWay(x, m)
    ensures m.id < |x.l.t.conns| && m.payload == x.l.t.conns[m.id].session && (m.dst, m.payload) in x.used
  {
    assert MessageTrue(m, x.l.t.conns, x.used);
  }

  /**
   The connection is its session's now exactly if it was at the step the
   SYN-ACK reports and nothing took that since.
   */
  lemma SessionOfAckIff(es: seq<Event>, m: Message)
    requires UnderWay(Exec(es), m)
    ensures m.payload in Exec(es).l.t.sessions && Exec(es).l.t.sessions[m.payload] == m.id <==>
              LiveAt(es, m.at, m.id) && SessionKept(es, m.at, m.payload)
  {
    RunKeepsInv(es);
    AckNames(Exec(es), m);
    AckReports(es, m);
    LiveSinceIff(es, m.at, m.id, Exec(es[..m.at]).l.t.conns[m.id].session);
  }

  /**
   And the address is bound to the session it names, if the connection also had
   its session at that step and nothing took it since.
   */
  lemma SynAckMeansBound(es: seq<Event>, m: Message)
    requires UnderWay(Exec(es), m) && ListedAt(es, m.at, m.id) && LiveAt(es, m.at, m.id)
    requires AddressKept(es, m.at, m.dst, m.id) && SessionKept(es, m.at, m.payload)
    ensures Bound(Exec(es), m.dst, m.payload)
  {
    SynAckMeansHeld(es, m);
    SessionOfAckIff(es, m);
  }

  /** The listener routes this address to this open connection. */
  ghost predicate RoutedTo(x: State, addr: string, id: nat) {
    addr in x.l.t.connections && x.l.t.connections[addr] == id && id !in x.closed
  }

  /** The address speaks for one session only. */
  ghost predicate Single(x: State, addr: string) {
    forall s, r :: (addr, s) in x.used && (addr, r) in x.used ==> s == r
  }

  /**
   Agreement, in every run: a client whose handshake or last migration
   succeeded holds a SYN-ACK addressed to its current socket, from a connection
   of the session it names. If the address of its handshake spoke for one
   session only, the client has the session id it asked for; if its current
   socket did, the SYN-ACK names the client's session.
   */
  lemma SuccessMeansAnswered(es: seq<Event>, c: nat)
    requires c in Exec(es).clients && Exec(es).clients[c].socket.Some?
    ensures var x := Exec(es);
            var cl := x.clients[c];
            && cl.accepted.Some? && UnderWay(x, cl.accepted.value) && cl.accepted.value.dst == cl.socket.value
            && var m := cl.accepted.value;
               && m.id < |x.l.t.conns| && x.l.t.conns[m.id].session == m.payload
               && (Single(x, cl.joined) ==> cl.sessionId == cl.uuid)
               && (Single(x, cl.socket.value) ==> m.payload == cl.sessionId)
  {
    RunKeepsInv(es);
    var x := Exec(es);
    var cl := x.clients[c];
    assert ClientSane(cl, x.wire) && ClientTrue(cl, x.used);
    AckNames(x, cl.accepted.value);
  }

  /**
   And the listener routes the client's socket to that connection, open, or is
   one table update away from it, if the connection was listed at the step the
   SYN-ACK reports and nothing took the address from it since. It is the
   connection of the session the SYN-ACK names exactly if it was at that step
   and nothing took the session since.
   */
  lemma SuccessMeansRouted(es: seq<Event>, c: nat)
    requires c in Exec(es).clients && Exec(es).clients[c].socket.Some?
    ensures var x := Exec(es);
            var cl := x.clients[c];
            && cl.accepted.Some? && cl.accepted.value.SynAckMsg?
            && var m, a := cl.accepted.value, cl.socket.value;
               && (ListedAt(es, m.at, m.id) && AddressKept(es, m.at, a, m.id) ==>
                     && Held(x, a, m.id)
                     && (!x.l.handler.Addressed? ==> RoutedTo(x, a, m.id)))
               && (m.payload in x.l.t.sessions && x.l.t.sessions[m.payload] == m.id <==>
                   LiveAt(es, m.at, m.id) && SessionKept(es, m.at, m.payload))
  {
    SuccessMeansAnswered(es, c);
    var m := Exec(es).clients[c].accepted.value;
    SessionOfAckIff(es, m);
    if ListedAt(es, m.at, m.id) && AddressKept(es, m.at, m.dst, m.id) {
      SynAckMeansHeld(es, m);
    }
  }

  // ---- whose session an answer names ---------------------------------------------------------

  /** The connection that a SYN from here makes answer: the one known here, or the next one to be created. */
  function Responsible(x: State, src: string): nat {
    if src in x.l.t.connections then x.l.t.connections[src] else |x.l.t.conns|
  }

  /** The read loop is about to create connection `n` for this session, or has done so. */
  ghost predicate Creates(l: L.State, n: nat, s: string) {
    || (|l.t.conns| == n && l.handler.Looked? && l.handler.request == Auth(s))
    || (n < |l.t.conns| && l.t.conns[n].session == s)
  }

  lemma CreatesKept(x: State, e: Event, n: nat, s: string)
    requires Creates(x.l, n, s)
    ensures Creates(Step(x, e).l, n, s)
  {
    ListenerMoves(x, e);
    if e.Listens? {
      SessionsFixed(x.l, e.e);
    }
  }

  lemma {:induction false} CreatesSince(es: seq<Event>, start: nat, n: nat, s: string)
    requires start <= |es| && Creates(Exec(es[..start]).l, n, s)
    ensures Creates(Exec(es).l, n, s)
    decreases |es|
  {
    if start < |es| {
      Earlier(es, start);
      CreatesSince(es[..|es| - 1], start, n, s);
      CreatesKept(Exec(es[..|es| - 1]), es[|es| - 1], n, s);
    } else {
      assert es[..start] == es;
    }
  }

  /**
   A SYN reaches the listener at step `start` of a run. Whatever happens before
   and after, the connection that has to answer it answers with the sender's
   session exactly if the address is free, or known for a connection of that
   session.
   */
  lemma AnswerNamesOwnIff(es: seq<Event>, start: nat, src: string, request: Request, m: Message)
    requires start < |es| && es[start] == Listens(L.Receives(src, request))
    requires Enabled(Exec(es[..start]), es[start]) && (request.Auth? || src in Exec(es[..start]).l.t.connections)
    requires UnderWay(Exec(es), m) && m.id == Responsible(Exec(es[..start]), src)
    ensures var t := Exec(es[..start]).l.t;
            && (src in t.connections ==> t.connections[src] < |t.conns|)
            && (m.payload == SessionOf(request) <==>
                src !in t.connections || t.conns[t.connections[src]].session == SessionOf(request))
  {
    RunKeepsInv(es);
    AckNames(Exec(es), m);
    var x := Exec(es[..start]);
    RunKeepsInv(es[..start]);
    if src in x.l.t.connections {
      CreatesSince(es, start, m.id, x.l.t.conns[m.id].session);
    } else {
      assert es[..start + 1][..start] == es[..start];
      assert Creates(Exec(es[..start + 1]).l, m.id, SessionOf(request));
      CreatesSince(es, start + 1, m.id, SessionOf(request));
    }
  }
}
