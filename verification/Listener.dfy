/**
 The listener's address and session tables (listener.go). Connections are
 numbered in order of creation; the value `Tables` is what the object's maps
 and the connections' remoteAddr fields say together.
 */
module Listening {
  import opened Base
  import opened Engine
  import opened Fec
  import opened ErasureCode
  import opened Pacing
  import ArqSender
  import ArqReceiver

  datatype Conn = Conn(session: string, addr: string)

  datatype Tables = Tables(connections: map<string, nat>, sessions: map<string, nat>, conns: seq<Conn>)

  const EMPTY := Tables(map[], map[], [])

  /** Packets a connection's delivered channel holds, and its pacer's first rate and burst. */
  const DELIVER_BUFFER: nat := 4096
  const PACER_RATE: nat := 10000
  const PACER_BURST: nat := 64

  const AUTH: string := "AUTH:"
  const MIGRATE: string := "MIGRATE:"

  /** What readLoop makes of a datagram's bytes. */
  datatype Datagram = Undecodable | NotSyn | SynPacket(migrate: bool, payload: string)

  /** What readLoop does with it: hand it to a connection, send the decoy, or handle a SYN. */
  datatype Outcome = Dispatched | Decoy | Answered(reply: Reply)

  /** A SYN-ACK the listener writes itself. */
  datatype Reply = NoReply | SynAck(addr: string, payload: string)

  // ---- one lock-protected region each -------------------------------------------

  /** A new connection enters the connection table, over whatever was there. */
  function ConnectionInserted(t: Tables, addr: string, session: string): Tables {
    t.(connections := t.connections[addr := |t.conns|], conns := t.conns + [Conn(session, addr)])
  }

  function SessionInserted(t: Tables, id: nat): Tables
    requires id < |t.conns|
  {
    t.(sessions := t.sessions[t.conns[id].session := id])
  }

  /** handleMigration's write of remoteAddr, outside any lock. */
  function AddressSet(t: Tables, id: nat, addr: string): Tables
    requires id < |t.conns|
  {
    t.(conns := t.conns[id := Conn(t.conns[id].session, addr)])
  }

  /** handleMigration's update under the connection lock. */
  function Rebound(t: Tables, id: nat, from: string, addr: string): Tables {
    t.(connections := (t.connections - {from})[addr := id])
  }

  function SessionDropped(t: Tables, session: string): Tables {
    t.(sessions := t.sessions - {session})
  }

  function Unbound(t: Tables, addr: string): Tables {
    t.(connections := t.connections - {addr})
  }

  // ---- whole handlers -----------------------------------------------------------

  /** handleSYN for AUTH. */
  function Authed(t: Tables, addr: string, session: string): Tables {
    SessionInserted(ConnectionInserted(t, addr, session), |t.conns|)
  }

  /** handleMigration for a known session. */
  function Migrated(t: Tables, addr: string, session: string): Tables
    requires session in t.sessions && t.sessions[session] < |t.conns|
  {
    var id := t.sessions[session];
    Rebound(AddressSet(t, id, addr), id, t.conns[id].addr, addr)
  }

  function Removed(t: Tables, session: string): Tables
    requires session in t.sessions ==> t.sessions[session] < |t.conns|
  {
    if session !in t.sessions then t
    else Unbound(SessionDropped(t, session), t.conns[t.sessions[session]].addr)
  }

  datatype Request = Auth(session: string) | Migration(session: string) | Unknown

  /** What a SYN asks for. */
  function Parse(migrate: bool, payload: string): Request {
    if migrate then
      if MIGRATE <= payload then Migration(payload[8..]) else Unknown
    else
      if AUTH <= payload then Auth(payload[5..]) else Unknown
  }

  /** Which SYN asks for what, and that every other one asks for nothing. */
  lemma ParseIff(migrate: bool, payload: string, session: string)
    ensures Parse(migrate, payload) == Auth(session) <==> !migrate && payload == "AUTH:" + session
    ensures Parse(migrate, payload) == Migration(session) <==> migrate && payload == "MIGRATE:" + session
    ensures Parse(migrate, payload) == Unknown <==>
              if migrate then !("MIGRATE:" <= payload) else !("AUTH:" <= payload)
  {
    if AUTH <= payload {
      assert payload == "AUTH:" + payload[5..];
    }
    if MIGRATE <= payload {
      assert payload == "MIGRATE:" + payload[8..];
    }
    assert ("AUTH:" + session)[5..] == session && ("MIGRATE:" + session)[8..] == session;
  }

  function SynHandled(t: Tables, addr: string, request: Request): (Tables, Reply)
    requires Consistent(t)
  {
    match request
    case Auth(session) => (Authed(t, addr, session), SynAck(addr, session))
    case Migration(session) =>
      if session in t.sessions then (Migrated(t, addr, session), SynAck(addr, "OK")) else (t, NoReply)
    case Unknown => (t, NoReply)
  }

  /** connections[a] = c implies that c's address is a; sessions[s] = c implies that c is reachable at its address. */
  ghost predicate Consistent(t: Tables) {
    && (forall a <- t.connections :: t.connections[a] < |t.conns| && t.conns[t.connections[a]].addr == a)
    && (forall s <- t.sessions :: t.sessions[s] < |t.conns| && t.conns[t.sessions[s]].session == s
                                  && Reachable(t, t.sessions[s]))
  }

  ghost predicate Reachable(t: Tables, id: nat) {
    id < |t.conns| && t.conns[id].addr in t.connections && t.connections[t.conns[id].addr] == id
  }

  /** The two tables list the same connections: nothing leaks. */
  ghost predicate Bijective(t: Tables) {
    && Consistent(t)
    && forall a <- t.connections :: Live(t, t.connections[a])
  }

  ghost predicate Live(t: Tables, id: nat) {
    id < |t.conns| && t.conns[id].session in t.sessions && t.sessions[t.conns[id].session] == id
  }

  lemma AuthKeepsConsistent(t: Tables, addr: string, session: string)
    requires Consistent(t) && addr !in t.connections
    ensures Consistent(Authed(t, addr, session))
  {
    var u := Authed(t, addr, session);
    forall s | s in u.sessions
      ensures u.sessions[s] < |u.conns| && u.conns[u.sessions[s]].session == s && Reachable(u, u.sessions[s])
    {
      if s != session {
        assert Reachable(t, t.sessions[s]);
      }
    }
  }

  lemma MigrationKeepsConsistent(t: Tables, addr: string, session: string)
    requires Consistent(t) && addr !in t.connections && session in t.sessions
    ensures Consistent(Migrated(t, addr, session))
  {
    var u := Migrated(t, addr, session);
    assert Reachable(t, t.sessions[session]);
    forall s | s in u.sessions
      ensures u.sessions[s] < |u.conns| && u.conns[u.sessions[s]].session == s && Reachable(u, u.sessions[s])
    {
      assert Reachable(t, t.sessions[s]);
    }
  }

  lemma RemovalKeepsConsistent(t: Tables, session: string)
    requires Consistent(t)
    ensures Consistent(Removed(t, session))
  {
    var u := Removed(t, session);
    forall s | s in u.sessions
      ensures u.sessions[s] < |u.conns| && u.conns[u.sessions[s]].session == s && Reachable(u, u.sessions[s])
    {
      assert Reachable(t, t.sessions[s]);
      if session in t.sessions {
        assert Reachable(t, t.sessions[session]);
      }
    }
  }

  // ---- the objects ----------------------------------------------------------------

  /** A connection of the listener: its peer's address moves, its ARQ engine stays. */
  class ServerConn {
    ghost const id: nat
    const session: string
    const arq: ArqEngine
    var remoteAddr: string

    constructor (ghost id: nat, session: string, addr: string, arq: ArqEngine)
      ensures this.id == id && this.session == session && this.arq == arq && remoteAddr == addr
    {
      this.id, this.session, this.arq, remoteAddr := id, session, arq, addr;
    }
  }

  ghost function Ids(m: map<string, ServerConn>): map<string, nat> {
    map k | k in m :: m[k].id
  }

  lemma IdsUpdate(m: map<string, ServerConn>, k: string, conn: ServerConn)
    ensures Ids(m[k := conn]) == Ids(m)[k := conn.id]
  {
  }

  lemma IdsRemove(m: map<string, ServerConn>, k: string)
    ensures Ids(m - {k}) == Ids(m) - {k}
  {
  }

  /** Each region under a lock, and the write of remoteAddr, is one method; the handlers are made of them. */
  class Listener {
    var connections: map<string, ServerConn>
    var sessions: map<string, ServerConn>
    const code: Code
    ghost var all: seq<ServerConn>

    /** Every listed connection is one of those created, and numbers are positions. Holds between any two regions. */
    ghost predicate Wired()
      reads this, all
    {
      && (forall i :: 0 <= i < |all| ==> all[i].id == i)
      && (forall a <- connections :: connections[a] in all)
      && (forall s <- sessions :: sessions[s] in all)
    }

    ghost predicate Valid()
      reads this, all
    {
      Wired() && Consistent(View())
    }

    ghost function View(): Tables
      reads this, all
    {
      Tables(Ids(connections), Ids(sessions),
             seq(|all|, i requires 0 <= i < |all| reads this, all => Conn(all[i].session, all[i].remoteAddr)))
    }

    constructor (code: Code)
      ensures Valid() && View() == EMPTY && all == [] && this.code == code
    {
      connections, sessions, all, this.code := map[], map[], [], code;
    }

    // ---- the regions ---------------------------------------------------------------

    method InsertConnection(conn: ServerConn)
      requires Wired() && conn.id == |all|
      modifies this`connections, this`all
      ensures Wired() && all == old(all) + [conn] && connections == old(connections)[conn.remoteAddr := conn]
      ensures View() == ConnectionInserted(old(View()), conn.remoteAddr, conn.session)
    {
      ghost var before := View();
      all := all + [conn];
      connections := connections[conn.remoteAddr := conn];
      IdsUpdate(old(connections), conn.remoteAddr, conn);
      assert View().conns == before.conns + [Conn(conn.session, conn.remoteAddr)];
    }

    method InsertSession(conn: ServerConn)
      requires Wired() && conn in all
      modifies this`sessions
      ensures Wired() && conn.id < |old(View()).conns| && sessions == old(sessions)[conn.session := conn]
      ensures View() == SessionInserted(old(View()), conn.id)
    {
      sessions := sessions[conn.session := conn];
      IdsUpdate(old(sessions), conn.session, conn);
    }

    method WriteAddress(conn: ServerConn, addr: string)
      requires Wired() && conn in all
      modifies conn`remoteAddr
      ensures Wired() && conn.id < |old(View()).conns| && conn.remoteAddr == addr
      ensures View() == AddressSet(old(View()), conn.id, addr)
    {
      ghost var before := View();
      conn.remoteAddr := addr;
      assert View().conns == before.conns[conn.id := Conn(conn.session, addr)];
    }

    method Rebind(conn: ServerConn, from: string, addr: string)
      requires Wired() && conn in all
      modifies this`connections
      ensures Wired() && connections == (old(connections) - {from})[addr := conn]
      ensures View() == Rebound(old(View()), conn.id, from, addr)
    {
      connections := connections - {from};
      connections := connections[addr := conn];
      IdsRemove(old(connections), from);
      IdsUpdate(old(connections) - {from}, addr, conn);
    }

    method Unlink(sessionId: string) returns (conn: Option<ServerConn>)
      requires Wired()
      modifies this`sessions
      ensures Wired() && conn == if sessionId in old(sessions) then Some(old(sessions)[sessionId]) else None
      ensures sessions == old(sessions) - {sessionId}
      ensures View() == if conn.Some? then SessionDropped(old(View()), sessionId) else old(View())
    {
      if sessionId !in sessions {
        return None;
      }
      conn := Some(sessions[sessionId]);
      sessions := sessions - {sessionId};
      IdsRemove(old(sessions), sessionId);
    }

    method Unbind(addr: string)
      requires Wired()
      modifies this`connections
      ensures Wired() && connections == old(connections) - {addr}
      ensures View() == Unbound(old(View()), addr)
    {
      connections := connections - {addr};
      IdsRemove(old(connections), addr);
    }

    // ---- the handlers, uninterrupted -------------------------------------------------

    /** One round of readLoop: a known address is never looked at as a SYN. No existing engine is touched. */
    method OnDatagram(addr: string, d: Datagram, now: real) returns (out: Outcome)
      requires Valid()
      modifies this, all
      ensures Valid() && old(all) <= all && fresh(all[|old(all)|..])
      ensures View() == if d.SynPacket? && addr !in old(connections)
                        then SynHandled(old(View()), addr, Parse(d.migrate, d.payload)).0 else old(View())
      ensures out == if addr in old(connections) then Dispatched
                     else if !d.SynPacket? then Decoy
                     else Answered(SynHandled(old(View()), addr, Parse(d.migrate, d.payload)).1)
      ensures forall c <- old(all) :: c.arq.Snd() == old(c.arq.Snd()) && c.arq.Rcv() == old(c.arq.Rcv())
      ensures forall c <- all[|old(all)|..] :: NewEngine(c.arq)
      ensures addr !in old(connections) && d.SynPacket? ==>
                out.Answered? && AnsweredAs(addr, d.migrate, d.payload, out.reply)
      ensures addr in old(connections) || !d.SynPacket? ==>
                connections == old(connections) && sessions == old(sessions) && all == old(all)
                && forall c <- all :: c.remoteAddr == old(c.remoteAddr)
    {
      if addr in connections {
        return Dispatched;
      }
      if !d.SynPacket? {
        return Decoy;
      }
      var reply := HandleSyn(addr, d.migrate, d.payload, now);
      out := Answered(reply);
    }

    /**
     What a SYN from an unknown address does, in terms of the tables' entries:
     AUTH:s enters one new connection under the address and the session s,
     MIGRATE:s with the flag moves the connection of s, if there is one, and any
     other SYN changes nothing and is not answered.
     */
    twostate predicate AnsweredAs(addr: string, migrate: bool, payload: string, reply: Reply)
      reads this, all
    {
      if !migrate && "AUTH:" <= payload then
        && reply == SynAck(addr, payload[5..]) && |all| == |old(all)| + 1 && old(all) <= all
        && Entered(all[|old(all)|], addr, payload[5..], old(connections), old(sessions))
        && forall c <- old(all) :: c.remoteAddr == old(c.remoteAddr)
      else if migrate && "MIGRATE:" <= payload && payload[8..] in old(sessions) then
        && reply == SynAck(addr, "OK") && all == old(all) && sessions == old(sessions)
        && var conn := sessions[payload[8..]];
           && conn in all && conn.remoteAddr == addr
           && connections == (old(connections) - {old(conn.remoteAddr)})[addr := conn]
           && forall c <- all :: c != conn ==> c.remoteAddr == old(c.remoteAddr)
      else
        && reply == NoReply && all == old(all) && connections == old(connections) && sessions == old(sessions)
        && forall c <- all :: c.remoteAddr == old(c.remoteAddr)
    }

    method HandleSyn(addr: string, migrate: bool, payload: string, now: real) returns (reply: Reply)
      requires Valid() && addr !in connections
      modifies this, all
      ensures Valid() && old(all) <= all && fresh(all[|old(all)|..])
      ensures (View(), reply) == SynHandled(old(View()), addr, Parse(migrate, payload))
      ensures AnsweredAs(addr, migrate, payload, reply)
      ensures forall c <- old(all) :: c.arq.Snd() == old(c.arq.Snd()) && c.arq.Rcv() == old(c.arq.Rcv())
      ensures forall c <- all[|old(all)|..] :: NewEngine(c.arq)
    {
      if migrate {
        reply := HandleMigration(addr, payload);
        return;
      }
      if !(AUTH <= payload) {
        return NoReply;
      }
      var sessionId := payload[5..];
      AuthKeepsConsistent(View(), addr, sessionId);
      AddConnection(addr, sessionId, now);
      reply := SynAck(addr, sessionId);
    }

    method AddConnection(addr: string, sessionId: string, now: real)
      requires Wired()
      modifies this
      ensures Wired() && View() == Authed(old(View()), addr, sessionId)
      ensures |all| == |old(all)| + 1 && old(all) <= all && fresh(all[|old(all)|]) && NewEngine(all[|old(all)|].arq)
      ensures Entered(all[|old(all)|], addr, sessionId, old(connections), old(sessions))
    {
      var conn := NewConn(sessionId, addr, now);
      InsertConnection(conn);
      InsertSession(conn);
    }

    /** This connection is in both tables, and nothing else was changed in them. */
    ghost predicate Entered(
      conn: ServerConn, addr: string, session: string,
      before: map<string, ServerConn>, beforeSessions: map<string, ServerConn>)
      reads this, conn
    {
      && conn.session == session && conn.remoteAddr == addr
      && connections == before[addr := conn] && sessions == beforeSessions[session := conn]
    }

    ghost predicate NewEngine(arq: ArqEngine)
      reads arq
    {
      arq.Snd() == ArqSender.INITIAL && arq.Rcv() == ArqReceiver.Initial(DELIVER_BUFFER) && !arq.closed
    }

    method NewConn(sessionId: string, addr: string, now: real) returns (conn: ServerConn)
      ensures fresh(conn) && fresh(conn.arq) && NewEngine(conn.arq)
      ensures conn.id == |all| && conn.session == sessionId && conn.remoteAddr == addr
    {
      var pacer := new Pacer(PACER_RATE, PACER_BURST, now);
      var enc := new FecEncoder(code);
      var dec := new FecDecoder(code);
      var arq := new ArqEngine(DELIVER_BUFFER, pacer, enc, dec);
      conn := new ServerConn(|all|, sessionId, addr, arq);
    }

    /**
     The session keeps its connection, and that connection its engine:
     numbering and buffers go on where they were.
     */
    method HandleMigration(addr: string, payload: string) returns (reply: Reply)
      requires Valid() && addr !in connections
      modifies this`connections, all
      ensures Valid() && all == old(all) && sessions == old(sessions)
      ensures (View(), reply) == SynHandled(old(View()), addr, Parse(true, payload))
      ensures AnsweredAs(addr, true, payload, reply)
      ensures forall c <- all :: c.arq.Snd() == old(c.arq.Snd()) && c.arq.Rcv() == old(c.arq.Rcv())
    {
      if !(MIGRATE <= payload) {
        return NoReply;
      }
      var sessionId := payload[8..];
      if sessionId !in sessions {
        return NoReply;
      }
      MigrationKeepsConsistent(View(), addr, sessionId);
      var conn := sessions[sessionId];
      var oldAddr := conn.remoteAddr;
      WriteAddress(conn, addr);
      Rebind(conn, oldAddr, addr);
      reply := SynAck(addr, "OK");
    }

    method RemoveConnection(sessionId: string)
      requires Valid()
      modifies this`connections, this`sessions
      ensures Valid() && View() == Removed(old(View()), sessionId) && sessions == old(sessions) - {sessionId}
      ensures connections == if sessionId in old(sessions) then old(connections) - {old(sessions[sessionId].remoteAddr)}
                             else old(connections)
    {
      RemovalKeepsConsistent(View(), sessionId);
      var conn := Unlink(sessionId);
      if conn.Some? {
        Unbind(conn.value.remoteAddr);
      }
    }
  }
}
