/** Runs of the listener that end badly: what a race and what a reused session id leave behind. */
module ListenerRaces {
  import opened Base
  import opened Listening
  import opened ListenerRegions

  lemma Next(es: seq<Event>, e: Event) returns (more: seq<Event>)
    ensures more == es + [e] && Exec(more) == Step(Exec(es), e)
  {
    more := es + [e];
    assert more[..|es|] == es;
  }

  /** A free address authenticates a session: three regions that nothing interrupts. */
  lemma Registers(es: seq<Event>, addr: string, session: string) returns (more: seq<Event>)
    requires var x := Exec(es); x.handler.Ready? && addr !in x.t.connections
    ensures var x, y := Exec(es), Exec(more);
            && y.t == Authed(x.t, addr, session) && y.handler.Ready?
            && y.removals == x.removals && y.raced == x.raced && y.reused == (x.reused || session in x.t.sessions)
  {
    more := Next(es, Receives(addr, Auth(session)));
    more := Next(more, InsertsConnection);
    more := Next(more, InsertsSession);
  }

  /** A removal that nothing interrupts. */
  lemma Removes(es: seq<Event>, k: nat, session: string) returns (more: seq<Event>)
    requires k !in Exec(es).removals
    ensures var x, y := Exec(es), Exec(more);
            && Wired(x) && y.t == Removed(x.t, session) && y.handler == x.handler
            && y.reused == x.reused && y.removals == x.removals[k := Finished]
  {
    RunKeepsWired(es);
    var x := Exec(es);
    more := Next(es, Unlinks(k, session));
    var id := if session in x.t.sessions then x.t.sessions[session] else 0;
    assert session in x.t.sessions ==>
        Exec(more).t == SessionDropped(x.t, session) && Exec(more).removals == x.removals[k := Unlinked(id)];
    more := Next(more, ReadsAddress(k));
    assert session in x.t.sessions ==>
        Exec(more).t == SessionDropped(x.t, session)
        && Exec(more).removals == x.removals[k := Read(id, x.t.conns[id].addr)];
    more := Next(more, Unbinds(k));
  }

  /** A session known at `a` is found for a migration to `b`, and then a removal of it reads `a`. */
  lemma RemovalHits(s: string, a: string, b: string) returns (es: seq<Event>)
    requires a != b
    ensures var x := Exec(es);
            && x.t == Tables(map[a := 0], map[], [Conn(s, a)]) && x.handler == Found(0, b)
            && x.removals == map[0 := Read(0, a)] && !x.reused
  {
    es := Registers([], a, s);
    assert Exec(es).t == Tables(map[a := 0], map[s := 0], [Conn(s, a)]);
    es := Next(es, Receives(b, Migration(s)));
    es := Next(es, FindsSession);
    assert Exec(es).t == Tables(map[a := 0], map[s := 0], [Conn(s, a)]) && Exec(es).handler == Found(0, b);
    es := Next(es, Unlinks(0, s));
    assert map[s := 0] - {s} == map[];
    es := Next(es, ReadsAddress(0));
  }

  /** The migration then goes on to its end. */
  lemma RacedMigration(s: string, a: string, b: string) returns (es: seq<Event>)
    requires a != b
    ensures var x := Exec(es);
            && x.t == Tables(map[b := 0], map[], [Conn(s, b)]) && x.handler.Ready?
            && x.removals == map[0 := Read(0, a)] && !x.reused
  {
    es := RemovalHits(s, a, b);
    es := Next(es, WritesAddress);
    assert Exec(es).t == Tables(map[a := 0], map[], [Conn(s, b)]) && Exec(es).handler == Addressed(0, a, b);
    es := Next(es, Rebinds);
    assert map[a := 0] - {a} == map[];
  }

  /**
   Every handler and removal is done, no session id was reused, and still
   `addr` is bound to a connection without session.
   */
  ghost predicate LeakedWithoutReuse(es: seq<Event>, addr: string) {
    var x := Exec(es);
    && Quiet(x) && x.handler.Ready? && !x.reused
    && addr in x.t.connections && !Live(x.t, x.t.connections[addr])
  }

  /** A removal that hits a migration leaves the new address in the table for good. */
  lemma RaceLeaks(s: string, a: string, b: string)
    requires a != b
    ensures exists es :: LeakedWithoutReuse(es, b)
  {
    var raced := RacedMigration(s, a, b);
    var es := Next(raced, Unbinds(0));
    assert Exec(es).t.connections == map[b := 0];
    assert forall k: nat, id: nat :: !InFlight(Exec(es), k, id);
    assert LeakedWithoutReuse(es, b);
  }

  /** Every handler and removal is done, no session id was reused, and still this live session is in no table entry. */
  ghost predicate StrandedWithoutReuse(es: seq<Event>, session: string) {
    var x := Exec(es);
    && Quiet(x) && x.handler.Ready? && !x.reused
    && session in x.t.sessions && !AtHome(x, x.t.sessions[session])
  }

  /** Another client that takes over the old address before the removal ends loses its entry. */
  lemma RaceStrands(s: string, a: string, b: string, other: string)
    requires a != b && other != s
    ensures exists es :: StrandedWithoutReuse(es, other)
  {
    var raced := RacedMigration(s, a, b);
    var joined := Registers(raced, a, other);
    assert Exec(joined).t == Tables(map[b := 0, a := 1], map[other := 1], [Conn(s, b), Conn(other, a)]);
    var es := Next(joined, Unbinds(0));
    assert Exec(es).t == Tables(map[b := 0], map[other := 1], [Conn(s, b), Conn(other, a)]) by {
      assert map[b := 0, a := 1] - {a} == map[b := 0];
    }
    assert forall k: nat, id: nat :: !InFlight(Exec(es), k, id);
    assert StrandedWithoutReuse(es, other);
  }

  /** No race, everything is done, both sessions were removed, and `addr` is bound to a connection without session. */
  ghost predicate LeakedByReuse(es: seq<Event>, addr: string) {
    var x := Exec(es);
    && Quiet(x) && x.handler.Ready? && x.t.sessions == map[]
    && addr in x.t.connections && x.t.connections[addr] < |x.t.conns|
  }

  /** An AUTH for a live session id takes its session; the first connection's own removal finds nothing to remove. */
  lemma ReuseLeaks(s: string, a: string, b: string)
    requires a != b
    ensures exists es :: LeakedByReuse(es, a)
  {
    var es := Registers([], a, s);
    assert Exec(es).t == Tables(map[a := 0], map[s := 0], [Conn(s, a)]);
    es := Registers(es, b, s);
    assert Exec(es).t == Tables(map[a := 0, b := 1], map[s := 1], [Conn(s, a), Conn(s, b)]);
    es := Removes(es, 0, s);
    assert Exec(es).t == Tables(map[a := 0], map[], [Conn(s, a), Conn(s, b)]) by {
      assert map[a := 0, b := 1] - {b} == map[a := 0];
    }
    es := Removes(es, 1, s);
    assert forall k: nat, id: nat :: !InFlight(Exec(es), k, id);
    assert LeakedByReuse(es, a);
  }
}
