/**
 What forward error correction recovers: any k shards of a block, in any order
 and among anything else, bring back every packet of the block that a shard
 can hold.
 */
module FecRecovery {
  import opened Base
  import opened ErasureCode
  import opened Fec
  import opened FecEncoding
  import opened FecSoundness
  import opened FecNumbering

  /** The place of a shard in the group at `start`: data shards in front, parity shards behind. */
  ghost function PlaceOf(code: Code, e: Event, start: nat): Option<nat>
    requires code.k > 0
  {
    match e
    case Data(n) => if start % code.k == 0 && start <= n < start + code.k then Some(n - start) else None
    case ParityIn(p) => if p.start == start then Some(code.k + p.index) else None
    case Timer(_) => None
  }

  /** The places of the group at `start` whose shards have arrived. */
  ghost function Places(code: Code, es: seq<Event>, start: nat): set<nat>
    requires code.k > 0
  {
    if es == [] then {}
    else
      var p := PlaceOf(code, es[|es| - 1], start);
      Places(code, es[..|es| - 1], start) + (if p.Some? then {p.value} else {})
  }

  /** The packet in data place `i` has arrived, or was recovered; packets that no shard can hold do not count. */
  ghost predicate There(code: Code, log: Log, start: nat, places: set<nat>, out: seq<Recovered>, i: nat) {
    || i in places
    || (Submitted(log, start + i) && !(0 < |log[start + i].value| <= 1198))
    || (Submitted(log, start + i) && Recovered(start + i, log[start + i].value) in out)
  }

  ghost predicate AllThere(code: Code, log: Log, start: nat, places: set<nat>, out: seq<Recovered>) {
    forall i: nat :: i < code.k ==> There(code, log, start, places, out, i)
  }

  function Filling(shards: Partial): set<nat> {
    set i | 0 <= i < |shards| && shards[i].Some?
  }

  lemma {:induction false} FillingSize(shards: Partial)
    ensures |Filling(shards)| == Present(shards)
  {
    if shards == [] {
      assert Filling(shards) == {};
    } else {
      var n := |shards| - 1;
      FillingSize(shards[..n]);
      assert shards == shards[..n] + [shards[n]];
      PresentConcat(shards[..n], [shards[n]]);
      PresentOne(shards[n]);
      assert Filling(shards) == Filling(shards[..n]) + (if shards[n].Some? then {n} else {});
    }
  }

  /** Fewer than k shards have arrived and all wait in the group, or all the block's packets are there. */
  ghost predicate Gathered(d: Decoder, log: Log, start: nat, places: set<nat>, out: seq<Recovered>) {
    if |places| < d.code.k then Filling(GroupAt(d, start).shards) == places
    else AllThere(d.code, log, start, places, out)
  }

  /** What a step for another group, or a packet without a group, leaves alone. */
  lemma OtherGroup(d: Decoder, start: nat, other: nat, index: nat, shard: Bytes)
    requires other != start && GroupAt(d, other).start == other
    ensures GroupAt(ShardAdded(d, other, index, shard).0, start) == GroupAt(d, start)
  {
  }

  /** A shard whose place is taken changes nothing. */
  lemma TakenPlace(d: Decoder, start: nat, index: nat, shard: Bytes)
    requires index in Filling(GroupAt(d, start).shards)
    ensures var (d', more) := ShardAdded(d, start, index, shard); GroupAt(d', start) == GroupAt(d, start) && more == []
  {
  }

  lemma FreePlace(d: Decoder, start: nat, index: nat, shard: Bytes)
    requires var g := GroupAt(d, start);
             && index < |g.shards| && index !in Filling(g.shards) && g.start == start
             && g.received == Present(g.shards) && |Filling(g.shards)| + 1 < d.code.k
    ensures var d' := ShardAdded(d, start, index, shard).0;
            Filling(GroupAt(d', start).shards) == Filling(GroupAt(d, start).shards) + {index}
  {
    var g := GroupAt(d, start);
    FillingSize(g.shards);
    assert g.shards[index].None?;
  }

  /** A sound group with enough shards of the block makes the block complete. */
  lemma RebuildCompletes(code: Code, log: Log, from: nat, a: nat, g: Group)
    requires Mds(code) && Sized(log) && SoundGroup(code, log, from, g.start, g) && g.received >= code.k
    requires IsBlockAt(Fed(log, from), a, code.k) && GapFree(Fed(log, from), a, code.k)
    requires Fed(log, from)[a].n == g.start
    ensures AllThere(code, log, g.start, Filling(g.shards), Rebuild(code, g))
  {
    GapFreeAgrees(code, log, from, g, a);
    var block := BlockShards(Fed(log, from), a, code.k);
    forall i: nat | i < code.k ensures There(code, log, g.start, Filling(g.shards), Rebuild(code, g), i) {
      GapFreeBlock(log, from, a, code.k, g.start, i);
      if g.shards[i].None? {
        RebuiltOne(code, log, g, block, i);
      }
    }
  }

  lemma RebuiltOne(code: Code, log: Log, g: Group, block: seq<Bytes>, i: nat)
    requires Mds(code) && Sized(log) && IsBlock(code.k, block) && Agrees(g.shards, Codeword(code, block))
    requires Present(g.shards) >= code.k && i < code.k && i < |g.shards| && g.shards[i].None?
    requires Submitted(log, g.start + i) && block[i] == Shard(log[g.start + i].value)
    ensures 0 < |log[g.start + i].value| <= 1198 ==>
              Recovered(g.start + i, log[g.start + i].value) in Rebuild(code, g)
  {
    RebuildOfCodeword(code, g, block);
    ShardRoundTrip(log[g.start + i].value);
  }

  lemma Completes(code: Code, log: Log, from: nat, a: nat, d: Decoder, g: Group, index: nat, shard: Bytes)
    requires d.code == code && Mds(code) && Sized(log)
    requires IsBlockAt(Fed(log, from), a, code.k) && GapFree(Fed(log, from), a, code.k)
    requires g == GroupAt(d, g.start) && g.start == Fed(log, from)[a].n && SoundGroup(code, log, from, g.start, g)
    requires TrueShard(code, log, from, g.start, index, shard) && index < |g.shards|
    requires index !in Filling(g.shards) && |Filling(g.shards)| + 1 == code.k
    ensures AllThere(code, log, g.start, Filling(g.shards) + {index}, ShardAdded(d, g.start, index, shard).1)
  {
    var g' := Group(g.start, g.shards[index := Some(shard)], code.k);
    FillingSize(g.shards);
    FilledKeepsSound(code, log, from, g, index, shard);
    ShardCompletes(d, g.start, g, index, shard);
    assert g' == g.(shards := g.shards[index := Some(shard)], received := g.received + 1);
    RebuildCompletes(code, log, from, a, g');
    FillingAdd(g.shards, index, shard);
  }

  lemma FillingAdd(shards: Partial, index: nat, shard: Bytes)
    requires index < |shards|
    ensures Filling(shards[index := Some(shard)]) == Filling(shards) + {index}
  {
  }

  lemma ThereStays(
    code: Code, log: Log, start: nat, places: set<nat>, more: set<nat>, out: seq<Recovered>, after: seq<Recovered>)
    requires AllThere(code, log, start, places, out) && places <= more && forall r <- out :: r in after
    ensures AllThere(code, log, start, more, after)
  {
    forall i: nat | i < code.k ensures There(code, log, start, more, after, i) {
      assert There(code, log, start, places, out, i);
    }
  }

  lemma Grown(places: set<nat>, index: nat)
    ensures |places + {index}| == if index in places then |places| else |places| + 1
  {
    if index in places {
      assert places + {index} == places;
    }
  }

  /** The group at `start` holds true shards only, and every group knows where it starts. */
  ghost predicate GroupsSound(d: Decoder, log: Log, from: nat, start: nat) {
    && SoundGroup(d.code, log, from, start, GroupAt(d, start))
    && forall other: nat :: GroupAt(d, other).start == other
  }

  lemma SoundHere(d: Decoder, log: Log, from: nat, start: nat)
    requires d.code.k > 0 && Sound(d, log, from)
    ensures GroupsSound(d, log, from, start)
  {
    NewGroupIsSound(d.code, log, from, start);
    forall other: nat ensures GroupAt(d, other).start == other {
      if other in d.groups {
        assert SoundGroup(d.code, log, from, other, d.groups[other]);
      }
    }
  }

  /** A shard arrives while fewer than k have. */
  lemma EarlyShard(
    code: Code, log: Log, from: nat, a: nat, d: Decoder, places: set<nat>, out: seq<Recovered>,
    start: nat, index: nat, shard: Bytes)
    requires d.code == code && Mds(code) && Sized(log) && GroupsSound(d, log, from, start)
    requires IsBlockAt(Fed(log, from), a, code.k) && GapFree(Fed(log, from), a, code.k)
    requires Fed(log, from)[a].n == start
    requires TrueShard(code, log, from, start, index, shard) && index < code.k + code.m
    requires |places| < code.k && Filling(GroupAt(d, start).shards) == places
    ensures var (d', more) := ShardAdded(d, start, index, shard);
            d'.code == code && Gathered(d', log, start, places + {index}, out + more)
  {
    var (d', more) := ShardAdded(d, start, index, shard);
    Grown(places, index);
    if index in places {
      TakenPlace(d, start, index, shard);
      assert places + {index} == places && out + more == out;
    } else if |places| + 1 < code.k {
      FreePlace(d, start, index, shard);
    } else {
      Completes(code, log, from, a, d, GroupAt(d, start), index, shard);
      ThereStays(code, log, start, places + {index}, places + {index}, more, out + more);
    }
  }

  /** A shard of this group arrives. */
  lemma OwnShard(
    code: Code, log: Log, from: nat, a: nat, d: Decoder, places: set<nat>, out: seq<Recovered>,
    start: nat, index: nat, shard: Bytes)
    requires d.code == code && Mds(code) && Sized(log) && GroupsSound(d, log, from, start)
    requires IsBlockAt(Fed(log, from), a, code.k) && GapFree(Fed(log, from), a, code.k)
    requires Fed(log, from)[a].n == start
    requires TrueShard(code, log, from, start, index, shard) && index < code.k + code.m
    requires Gathered(d, log, start, places, out)
    ensures var (d', more) := ShardAdded(d, start, index, shard);
            d'.code == code && Gathered(d', log, start, places + {index}, out + more)
  {
    if |places| < code.k {
      EarlyShard(code, log, from, a, d, places, out, start, index, shard);
    } else {
      Grown(places, index);
      LateShard(d, log, start, places, out, index, shard);
    }
  }

  /** Once the block is there it stays there. */
  lemma LateShard(d: Decoder, log: Log, start: nat, places: set<nat>, out: seq<Recovered>, index: nat, shard: Bytes)
    requires |places| >= d.code.k && |places + {index}| >= |places| && AllThere(d.code, log, start, places, out)
    ensures var (d', more) := ShardAdded(d, start, index, shard);
            d'.code == d.code && Gathered(d', log, start, places + {index}, out + more)
  {
    var more := ShardAdded(d, start, index, shard).1;
    ThereStays(d.code, log, start, places, places + {index}, out, out + more);
  }

  /** A shard of another group arrives. */
  lemma OtherShard(
    d: Decoder, log: Log, from: nat, start: nat, places: set<nat>, out: seq<Recovered>,
    other: nat, index: nat, shard: Bytes)
    requires d.code.k > 0 && GroupsSound(d, log, from, start) && other != start
    requires Gathered(d, log, start, places, out)
    ensures var (d', more) := ShardAdded(d, other, index, shard);
            d'.code == d.code && Gathered(d', log, start, places, out + more)
  {
    var (d', more) := ShardAdded(d, other, index, shard);
    OtherGroup(d, start, other, index, shard);
    if |places| >= d.code.k {
      ThereStays(d.code, log, start, places, places, out, out + more);
    }
  }

  /** The group a data packet goes to. */
  lemma GroupOfData(code: Code, n: nat, start: nat)
    requires code.k > 0
    ensures n / code.k * code.k >= 0
    ensures n / code.k * code.k == start <==> start % code.k == 0 && start <= n < start + code.k
    ensures n / code.k * code.k == start ==> n % code.k == n - start
  {
    DivMod(n, code.k);
    if start % code.k == 0 && start <= n < start + code.k {
      SlotOf(start, n - start, code.k);
    }
  }

  /** What the arrival of a shard does to the group at `start`, wherever the shard goes. */
  lemma ShardGathers(
    code: Code, log: Log, from: nat, a: nat, d: Decoder, places: set<nat>, out: seq<Recovered>,
    start: nat, group: nat, index: nat, shard: Bytes, after: set<nat>)
    requires d.code == code && Mds(code) && Sized(log) && GroupsSound(d, log, from, start)
    requires IsBlockAt(Fed(log, from), a, code.k) && GapFree(Fed(log, from), a, code.k)
    requires Fed(log, from)[a].n == start
    requires TrueShard(code, log, from, group, index, shard) && index < code.k + code.m
    requires Gathered(d, log, start, places, out)
    requires after == if group == start then places + {index} else places
    ensures var (d', more) := ShardAdded(d, group, index, shard);
            Gathered(d', log, start, after, out + more)
  {
    if group == start {
      OwnShard(code, log, from, a, d, places, out, start, index, shard);
    } else {
      OtherShard(d, log, from, start, places, out, group, index, shard);
    }
  }

  /** Where a data packet goes. */
  lemma DataGoes(code: Code, log: Log, from: nat, d: Decoder, n: nat, start: nat) returns (group: nat, index: nat)
    requires d.code == code && code.k > 0 && Submitted(log, n)
    ensures DataAdded(d, n, log[n].value) == ShardAdded(d, group, index, Shard(log[n].value))
    ensures TrueShard(code, log, from, group, index, Shard(log[n].value)) && index < code.k
    ensures PlaceOf(code, Data(n), start) == if group == start then Some(index) else None
  {
    GroupOfData(code, n, start);
    DataSlot(code, log, from, n);
    DivMod(n, code.k);
    group, index := n / code.k * code.k, n % code.k;
  }

  lemma PlacesOneMore(code: Code, es: seq<Event>, e: Event, start: nat)
    requires code.k > 0
    ensures var p := PlaceOf(code, e, start);
            Places(code, es + [e], start) ==
            if p.Some? then Places(code, es, start) + {p.value} else Places(code, es, start)
  {
    assert (es + [e])[..|es|] == es;
    assert Places(code, es, start) + {} == Places(code, es, start);
  }

  lemma StepGathers(
    code: Code, log: Log, from: nat, a: nat, d: Decoder, places: set<nat>, out: seq<Recovered>,
    start: nat, e: Event, after: set<nat>)
    requires d.code == code && Mds(code) && Sized(log) && GroupsSound(d, log, from, start)
    requires IsBlockAt(Fed(log, from), a, code.k) && GapFree(Fed(log, from), a, code.k)
    requires Fed(log, from)[a].n == start && Gathered(d, log, start, places, out) && e != Timer(start)
    requires match e
             case Data(n) => Submitted(log, n)
             case ParityIn(p) =>
               TrueShard(code, log, from, p.start, code.k + p.index, p.shard) && p.index < code.m
             case Timer(_) => true
    requires var p := PlaceOf(code, e, start); after == if p.Some? then places + {p.value} else places
    ensures var (d', more) := DecodeStep(d, log, e); Gathered(d', log, start, after, out + more)
  {
    match e
    case Data(n) =>
      var group, index := DataGoes(code, log, from, d, n, start);
      ShardGathers(code, log, from, a, d, places, out, start, group, index, Shard(log[n].value), after);
    case ParityIn(p) =>
      ShardGathers(code, log, from, a, d, places, out, start, p.start, code.k + p.index, p.shard, after);
    case Timer(other) =>
      TimerGathers(d, log, start, places, out, other);
  }

  lemma TimerGathers(d: Decoder, log: Log, start: nat, places: set<nat>, out: seq<Recovered>, other: nat)
    requires other != start && Gathered(d, log, start, places, out)
    ensures Gathered(Expired(d, other), log, start, places, out + [])
  {
    assert GroupAt(Expired(d, other), start) == GroupAt(d, start);
    assert out + [] == out;
  }

  lemma ParityIndex(code: Code, log: Log, from: nat, p: Parity)
    requires Mds(code) && p in EncodeAll(code, Fed(log, from)).1
    ensures p.index < code.m
  {
    EncoderSendsFullBlocks(code, Fed(log, from));
  }

  lemma {:induction false} RunGathers(code: Code, log: Log, from: nat, a: nat, es: seq<Event>)
    requires Mds(code) && Sized(log) && AllHarmless(code, log, from) && Arrivals(code, log, from, es)
    requires IsBlockAt(Fed(log, from), a, code.k) && GapFree(Fed(log, from), a, code.k)
    requires Timer(Fed(log, from)[a].n) !in es
    ensures var (d, out) := DecodeAll(code, log, es);
            Gathered(d, log, Fed(log, from)[a].n, Places(code, es, Fed(log, from)[a].n), out)
  {
    if es == [] {
      assert Filling(NewGroup(code, Fed(log, from)[a].n).shards) == {};
    } else {
      var init, e := es[..|es| - 1], es[|es| - 1];
      var start := Fed(log, from)[a].n;
      assert e in es && forall f <- init :: f in es;
      RunGathers(code, log, from, a, init);
      var (d, out) := DecodeAll(code, log, init);
      assert GroupsSound(d, log, from, start) by {
        DecoderIsSound(code, log, from, init);
        SoundHere(d, log, from, start);
      }
      if e.ParityIn? {
        ParitySlot(code, log, from, e.p);
        ParityIndex(code, log, from, e.p);
      }
      PlacesOneMore(code, init, e, start);
      assert init + [e] == es;
      StepGathers(code, log, from, a, d, Places(code, init, start), out, start, e, Places(code, es, start));
    }
  }

  /**
   Any k shards recover a block. Whatever else arrives and in whatever order: if
   k different shards of a gap-free block have arrived before its group's timer
   ran, then every packet of the block of 1 to 1198 bytes has arrived itself or
   was emitted, with its payload and under its number.
   */
  lemma AnyShardsRecover(code: Code, log: Log, from: nat, a: nat, es: seq<Event>, i: nat)
    requires Mds(code) && Sized(log) && AllHarmless(code, log, from) && Arrivals(code, log, from, es)
    requires IsBlockAt(Fed(log, from), a, code.k) && GapFree(Fed(log, from), a, code.k) && i < code.k
    requires var start := Fed(log, from)[a].n;
             Timer(start) !in es && |Places(code, es, start)| >= code.k
    ensures var start := Fed(log, from)[a].n;
            && Submitted(log, start + i)
            && (0 < |log[start + i].value| <= 1198 ==>
                  Data(start + i) in es || Recovered(start + i, log[start + i].value) in DecodeAll(code, log, es).1)
  {
    var start := Fed(log, from)[a].n;
    RunGathers(code, log, from, a, es);
    GapFreeBlock(log, from, a, code.k, start, i);
    assert There(code, log, start, Places(code, es, start), DecodeAll(code, log, es).1, i);
    if i in Places(code, es, start) {
      PlaceMeansData(code, es, start, i);
    }
  }

  lemma {:induction false} PlaceMeansData(code: Code, es: seq<Event>, start: nat, i: nat)
    requires code.k > 0 && i < code.k && i in Places(code, es, start)
    ensures Data(start + i) in es
  {
    var init, e := es[..|es| - 1], es[|es| - 1];
    assert e in es && forall f <- init :: f in es;
    if i in Places(code, init, start) {
      PlaceMeansData(code, init, start, i);
    }
  }
}
