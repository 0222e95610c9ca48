/**
 The feedback loop of the decoder: every recovered payload re-enters through
 HandlePacket on a goroutine of its own and is added to the decoder again,
 where it may complete a further group. Packets may hold anything here.
 */
module FecFeedback {
  import opened Base
  import opened ErasureCode
  import opened Fec

  /** `pending` are the goroutines started by onRecover that have not yet added their packet. */
  datatype Loop = Loop(d: Decoder, pending: seq<Recovered>, rebuilds: nat, parities: nat)

  datatype Event =
    | Data(n: nat, payload: Bytes)
    | ParityIn(p: Parity)
    | Timer(start: nat)
    | Task(i: nat)

  function Initial(code: Code): Loop {
    Loop(Decoder(code, map[]), [], 0, 0)
  }

  /** Whether adding a shard makes checkRecover call Reconstruct. */
  predicate Rebuilds(d: Decoder, start: nat, index: nat, shard: Bytes) {
    var g := GroupAt(d, start);
    && index < |g.shards| && g.shards[index].None?
    && g.received + 1 >= d.code.k && MissesData(d.code, g.shards[index := Some(shard)])
  }

  function Feed(x: Loop, start: nat, index: nat, shard: Bytes): Loop {
    var (d, out) := ShardAdded(x.d, start, index, shard);
    x.(d := d, pending := x.pending + out,
       rebuilds := x.rebuilds + (if Rebuilds(x.d, start, index, shard) then 1 else 0))
  }

  function FeedData(x: Loop, n: nat, payload: Bytes): Loop
    requires x.d.code.k > 0
  {
    Feed(x, n / x.d.code.k * x.d.code.k, n % x.d.code.k, Shard(payload))
  }

  function Step(x: Loop, e: Event): Loop
    requires x.d.code.k > 0
    ensures Step(x, e).d.code == x.d.code
  {
    match e
    case Data(n, payload) => FeedData(x, n, payload)
    case ParityIn(p) => Feed(x.(parities := x.parities + 1), p.start, x.d.code.k + p.index, p.shard)
    case Timer(start) => x.(d := Expired(x.d, start))
    case Task(i) =>
      if i < |x.pending| then
        var r := x.pending[i];
        FeedData(x.(pending := x.pending[..i] + x.pending[i + 1..]), r.n, r.payload)
      else x
  }

  function Exec(x: Loop, es: seq<Event>): Loop
    requires x.d.code.k > 0
    ensures Exec(x, es).d.code == x.d.code
  {
    if es == [] then x else Step(Exec(x, es[..|es| - 1]), es[|es| - 1])
  }

  /** `received` is the number of shards present, and a stored group is never complete. */
  ghost predicate WellFormed(d: Decoder) {
    forall start <- d.groups :: WellFormedGroup(d.code, start, d.groups[start]) && d.groups[start].received < d.code.k
  }

  ghost predicate WellFormedGroup(code: Code, start: nat, g: Group) {
    g.start == start && |g.shards| == code.k + code.m && g.received == Present(g.shards)
  }

  /** Parity shards stored in a group, and in all groups. */
  function Parities(code: Code, g: Group): nat {
    if code.k <= |g.shards| then Present(g.shards[code.k..]) else 0
  }

  ghost function Stored(code: Code, groups: map<nat, Group>): nat
    decreases groups.Keys
  {
    if groups == map[] then 0
    else
      var start :| start in groups;
      Parities(code, groups[start]) + Stored(code, groups - {start})
  }

  lemma {:induction false} StoredRemove(code: Code, groups: map<nat, Group>, start: nat)
    requires start in groups
    ensures Stored(code, groups) == Parities(code, groups[start]) + Stored(code, groups - {start})
    decreases groups.Keys
  {
    var other :| other in groups
                 && Stored(code, groups) == Parities(code, groups[other]) + Stored(code, groups - {other});
    if other != start {
      StoredRemove(code, groups - {other}, start);
      StoredRemove(code, groups - {start}, other);
      assert groups - {other} - {start} == groups - {start} - {other};
    }
  }

  /** A group that must be rebuilt holds a parity shard: its data shards alone are too few. */
  lemma RebuildUsesParity(code: Code, g: Group)
    requires WellFormedGroup(code, g.start, g) && g.received >= code.k && MissesData(code, g.shards)
    ensures Parities(code, g) >= 1
  {
    assert g.shards == g.shards[..code.k] + g.shards[code.k..];
    PresentConcat(g.shards[..code.k], g.shards[code.k..]);
    var i :| 0 <= i < code.k && i < |g.shards| && g.shards[i].None?;
    assert g.shards[..code.k][i].None?;
    PresentBound(g.shards[..code.k]);
  }

  lemma AddedParity(code: Code, shards: Partial, index: nat, shard: Bytes)
    requires |shards| == code.k + code.m && index < |shards| && shards[index].None?
    ensures Present(shards[index := Some(shard)][code.k..])
         == Present(shards[code.k..]) + (if index >= code.k then 1 else 0)
  {
    if index >= code.k {
      assert shards[index := Some(shard)][code.k..] == shards[code.k..][index - code.k := Some(shard)];
      PresentSet(shards[code.k..], index - code.k, shard);
    } else {
      assert shards[index := Some(shard)][code.k..] == shards[code.k..];
    }
  }

  lemma NewGroupEmpty(code: Code, start: nat)
    ensures WellFormedGroup(code, start, NewGroup(code, start)) && Parities(code, NewGroup(code, start)) == 0
  {
    NonePresent(code.k + code.m);
    NonePresent(code.m);
    assert NewGroup(code, start).shards[code.k..] == seq(code.m, _ => None);
  }

  lemma {:induction false} EmissionsFew(start: nat, codeword: seq<Bytes>, k: nat)
    ensures |Emissions(start, codeword, k)| <= k
  {
    if 0 < k <= |codeword| {
      EmissionsFew(start, codeword, k - 1);
    }
  }

  /** The parity store after one group changed from `g` to `g'`. */
  lemma StoredReplace(code: Code, groups: map<nat, Group>, start: nat, g': Group)
    ensures var before := if start in groups then Parities(code, groups[start]) else 0;
            && Stored(code, groups) == before + Stored(code, groups - {start})
            && Stored(code, groups[start := g']) == Parities(code, g') + Stored(code, groups - {start})
  {
    if start in groups {
      StoredRemove(code, groups, start);
    } else {
      assert groups - {start} == groups;
    }
    StoredRemove(code, groups[start := g'], start);
    assert groups[start := g'] - {start} == groups - {start};
  }

  lemma FeedKeepsWellFormed(d: Decoder, start: nat, index: nat, shard: Bytes)
    requires WellFormed(d) && d.code.k > 0
    ensures WellFormed(ShardAdded(d, start, index, shard).0)
  {
    var g := GroupAt(d, start);
    NewGroupEmpty(d.code, start);
    if index < |g.shards| && g.shards[index].None? {
      PresentSet(g.shards, index, shard);
    }
  }

  /** The account of one shard: parity shards in store pay for rebuilds, and a rebuild emits at most k payloads. */
  lemma FeedAccount(d: Decoder, start: nat, index: nat, shard: Bytes)
    requires WellFormed(d) && d.code.k > 0
    ensures var (d', out) := ShardAdded(d, start, index, shard);
            var spent := if Rebuilds(d, start, index, shard) then 1 else 0;
            && WellFormed(d')
            && Stored(d.code, d'.groups) + spent <= Stored(d.code, d.groups) + (if index >= d.code.k then 1 else 0)
            && |out| <= (if spent == 1 then d.code.k else 0)
  {
    FeedKeepsWellFormed(d, start, index, shard);
    var g := GroupAt(d, start);
    if index < |g.shards| && g.shards[index].None? {
      var g' := g.(shards := g.shards[index := Some(shard)], received := g.received + 1);
      FilledAccount(d, start, index, shard);
      if g'.received >= d.code.k {
        CompletedAccount(d.code, g');
        StoredReplace(d.code, d.groups, start, g');
        assert d.groups[start := g'] - {start} == d.groups - {start};
      }
    } else {
      NewGroupEmpty(d.code, start);
      StoredReplace(d.code, d.groups, start, g);
    }
  }

  /** Putting a shard into its group raises the parity store by the shard's own worth. */
  lemma FilledAccount(d: Decoder, start: nat, index: nat, shard: Bytes)
    requires WellFormed(d)
    requires index < |GroupAt(d, start).shards| && GroupAt(d, start).shards[index].None?
    ensures var g := GroupAt(d, start);
            var g' := g.(shards := g.shards[index := Some(shard)], received := g.received + 1);
            && WellFormedGroup(d.code, start, g')
            && Stored(d.code, d.groups[start := g']) == Stored(d.code, d.groups) + (if index >= d.code.k then 1 else 0)
  {
    var g := GroupAt(d, start);
    NewGroupEmpty(d.code, start);
    PresentSet(g.shards, index, shard);
    AddedParity(d.code, g.shards, index, shard);
    StoredReplace(d.code, d.groups, start, g.(shards := g.shards[index := Some(shard)], received := g.received + 1));
  }

  lemma CompletedAccount(code: Code, g: Group)
    requires WellFormedGroup(code, g.start, g) && g.received >= code.k
    ensures |Rebuild(code, g)| <= code.k
    ensures if MissesData(code, g.shards) then Parities(code, g) >= 1 else Rebuild(code, g) == []
  {
    if MissesData(code, g.shards) {
      RebuildUsesParity(code, g);
      match code.reconstruct(g.shards)
      case Some(codeword) => EmissionsFew(g.start, codeword, code.k);
      case None =>
    }
  }

  lemma ExpireAccount(d: Decoder, start: nat)
    requires WellFormed(d)
    ensures WellFormed(Expired(d, start)) && Stored(d.code, Expired(d, start).groups) <= Stored(d.code, d.groups)
  {
    if start in d.groups {
      StoredRemove(d.code, d.groups, start);
    } else {
      assert d.groups - {start} == d.groups;
    }
  }

  ghost predicate Inv(x: Loop) {
    && x.d.code.k > 0 && WellFormed(x.d)
    && Stored(x.d.code, x.d.groups) + x.rebuilds <= x.parities
  }

  lemma SlotBelowK(n: nat, k: nat)
    requires k > 0
    ensures n % k < k && n / k * k >= 0
  {
  }

  lemma FeedKeepsInv(x: Loop, start: nat, index: nat, shard: Bytes)
    requires x.d.code.k > 0 && WellFormed(x.d)
    requires Stored(x.d.code, x.d.groups) + x.rebuilds + (if index >= x.d.code.k then 1 else 0) <= x.parities
    ensures Inv(Feed(x, start, index, shard))
  {
    FeedAccount(x.d, start, index, shard);
  }

  lemma FeedDataKeepsInv(x: Loop, n: nat, payload: Bytes)
    requires Inv(x)
    ensures Inv(FeedData(x, n, payload))
  {
    SlotBelowK(n, x.d.code.k);
    FeedKeepsInv(x, n / x.d.code.k * x.d.code.k, n % x.d.code.k, Shard(payload));
  }

  lemma ParityKeepsInv(x: Loop, p: Parity)
    requires Inv(x)
    ensures Inv(Step(x, ParityIn(p)))
  {
    FeedKeepsInv(x.(parities := x.parities + 1), p.start, x.d.code.k + p.index, p.shard);
  }

  lemma TaskKeepsInv(x: Loop, i: nat)
    requires Inv(x)
    ensures Inv(Step(x, Task(i)))
  {
    if i < |x.pending| {
      var rest := x.(pending := x.pending[..i] + x.pending[i + 1..]);
      FeedDataKeepsInv(rest, x.pending[i].n, x.pending[i].payload);
    }
  }

  lemma StepKeepsInv(x: Loop, e: Event)
    requires Inv(x)
    ensures Inv(Step(x, e))
  {
    match e
    case Data(n, payload) => FeedDataKeepsInv(x, n, payload);
    case ParityIn(p) => ParityKeepsInv(x, p);
    case Timer(start) => ExpireAccount(x.d, start);
    case Task(i) => TaskKeepsInv(x, i);
  }

  /** In every run there are at most as many rebuilds as parity packets received, whatever the packets hold. */
  lemma {:induction false} RebuildsPaidByParity(code: Code, es: seq<Event>)
    requires code.k > 0
    ensures var x := Exec(Initial(code), es);
            Inv(x) && x.rebuilds <= x.parities
  {
    if es != [] {
      RebuildsPaidByParity(code, es[..|es| - 1]);
      StepKeepsInv(Exec(Initial(code), es[..|es| - 1]), es[|es| - 1]);
    }
  }

  /** Work the loop can still do on its own: each pending task is one step, each stored parity shard pays for k more. */
  ghost function Weight(x: Loop): nat {
    |x.pending| + Stored(x.d.code, x.d.groups) * (x.d.code.k + 1)
  }

  lemma TaskLowersWeight(x: Loop, i: nat)
    requires Inv(x) && i < |x.pending|
    ensures Weight(Step(x, Task(i))) < Weight(x)
  {
    var y := Step(x, Task(i));
    TaskAccount(x, i);
    WeightDrops(|x.pending|, Stored(x.d.code, x.d.groups), |y.pending|, Stored(y.d.code, y.d.groups), x.d.code.k);
  }

  lemma TaskAccount(x: Loop, i: nat)
    requires Inv(x) && i < |x.pending|
    ensures var y := Step(x, Task(i));
            var before, after := Stored(x.d.code, x.d.groups), Stored(y.d.code, y.d.groups);
            after <= before && |y.pending| < |x.pending| + (if after < before then x.d.code.k else 0)
  {
    var k := x.d.code.k;
    var r := x.pending[i];
    SlotBelowK(r.n, k);
    FeedAccount(x.d, r.n / k * k, r.n % k, Shard(r.payload));
  }

  lemma WeightDrops(pending: nat, stored: nat, pending': nat, stored': nat, k: nat)
    requires stored' <= stored && pending' < pending + (if stored' < stored then k else 0)
    ensures pending' + stored' * (k + 1) < pending + stored * (k + 1)
  {
    if stored' < stored {
      ProductGap(stored, stored', k + 1);
    }
  }

  lemma ProductMonotone(a: nat, b: nat, c: nat)
    requires a <= b
    ensures a * c <= b * c
  {
  }

  lemma ProductGap(a: nat, b: nat, c: nat)
    requires b < a
    ensures b * c + c <= a * c
  {
    ProductMonotone(b + 1, a, c);
  }

  lemma TimerKeepsWeight(x: Loop, start: nat)
    requires Inv(x)
    ensures Weight(Step(x, Timer(start))) <= Weight(x)
  {
    ExpireAccount(x.d, start);
    ProductMonotone(Stored(x.d.code, Step(x, Timer(start)).d.groups), Stored(x.d.code, x.d.groups), x.d.code.k + 1);
  }

  /** Tasks that really run in `es`. */
  function TasksRun(x: Loop, es: seq<Event>): nat
    requires x.d.code.k > 0
    decreases es
  {
    if es == [] then 0
    else (if es[0].Task? && es[0].i < |x.pending| then 1 else 0) + TasksRun(Step(x, es[0]), es[1..])
  }

  /** The loop terminates: without new packets, at most Weight tasks ever run, in any order. */
  lemma {:induction false} FeedbackTerminates(x: Loop, es: seq<Event>)
    requires Inv(x) && forall e <- es :: e.Task? || e.Timer?
    ensures TasksRun(x, es) <= Weight(x)
    decreases es
  {
    if es != [] {
      var e := es[0];
      assert e in es;
      StepKeepsInv(x, e);
      if e.Timer? {
        TimerKeepsWeight(x, e.start);
      } else if e.i < |x.pending| {
        TaskLowersWeight(x, e.i);
      }
      FeedbackTerminates(Step(x, e), es[1..]);
    }
  }
}
