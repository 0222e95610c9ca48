/**
 Which numberings forward error correction survives. A block whose numbers
 have a gap is harmful exactly if its group can be completed: then some
 payloads and arrivals make the decoder emit a packet that nobody submitted.
 */
module FecNumbering {
  import opened Base
  import opened ErasureCode
  import opened Fec
  import opened FecEncoding
  import opened FecSoundness

  /** The same numbers submitted and burned, with other payloads. */
  ghost predicate SamePattern(log: Log, other: Log) {
    |log| == |other| && forall i :: 0 <= i < |log| ==> (log[i].Some? <==> other[i].Some?)
  }

  lemma {:induction false} CountSame(log: Log, other: Log, start: nat, k: nat)
    requires SamePattern(log, other)
    ensures Count(log, start, k) == Count(other, start, k)
  {
    if k > 0 {
      CountSame(log, other, start, k - 1);
    }
  }

  lemma {:induction false} FedSame(log: Log, other: Log, from: nat)
    requires SamePattern(log, other)
    ensures |Fed(log, from)| == |Fed(other, from)|
    ensures forall i :: 0 <= i < |Fed(log, from)| ==> Fed(log, from)[i].n == Fed(other, from)[i].n
  {
    if |log| > from {
      FedSame(log[..|log| - 1], other[..|log| - 1], from);
    }
  }

  lemma HarmlessSame(code: Code, log: Log, other: Log, from: nat)
    requires code.k > 0 && SamePattern(log, other) && AllHarmless(code, log, from)
    ensures AllHarmless(code, other, from)
  {
    FedSame(log, other, from);
    forall a: nat | IsBlockAt(Fed(other, from), a, code.k) ensures Harmless(code, other, Fed(other, from), a) {
      assert IsBlockAt(Fed(log, from), a, code.k);
      assert Harmless(code, log, Fed(log, from), a);
      CountSame(log, other, Fed(log, from)[a].n, code.k);
    }
  }

  /** Whatever the payloads and the arrivals, the decoder emits only what was submitted. */
  ghost predicate NumberingSound(code: Code, log: Log, from: nat)
    requires code.k > 0
  {
    forall other, es :: SoundRun(code, log, from, other, es)
  }

  ghost predicate SoundRun(code: Code, log: Log, from: nat, other: Log, es: seq<Event>)
    requires code.k > 0
  {
    SamePattern(log, other) && Sized(other) && Arrivals(code, other, from, es) ==>
      AllGenuine(other, DecodeAll(code, other, es).1)
  }

  // ---- a gap leaves a number out ------------------------------------------------

  ghost predicate AllSubmitted(log: Log, start: nat, k: nat) {
    forall n: nat :: start <= n < start + k ==> Submitted(log, n)
  }

  /** If all of the block's k numbers from its first on were submitted, they are the block. */
  lemma {:induction false} NoGap(log: Log, from: nat, a: nat, k: nat, i: nat)
    requires a + k <= |Fed(log, from)| && i < k
    requires AllSubmitted(log, Fed(log, from)[a].n, k)
    ensures Fed(log, from)[a + i].n == Fed(log, from)[a].n + i
  {
    if i > 0 {
      NoGap(log, from, a, k, i - 1);
      NextIsNext(log, from, a + i - 1);
    }
  }

  /** After a fed packet comes the next number, if that was submitted. */
  lemma NextIsNext(log: Log, from: nat, i: nat)
    requires i + 1 < |Fed(log, from)| && Submitted(log, Fed(log, from)[i].n + 1)
    ensures Fed(log, from)[i + 1].n == Fed(log, from)[i].n + 1
  {
    var n := Fed(log, from)[i].n + 1;
    FedIsLog(log, from);
    assert Fed(log, from)[i] in Fed(log, from);
    assert InLog(log, from, Numbered(n, log[n].value));
    var j :| 0 <= j < |Fed(log, from)| && Fed(log, from)[j] == Numbered(n, log[n].value);
    IndexOrder(Fed(log, from), i, j);
  }

  lemma IndexOrder(packets: seq<Numbered>, i: nat, j: nat)
    requires Increasing(packets) && i + 1 < |packets| && j < |packets| && packets[j].n == packets[i].n + 1
    ensures j == i + 1
  {
    assert packets[i].n < packets[i + 1].n;
  }

  lemma GapMisses(log: Log, from: nat, a: nat, k: nat) returns (x: nat)
    requires k > 0 && a + k <= |Fed(log, from)| && !GapFree(Fed(log, from), a, k)
    ensures x < k && !Submitted(log, Fed(log, from)[a].n + x)
  {
    var start := Fed(log, from)[a].n;
    assert !AllSubmitted(log, start, k) by {
      if AllSubmitted(log, start, k) {
        NoGap(log, from, a, k, k - 1);
      }
    }
    var n: nat :| start <= n < start + k && !Submitted(log, n);
    x := n - start;
  }

  lemma {:induction false} CountMonotone(log: Log, start: nat, j: nat, k: nat)
    requires j <= k
    ensures Count(log, start, j) <= Count(log, start, k) <= Count(log, start, j) + (k - j)
  {
    if j < k {
      CountMonotone(log, start, j, k - 1);
    }
  }

  lemma CountMissing(log: Log, start: nat, k: nat, x: nat)
    requires x < k && !Submitted(log, start + x)
    ensures Count(log, start, k) < k
  {
    CountMonotone(log, start, 0, x);
    CountMonotone(log, start, x + 1, k);
  }

  // ---- the run that does harm -----------------------------------------------------

  /** All packets carry the same one byte. */
  function Uniform(log: Log): Log {
    seq(|log|, i requires 0 <= i < |log| => if log[i].Some? then Some([7]) else None)
  }

  ghost predicate IsUniform(log: Log) {
    forall n: nat :: Submitted(log, n) ==> log[n].value == [7]
  }

  /** The group after `j` numbers have been gone through and `i` parity shards have arrived. */
  function Shards(log: Log, start: nat, k: nat, parity: seq<Bytes>, j: nat, i: nat): Partial
    requires i <= |parity|
  {
    seq(k + |parity|, x requires 0 <= x < k + |parity| =>
      if x < k then (if x < j && Submitted(log, start + x) then Some(Shard([7])) else None)
      else if x - k < i then Some(parity[x - k]) else None)
  }

  /** The decoder has only this group to work on, and has emitted nothing. */
  ghost predicate Waiting(
    d: Decoder, out: seq<Recovered>, log: Log, start: nat, parity: seq<Bytes>, j: nat, i: nat)
    requires i <= |parity|
  {
    && out == []
    && GroupAt(d, start) == Group(start, Shards(log, start, d.code.k, parity, j, i), Count(log, start, j) + i)
    && Present(Shards(log, start, d.code.k, parity, j, i)) == Count(log, start, j) + i
  }

  function Datas(log: Log, start: nat, j: nat): seq<Event> {
    if j == 0 then []
    else Datas(log, start, j - 1) + (if Submitted(log, start + j - 1) then [Data(start + j - 1)] else [])
  }

  function Parities(start: nat, parity: seq<Bytes>, i: nat): seq<Event>
    requires i <= |parity|
  {
    if i == 0 then [] else Parities(start, parity, i - 1) + [ParityIn(Parity(start, i - 1, parity[i - 1]))]
  }

  /** The group that number start + x belongs to. */
  lemma SlotOf(start: nat, x: nat, k: nat)
    requires k > 0 && start % k == 0 && x < k
    ensures (start + x) / k * k == start && (start + x) % k == x
  {
    DivMod(start + x, k);
    SameSlot(start / k, (start + x) / k, start, x, (start + x) % k, k);
  }

  lemma SameSlot(j: nat, q: nat, start: nat, x: nat, r: nat, k: nat)
    requires start == j * k && x < k && r < k && q * k + r == start + x
    ensures q * k == start && r == x
  {
    if q < j {
      MultiplesApart(q, j, k);
    } else if j < q {
      MultiplesApart(j, q, k);
    }
  }

  lemma NothingYet(code: Code, log: Log, start: nat, parity: seq<Bytes>)
    requires code.k > 0 && |parity| == code.m
    ensures Waiting(Decoder(code, map[]), [], log, start, parity, 0, 0)
  {
    NonePresent(code.k + code.m);
    assert Shards(log, start, code.k, parity, 0, 0) == NewGroup(code, start).shards;
  }

  /** A shard that does not complete the group. */
  lemma ShardWaits(d: Decoder, start: nat, g: Group, index: nat, shard: Bytes)
    requires GroupAt(d, start) == g && g.start == start && index < |g.shards| && g.shards[index].None?
    requires g.received == Present(g.shards) && g.received + 1 < d.code.k
    ensures var (d', out) := ShardAdded(d, start, index, shard);
            && out == [] && d'.code == d.code
            && GroupAt(d', start) == Group(start, g.shards[index := Some(shard)], g.received + 1)
            && Present(g.shards[index := Some(shard)]) == g.received + 1
  {
    PresentSet(g.shards, index, shard);
  }

  lemma {:induction false} AfterDatas(code: Code, log: Log, start: nat, parity: seq<Bytes>, j: nat)
    requires code.k > 0 && |parity| == code.m && start % code.k == 0 && IsUniform(log)
    requires j <= code.k && Count(log, start, code.k) < code.k
    ensures var (d, out) := DecodeAll(code, log, Datas(log, start, j)); Waiting(d, out, log, start, parity, j, 0)
  {
    if j == 0 {
      NothingYet(code, log, start, parity);
    } else {
      AfterDatas(code, log, start, parity, j - 1);
      var es := Datas(log, start, j - 1);
      var (d, out) := DecodeAll(code, log, es);
      if Submitted(log, start + j - 1) {
        OneData(d, out, log, start, parity, j);
        assert (es + [Data(start + j - 1)])[..|es|] == es;
      } else {
        NoData(log, start, code.k, parity, j);
        assert es + [] == es;
      }
    }
  }

  lemma NoData(log: Log, start: nat, k: nat, parity: seq<Bytes>, j: nat)
    requires j > 0 && !Submitted(log, start + j - 1)
    ensures Shards(log, start, k, parity, j, 0) == Shards(log, start, k, parity, j - 1, 0)
  {
  }

  lemma OneData(d: Decoder, out: seq<Recovered>, log: Log, start: nat, parity: seq<Bytes>, j: nat)
    requires d.code.k > 0 && |parity| == d.code.m && start % d.code.k == 0 && IsUniform(log)
    requires 0 < j <= d.code.k && Count(log, start, d.code.k) < d.code.k && Submitted(log, start + j - 1)
    requires Waiting(d, out, log, start, parity, j - 1, 0)
    ensures var (d', more) := DecodeStep(d, log, Data(start + j - 1));
            Waiting(d', out + more, log, start, parity, j, 0)
  {
    var k := d.code.k;
    var before, after := Shards(log, start, k, parity, j - 1, 0), Shards(log, start, k, parity, j, 0);
    SlotOf(start, j - 1, k);
    CountMonotone(log, start, j, k);
    assert after == before[j - 1 := Some(Shard([7]))];
    ShardWaits(d, start, GroupAt(d, start), j - 1, Shard([7]));
  }

  /** All the data the group can get, none if its start is no multiple of the block size; then parity. */
  function HarmfulRun(code: Code, log: Log, start: nat, parity: seq<Bytes>, i: nat): seq<Event>
    requires code.k > 0 && i <= |parity|
  {
    (if start % code.k == 0 then Datas(log, start, code.k) else []) + Parities(start, parity, i)
  }

  /** Numbers gone through before the parity arrives. */
  function Gone(code: Code, start: nat): nat
    requires code.k > 0
  {
    if start % code.k == 0 then code.k else 0
  }

  lemma HarmfulRunGrows(code: Code, log: Log, start: nat, parity: seq<Bytes>, i: nat)
    requires code.k > 0 && 0 < i <= |parity|
    ensures HarmfulRun(code, log, start, parity, i) ==
              HarmfulRun(code, log, start, parity, i - 1) + [ParityIn(Parity(start, i - 1, parity[i - 1]))]
  {
    var datas := if start % code.k == 0 then Datas(log, start, code.k) else [];
    var last := [ParityIn(Parity(start, i - 1, parity[i - 1]))];
    assert datas + (Parities(start, parity, i - 1) + last) == (datas + Parities(start, parity, i - 1)) + last;
  }

  lemma {:induction false} AfterParities(code: Code, log: Log, start: nat, parity: seq<Bytes>, i: nat)
    requires code.k > 0 && |parity| == code.m && IsUniform(log) && i <= |parity|
    requires Reach(log, start, code.k) + i < code.k
    ensures var (d, out) := DecodeAll(code, log, HarmfulRun(code, log, start, parity, i));
            Waiting(d, out, log, start, parity, Gone(code, start), i)
  {
    if i == 0 {
      if start % code.k == 0 {
        AfterDatas(code, log, start, parity, code.k);
        assert HarmfulRun(code, log, start, parity, 0) == Datas(log, start, code.k);
      } else {
        NothingYet(code, log, start, parity);
      }
    } else {
      AfterParities(code, log, start, parity, i - 1);
      var es := HarmfulRun(code, log, start, parity, i - 1);
      var (d, out) := DecodeAll(code, log, es);
      OneParity(d, out, log, start, parity, i);
      HarmfulRunGrows(code, log, start, parity, i);
      assert (es + [ParityIn(Parity(start, i - 1, parity[i - 1]))])[..|es|] == es;
    }
  }

  lemma ParityPlace(log: Log, start: nat, k: nat, parity: seq<Bytes>, j: nat, i: nat)
    requires 0 < i <= |parity|
    ensures k + (i - 1) < |Shards(log, start, k, parity, j, i - 1)|
    ensures Shards(log, start, k, parity, j, i - 1)[k + (i - 1)].None?
    ensures Shards(log, start, k, parity, j, i) ==
              Shards(log, start, k, parity, j, i - 1)[k + (i - 1) := Some(parity[i - 1])]
  {
  }

  lemma OneParity(d: Decoder, out: seq<Recovered>, log: Log, start: nat, parity: seq<Bytes>, i: nat)
    requires d.code.k > 0 && |parity| == d.code.m && 0 < i <= |parity|
    requires Reach(log, start, d.code.k) + i < d.code.k
    requires Waiting(d, out, log, start, parity, Gone(d.code, start), i - 1)
    ensures var (d', more) := DecodeStep(d, log, ParityIn(Parity(start, i - 1, parity[i - 1])));
            Waiting(d', out + more, log, start, parity, Gone(d.code, start), i)
  {
    ParityPlace(log, start, d.code.k, parity, Gone(d.code, start), i);
    ShardWaits(d, start, GroupAt(d, start), d.code.k + (i - 1), parity[i - 1]);
  }

  /** A group that lacks the shard of a number left out, and has enough others, emits that number. */
  lemma LeftOutIsEmitted(code: Code, g: Group, block: seq<Bytes>, x: nat)
    requires Mds(code) && IsBlock(code.k, block) && Agrees(g.shards, Codeword(code, block))
    requires Present(g.shards) >= code.k && x < code.k && block[x] == Shard([7]) && g.shards[x].None?
    ensures Recovered(g.start + x, [7]) in Rebuild(code, g)
  {
    RebuildOfCodeword(code, g, block);
    ShardRoundTrip([7]);
  }

  /** The next parity shard completes the group, and the decoder emits the number that was left out. */
  lemma LastParity(
    d: Decoder, out: seq<Recovered>, log: Log, start: nat, block: seq<Bytes>, x: nat, i: nat)
    requires Mds(d.code) && IsBlock(d.code.k, block) && forall j :: 0 <= j < d.code.k ==> block[j] == Shard([7])
    requires x < d.code.k && !Submitted(log, start + x) && 0 < i <= d.code.m
    requires Reach(log, start, d.code.k) + i == d.code.k
    requires |d.code.parity(block)| == d.code.m
    requires Waiting(d, out, log, start, d.code.parity(block), Gone(d.code, start), i - 1)
    ensures Recovered(start + x, [7]) in
              DecodeStep(d, log, ParityIn(Parity(start, i - 1, d.code.parity(block)[i - 1]))).1
  {
    var k, parity, j := d.code.k, d.code.parity(block), Gone(d.code, start);
    GroupCompletes(d, out, log, start, parity, i);
    ShardsAgree(d.code, log, start, block, j, i);
    LeftOutIsEmitted(d.code, Group(start, Shards(log, start, k, parity, j, i), k), block, x);
  }

  lemma GroupCompletes(d: Decoder, out: seq<Recovered>, log: Log, start: nat, parity: seq<Bytes>, i: nat)
    requires d.code.k > 0 && 0 < i <= |parity| == d.code.m && Reach(log, start, d.code.k) + i == d.code.k
    requires Waiting(d, out, log, start, parity, Gone(d.code, start), i - 1)
    ensures var shards := Shards(log, start, d.code.k, parity, Gone(d.code, start), i);
            && DecodeStep(d, log, ParityIn(Parity(start, i - 1, parity[i - 1]))).1 ==
                 Rebuild(d.code, Group(start, shards, d.code.k))
            && Present(shards) == d.code.k
  {
    ParityPlace(log, start, d.code.k, parity, Gone(d.code, start), i);
    ShardCompletes(d, start, GroupAt(d, start), d.code.k + (i - 1), parity[i - 1]);
  }

  /** A shard that completes the group. */
  lemma ShardCompletes(d: Decoder, start: nat, g: Group, index: nat, shard: Bytes)
    requires GroupAt(d, start) == g && g.start == start && index < |g.shards| && g.shards[index].None?
    requires g.received == Present(g.shards) && g.received + 1 == d.code.k
    ensures ShardAdded(d, start, index, shard).1 ==
              Rebuild(d.code, Group(start, g.shards[index := Some(shard)], d.code.k))
    ensures Present(g.shards[index := Some(shard)]) == d.code.k
  {
    PresentSet(g.shards, index, shard);
  }

  lemma ShardsAgree(code: Code, log: Log, start: nat, block: seq<Bytes>, j: nat, i: nat)
    requires |block| == code.k && forall x :: 0 <= x < code.k ==> block[x] == Shard([7])
    requires i <= |code.parity(block)|
    ensures Agrees(Shards(log, start, code.k, code.parity(block), j, i), Codeword(code, block))
  {
  }

  lemma UniformFed(log: Log, from: nat, a: nat, k: nat)
    requires a + k <= |Fed(log, from)| && IsUniform(log)
    ensures forall j :: 0 <= j < k ==> BlockShards(Fed(log, from), a, k)[j] == Shard([7])
  {
    FedIsLog(log, from);
    forall j | 0 <= j < k ensures BlockShards(Fed(log, from), a, k)[j] == Shard([7]) {
      assert Fed(log, from)[a + j] in Fed(log, from);
      assert InLog(log, from, Fed(log, from)[a + j]);
    }
  }

  lemma {:induction false} DatasArrive(log: Log, start: nat, j: nat)
    ensures forall e <- Datas(log, start, j) :: e.Data? && Submitted(log, e.n)
  {
    if j > 0 {
      DatasArrive(log, start, j - 1);
    }
  }

  lemma {:induction false} ParitiesArrive(start: nat, parity: seq<Bytes>, i: nat)
    requires i <= |parity|
    ensures forall e <- Parities(start, parity, i) ::
              e.ParityIn? && e.p.start == start && e.p.index < |parity| && e.p.shard == parity[e.p.index]
  {
    if i > 0 {
      ParitiesArrive(start, parity, i - 1);
    }
  }

  lemma RunArrives(code: Code, log: Log, from: nat, a: nat, i: nat)
    requires Mds(code) && IsBlockAt(Fed(log, from), a, code.k)
    requires IsBlock(code.m, code.parity(BlockShards(Fed(log, from), a, code.k))) && i <= code.m
    ensures var parity := code.parity(BlockShards(Fed(log, from), a, code.k));
            Arrivals(code, log, from, HarmfulRun(code, log, Fed(log, from)[a].n, parity, i))
  {
    var start := Fed(log, from)[a].n;
    var parity := code.parity(BlockShards(Fed(log, from), a, code.k));
    DatasArrive(log, start, code.k);
    ParitiesArrive(start, parity, i);
    EncoderSendsFullBlocks(code, Fed(log, from));
    forall e | e in Parities(start, parity, i) ensures e.p in EncodeAll(code, Fed(log, from)).1 {
      assert ParityOf(code, Fed(log, from), a, e.p);
    }
  }

  lemma RunEmits(code: Code, log: Log, start: nat, block: seq<Bytes>, x: nat, i: nat)
    requires Mds(code) && IsBlock(code.k, block) && forall j :: 0 <= j < code.k ==> block[j] == Shard([7])
    requires IsUniform(log) && x < code.k && !Submitted(log, start + x)
    requires |code.parity(block)| == code.m && 0 < i <= code.m && Reach(log, start, code.k) + i == code.k
    ensures Recovered(start + x, [7]) in
              DecodeAll(code, log, HarmfulRun(code, log, start, code.parity(block), i)).1
  {
    var parity := code.parity(block);
    var before := HarmfulRun(code, log, start, parity, i - 1);
    AfterParities(code, log, start, parity, i - 1);
    var (d, out) := DecodeAll(code, log, before);
    LastParity(d, out, log, start, block, x, i);
    HarmfulRunGrows(code, log, start, parity, i);
    assert HarmfulRun(code, log, start, parity, i)[..|before|] == before;
  }

  /** The run for a harmful block: it ends with the emission of a packet that nobody submitted. */
  lemma HarmfulBlock(code: Code, log: Log, from: nat, a: nat) returns (es: seq<Event>)
    requires Mds(code) && IsUniform(log) && IsBlockAt(Fed(log, from), a, code.k)
    requires !Harmless(code, log, Fed(log, from), a)
    ensures Arrivals(code, log, from, es) && !AllGenuine(log, DecodeAll(code, log, es).1)
  {
    var start, block := Fed(log, from)[a].n, BlockShards(Fed(log, from), a, code.k);
    BlockIsBlock(Fed(log, from), a, code.k);
    UniformFed(log, from, a, code.k);
    var x := GapMisses(log, from, a, code.k);
    CountMissing(log, start, code.k, x);
    var i := code.k - Reach(log, start, code.k);
    es := HarmfulRun(code, log, start, code.parity(block), i);
    RunEmits(code, log, start, block, x, i);
    RunArrives(code, log, from, a, i);
    assert !Genuine(log, Recovered(start + x, [7]));
  }

  lemma UniformIsOne(log: Log)
    ensures SamePattern(log, Uniform(log)) && IsUniform(Uniform(log)) && Sized(Uniform(log))
  {
    forall n: nat | Submitted(Uniform(log), n) ensures Uniform(log)[n].value == [7] {}
  }

  /**
   Which numberings are sound. Whatever the payloads and the arrivals, the
   decoder emits only what was submitted, exactly if every block of the
   encoder is harmless: its numbers have no gap, or so few of them belong to
   its group that it can never be completed.
   */
  lemma NumberingSoundIff(code: Code, log: Log, from: nat)
    requires Mds(code)
    ensures NumberingSound(code, log, from) <==> AllHarmless(code, log, from)
  {
    if AllHarmless(code, log, from) {
      forall other, es ensures SoundRun(code, log, from, other, es) {
        if SamePattern(log, other) && Sized(other) && Arrivals(code, other, from, es) {
          HarmlessSame(code, log, other, from);
          DecoderIsSound(code, other, from, es);
        }
      }
    } else {
      var u := Uniform(log);
      UniformIsOne(log);
      if AllHarmless(code, u, from) {
        HarmlessSame(code, u, log, from);
      }
      var a: nat :| IsBlockAt(Fed(u, from), a, code.k) && !Harmless(code, u, Fed(u, from), a);
      var es := HarmfulBlock(code, u, from, a);
      assert !SoundRun(code, log, from, u, es);
    }
  }

  /** Without burned numbers every block is gap-free, wherever the encoder starts. */
  lemma NoBurnIsHarmless(code: Code, log: Log, from: nat)
    requires code.k > 0 && forall i :: 0 <= i < |log| ==> log[i].Some?
    ensures AllHarmless(code, log, from)
  {
    forall a: nat | IsBlockAt(Fed(log, from), a, code.k) ensures Harmless(code, log, Fed(log, from), a) {
      FedIsLog(log, from);
      BlockWithin(log, from, a, code.k);
      NoGap(log, from, a, code.k, code.k - 1);
    }
  }

  lemma BlockWithin(log: Log, from: nat, a: nat, k: nat)
    requires k > 0 && a + k <= |Fed(log, from)| && forall i :: 0 <= i < |log| ==> log[i].Some?
    ensures AllSubmitted(log, Fed(log, from)[a].n, k)
  {
    FedIsLog(log, from);
    AtLeast(Fed(log, from), a, k - 1);
    assert Fed(log, from)[a + k - 1] in Fed(log, from);
    assert InLog(log, from, Fed(log, from)[a + k - 1]);
  }

  // ---- one burned number ----------------------------------------------------------

  function BurnedLog(): Log {
    [Some([7]), None, Some([9])]
  }

  /** The parity the encoder sends for the block of packets 0 and 2. */
  function BurnedParity(): Parity {
    Parity(0, 0, SumShard([Shard([7]), Shard([9])]))
  }

  lemma BurnedFed()
    ensures Fed(BurnedLog(), 0) == [Numbered(0, [7]), Numbered(2, [9])]
  {
    var log := BurnedLog();
    var one: Log := [Some([7])];
    var two: Log := [Some([7]), None];
    assert log[..2] == two && two[..1] == one && |one[..0]| == 0;
    assert Fed(one, 0) == [Numbered(0, [7])];
    assert Fed(two, 0) == [Numbered(0, [7])] + [];
  }

  /**
   A run that does harm: number 1 is burned between two packets. Two data
   shards and one parity shard: a decoder that gets packet 0 and the block's
   parity takes packet 2 for packet 1, which nobody submitted.
   */
  lemma BurnedNumberMisleads()
    ensures var code, log, es := Additive(2), BurnedLog(), [Data(0), ParityIn(BurnedParity())];
            && Arrivals(code, log, 0, es)
            && Recovered(1, [9]) in DecodeAll(code, log, es).1 && !Genuine(log, Recovered(1, [9]))
  {
    var code, log, es := Additive(2), BurnedLog(), [Data(0), ParityIn(BurnedParity())];
    BurnedParityIsSent();
    BurnedRebuild();
    BurnedGroupCompletes();
    assert es[..1] == [Data(0)];
  }

  /** The group once packet 0 and the parity are there. */
  function BurnedGroup(): Group {
    Group(0, [Some(Shard([7])), None, Some(BurnedParity().shard)], 2)
  }

  lemma BurnedRebuild()
    ensures Recovered(1, [9]) in Rebuild(Additive(2), BurnedGroup())
  {
    var shards, block := BurnedGroup().shards, [Shard([7]), Shard([9])];
    AdditiveIsMds(2);
    assert Present(shards) == 2 by {
      var rest: Partial := [None, Some(BurnedParity().shard)];
      assert shards[1..] == rest && rest[1..] == [Some(BurnedParity().shard)];
      PresentOne(Some(BurnedParity().shard));
    }
    RebuildOfCodeword(Additive(2), BurnedGroup(), block);
    ShardRoundTrip([9]);
  }

  lemma BurnedGroupCompletes()
    ensures DecodeStep(DecodeAll(Additive(2), BurnedLog(), [Data(0)]).0, BurnedLog(), ParityIn(BurnedParity())).1
         == Rebuild(Additive(2), BurnedGroup())
  {
    PacketZeroStored();
    var stored: Partial := [Some(Shard([7])), None, None];
    assert stored[2 := Some(BurnedParity().shard)] == BurnedGroup().shards;
  }

  lemma PacketZeroStored()
    ensures DecodeAll(Additive(2), BurnedLog(), [Data(0)]).0 ==
              Decoder(Additive(2), map[0 := Group(0, [Some(Shard([7])), None, None], 1)])
  {
    assert [Data(0)][..0] == [];
    assert NewGroup(Additive(2), 0).shards == [None, None, None];
    assert [None, None, None][0 := Some(Shard([7]))] == [Some(Shard([7])), None, None];
  }

  lemma BurnedParityIsSent()
    ensures BurnedParity() in EncodeAll(Additive(2), Fed(BurnedLog(), 0)).1
  {
    var code, packets := Additive(2), Fed(BurnedLog(), 0);
    AdditiveIsMds(2);
    BurnedFed();
    EncoderSendsFullBlocks(code, packets);
    assert BlockShards(packets, 0, 2) == [Shard([7]), Shard([9])];
    assert 0 == 0 * 2;
    assert ParityOf(code, packets, 0, BurnedParity());
  }
}
