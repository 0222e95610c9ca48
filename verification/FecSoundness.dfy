/**
 What forward error correction recovers, for any numbering of the packets:
 numbers may be burned, and the encoder may start anywhere. The decoder sees
 any arrival order, duplication, loss and expiry. Emissions are truthful
 exactly if every block of the encoder is harmless.
 */
module FecSoundness {
  import opened Base
  import opened ErasureCode
  import opened Fec
  import opened FecEncoding

  /** The sender's log: a payload for every number submitted, None for a burned one. */
  type Log = seq<Option<Bytes>>

  predicate Submitted(log: Log, n: nat) {
    n < |log| && log[n].Some?
  }

  /** Payload lengths fit the two length bytes of a shard. */
  ghost predicate Sized(log: Log) {
    forall n: nat :: Submitted(log, n) ==> |log[n].value| < 0x1_0000
  }

  /** What the encoder is fed if it starts with a fresh block at number `from`. */
  function Fed(log: Log, from: nat): seq<Numbered> {
    if |log| <= from then []
    else
      var n := |log| - 1;
      Fed(log[..n], from) + (if log[n].Some? then [Numbered(n, log[n].value)] else [])
  }

  ghost predicate InLog(log: Log, from: nat, x: Numbered) {
    from <= x.n && Submitted(log, x.n) && log[x.n].value == x.payload
  }

  ghost predicate Increasing(packets: seq<Numbered>) {
    forall i, j :: 0 <= i < j < |packets| ==> packets[i].n < packets[j].n
  }

  /** The encoder gets the submitted packets from `from` on, each once, in increasing order. */
  lemma {:induction false} FedIsLog(log: Log, from: nat)
    ensures forall x :: x in Fed(log, from) <==> InLog(log, from, x)
    ensures Increasing(Fed(log, from))
  {
    if |log| > from {
      var n := |log| - 1;
      var init := Fed(log[..n], from);
      FedIsLog(log[..n], from);
      forall x ensures x in Fed(log, from) <==> InLog(log, from, x) {
        assert x in init <==> InLog(log[..n], from, x);
        assert x.n < n ==> log[..n][x.n] == log[x.n];
      }
      if log[n].Some? {
        FedOneMore(init, log[..n], from, Numbered(n, log[n].value));
      }
    }
  }

  lemma FedOneMore(init: seq<Numbered>, log: Log, from: nat, last: Numbered)
    requires Increasing(init) && last.n == |log| && forall x :: x in init <==> InLog(log, from, x)
    ensures Increasing(init + [last])
  {
    forall i | 0 <= i < |init| ensures init[i].n < last.n {
      assert init[i] in init;
    }
  }

  // ---- arrivals and emissions -----------------------------------------------

  datatype Event = Data(n: nat) | ParityIn(p: Parity) | Timer(start: nat)

  function DecodeStep(d: Decoder, log: Log, e: Event): (Decoder, seq<Recovered>)
    requires d.code.k > 0
    ensures DecodeStep(d, log, e).0.code == d.code
  {
    match e
    case Data(n) => if Submitted(log, n) then DataAdded(d, n, log[n].value) else (d, [])
    case ParityIn(p) => ParityAdded(d, p)
    case Timer(start) => (Expired(d, start), [])
  }

  /** Arrivals at a fresh decoder; also everything it has emitted. */
  function DecodeAll(code: Code, log: Log, es: seq<Event>): (Decoder, seq<Recovered>)
    requires code.k > 0
    ensures DecodeAll(code, log, es).0.code == code
  {
    if es == [] then (Decoder(code, map[]), [])
    else
      var (d, out) := DecodeAll(code, log, es[..|es| - 1]);
      var (d', more) := DecodeStep(d, log, es[|es| - 1]);
      (d', out + more)
  }

  /** Any submitted packets and any parity packets the encoder sent, in any order and number, and any timers. */
  ghost predicate Arrivals(code: Code, log: Log, from: nat, es: seq<Event>) {
    forall e <- es :: match e
                      case Data(n) => Submitted(log, n)
                      case ParityIn(p) => p in EncodeAll(code, Fed(log, from)).1
                      case Timer(_) => true
  }

  ghost predicate Genuine(log: Log, r: Recovered) {
    Submitted(log, r.n) && log[r.n].value == r.payload
  }

  ghost predicate AllGenuine(log: Log, out: seq<Recovered>) {
    forall r <- out :: Genuine(log, r)
  }

  // ---- blocks -----------------------------------------------------------------

  /** The block's numbers have no gap: the last one is k - 1 above the first. */
  predicate GapFree(packets: seq<Numbered>, a: nat, k: nat)
    requires k > 0 && a + k <= |packets|
  {
    packets[a + k - 1].n == packets[a].n + k - 1
  }

  /** Numbers from `start` on that were submitted, among `k`. */
  function Count(log: Log, start: nat, k: nat): nat {
    if k == 0 then 0 else Count(log, start, k - 1) + (if Submitted(log, start + k - 1) then 1 else 0)
  }

  /** Data shards that can meet the block's parity in a group: data only goes to groups at multiples of `k`. */
  function Reach(log: Log, start: nat, k: nat): nat
    requires k > 0
  {
    if start % k == 0 then Count(log, start, k) else 0
  }

  /** Gap-free, or its group can never have enough shards. */
  predicate Harmless(code: Code, log: Log, packets: seq<Numbered>, a: nat)
    requires code.k > 0 && a + code.k <= |packets|
  {
    GapFree(packets, a, code.k) || Reach(log, packets[a].n, code.k) + code.m < code.k
  }

  ghost predicate AllHarmless(code: Code, log: Log, from: nat)
    requires code.k > 0
  {
    forall a: nat :: IsBlockAt(Fed(log, from), a, code.k) ==> Harmless(code, log, Fed(log, from), a)
  }

  // ---- what every decoder keeps -------------------------------------------------

  ghost predicate DataSlots(code: Code, log: Log, start: nat, shards: Partial)
    requires code.k > 0 && |shards| == code.k + code.m
  {
    forall j :: 0 <= j < code.k && shards[j].Some? ==>
      start % code.k == 0 && Submitted(log, start + j) && shards[j].value == Shard(log[start + j].value)
  }

  ghost predicate ParitySlots(code: Code, packets: seq<Numbered>, start: nat, shards: Partial)
    requires |shards| == code.k + code.m
  {
    forall j :: code.k <= j < |shards| && shards[j].Some? ==>
      FullBlockParity(code, packets, Parity(start, j - code.k, shards[j].value))
  }

  /** Every shard of a group is what was sent for its place. */
  ghost predicate SoundGroup(code: Code, log: Log, from: nat, start: nat, g: Group) {
    && code.k > 0 && g.start == start && |g.shards| == code.k + code.m && g.received == Present(g.shards)
    && DataSlots(code, log, start, g.shards) && ParitySlots(code, Fed(log, from), start, g.shards)
  }

  ghost predicate Sound(d: Decoder, log: Log, from: nat) {
    forall start <- d.groups ::
      SoundGroup(d.code, log, from, start, d.groups[start]) && d.groups[start].received < d.code.k
  }

  /** The shard is what was sent for this place. */
  ghost predicate TrueShard(code: Code, log: Log, from: nat, start: nat, index: nat, shard: Bytes) {
    && code.k > 0
    && (index < code.k ==>
          start % code.k == 0 && Submitted(log, start + index) && shard == Shard(log[start + index].value))
    && (code.k <= index < code.k + code.m ==>
          FullBlockParity(code, Fed(log, from), Parity(start, index - code.k, shard)))
  }

  // ---- rebuilding -----------------------------------------------------------------

  /** A rebuilt codeword is emitted shard by shard, as far as the shards hold payloads. */
  lemma {:induction false} EmissionsExact(start: nat, codeword: seq<Bytes>, k: nat)
    requires k <= |codeword|
    ensures forall r :: r in Emissions(start, codeword, k) <==>
              start <= r.n < start + k && PayloadOf(codeword[r.n - start]) == Some(r.payload)
  {
    if k > 0 {
      EmissionsExact(start, codeword, k - 1);
    }
  }

  lemma {:induction false} SomePresent(shards: Partial)
    requires Present(shards) > 0
    ensures exists i :: 0 <= i < |shards| && shards[i].Some?
  {
    if shards[0].None? {
      SomePresent(shards[1..]);
      var i :| 0 <= i < |shards| - 1 && shards[1..][i].Some?;
      assert shards[i + 1].Some?;
    }
  }

  /** A group that must be rebuilt holds parity of a block that starts at its number. */
  lemma RebuildHasBlock(code: Code, log: Log, from: nat, g: Group)
    requires SoundGroup(code, log, from, g.start, g) && g.received >= code.k && MissesData(code, g.shards)
    ensures exists a: nat :: IsBlockAt(Fed(log, from), a, code.k) && Fed(log, from)[a].n == g.start
  {
    assert g.shards == g.shards[..code.k] + g.shards[code.k..];
    PresentConcat(g.shards[..code.k], g.shards[code.k..]);
    var i :| 0 <= i < code.k && i < |g.shards| && g.shards[i].None?;
    assert g.shards[..code.k][i].None?;
    PresentBound(g.shards[..code.k]);
    SomePresent(g.shards[code.k..]);
    var j :| 0 <= j < |g.shards| - code.k && g.shards[code.k..][j].Some?;
    var p := Parity(g.start, j, g.shards[code.k + j].value);
    assert FullBlockParity(code, Fed(log, from), p);
    var a: nat :| ParityOf(code, Fed(log, from), a, p);
  }

  /** Numbers of a gap-free block are consecutive. */
  lemma {:induction false} GapFreeNumbers(packets: seq<Numbered>, a: nat, k: nat, i: nat)
    requires k > 0 && a + k <= |packets| && Increasing(packets) && GapFree(packets, a, k) && i < k
    ensures packets[a + i].n == packets[a].n + i
  {
    AtLeast(packets, a, i);
    AtLeast(packets, a + i, k - 1 - i);
  }

  lemma {:induction false} AtLeast(packets: seq<Numbered>, a: nat, i: nat)
    requires Increasing(packets) && a + i < |packets|
    ensures packets[a + i].n >= packets[a].n + i
  {
    if i > 0 {
      AtLeast(packets, a, i - 1);
    }
  }

  /** A gap-free block holds the payloads of consecutive numbers. */
  lemma GapFreeBlock(log: Log, from: nat, a: nat, k: nat, start: nat, j: nat)
    requires k > 0 && a + k <= |Fed(log, from)| && Fed(log, from)[a].n == start && j < k
    requires GapFree(Fed(log, from), a, k)
    ensures Submitted(log, start + j) && BlockShards(Fed(log, from), a, k)[j] == Shard(log[start + j].value)
  {
    FedIsLog(log, from);
    GapFreeNumbers(Fed(log, from), a, k, j);
    assert Fed(log, from)[a + j] in Fed(log, from);
    assert InLog(log, from, Fed(log, from)[a + j]);
  }

  /** In a group at the first number of a gap-free block, all shards are shards of that block's codeword. */
  lemma GapFreeAgrees(code: Code, log: Log, from: nat, g: Group, a: nat)
    requires Mds(code) && SoundGroup(code, log, from, g.start, g)
    requires IsBlockAt(Fed(log, from), a, code.k) && Fed(log, from)[a].n == g.start
    requires GapFree(Fed(log, from), a, code.k)
    ensures Agrees(g.shards, Codeword(code, BlockShards(Fed(log, from), a, code.k)))
    ensures IsBlock(code.k, BlockShards(Fed(log, from), a, code.k))
  {
    var block := BlockShards(Fed(log, from), a, code.k);
    BlockIsBlock(Fed(log, from), a, code.k);
    forall j | 0 <= j < |g.shards| && g.shards[j].Some? ensures g.shards[j].value == Codeword(code, block)[j] {
      if j < code.k {
        GapFreeBlock(log, from, a, code.k, g.start, j);
      } else {
        ParityAgrees(code, log, from, a, Parity(g.start, j - code.k, g.shards[j].value));
      }
    }
  }

  lemma ParityAgrees(code: Code, log: Log, from: nat, a: nat, p: Parity)
    requires Mds(code) && IsBlockAt(Fed(log, from), a, code.k) && Fed(log, from)[a].n == p.start
    requires FullBlockParity(code, Fed(log, from), p)
    ensures var codeword := Codeword(code, BlockShards(Fed(log, from), a, code.k));
            code.k + p.index < |codeword| && codeword[code.k + p.index] == p.shard
  {
    FedIsLog(log, from);
    ParityUnique(code, Fed(log, from), a, p);
  }

  /** Numbers differ, so the number of a parity packet names its block. */
  lemma ParityUnique(code: Code, packets: seq<Numbered>, a: nat, p: Parity)
    requires FullBlockParity(code, packets, p) && Increasing(packets) && a < |packets| && packets[a].n == p.start
    ensures ParityOf(code, packets, a, p)
  {
    var b: nat :| ParityOf(code, packets, b, p);
    assert b == a;
  }

  lemma FromGapFreeBlock(log: Log, from: nat, a: nat, k: nat, start: nat, r: Recovered)
    requires Sized(log) && k > 0 && a + k <= |Fed(log, from)|
    requires Fed(log, from)[a].n == start && GapFree(Fed(log, from), a, k)
    requires start <= r.n < start + k && PayloadOf(BlockShards(Fed(log, from), a, k)[r.n - start]) == Some(r.payload)
    ensures Genuine(log, r) && 0 < |r.payload| <= MAX_SHARD_PAYLOAD
  {
    GapFreeBlock(log, from, a, k, start, r.n - start);
    ShardRoundTrip(log[r.n].value);
  }

  /** A group whose shards are shards of one codeword emits the payloads of its data shards. */
  lemma RebuildOfCodeword(code: Code, g: Group, block: seq<Bytes>)
    requires Mds(code) && IsBlock(code.k, block) && Agrees(g.shards, Codeword(code, block))
    requires Present(g.shards) >= code.k && MissesData(code, g.shards)
    ensures forall r :: r in Rebuild(code, g) <==>
              g.start <= r.n < g.start + code.k && PayloadOf(block[r.n - g.start]) == Some(r.payload)
  {
    var codeword := Codeword(code, block);
    assert code.reconstruct(g.shards) == Some(codeword);
    EmissionsExact(g.start, codeword, code.k);
    assert forall j :: 0 <= j < code.k ==> codeword[j] == block[j];
  }

  lemma RebuildGapFree(code: Code, log: Log, from: nat, g: Group, a: nat)
    requires Mds(code) && Sized(log) && SoundGroup(code, log, from, g.start, g) && g.received >= code.k
    requires IsBlockAt(Fed(log, from), a, code.k) && Fed(log, from)[a].n == g.start
    requires GapFree(Fed(log, from), a, code.k)
    ensures forall r <- Rebuild(code, g) :: Genuine(log, r) && 0 < |r.payload| <= MAX_SHARD_PAYLOAD
  {
    if MissesData(code, g.shards) {
      GapFreeAgrees(code, log, from, g, a);
      RebuildOfCodeword(code, g, BlockShards(Fed(log, from), a, code.k));
      forall r | r in Rebuild(code, g) ensures Genuine(log, r) && 0 < |r.payload| <= MAX_SHARD_PAYLOAD {
        FromGapFreeBlock(log, from, a, code.k, g.start, r);
      }
    }
  }

  /** Data shards present are at most the numbers submitted. */
  lemma {:induction false} PresentAtMostCount(code: Code, log: Log, start: nat, shards: Partial, j: nat)
    requires code.k > 0 && |shards| == code.k + code.m && j <= code.k && DataSlots(code, log, start, shards)
    ensures Present(shards[..j]) <= if start % code.k == 0 then Count(log, start, j) else 0
  {
    if j > 0 {
      PresentAtMostCount(code, log, start, shards, j - 1);
      assert shards[..j] == shards[..j - 1] + [shards[j - 1]];
      PresentConcat(shards[..j - 1], [shards[j - 1]]);
      PresentOne(shards[j - 1]);
    }
  }

  /** What checkRecover emits for a sound group is genuine if the group's block is harmless. */
  lemma RebuildIsGenuine(code: Code, log: Log, from: nat, g: Group)
    requires Mds(code) && Sized(log) && AllHarmless(code, log, from)
    requires SoundGroup(code, log, from, g.start, g) && g.received >= code.k
    ensures AllGenuine(log, Rebuild(code, g))
    ensures forall r <- Rebuild(code, g) :: 0 < |r.payload| <= MAX_SHARD_PAYLOAD
  {
    if MissesData(code, g.shards) {
      RebuildHasBlock(code, log, from, g);
      var a: nat :| IsBlockAt(Fed(log, from), a, code.k) && Fed(log, from)[a].n == g.start;
      assert Harmless(code, log, Fed(log, from), a);
      assert GapFree(Fed(log, from), a, code.k) by {
        assert g.shards == g.shards[..code.k] + g.shards[code.k..];
        PresentConcat(g.shards[..code.k], g.shards[code.k..]);
        PresentAtMostCount(code, log, g.start, g.shards, code.k);
        PresentBound(g.shards[code.k..]);
      }
      RebuildGapFree(code, log, from, g, a);
    }
  }

  // ---- every step -------------------------------------------------------------------

  lemma NewGroupIsSound(code: Code, log: Log, from: nat, start: nat)
    requires code.k > 0
    ensures SoundGroup(code, log, from, start, NewGroup(code, start))
  {
    NonePresent(code.k + code.m);
  }

  lemma FilledKeepsSound(code: Code, log: Log, from: nat, g: Group, index: nat, shard: Bytes)
    requires SoundGroup(code, log, from, g.start, g) && TrueShard(code, log, from, g.start, index, shard)
    requires index < |g.shards| && g.shards[index].None?
    ensures SoundGroup(code, log, from, g.start,
                       g.(shards := g.shards[index := Some(shard)], received := g.received + 1))
  {
    PresentSet(g.shards, index, shard);
  }

  lemma ShardKeepsSound(d: Decoder, log: Log, from: nat, start: nat, index: nat, shard: Bytes)
    requires Mds(d.code) && Sized(log) && AllHarmless(d.code, log, from) && Sound(d, log, from)
    requires TrueShard(d.code, log, from, start, index, shard)
    ensures var (d', out) := ShardAdded(d, start, index, shard);
            && Sound(d', log, from) && AllGenuine(log, out)
            && forall r <- out :: 0 < |r.payload| <= MAX_SHARD_PAYLOAD
  {
    var g := GroupAt(d, start);
    NewGroupIsSound(d.code, log, from, start);
    assert SoundGroup(d.code, log, from, start, g);
    if index < |g.shards| && g.shards[index].None? {
      var g' := g.(shards := g.shards[index := Some(shard)], received := g.received + 1);
      FilledKeepsSound(d.code, log, from, g, index, shard);
      if g'.received >= d.code.k {
        RebuildIsGenuine(d.code, log, from, g');
      }
    }
  }

  lemma DivMod(n: nat, k: nat)
    requires k > 0
    ensures n / k * k + n % k == n && n % k < k && (n / k * k) % k == 0 && n / k * k >= 0
  {
    MultipleMod(n / k, k);
  }

  lemma MultipleMod(j: nat, k: nat)
    requires k > 0
    ensures j * k >= 0 && (j * k) % k == 0
  {
    NonNegative(j, k);
    NoRemainder(j, (j * k) / k, (j * k) % k, k);
  }

  lemma NoRemainder(j: nat, q: nat, r: nat, k: nat)
    requires j * k == q * k + r && r < k
    ensures r == 0
  {
    if q < j {
      MultiplesApart(q, j, k);
    } else if j < q {
      MultiplesApart(j, q, k);
    }
  }

  /** AddData puts a packet where its shard belongs. */
  lemma DataSlot(code: Code, log: Log, from: nat, n: nat)
    requires code.k > 0 && Submitted(log, n)
    ensures n / code.k * code.k >= 0
    ensures TrueShard(code, log, from, n / code.k * code.k, n % code.k, Shard(log[n].value))
  {
    DivMod(n, code.k);
  }

  /** AddParity puts a parity packet where its shard belongs. */
  lemma ParitySlot(code: Code, log: Log, from: nat, p: Parity)
    requires Mds(code) && p in EncodeAll(code, Fed(log, from)).1
    ensures TrueShard(code, log, from, p.start, code.k + p.index, p.shard)
  {
    EncoderSendsFullBlocks(code, Fed(log, from));
    assert Parity(p.start, code.k + p.index - code.k, p.shard) == p;
  }

  lemma StepKeepsSound(d: Decoder, log: Log, from: nat, e: Event)
    requires Mds(d.code) && Sized(log) && AllHarmless(d.code, log, from) && Sound(d, log, from)
    requires Arrivals(d.code, log, from, [e])
    ensures var (d', out) := DecodeStep(d, log, e);
            && Sound(d', log, from) && AllGenuine(log, out)
            && forall r <- out :: 0 < |r.payload| <= MAX_SHARD_PAYLOAD
  {
    assert e in [e];
    match e
    case Data(n) => DataKeepsSound(d, log, from, n);
    case ParityIn(p) => ParityKeepsSound(d, log, from, p);
    case Timer(start) =>
  }

  lemma DataKeepsSound(d: Decoder, log: Log, from: nat, n: nat)
    requires Mds(d.code) && Sized(log) && AllHarmless(d.code, log, from) && Sound(d, log, from) && Submitted(log, n)
    ensures var (d', out) := DataAdded(d, n, log[n].value);
            && Sound(d', log, from) && AllGenuine(log, out)
            && forall r <- out :: 0 < |r.payload| <= MAX_SHARD_PAYLOAD
  {
    DataSlot(d.code, log, from, n);
    var start, index := n / d.code.k * d.code.k, n % d.code.k;
    ShardKeepsSound(d, log, from, start, index, Shard(log[n].value));
  }

  lemma ParityKeepsSound(d: Decoder, log: Log, from: nat, p: Parity)
    requires Mds(d.code) && Sized(log) && AllHarmless(d.code, log, from) && Sound(d, log, from)
    requires p in EncodeAll(d.code, Fed(log, from)).1
    ensures var (d', out) := ParityAdded(d, p);
            && Sound(d', log, from) && AllGenuine(log, out)
            && forall r <- out :: 0 < |r.payload| <= MAX_SHARD_PAYLOAD
  {
    ParitySlot(d.code, log, from, p);
    ShardKeepsSound(d, log, from, p.start, d.code.k + p.index, p.shard);
  }

  /**
   Soundness: if every block is harmless, whatever the decoder emits for a
   number is the payload submitted under it, for any arrival order,
   duplication, loss and group expiry, and for any numbering.
   */
  lemma {:induction false} DecoderIsSound(code: Code, log: Log, from: nat, es: seq<Event>)
    requires Mds(code) && Sized(log) && AllHarmless(code, log, from) && Arrivals(code, log, from, es)
    ensures var (d, out) := DecodeAll(code, log, es);
            && Sound(d, log, from) && AllGenuine(log, out)
            && forall r <- out :: 0 < |r.payload| <= MAX_SHARD_PAYLOAD
  {
    if es != [] {
      var init, last := es[..|es| - 1], es[|es| - 1];
      assert last in es && forall e <- init :: e in es;
      DecoderIsSound(code, log, from, init);
      StepKeepsSound(DecodeAll(code, log, init).0, log, from, last);
    }
  }
}
