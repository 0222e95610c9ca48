/**
 The erasure code as a parameter: `parity` is reedsolomon's Encode and
 `reconstruct` its Reconstruct, for `k` data and `m` parity shards. The
 hypothesis used is that any `k` shards determine the codeword, in one place
 also that any `k` shards fit a codeword. An additive code with one parity
 shard shows that both can be met.
 */
module ErasureCode {
  import opened Base

  const SHARD_SIZE: int := 1200

  type Partial = seq<Option<Bytes>>

  datatype Code = Code(k: nat, m: nat, parity: seq<Bytes> -> seq<Bytes>, reconstruct: Partial -> Option<seq<Bytes>>)

  predicate IsBlock(k: nat, data: seq<Bytes>) {
    |data| == k && forall i :: 0 <= i < |data| ==> |data[i]| == SHARD_SIZE
  }

  function Codeword(c: Code, data: seq<Bytes>): seq<Bytes> {
    data + c.parity(data)
  }

  /** Number of shards present. */
  function Present(shards: Partial): nat {
    if shards == [] then 0 else (if shards[0].Some? then 1 else 0) + Present(shards[1..])
  }

  ghost predicate Agrees(shards: Partial, codeword: seq<Bytes>) {
    && |shards| == |codeword|
    && forall i :: 0 <= i < |shards| && shards[i].Some? ==> shards[i].value == codeword[i]
  }

  /** Any `k` shards of a codeword determine it. */
  ghost predicate Mds(c: Code) {
    && c.k > 0
    && (forall data :: IsBlock(c.k, data) ==> IsBlock(c.m, c.parity(data)))
    && (forall data, shards ::
          IsBlock(c.k, data) && Agrees(shards, Codeword(c, data)) && Present(shards) >= c.k ==>
            c.reconstruct(shards) == Some(Codeword(c, data)))
  }

  /** Moreover any `k` shards are shards of some codeword, as with Reed-Solomon. */
  ghost predicate Total(c: Code) {
    && Mds(c)
    && forall shards :: IsPartial(c, shards) && Present(shards) == c.k ==> HasCodeword(c, shards)
  }

  ghost predicate IsPartial(c: Code, shards: Partial) {
    |shards| == c.k + c.m && forall i :: 0 <= i < |shards| && shards[i].Some? ==> |shards[i].value| == SHARD_SIZE
  }

  ghost predicate HasCodeword(c: Code, shards: Partial) {
    exists data :: IsBlock(c.k, data) && Agrees(shards, Codeword(c, data))
  }

  lemma PresentOne(shard: Option<Bytes>)
    ensures Present([shard]) == if shard.Some? then 1 else 0
  {
    var one: Partial := [shard];
    assert one[1..] == [];
  }

  lemma {:induction false} PresentConcat(a: Partial, b: Partial)
    ensures Present(a + b) == Present(a) + Present(b)
  {
    if a == [] {
      assert a + b == b;
    } else {
      assert (a + b)[1..] == a[1..] + b;
      PresentConcat(a[1..], b);
    }
  }

  lemma {:induction false} PresentBound(a: Partial)
    ensures Present(a) <= |a|
    ensures (exists i :: 0 <= i < |a| && a[i].None?) ==> Present(a) < |a|
  {
    if a != [] {
      PresentBound(a[1..]);
      if i :| 0 <= i < |a| && a[i].None? {
        if i > 0 {
          assert a[1..][i - 1].None?;
        }
      }
    }
  }

  lemma PresentSet(a: Partial, i: nat, shard: Bytes)
    requires i < |a| && a[i].None?
    ensures Present(a[i := Some(shard)]) == Present(a) + 1
  {
    var b := a[i := Some(shard)];
    assert a == a[..i] + ([a[i]] + a[i + 1..]);
    assert b == a[..i] + ([b[i]] + a[i + 1..]);
    PresentConcat(a[..i], [a[i]] + a[i + 1..]);
    PresentConcat(a[..i], [b[i]] + a[i + 1..]);
    PresentConcat([a[i]], a[i + 1..]);
    PresentConcat([b[i]], a[i + 1..]);
    PresentOne(a[i]);
    PresentOne(b[i]);
  }

  lemma {:induction false} NonePresent(n: nat)
    ensures Present(seq(n, _ => None)) == 0
  {
    if n > 0 {
      var all: Partial := seq(n, _ => None);
      assert all[1..] == seq(n - 1, _ => None);
      NonePresent(n - 1);
    }
  }

  // ---- an instance: one parity shard, bytewise sum modulo 256 ---------------

  function ColumnSum(data: seq<Bytes>, j: nat): int
    requires IsBlock(|data|, data) && j < SHARD_SIZE
  {
    if data == [] then 0 else data[0][j] + ColumnSum(data[1..], j)
  }

  function SumShard(data: seq<Bytes>): Bytes {
    if IsBlock(|data|, data) then
      seq(SHARD_SIZE, j requires 0 <= j < SHARD_SIZE => ColumnSum(data, j) % 256)
    else []
  }

  function Zeros(n: nat): (z: Bytes)
    ensures |z| == n && forall i :: 0 <= i < n ==> z[i] == 0
  {
    seq(n, _ => 0)
  }

  /** Present data shards as they are, zero for a missing one. */
  function Filled(shards: Partial): seq<Bytes> {
    seq(|shards|, i requires 0 <= i < |shards| => if shards[i].Some? then shards[i].value else Zeros(SHARD_SIZE))
  }

  function Difference(a: int, b: int): byte {
    (a - b) % 256
  }

  function Subtract(a: Bytes, b: Bytes): Bytes
    requires |a| == |b|
  {
    seq(|a|, j requires 0 <= j < |a| => Difference(a[j], b[j]))
  }

  /** First missing position, or the length. */
  function FirstMissing(shards: Partial): (i: nat)
    ensures i <= |shards| && (i < |shards| ==> shards[i].None?)
    ensures forall j :: 0 <= j < i ==> shards[j].Some?
  {
    if shards == [] || shards[0].None? then 0 else 1 + FirstMissing(shards[1..])
  }

  function AdditiveReconstruct(k: nat, shards: Partial): Option<seq<Bytes>> {
    if |shards| != k + 1 then None
    else
      var data := Filled(shards[..k]);
      var i := FirstMissing(shards[..k]);
      if i == k then Some(data + [SumShard(data)])
      else if shards[k].Some? && |shards[k].value| == |SumShard(data)| then
        Some(data[i := Subtract(shards[k].value, SumShard(data))] + [shards[k].value])
      else None
  }

  function Additive(k: nat): Code {
    Code(k, 1, data => [SumShard(data)], shards => AdditiveReconstruct(k, shards))
  }

  lemma {:induction false} SumReplace(data: seq<Bytes>, i: nat, shard: Bytes, j: nat)
    requires i < |data| && |shard| == SHARD_SIZE && j < SHARD_SIZE
    requires IsBlock(|data|, data)
    ensures ColumnSum(data[i := shard], j) == ColumnSum(data, j) - data[i][j] + shard[j]
  {
    var data' := data[i := shard];
    if i == 0 {
      assert data'[1..] == data[1..];
    } else {
      assert data'[1..] == data[1..][i - 1 := shard];
      SumReplace(data[1..], i - 1, shard, j);
    }
  }

  lemma AdditiveRecovers(k: nat, data: seq<Bytes>, shards: Partial)
    requires IsBlock(k, data) && Agrees(shards, data + [SumShard(data)]) && Present(shards) >= k
    ensures AdditiveReconstruct(k, shards) == Some(data + [SumShard(data)])
  {
    var i := FirstMissing(shards[..k]);
    var filled := Filled(shards[..k]);
    assert shards == shards[..k] + shards[k..];
    PresentConcat(shards[..k], shards[k..]);
    PresentBound(shards[..k]);
    PresentBound(shards[k..]);
    if i == k {
      assert filled == data;
    } else {
      OthersPresent(shards[..k], i);
      assert shards[k].Some?;
      assert filled == data[i := Zeros(SHARD_SIZE)];
      var missing := Subtract(SumShard(data), SumShard(filled));
      forall j | 0 <= j < SHARD_SIZE ensures missing[j] == data[i][j] {
        SumReplace(data, i, Zeros(SHARD_SIZE), j);
      }
      assert missing == data[i];
      assert filled[i := missing] == data;
    }
  }

  /** If at most one shard is missing, all but the first missing one are present. */
  lemma OthersPresent(shards: Partial, i: nat)
    requires i < |shards| && shards[i].None? && Present(shards) >= |shards| - 1
    ensures forall j :: 0 <= j < |shards| && j != i ==> shards[j].Some?
  {
    assert shards == shards[..i] + ([shards[i]] + shards[i + 1..]);
    PresentConcat(shards[..i], [shards[i]] + shards[i + 1..]);
    PresentConcat([shards[i]], shards[i + 1..]);
    PresentOne(shards[i]);
    PresentBound(shards[..i]);
    PresentBound(shards[i + 1..]);
    forall j | 0 <= j < |shards| && j != i ensures shards[j].Some? {
      if j < i {
        assert shards[..i][j].Some?;
      } else {
        assert shards[i + 1..][j - i - 1].Some?;
      }
    }
  }

  /** The hypothesis on the code is satisfiable for every number of data shards. */
  lemma AdditiveIsMds(k: nat)
    requires k > 0
    ensures Mds(Additive(k))
  {
    var c := Additive(k);
    forall data, shards | IsBlock(k, data) && Agrees(shards, Codeword(c, data)) && Present(shards) >= k
      ensures c.reconstruct(shards) == Some(Codeword(c, data))
    {
      AdditiveRecovers(k, data, shards);
    }
  }

  /** A missing data shard can be chosen to fit any parity shard. */
  lemma AdditiveFits(k: nat, shards: Partial)
    requires k > 0 && IsPartial(Additive(k), shards) && Present(shards) == k
    ensures HasCodeword(Additive(k), shards)
  {
    var i, filled := FirstMissing(shards[..k]), Filled(shards[..k]);
    assert shards == shards[..k] + shards[k..];
    PresentConcat(shards[..k], shards[k..]);
    PresentBound(shards[..k]);
    PresentBound(shards[k..]);
    if i == k {
      AllSomePresent(shards[..k]);
      PresentOne(shards[k]);
      assert shards[k].None? by { assert shards[k..] == [shards[k]]; }
      assert Agrees(shards, Codeword(Additive(k), filled));
    } else {
      OthersPresent(shards[..k], i);
      PresentOne(shards[k]);
      assert shards[k].Some? by { assert shards[k..] == [shards[k]]; }
      var data := filled[i := Subtract(shards[k].value, SumShard(filled))];
      forall j | 0 <= j < SHARD_SIZE ensures SumShard(data)[j] == shards[k].value[j] {
        SumReplace(filled, i, data[i], j);
      }
      assert SumShard(data) == shards[k].value;
      assert Agrees(shards, Codeword(Additive(k), data));
    }
  }

  lemma {:induction false} AllSomePresent(shards: Partial)
    requires forall i :: 0 <= i < |shards| ==> shards[i].Some?
    ensures Present(shards) == |shards|
  {
    if shards != [] {
      AllSomePresent(shards[1..]);
    }
  }

  /** The additive code meets the stronger hypothesis too. */
  lemma AdditiveIsTotal(k: nat)
    requires k > 0
    ensures Total(Additive(k))
  {
    AdditiveIsMds(k);
    forall shards | IsPartial(Additive(k), shards) && Present(shards) == k ensures HasCodeword(Additive(k), shards) {
      AdditiveFits(k, shards);
    }
  }
}
