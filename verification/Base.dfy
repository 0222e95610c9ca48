/** Types and small helpers shared by every part of the model. */
module Base {

  datatype Option<+T> = None | Some(value: T)

  type byte = x: int | 0 <= x < 256

  type Bytes = seq<byte>

  /** Number of values of a Go uint32. */
  const U32: int := 0x1_0000_0000

  /** Go's `x + 1` on a uint32. */
  function Inc(n: nat): nat {
    (n + 1) % U32
  }

  function Min(a: int, b: int): int {
    if a < b then a else b
  }

  function Max(a: int, b: int): int {
    if a > b then a else b
  }

  /** Clamp as the source writes it: raise to `lo`, then cut to `hi`. */
  function Clamp(lo: int, hi: int, x: int): int {
    Min(Max(x, lo), hi)
  }

  function Power2(k: nat): nat {
    if k == 0 then 1 else 2 * Power2(k - 1)
  }

  /** All byte strings of `parts`, one after the other. */
  function Flatten(parts: seq<Bytes>): Bytes {
    if parts == [] then [] else parts[0] + Flatten(parts[1..])
  }

  lemma {:induction false} FlattenConcat(a: seq<Bytes>, b: seq<Bytes>)
    ensures Flatten(a + b) == Flatten(a) + Flatten(b)
  {
    if a == [] {
      assert a + b == b;
    } else {
      assert (a + b)[1..] == a[1..] + b;
      FlattenConcat(a[1..], b);
    }
  }

  lemma FlattenOne(p: Bytes)
    ensures Flatten([p]) == p
  {
    assert [p][1..] == [];
  }

  /** A prefix of the parts flattens to a prefix of the bytes. */
  lemma FlattenPrefix(a: seq<Bytes>, b: seq<Bytes>)
    requires a <= b
    ensures Flatten(a) <= Flatten(b)
  {
    assert b == a + b[|a|..];
    FlattenConcat(a, b[|a|..]);
  }
}
