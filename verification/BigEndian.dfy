/** encoding/binary's big-endian integers on byte strings and buffers. */
module BigEndian {
  import opened Base

  function Put16(v: nat): Bytes {
    [(v / 0x100) % 0x100, v % 0x100]
  }

  function Put32(v: nat): Bytes {
    [(v / 0x100_0000) % 0x100, (v / 0x1_0000) % 0x100, (v / 0x100) % 0x100, v % 0x100]
  }

  function Get16(b: Bytes): nat
    requires |b| >= 2
  {
    b[0] as int * 0x100 + b[1] as int
  }

  function Get32(b: Bytes): nat
    requires |b| >= 4
  {
    b[0] as int * 0x100_0000 + b[1] as int * 0x1_0000 + b[2] as int * 0x100 + b[3] as int
  }

  lemma Get16Put16(v: nat, rest: Bytes)
    requires v < 0x1_0000
    ensures Get16(Put16(v) + rest) == v
  {
  }

  lemma Get32Put32(v: nat, rest: Bytes)
    requires v < U32
    ensures Get32(Put32(v) + rest) == v
  {
    assert v / 0x1_0000 == (v / 0x100_0000) * 0x100 + (v / 0x1_0000) % 0x100;
    assert v / 0x100 == (v / 0x1_0000) * 0x100 + (v / 0x100) % 0x100;
  }

  /** Write one byte behind the `off` bytes already written. */
  method AppendByte(buf: array<byte>, off: nat, b: byte) returns (end: nat)
    requires off < buf.Length
    modifies buf
    ensures end == off + 1 && buf[..end] == old(buf[..off]) + [b]
  {
    buf[off] := b;
    end := off + 1;
  }

  /** Copy `src` behind the `off` bytes already written. */
  method AppendBytes(buf: array<byte>, off: nat, src: Bytes) returns (end: nat)
    requires off + |src| <= buf.Length
    modifies buf
    ensures end == off + |src| && buf[..end] == old(buf[..off]) + src
  {
    forall i | 0 <= i < |src| {
      buf[off + i] := src[i];
    }
    end := off + |src|;
  }

  method Append16(buf: array<byte>, off: nat, v: nat) returns (end: nat)
    requires off + 2 <= buf.Length
    modifies buf
    ensures end == off + 2 && buf[..end] == old(buf[..off]) + Put16(v)
  {
    end := AppendBytes(buf, off, Put16(v));
  }

  method Append32(buf: array<byte>, off: nat, v: nat) returns (end: nat)
    requires off + 4 <= buf.Length
    modifies buf
    ensures end == off + 4 && buf[..end] == old(buf[..off]) + Put32(v)
  {
    end := AppendBytes(buf, off, Put32(v));
  }
}
