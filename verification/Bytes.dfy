/** Bytes, 32-bit words and the big-endian conversion between them (encoding/binary). */
module Bytes {
  const TWO_TO_THE_32: nat := 0x1_0000_0000

  type byte = x: int | 0 <= x < 0x100
  type uint32 = x: int | 0 <= x < 0x1_0000_0000

  /** binary.BigEndian.PutUint32 */
  function PutUint32(v: uint32): (bytes: seq<byte>)
    ensures |bytes| == 4
  {
    [v / 0x100_0000, v / 0x1_0000 % 0x100, v / 0x100 % 0x100, v % 0x100]
  }

  /** binary.BigEndian.Uint32 */
  function Uint32(bytes: seq<byte>): uint32
    requires |bytes| == 4
  {
    var b0: int, b1: int, b2: int := bytes[0], bytes[1], bytes[2];
    b0 * 0x100_0000 + b1 * 0x1_0000 + b2 * 0x100 + bytes[3]
  }

  lemma PutThenGet(v: uint32)
    ensures Uint32(PutUint32(v)) == v
  {
    var high, mid := v / 0x1_0000, v / 0x100;
    assert v == mid * 0x100 + v % 0x100;
    assert mid == high * 0x100 + mid % 0x100;
    assert high == v / 0x100_0000 * 0x100 + high % 0x100;
  }

  /** PutThenGet for use where the arithmetic does not matter. */
  lemma WordOf(v: uint32) returns (bytes: seq<byte>)
    ensures bytes == PutUint32(v) && |bytes| == 4 && Uint32(bytes) == v
  {
    PutThenGet(v);
    bytes := PutUint32(v);
  }

  lemma GetThenPut(bytes: seq<byte>)
    requires |bytes| == 4
    ensures PutUint32(Uint32(bytes)) == bytes
  {
    var v := Uint32(bytes);
    var b0: int, b1: int, b2: int := bytes[0], bytes[1], bytes[2];
    assert v / 0x100 == b0 * 0x1_0000 + b1 * 0x100 + b2;
    assert v / 0x1_0000 == b0 * 0x100 + b1;
    assert v / 0x100_0000 == b0;
  }

  /** The payload bytes of a list of chunks, in order. */
  function Flatten(chunks: seq<seq<byte>>): seq<byte> {
    if chunks == [] then [] else chunks[0] + Flatten(chunks[1..])
  }

  lemma {:induction false} FlattenAppend(a: seq<seq<byte>>, b: seq<seq<byte>>)
    ensures Flatten(a + b) == Flatten(a) + Flatten(b)
  {
    if a == [] {
      assert a + b == b;
    } else {
      assert (a + b)[1..] == a[1..] + b;
      FlattenAppend(a[1..], b);
    }
  }

  lemma FlattenSingle(chunk: seq<byte>)
    ensures Flatten([chunk]) == chunk
  {
    assert Flatten([chunk]) == chunk + Flatten([]);
  }

  function Min(a: int, b: int): int { if a <= b then a else b }

  function Max(a: int, b: int): int { if a <= b then b else a }

  lemma Assoc<T>(a: seq<T>, b: seq<T>, c: seq<T>)
    ensures a + b + c == a + (b + c)
  {
  }

  /** What follows a in a prefix of a + b is a prefix of b. */
  lemma AfterPrefix<T>(a: seq<T>, rest: seq<T>, b: seq<T>, k: nat)
    requires k <= |a| + |b|
    requires a + rest == (a + b)[..k]
    ensures rest <= b
  {
    forall i | 0 <= i < |rest| ensures i < |b| && rest[i] == b[i] {
      assert (a + rest)[|a| + i] == rest[i];
      assert (a + b)[|a| + i] == b[i];
    }
  }
}
