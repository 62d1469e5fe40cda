/**
 Bytes, optional values, and the fixed-width big-endian integers the on-disk
 formats are written with.
 */
module ByteSeqs {

  datatype Option<+T> = None | Some(value: T)

  type byte = x: int | 0 <= x < 256

  type Bytes = seq<byte>

  const Two16: int := 0x1_0000
  const Two32: int := 0x1_0000_0000
  const Two64: int := 0x1_0000_0000_0000_0000

  function Min(a: int, b: int): int {
    if a < b then a else b
  }

  predicate HasPrefix(data: Bytes, prefix: Bytes) {
    |prefix| <= |data| && data[..|prefix|] == prefix
  }

  function Uint16(b: Bytes): (v: int)
    requires |b| == 2
    ensures 0 <= v < Two16
  {
    var hi: int, lo: int := b[0], b[1];
    hi * 0x100 + lo
  }

  function PutUint16(v: int): (b: Bytes)
    requires 0 <= v < Two16
    ensures |b| == 2 && Uint16(b) == v
  {
    [v / 0x100, v % 0x100]
  }

  function Uint32(b: Bytes): (v: int)
    requires |b| == 4
    ensures 0 <= v < Two32
  {
    Uint16(b[..2]) * Two16 + Uint16(b[2..])
  }

  function PutUint32(v: int): (b: Bytes)
    requires 0 <= v < Two32
    ensures |b| == 4 && Uint32(b) == v
  {
    var b := PutUint16(v / Two16) + PutUint16(v % Two16);
    assert b[..2] == PutUint16(v / Two16) && b[2..] == PutUint16(v % Two16);
    b
  }

  function Uint64(b: Bytes): (v: int)
    requires |b| == 8
    ensures 0 <= v < Two64
  {
    Uint32(b[..4]) * Two32 + Uint32(b[4..])
  }

  function PutUint64(v: int): (b: Bytes)
    requires 0 <= v < Two64
    ensures |b| == 8 && Uint64(b) == v
  {
    var b := PutUint32(v / Two32) + PutUint32(v % Two32);
    assert b[..4] == PutUint32(v / Two32) && b[4..] == PutUint32(v % Two32);
    b
  }

  lemma ConcatAssoc(a: Bytes, b: Bytes, c: Bytes)
    ensures a + b + c == a + (b + c)
  {
  }

  lemma DropDrop(s: Bytes, a: nat, b: nat)
    requires a + b <= |s|
    ensures s[a..][b..] == s[a + b..]
  {
  }

  /** Concatenation of a list of byte strings, in order. */
  function Flatten(parts: seq<Bytes>): Bytes {
    if parts == [] then [] else parts[0] + Flatten(parts[1..])
  }

  lemma {:induction false} FlattenAppend(parts: seq<Bytes>, last: Bytes)
    ensures Flatten(parts + [last]) == Flatten(parts) + last
  {
    if parts == [] {
      assert parts + [last] == [last];
      assert Flatten([last]) == last + Flatten([]);
    } else {
      assert (parts + [last])[1..] == parts[1..] + [last];
      FlattenAppend(parts[1..], last);
    }
  }
}
