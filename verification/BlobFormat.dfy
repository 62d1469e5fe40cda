/**
 Constants of the GB1, GB2 and GB3 blob layouts, the small/large discriminator
 shared by the two GB1 layouts, and the self-describing GB3 header.
 */
module BlobFormat {
  import opened ByteSeqs
  import opened Primitives

  const MagicSize: nat := 4
  const MagicGB1: Bytes := [0x47, 0x42, 0x31, 0]
  const MagicGB2: Bytes := [0x47, 0x42, 0x32, 0]
  const MagicGB3: Bytes := [0x47, 0x42, 0x33, 0]
  const MagicGKM1: Bytes := [0x47, 0x4b, 0x4d, 0x31]
  const ChunkCountSize: nat := 4
  const FlagsSize: nat := 1
  const MaxChunkCount: int := 100000
  const MaxUint32: int := 0xffff_ffff
  const GB3HeaderSize: nat := 24
  const MaxGB3ChunkSize: int := 64 * 1024 * 1024
  const DefaultChunkSize: nat := 4 * 1024 * 1024
  const MaxStoredSize: int := DefaultChunkSize + TagSize + 1024
  const MaxBlobSize: int := DefaultChunkSize + IVSize + TagSize + 1024 * 1024

  /** Whether a GB1 body starts like a large blob: a chunk count in 1..MaxChunkCount-1. */
  predicate IsChunkCount(buf: Bytes) {
    |buf| >= ChunkCountSize && 0 < Uint32(buf[..ChunkCountSize]) < MaxChunkCount
  }

  /** What newSmallBlobIV returns: an IV that cannot be mistaken for a chunk count. */
  type SmallIV = iv: IV | !IsChunkCount(iv) witness SmallIVWitness()

  function SmallIVWitness(): (iv: IV)
    ensures !IsChunkCount(iv)
  {
    var iv: IV := [255, 255, 255, 255, 0, 0, 0, 0, 0, 0, 0, 0];
    assert iv[..4] == [255, 255, 255, 255] && iv[..4][..2] == [255, 255];
    iv
  }

  /** The number of chunks of `cs` bytes that `size` bytes occupy. */
  function Ceiling(size: nat, cs: int): nat
    requires cs > 0
    decreases size
  {
    if size == 0 then 0 else if size <= cs then 1 else 1 + Ceiling(size - cs, cs)
  }

  lemma MulMono(a: int, b: int, c: int)
    ensures c >= 0 && a <= b ==> a * c <= b * c
  {
    assert (b - a) * c == b * c - a * c;
  }

  /** The source's rounding-up division computes the chunk count. */
  lemma {:induction false} CeilingIsDivision(size: nat, cs: int)
    requires cs > 0
    ensures (size + cs - 1) / cs == Ceiling(size, cs)
    ensures size <= Ceiling(size, cs) * cs
    decreases size
  {
    if size == 0 {
      DivBounds(cs - 1, cs);
    } else if size <= cs {
      DivStep(size - 1, cs);
      DivBounds(size - 1, cs);
    } else {
      CeilingIsDivision(size - cs, cs);
      DivStep(size - 1, cs);
      assert Ceiling(size, cs) * cs == Ceiling(size - cs, cs) * cs + cs;
    }
  }

  lemma DivBounds(n: nat, d: int)
    requires d > 0
    ensures 0 <= n / d <= n
    ensures n < d ==> n / d == 0
  {
    var q := n / d;
    assert n == q * d + n % d;
    MulMono(q, -1, d);
    MulMono(1, q, d);
    MulMono(1, d, q);
  }

  lemma DivStep(n: nat, d: int)
    requires d > 0
    ensures (n + d) / d == n / d + 1
  {
    var q, p := n / d, (n + d) / d;
    assert n == q * d + n % d && n + d == p * d + (n + d) % d;
    assert (q + 1) * d == q * d + d;
    MulMono(p, q, d);
    MulMono(q + 2, p, d);
    assert (q + 2) * d == q * d + 2 * d;
  }

  datatype GB3Header = GB3Header(
    version: byte, flags: byte, hashAlg: byte, compressionAlg: byte,
    encryptionAlg: byte, chunkingAlg: byte, keyVersion: int,
    chunkSize: int, plaintextSize: int)
  {
    ghost predicate Valid() {
      0 <= keyVersion < Two16 && 0 <= chunkSize < Two32 && 0 <= plaintextSize < Two64
    }

    /** The chunk count in the source's 64-bit unsigned arithmetic. */
    function ChunkCount(): (n: int)
      requires Valid()
      ensures 0 <= n < Two64
    {
      if chunkSize == 0 then 0
      else
        var wrapped := (plaintextSize + chunkSize - 1) % Two64;
        DivBounds(wrapped, chunkSize);
        wrapped / chunkSize
    }
  }

  /**
   The source comment says the count of a parsed header never wraps. It is the
   exact ceiling precisely when the 64-bit sum does not overflow.
   */
  lemma ChunkCountExactIff(h: GB3Header)
    requires h.Valid() && h.chunkSize > 0
    ensures h.ChunkCount() == Ceiling(h.plaintextSize, h.chunkSize)
       <==> h.plaintextSize + h.chunkSize - 1 < Two64
  {
    var sum := h.plaintextSize + h.chunkSize - 1;
    CeilingIsDivision(h.plaintextSize, h.chunkSize);
    if sum < Two64 {
      assert sum % Two64 == sum;
    } else {
      assert sum % Two64 == sum - Two64;
      assert sum - Two64 < h.chunkSize;
      DivBounds(sum - Two64, h.chunkSize);
    }
  }

  function EncodeGB3Header(flags: byte, compressAlg: byte, chunkSize: int, plaintextSize: int): (h: Bytes)
    requires 0 <= chunkSize < Two32 && 0 <= plaintextSize < Two64
    ensures |h| == GB3HeaderSize && h[..MagicSize] == MagicGB3
  {
    MagicGB3
    + [1, flags, 1, compressAlg, 1, 1]
    + PutUint16(1)
    + PutUint32(chunkSize)
    + PutUint64(plaintextSize)
  }

  /** The header fields at their fixed offsets. */
  function HeaderFields(data: Bytes): (h: GB3Header)
    requires |data| >= GB3HeaderSize
    ensures h.Valid()
  {
    GB3Header(data[4], data[5], data[6], data[7], data[8], data[9],
              Uint16(data[10..12]), Uint32(data[12..16]), Uint64(data[16..24]))
  }

  function ParseGB3Header(data: Bytes): (r: Option<GB3Header>)
    ensures r.Some? ==> |data| >= GB3HeaderSize && HasPrefix(data, MagicGB3) && r.value.Valid()
    ensures r.Some? ==> 0 < r.value.chunkSize <= MaxGB3ChunkSize && r.value.ChunkCount() <= MaxUint32
  {
    if |data| < GB3HeaderSize || data[..MagicSize] != MagicGB3 then None
    else
      var h := HeaderFields(data);
      if h.version != 1 || h.hashAlg != 1 || h.encryptionAlg != 1 || h.chunkingAlg != 1 then None
      else if h.compressionAlg != 0 && h.compressionAlg != 1 then None
      else if h.chunkSize == 0 || h.chunkSize > MaxGB3ChunkSize then None
      else if h.ChunkCount() > MaxUint32 then None
      else Some(h)
  }

  /**
   The parser inverts the encoder on every header the encoder can write whose
   parameters the reader accepts, whatever follows the header, and rejects the
   others.
   */
  lemma HeaderRoundTrip(flags: byte, alg: byte, chunkSize: int, plaintextSize: int, rest: Bytes)
    requires 0 <= chunkSize < Two32 && 0 <= plaintextSize < Two64
    ensures
      var expected := GB3Header(1, flags, 1, alg, 1, 1, 1, chunkSize, plaintextSize);
      ParseGB3Header(EncodeGB3Header(flags, alg, chunkSize, plaintextSize) + rest)
        == if alg <= 1 && 0 < chunkSize <= MaxGB3ChunkSize && expected.ChunkCount() <= MaxUint32
           then Some(expected) else None
  {
    var data := EncodeGB3Header(flags, alg, chunkSize, plaintextSize) + rest;
    assert data[10..12] == PutUint16(1);
    assert data[12..16] == PutUint32(chunkSize);
    assert data[16..24] == PutUint64(plaintextSize);
    assert data[..MagicSize] == MagicGB3;
  }

  /**
   Exactly which bytes are a header, field by field at the offsets of the format;
   the key version and the flags are not looked at.
   */
  lemma HeaderAcceptedIff(data: Bytes)
    ensures ParseGB3Header(data).Some? <==>
      && |data| >= 24 && data[..4] == [0x47, 0x42, 0x33, 0]
      && data[4] == 1 && data[6] == 1 && data[7] <= 1 && data[8] == 1 && data[9] == 1
      && 0 < Uint32(data[12..16]) <= 64 * 1024 * 1024
      && HeaderFields(data).ChunkCount() <= 0xffff_ffff
    ensures ParseGB3Header(data).Some? ==>
      var h := ParseGB3Header(data).value;
      && h.chunkSize == Uint32(data[12..16]) && h.plaintextSize == Uint64(data[16..24])
  {
    hide Uint32, Uint64, Uint16;
  }

  /** A header the parser accepts although its chunk count has wrapped to zero. */
  lemma WrappedHeaderAccepted()
    ensures
      var h := GB3Header(1, 0, 1, 0, 1, 1, 1, 2, Two64 - 1);
      && ParseGB3Header(EncodeGB3Header(0, 0, 2, Two64 - 1)) == Some(h)
      && h.ChunkCount() == 0
      && Ceiling(h.plaintextSize, h.chunkSize) > MaxUint32
  {
    HeaderRoundTrip(0, 0, 2, Two64 - 1, []);
    var e := EncodeGB3Header(0, 0, 2, Two64 - 1);
    assert e + [] == e;
    assert (Two64 - 1 + 2 - 1) % Two64 == 0;
    CeilingIsDivision(Two64 - 1, 2);
  }

  lemma FitsIn32(v: int)
    requires 0 <= v < Two32
    ensures v % Two32 == v
  {
  }
}
