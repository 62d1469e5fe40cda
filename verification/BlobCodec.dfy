/**
 The whole-buffer blob codec: the Encryptor and Decryptor of simple/crypto.go.
 Functions give the layouts and their decoders, lemmas their round trips; the
 loops of the source are in Crypto.
 */
module BlobCodec {
  import opened ByteSeqs
  import opened Primitives
  import opened BlobFormat

  // ----- Layouts -----------------------------------------------------------

  /** One AEAD block: magic, IV, ciphertext and tag. */
  function SmallBlob(c: Primitives, key: Bytes, iv: IV, plaintext: Bytes): Bytes {
    MagicGB1 + iv + c.seal(key, iv, plaintext)
  }

  /** The chunk sequence of a GB1 large blob, starting at chunk `i`. */
  function ChunksGB1(c: Primitives, key: Bytes, cs: int, rest: Bytes, ivs: nat -> IV, i: nat): Bytes
    requires cs > 0
    decreases |rest|
  {
    if rest == [] then []
    else
      var n := Min(cs, |rest|);
      ivs(i) + c.seal(key, ivs(i), rest[..n]) + ChunksGB1(c, key, cs, rest[n..], ivs, i + 1)
  }

  lemma ChunksGB1Unfold(c: Primitives, key: Bytes, cs: int, rest: Bytes, ivs: nat -> IV, i: nat, chunk: Bytes)
    requires cs > 0 && rest != [] && chunk == rest[..Min(cs, |rest|)]
    ensures ChunksGB1(c, key, cs, rest, ivs, i)
         == ivs(i) + c.seal(key, ivs(i), chunk) + ChunksGB1(c, key, cs, rest[|chunk|..], ivs, i + 1)
  {
  }

  /** The bytes a chunk is sealed as: compressed when that is tried, worthwhile and smaller. */
  predicate StoredCompressed(c: Primitives, chunk: Bytes, tryCompress: bool) {
    tryCompress && |chunk| >= 65536 && |c.compress(chunk)| < |chunk|
  }

  function StoredForm(c: Primitives, chunk: Bytes, tryCompress: bool): (s: Bytes)
    ensures |s| <= |chunk|
  {
    if StoredCompressed(c, chunk, tryCompress) then c.compress(chunk) else chunk
  }

  /** The frame shared by GB2 and GB3: stored size, flags, IV, ciphertext and tag. */
  function Frame(c: Primitives, key: Bytes, chunk: Bytes, tryCompress: bool, iv: IV): Bytes {
    var sealed := c.seal(key, iv, StoredForm(c, chunk, tryCompress));
    var flags := if StoredCompressed(c, chunk, tryCompress) then 1 else 0;
    PutUint32(|sealed| % Two32) + [flags] + iv + sealed
  }

  function Frames(c: Primitives, key: Bytes, cs: int, rest: Bytes, tryCompress: bool, ivs: nat -> IV, i: nat): Bytes
    requires cs > 0
    decreases |rest|
  {
    if rest == [] then []
    else
      var n := Min(cs, |rest|);
      Frame(c, key, rest[..n], tryCompress, ivs(i))
      + Frames(c, key, cs, rest[n..], tryCompress, ivs, i + 1)
  }

  lemma FramesUnfold(c: Primitives, key: Bytes, cs: int, rest: Bytes, tryCompress: bool, ivs: nat -> IV, i: nat,
                     chunk: Bytes)
    requires cs > 0 && rest != [] && chunk == rest[..Min(cs, |rest|)]
    ensures Frames(c, key, cs, rest, tryCompress, ivs, i)
         == Frame(c, key, chunk, tryCompress, ivs(i)) + Frames(c, key, cs, rest[|chunk|..], tryCompress, ivs, i + 1)
  {
  }

  /**
   Encrypt: a small blob below the chunk size, GB1 large below MaxChunkCount
   chunks, GB3 beyond, whose header takes the chunk size cut to 32 bits. No result
   for an unusable key or when the chunk count does not fit 32 bits.
   */
  function EncryptSpec(c: Primitives, key: Bytes, cs: int, plaintext: Bytes, smallIV: SmallIV,
                       ivs: nat -> IV): Option<Bytes>
    requires 0 < cs && |plaintext| < Two64
  {
    if !ValidKey(key) then None
    else if |plaintext| < cs then Some(SmallBlob(c, key, smallIV, plaintext))
    else
      var count := Ceiling(|plaintext|, cs);
      if count < MaxChunkCount then
        Some(MagicGB1 + PutUint32(count) + ChunksGB1(c, key, cs, plaintext, ivs, 0))
      else if count > MaxUint32 then None
      else Some(EncodeGB3Header(0, 0, cs % Two32, |plaintext|) + Frames(c, key, cs, plaintext, false, ivs, 0))
  }

  // ----- Decoders ----------------------------------------------------------

  function DecryptSmall(c: Primitives, key: Bytes, data: Bytes): Option<Bytes> {
    if |data| < IVSize + TagSize || !ValidKey(key) then None
    else c.open(key, data[..IVSize], data[IVSize..])
  }

  /** Exactly `n` chunks of at most cs + TagSize sealed bytes, and nothing after them. */
  function DecryptChunksGB1(c: Primitives, key: Bytes, cs: int, data: Bytes, n: nat): Option<Bytes>
    requires cs > 0
  {
    if n == 0 then (if data == [] then Some([]) else None)
    else if |data| < IVSize then None
    else
      var end := IVSize + Min(cs + TagSize, |data| - IVSize);
      var head := c.open(key, data[..IVSize], data[IVSize..end]);
      if head.None? then None
      else
        var tail := DecryptChunksGB1(c, key, cs, data[end..], n - 1);
        if tail.None? then None else Some(head.value + tail.value)
  }

  lemma DecryptChunksEnds(c: Primitives, key: Bytes, cs: int, data: Bytes, n: nat)
    requires cs > 0
    ensures n == 0 ==> DecryptChunksGB1(c, key, cs, data, n) == if data == [] then Some([]) else None
    ensures n > 0 && |data| < IVSize ==> DecryptChunksGB1(c, key, cs, data, n) == None
  {
  }

  lemma DecryptChunksUnfold(c: Primitives, key: Bytes, cs: int, data: Bytes, n: nat, end: nat)
    requires cs > 0 && n > 0 && |data| >= IVSize && end == IVSize + Min(cs + TagSize, |data| - IVSize)
    ensures var head := c.open(key, data[..IVSize], data[IVSize..end]);
      var tail := DecryptChunksGB1(c, key, cs, data[end..], n - 1);
      DecryptChunksGB1(c, key, cs, data, n)
        == if head.Some? && tail.Some? then Some(head.value + tail.value) else None
  {
  }

  function DecryptLarge(c: Primitives, key: Bytes, cs: int, data: Bytes): Option<Bytes>
    requires cs > 0 && |data| >= ChunkCountSize
  {
    var count := Uint32(data[..ChunkCountSize]);
    if count == 0 || count >= MaxChunkCount || !ValidKey(key) then None
    else DecryptChunksGB1(c, key, cs, data[ChunkCountSize..], count)
  }

  datatype FrameRules = FrameRules(maxStored: int, anyFlagBit: bool)

  /** GB2 reads any non-zero flag byte as compressed and bounds frames by a constant. */
  const RulesGB2 := FrameRules(MaxStoredSize, true)

  /** GB3 reads bit 0 only and bounds frames by the chunk size of the header. */
  function RulesGB3(chunkSize: int): FrameRules {
    FrameRules(chunkSize + TagSize + 1024, false)
  }

  predicate FlaggedCompressed(rules: FrameRules, flags: byte) {
    if rules.anyFlagBit then flags != 0 else flags % 2 == 1
  }

  /** One frame at the front of `data`: its plaintext and the number of bytes it occupies. */
  function ReadFrame(c: Primitives, key: Bytes, rules: FrameRules, data: Bytes): (r: Option<(Bytes, nat)>)
    ensures r.Some? ==> 0 < r.value.1 <= |data|
  {
    var header := ChunkCountSize + FlagsSize;
    if |data| < header then None
    else
      var stored := Uint32(data[..ChunkCountSize]);
      var end := header + IVSize + stored;
      if stored > rules.maxStored || |data| < end then None
      else
        var unsealed := c.open(key, data[header..header + IVSize], data[header + IVSize..end]);
        if unsealed.None? then None
        else if FlaggedCompressed(rules, data[ChunkCountSize]) then
          var inflated := c.decompress(unsealed.value, MaxDecompressedSize);
          if inflated.None? then None else Some((inflated.value, end))
        else Some((unsealed.value, end))
  }

  /** Exactly `n` frames and nothing after them. */
  function DecryptFrames(c: Primitives, key: Bytes, rules: FrameRules, data: Bytes, n: nat): Option<Bytes> {
    if n == 0 then (if data == [] then Some([]) else None)
    else
      var head := ReadFrame(c, key, rules, data);
      if head.None? then None
      else
        var tail := DecryptFrames(c, key, rules, data[head.value.1..], n - 1);
        if tail.None? then None else Some(head.value.0 + tail.value)
  }

  function DecryptLargeV2(c: Primitives, key: Bytes, data: Bytes): Option<Bytes> {
    if |data| < ChunkCountSize then None
    else
      var count := Uint32(data[..ChunkCountSize]);
      if count == 0 || count >= MaxChunkCount || !ValidKey(key) then None
      else DecryptFrames(c, key, RulesGB2, data[ChunkCountSize..], count)
  }

  function DecryptLargeV3(c: Primitives, key: Bytes, full: Bytes): Option<Bytes> {
    var hdr := ParseGB3Header(full);
    if hdr.None? || !ValidKey(key) then None
    else DecryptFrames(c, key, RulesGB3(hdr.value.chunkSize), full[GB3HeaderSize..], hdr.value.ChunkCount())
  }

  /** The GB1 branch of Decrypt: the primary reading, then the other one. */
  function DecryptGB1(c: Primitives, key: Bytes, cs: int, data: Bytes): Option<Bytes>
    requires cs > 0
  {
    if |data| > ChunkCountSize && IsChunkCount(data) then
      var large := DecryptLarge(c, key, cs, data);
      if large.Some? then large else DecryptSmall(c, key, data)
    else
      var small := DecryptSmall(c, key, data);
      if small.Some? then small
      else if |data| > ChunkCountSize then DecryptLarge(c, key, cs, data)
      else None
  }

  function DecryptSpec(c: Primitives, key: Bytes, cs: int, blob: Bytes): Option<Bytes>
    requires cs > 0
  {
    if |blob| < MagicSize then None
    else
      var magic := blob[..MagicSize];
      if magic == MagicGB3 then DecryptLargeV3(c, key, blob)
      else if magic == MagicGB2 then DecryptLargeV2(c, key, blob[MagicSize..])
      else if magic == MagicGB1 then DecryptGB1(c, key, cs, blob[MagicSize..])
      else None
  }

  // ----- Round trips -------------------------------------------------------

  /** One more chunk in front: it must be full-sized unless it is the last. */
  lemma DecryptChunkStep(c: Primitives, key: Bytes, cs: int, iv: IV, chunk: Bytes, tail: Bytes, n: nat)
    requires cs > 0 && |chunk| <= cs && (|chunk| == cs || tail == [])
    ensures var r := DecryptChunksGB1(c, key, cs, tail, n);
      DecryptChunksGB1(c, key, cs, iv + c.seal(key, iv, chunk) + tail, n + 1)
        == if r.Some? then Some(chunk + r.value) else None
  {
    var sealed := c.seal(key, iv, chunk);
    var data := iv + sealed + tail;
    var end := IVSize + Min(cs + TagSize, |data| - IVSize);
    assert end == IVSize + |sealed|;
    assert data[..IVSize] == iv && data[IVSize..end] == sealed && data[end..] == tail;
  }

  /** The chunks of a plaintext decode to it under their own count, and under no other count. */
  lemma {:induction false} ChunksGB1RoundTrip(c: Primitives, key: Bytes, cs: int, rest: Bytes, ivs: nat -> IV, i: nat,
                                              n: nat)
    requires cs > 0
    ensures DecryptChunksGB1(c, key, cs, ChunksGB1(c, key, cs, rest, ivs, i), n)
            == if n == Ceiling(|rest|, cs) then Some(rest) else None
    decreases |rest|
  {
    hide DecryptChunksGB1;
    DecryptChunksEnds(c, key, cs, ChunksGB1(c, key, cs, rest, ivs, i), n);
    if rest != [] && n > 0 {
      hide ChunksGB1;
      var k := Min(cs, |rest|);
      var head, rest' := rest[..k], rest[k..];
      var tail := ChunksGB1(c, key, cs, rest', ivs, i + 1);
      var whole := ivs(i) + c.seal(key, ivs(i), head) + tail;
      ChunksGB1Unfold(c, key, cs, rest, ivs, i, head);
      assert ChunksGB1(c, key, cs, rest, ivs, i) == whole;
      assert Ceiling(|rest|, cs) == Ceiling(|rest'|, cs) + 1;
      assert DecryptChunksGB1(c, key, cs, whole, n) == if n == Ceiling(|rest|, cs) then Some(rest) else None by {
        assert rest == head + rest';
        ChunksGB1RoundTrip(c, key, cs, rest', ivs, i + 1, n - 1);
        DecryptChunkStep(c, key, cs, ivs(i), head, tail, n - 1);
      }
    }
  }

  /** The parts of a frame sit where ReadFrame looks for them. */
  lemma FrameLayout(size: Bytes, flags: byte, iv: IV, sealed: Bytes, tail: Bytes)
    requires |size| == ChunkCountSize
    ensures var data := size + [flags] + iv + sealed + tail;
      && data[..4] == size && data[4] == flags && data[5..17] == iv
      && data[17..17 + |sealed|] == sealed && data[17 + |sealed|..] == tail
  {
  }

  /** Reading a frame back, whatever follows it, when its size is within the reader's bound. */
  lemma ReadFrameRoundTrip(c: Primitives, key: Bytes, rules: FrameRules, chunk: Bytes, tryCompress: bool, iv: IV,
                           tail: Bytes)
    requires |StoredForm(c, chunk, tryCompress)| + TagSize < Two32
    ensures var sealed := |StoredForm(c, chunk, tryCompress)| + TagSize;
      ReadFrame(c, key, rules, Frame(c, key, chunk, tryCompress, iv) + tail)
        == if FrameFits(c, rules, chunk, tryCompress) then Some((chunk, 17 + sealed)) else None
    ensures |Frame(c, key, chunk, tryCompress, iv)| == 17 + |StoredForm(c, chunk, tryCompress)| + TagSize
  {
    hide PutUint32, Uint32;
    var compressed := StoredCompressed(c, chunk, tryCompress);
    var stored := StoredForm(c, chunk, tryCompress);
    var sealed := c.seal(key, iv, stored);
    assert |sealed| == |stored| + TagSize < Two32;
    FrameLayout(PutUint32(|sealed|), if compressed then 1 else 0, iv, sealed, tail);
    assert c.open(key, iv, sealed) == Some(stored);
    assert compressed ==>
      c.decompress(stored, MaxDecompressedSize) == if |chunk| <= MaxDecompressedSize then Some(chunk) else None;
  }

  /**
   Frames of other writers, whatever their flags byte: GB2 takes any flag for
   compression, GB3 the lowest bit only.
   */
  lemma FlagsDecide(c: Primitives, key: Bytes, chunkSize: nat, flags: byte, iv: IV, stored: Bytes, tail: Bytes)
    requires |stored| <= chunkSize <= 4 * 1024 * 1024
    ensures var frame := PutUint32(|stored| + TagSize) + [flags] + iv + c.seal(key, iv, stored);
      var inflated := c.decompress(stored, 128 * 1024 * 1024);
      var unpacked := if inflated.Some? then Some((inflated.value, |frame|)) else None;
      && ReadFrame(c, key, RulesGB2, frame + tail) == (if flags != 0 then unpacked else Some((stored, |frame|)))
      && ReadFrame(c, key, RulesGB3(chunkSize), frame + tail)
         == (if flags % 2 == 1 then unpacked else Some((stored, |frame|)))
  {
    hide PutUint32, Uint32;
    var sealed := c.seal(key, iv, stored);
    assert |sealed| == |stored| + TagSize;
    FrameLayout(PutUint32(|sealed|), flags, iv, sealed, tail);
    assert c.open(key, iv, sealed) == Some(stored);
  }

  /** Compression is tried from 64 KiB on and used exactly if it saves space. */
  lemma StoredFormShortest(c: Primitives, chunk: Bytes, tryCompress: bool)
    ensures var s := StoredForm(c, chunk, tryCompress);
      && (!tryCompress || |chunk| < 64 * 1024 ==> s == chunk)
      && (tryCompress && |chunk| >= 64 * 1024 ==> |s| == Min(|c.compress(chunk)|, |chunk|))
      && (s == chunk || s == c.compress(chunk))
  {
  }

  lemma DecryptFrameStep(c: Primitives, key: Bytes, rules: FrameRules, chunk: Bytes, tryCompress: bool, iv: IV,
                         tail: Bytes, n: nat)
    requires |StoredForm(c, chunk, tryCompress)| + TagSize < Two32
    ensures var r := DecryptFrames(c, key, rules, tail, n);
      DecryptFrames(c, key, rules, Frame(c, key, chunk, tryCompress, iv) + tail, n + 1)
        == if FrameFits(c, rules, chunk, tryCompress) && r.Some?
           then Some(chunk + r.value) else None
  {
    var head := Frame(c, key, chunk, tryCompress, iv);
    ReadFrameRoundTrip(c, key, rules, chunk, tryCompress, iv, tail);
    assert (head + tail)[|head|..] == tail;
  }

  /**
   Frames decode to the plaintext they were made from exactly when the count is
   theirs and no stored chunk exceeds the reader's bound.
   */
  lemma {:induction false} FramesRoundTrip(c: Primitives, key: Bytes, rules: FrameRules, cs: int, rest: Bytes,
                                           tryCompress: bool, ivs: nat -> IV, i: nat, n: nat)
    requires 0 < cs && cs + TagSize < Two32
    ensures DecryptFrames(c, key, rules, Frames(c, key, cs, rest, tryCompress, ivs, i), n)
            == if n == Ceiling(|rest|, cs) && AllFramesFit(c, rules, cs, rest, tryCompress) then Some(rest) else None
    decreases |rest|
  {
    hide ReadFrame, StoredForm, Frame, DecryptFrames, AllFramesFit, FrameFits;
    DecryptFramesEnds(c, key, rules, Frames(c, key, cs, rest, tryCompress, ivs, i), n);
    FitsUnfold(c, rules, cs, rest, tryCompress);
    if rest != [] {
      hide Frames;
      var k := Min(cs, |rest|);
      var head, rest' := rest[..k], rest[k..];
      var tail := Frames(c, key, cs, rest', tryCompress, ivs, i + 1);
      var whole := Frame(c, key, head, tryCompress, ivs(i)) + tail;
      FramesUnfold(c, key, cs, rest, tryCompress, ivs, i, head);
      FrameNonEmpty(c, key, head, tryCompress, ivs(i));
      assert Frames(c, key, cs, rest, tryCompress, ivs, i) == whole;
      assert Ceiling(|rest|, cs) == Ceiling(|rest'|, cs) + 1;
      if n > 0 {
        assert rest == head + rest';
        FramesRoundTrip(c, key, rules, cs, rest', tryCompress, ivs, i + 1, n - 1);
        DecryptFrameStep(c, key, rules, head, tryCompress, ivs(i), tail, n - 1);
      }
    }
  }

  lemma FitsUnfold(c: Primitives, rules: FrameRules, cs: int, rest: Bytes, tryCompress: bool)
    requires cs > 0
    ensures AllFramesFit(c, rules, cs, rest, tryCompress) <==>
      || rest == []
      || (&& FrameFits(c, rules, rest[..Min(cs, |rest|)], tryCompress)
          && AllFramesFit(c, rules, cs, rest[Min(cs, |rest|)..], tryCompress))
  {
    hide FrameFits;
  }

  lemma FrameNonEmpty(c: Primitives, key: Bytes, chunk: Bytes, tryCompress: bool, iv: IV)
    ensures |Frame(c, key, chunk, tryCompress, iv)| > 0
  {
  }

  lemma DecryptFramesEnds(c: Primitives, key: Bytes, rules: FrameRules, data: Bytes, n: nat)
    ensures n == 0 ==> DecryptFrames(c, key, rules, data, n) == if data == [] then Some([]) else None
    ensures n > 0 && data == [] ==> DecryptFrames(c, key, rules, data, n) == None
  {
  }

  /** The reader's bound on stored bytes, and the cap on decompressed ones. */
  predicate FrameFits(c: Primitives, rules: FrameRules, chunk: Bytes, tryCompress: bool) {
    && |StoredForm(c, chunk, tryCompress)| + TagSize <= rules.maxStored
    && (StoredCompressed(c, chunk, tryCompress) ==> |chunk| <= MaxDecompressedSize)
  }

  predicate AllFramesFit(c: Primitives, rules: FrameRules, cs: int, rest: Bytes, tryCompress: bool)
    requires cs > 0
    decreases |rest|
  {
    rest == [] ||
    var n := Min(cs, |rest|);
    && FrameFits(c, rules, rest[..n], tryCompress)
    && AllFramesFit(c, rules, cs, rest[n..], tryCompress)
  }

  /** A chunk size below the bound makes every frame fit. */
  lemma {:induction false} FramesFit(c: Primitives, rules: FrameRules, cs: int, rest: Bytes, tryCompress: bool)
    requires 0 < cs <= MaxDecompressedSize && cs + TagSize <= rules.maxStored
    ensures AllFramesFit(c, rules, cs, rest, tryCompress)
    decreases |rest|
  {
    if rest != [] {
      FramesFit(c, rules, cs, rest[Min(cs, |rest|)..], tryCompress);
    }
  }

  lemma MagicsDistinct()
    ensures MagicGB1 != MagicGB2 && MagicGB1 != MagicGB3 && MagicGB2 != MagicGB3
  {
    assert MagicGB1[2] != MagicGB2[2] && MagicGB1[2] != MagicGB3[2] && MagicGB2[2] != MagicGB3[2];
  }

  /** A small blob under an unambiguous IV decrypts by its primary reading. */
  lemma SmallRoundTrip(c: Primitives, key: Bytes, cs: int, iv: SmallIV, plaintext: Bytes)
    requires cs > 0 && ValidKey(key)
    ensures DecryptSpec(c, key, cs, SmallBlob(c, key, iv, plaintext)) == Some(plaintext)
  {
    MagicsDistinct();
    var blob := SmallBlob(c, key, iv, plaintext);
    var data := blob[MagicSize..];
    assert blob[..MagicSize] == MagicGB1;
    assert data == iv + c.seal(key, iv, plaintext);
    assert data[..IVSize] == iv && data[IVSize..] == c.seal(key, iv, plaintext);
    assert data[..ChunkCountSize] == iv[..ChunkCountSize];
  }

  /**
   A small blob written before IVs were filtered may start like a chunk count.
   It then decrypts to its plaintext exactly when the large reading fails (or
   happens to give the same bytes).
   */
  lemma LegacySmallRoundTripIff(c: Primitives, key: Bytes, cs: int, iv: IV, plaintext: Bytes)
    requires cs > 0 && ValidKey(key) && IsChunkCount(iv)
    ensures var blob := SmallBlob(c, key, iv, plaintext);
      var large := DecryptLarge(c, key, cs, blob[MagicSize..]);
      DecryptSpec(c, key, cs, blob) == Some(plaintext) <==> large == None || large == Some(plaintext)
  {
    MagicsDistinct();
    var blob := SmallBlob(c, key, iv, plaintext);
    var data := blob[MagicSize..];
    assert blob[..MagicSize] == MagicGB1;
    assert data == iv + c.seal(key, iv, plaintext);
    assert data[..IVSize] == iv && data[IVSize..] == c.seal(key, iv, plaintext);
    assert data[..ChunkCountSize] == iv[..ChunkCountSize];
  }

  /** The last fallback of the GB1 branch can never succeed. */
  lemma LargeFallbackIsDead(c: Primitives, key: Bytes, cs: int, data: Bytes)
    requires cs > 0 && |data| > ChunkCountSize && !IsChunkCount(data)
    ensures DecryptLarge(c, key, cs, data) == None
  {
  }

  /**
   Encrypt writes a blob exactly if the key is usable and the chunk count fits 32 bits.
   Decrypt inverts it on everything it writes, except that a GB3 blob (from 100000
   chunks on) is readable only if its chunks are at most 64 MiB.
   */
  lemma EncryptRoundTripIff(c: Primitives, key: Bytes, cs: int, plaintext: Bytes, smallIV: SmallIV, ivs: nat -> IV)
    requires 0 < cs && |plaintext| < Two64 && (cs < Two32 || Ceiling(|plaintext|, cs) < MaxChunkCount)
    ensures var blob := EncryptSpec(c, key, cs, plaintext, smallIV, ivs);
      && (blob.Some? <==> ValidKey(key) && Ceiling(|plaintext|, cs) <= 0xffff_ffff)
      && (blob.Some? ==>
            DecryptSpec(c, key, cs, blob.value) ==
              if Ceiling(|plaintext|, cs) < 100000 || cs <= 64 * 1024 * 1024 then Some(plaintext) else None)
  {
    hide DecryptSpec, ChunksGB1, Frames, EncodeGB3Header, PutUint32, SmallBlob, Ceiling;
    var blob := EncryptSpec(c, key, cs, plaintext, smallIV, ivs);
    if |plaintext| < cs { OneChunk(|plaintext|, cs); }
    if blob.Some? {
      var count := Ceiling(|plaintext|, cs);
      if |plaintext| < cs {
        SmallRoundTrip(c, key, cs, smallIV, plaintext);
      } else if count < MaxChunkCount {
        LargeRoundTrip(c, key, cs, plaintext, ivs);
      } else {
        FitsIn32(cs);
        GB3RoundTrip(c, key, cs, plaintext, |plaintext|, false, 0, 0, ivs);
      }
    }
  }

  lemma OneChunk(size: nat, cs: int)
    requires size < cs
    ensures Ceiling(size, cs) <= 1
  {
  }

  lemma LargeRoundTrip(c: Primitives, key: Bytes, cs: int, plaintext: Bytes, ivs: nat -> IV)
    requires cs > 0 && ValidKey(key) && plaintext != [] && Ceiling(|plaintext|, cs) < MaxChunkCount
    ensures var chunks := ChunksGB1(c, key, cs, plaintext, ivs, 0);
      DecryptSpec(c, key, cs, MagicGB1 + PutUint32(Ceiling(|plaintext|, cs)) + chunks) == Some(plaintext)
  {
    MagicsDistinct();
    var count := Ceiling(|plaintext|, cs);
    var chunks := ChunksGB1(c, key, cs, plaintext, ivs, 0);
    var blob := MagicGB1 + PutUint32(count) + chunks;
    var data := blob[MagicSize..];
    assert blob[..MagicSize] == MagicGB1;
    assert data[..ChunkCountSize] == PutUint32(count) && data[ChunkCountSize..] == chunks;
    ChunksGB1RoundTrip(c, key, cs, plaintext, ivs, 0, count);
  }

  /**
   A GB3 blob over any plaintext, for either compression choice. The header's
   size field only has to imply the right number of chunks.
   */
  lemma GB3RoundTrip(c: Primitives, key: Bytes, cs: int, plaintext: Bytes, size: nat, tryCompress: bool,
                     flags: byte, alg: byte, ivs: nat -> IV)
    requires 0 < cs < Two32 && size < Two64 && ValidKey(key) && alg <= 1
    requires Ceiling(size, cs) == Ceiling(|plaintext|, cs) <= MaxUint32
    ensures var blob := EncodeGB3Header(flags, alg, cs, size) + Frames(c, key, cs, plaintext, tryCompress, ivs, 0);
      DecryptSpec(c, key, cs, blob) == if cs <= MaxGB3ChunkSize then Some(plaintext) else None
  {
    hide Frames, DecryptFrames, EncodeGB3Header, ParseGB3Header;
    MagicsDistinct();
    var header := EncodeGB3Header(flags, alg, cs, size);
    var frames := Frames(c, key, cs, plaintext, tryCompress, ivs, 0);
    var blob := header + frames;
    assert blob[..MagicSize] == MagicGB3;
    HeaderRoundTrip(flags, alg, cs, size, frames);
    if cs <= MaxGB3ChunkSize {
      var h := GB3Header(1, flags, 1, alg, 1, 1, 1, cs, size);
      CeilingIsDivision(size, cs);
      MulMono(Ceiling(size, cs), MaxUint32, cs);
      ChunkCountExactIff(h);
      assert blob[GB3HeaderSize..] == frames;
      FramesFit(c, RulesGB3(cs), cs, plaintext, tryCompress);
      FramesRoundTrip(c, key, RulesGB3(cs), cs, plaintext, tryCompress, ivs, 0, h.ChunkCount());
    }
  }
}
