/**
 The streaming blob codec of simple/stream.go as functions on the bytes of the
 stream, and its relation to the whole-buffer decoder. A decoder's result is
 the plaintext it writes and the number of blob bytes it consumed; it does not
 look at what follows.
 */
module StreamCodec {
  import opened ByteSeqs
  import opened Primitives
  import opened BlobFormat
  import opened BlobCodec

  type Decoded = Option<(Bytes, nat)>

  /** Zstd-framed plaintext is decompressed on the way out, everything else passes through. */
  function Inflate(c: Primitives, plaintext: Bytes): Option<Bytes> {
    if IsZstd(plaintext) then c.decompress(plaintext, MaxDecompressedSize) else Some(plaintext)
  }

  function InflatedTo(c: Primitives, plaintext: Option<Bytes>, consumed: nat): Decoded {
    if plaintext.None? then None
    else
      var out := Inflate(c, plaintext.value);
      if out.None? then None else Some((out.value, consumed))
  }

  /** The result `r` of the rest of a stream, after `done` was written from `used` bytes. */
  function Resume(done: Bytes, used: nat, r: Decoded): Decoded {
    if r.None? then None else Some((done + r.value.0, used + r.value.1))
  }

  // ----- Readers -----------------------------------------------------------

  function StreamChunks(c: Primitives, key: Bytes, cs: int, src: Bytes, n: nat): (r: Decoded)
    requires cs > 0
    ensures r.Some? ==> r.value.1 <= |src|
    decreases n
  {
    if n == 0 then Some(([], 0))
    else if |src| < IVSize then None
    else
      var end := IVSize + Min(cs + TagSize, |src| - IVSize);
      var head := c.open(key, src[..IVSize], src[IVSize..end]);
      if head.None? then None
      else
        Resume(head.value, end, StreamChunks(c, key, cs, src[end..], n - 1))
  }

  lemma StreamChunksEnds(c: Primitives, key: Bytes, cs: int, src: Bytes, n: nat)
    requires cs > 0
    ensures n == 0 ==> StreamChunks(c, key, cs, src, n) == Some(([], 0))
    ensures n > 0 && |src| < IVSize ==> StreamChunks(c, key, cs, src, n) == None
  {
  }

  lemma StreamChunksUnfold(c: Primitives, key: Bytes, cs: int, src: Bytes, n: nat, end: nat)
    requires cs > 0 && n > 0 && |src| >= IVSize && end == IVSize + Min(cs + TagSize, |src| - IVSize)
    ensures var head := c.open(key, src[..IVSize], src[IVSize..end]);
      StreamChunks(c, key, cs, src, n) ==
        if head.None? then None else Resume(head.value, end, StreamChunks(c, key, cs, src[end..], n - 1))
  {
  }

  function StreamFrames(c: Primitives, key: Bytes, rules: FrameRules, src: Bytes, n: nat): (r: Decoded)
    ensures r.Some? ==> r.value.1 <= |src|
    decreases n
  {
    if n == 0 then Some(([], 0))
    else
      var head := ReadFrame(c, key, rules, src);
      if head.None? then None
      else
        Resume(head.value.0, head.value.1, StreamFrames(c, key, rules, src[head.value.1..], n - 1))
  }

  /** The first chunk as the GB1 stream reader cuts it, without looking at the count. */
  function FirstChunk(c: Primitives, key: Bytes, cs: int, body: Bytes): Option<Bytes>
    requires cs > 0 && |body| >= ChunkCountSize + IVSize
  {
    var end := 16 + Min(cs + TagSize, |body| - 16);
    c.open(key, body[4..16], body[16..end])
  }

  /**
   The GB1 reader after the magic. A body that starts like a chunk count is read
   as chunks; if the first chunk fails and the stream ended inside it, the same
   bytes are tried as one small blob.
   */
  function StreamGB1(c: Primitives, key: Bytes, cs: int, body: Bytes): (r: Decoded)
    requires cs > 0
    ensures r.Some? ==> r.value.1 <= |body|
  {
    if |body| < IVSize || !ValidKey(key) then None
    else if !IsChunkCount(body) then
      if |body| > MaxBlobSize then None else InflatedTo(c, DecryptSmall(c, key, body), |body|)
    else if |body| < ChunkCountSize + IVSize then None
    else if FirstChunk(c, key, cs, body).None? then
      if |body| - 16 < cs + TagSize then InflatedTo(c, DecryptSmall(c, key, body), |body|) else None
    else Shift(StreamChunks(c, key, cs, body[ChunkCountSize..], Uint32(body[..ChunkCountSize])), ChunkCountSize)
  }

  function Shift(r: Decoded, offset: nat): Decoded {
    if r.None? then None else Some((r.value.0, offset + r.value.1))
  }

  function StreamGB2(c: Primitives, key: Bytes, body: Bytes): (r: Decoded)
    ensures r.Some? ==> r.value.1 <= |body|
  {
    if |body| < ChunkCountSize then None
    else
      var count := Uint32(body[..ChunkCountSize]);
      if count == 0 || count >= MaxChunkCount || !ValidKey(key) then None
      else Shift(StreamFrames(c, key, RulesGB2, body[ChunkCountSize..], count), ChunkCountSize)
  }

  function StreamGB3(c: Primitives, key: Bytes, blob: Bytes): (r: Decoded)
    ensures r.Some? ==> GB3HeaderSize <= r.value.1 <= |blob|
  {
    var hdr := ParseGB3Header(blob);
    if hdr.None? || !ValidKey(key) then None
    else
      var rules, n := RulesGB3(hdr.value.chunkSize), hdr.value.ChunkCount();
      Shift(StreamFrames(c, key, rules, blob[GB3HeaderSize..], n), GB3HeaderSize)
  }

  function StreamSpec(c: Primitives, key: Bytes, cs: int, blob: Bytes): (r: Decoded)
    requires cs > 0
    ensures r.Some? ==> r.value.1 <= |blob|
  {
    if |blob| < MagicSize then None
    else
      var magic := blob[..MagicSize];
      if magic == MagicGB3 then StreamGB3(c, key, blob)
      else if magic == MagicGB2 then Shift(StreamGB2(c, key, blob[MagicSize..]), MagicSize)
      else if magic == MagicGB1 then Shift(StreamGB1(c, key, cs, blob[MagicSize..]), MagicSize)
      else None
  }

  // ----- Streaming against whole-buffer decoding ---------------------------

  /** A frame reads the same from any prefix that contains it. */
  lemma ReadFrameLocal(c: Primitives, key: Bytes, rules: FrameRules, data: Bytes, k: nat)
    requires k <= |data|
    requires ReadFrame(c, key, rules, data).Some? && ReadFrame(c, key, rules, data).value.1 <= k
    ensures ReadFrame(c, key, rules, data[..k]) == ReadFrame(c, key, rules, data)
  {
    hide Uint32;
    var p := data[..k];
    var end := ReadFrame(c, key, rules, data).value.1;
    assert p[..ChunkCountSize] == data[..ChunkCountSize];
    assert p[5..17] == data[5..17] && p[17..end] == data[17..end];
  }

  /** The plaintext of a stream that was consumed to its end. */
  function Complete(r: Decoded, length: nat): Option<Bytes> {
    if r.Some? && r.value.1 == length then Some(r.value.0) else None
  }

  /**
   Frame streams: the whole buffer decodes exactly when the stream consumes all
   of it, and a stream success is the whole-buffer result on the prefix consumed.
   */
  lemma {:induction false} FramesAgree(c: Primitives, key: Bytes, rules: FrameRules, data: Bytes, n: nat)
    ensures var r := StreamFrames(c, key, rules, data, n);
      && DecryptFrames(c, key, rules, data, n) == Complete(r, |data|)
      && (r.Some? ==> DecryptFrames(c, key, rules, data[..r.value.1], n) == Some(r.value.0))
    decreases n
  {
    hide ReadFrame;
    var head := ReadFrame(c, key, rules, data);
    if n > 0 && head.Some? {
      var end := head.value.1;
      FramesAgree(c, key, rules, data[end..], n - 1);
      var r := StreamFrames(c, key, rules, data, n);
      if r.Some? {
        ReadFrameLocal(c, key, rules, data, r.value.1);
        assert data[..r.value.1][end..] == data[end..][..r.value.1 - end];
      }
    }
  }

  /** The same for GB1 chunk streams. */
  lemma {:induction false} ChunksAgree(c: Primitives, key: Bytes, cs: int, data: Bytes, n: nat)
    requires cs > 0
    ensures DecryptChunksGB1(c, key, cs, data, n) == Complete(StreamChunks(c, key, cs, data, n), |data|)
    decreases n
  {
    if n > 0 && |data| >= IVSize {
      var end := IVSize + Min(cs + TagSize, |data| - IVSize);
      ChunksAgree(c, key, cs, data[end..], n - 1);
    }
  }

  lemma {:induction false} ChunksPrefix(c: Primitives, key: Bytes, cs: int, data: Bytes, n: nat)
    requires cs > 0 && StreamChunks(c, key, cs, data, n).Some?
    ensures var r := StreamChunks(c, key, cs, data, n).value;
      DecryptChunksGB1(c, key, cs, data[..r.1], n) == Some(r.0)
    decreases n
  {
    hide StreamChunks, DecryptChunksGB1;
    StreamChunksEnds(c, key, cs, data, n);
    if n == 0 {
      DecryptChunksEnds(c, key, cs, data[..0], 0);
    } else {
      var k := StreamChunks(c, key, cs, data, n).value.1;
      var end := IVSize + Min(cs + TagSize, |data| - IVSize);
      StreamChunksUnfold(c, key, cs, data, n, end);
      var p := data[..k];
      assert p[..IVSize] == data[..IVSize] && p[IVSize..end] == data[IVSize..end];
      assert p[end..] == data[end..][..k - end];
      ChunksPrefix(c, key, cs, data[end..], n - 1);
      DecryptChunksUnfold(c, key, cs, p, n, end);
    }
  }

  /** The layouts both decoders read chunk by chunk. */
  predicate Chunked(c: Primitives, key: Bytes, cs: int, blob: Bytes)
    requires cs > 0
  {
    && |blob| >= MagicSize
    && var magic, body := blob[..MagicSize], blob[MagicSize..];
    || magic == MagicGB2
    || magic == MagicGB3
    || (magic == MagicGB1 && IsChunkCount(body) && |body| >= 16 && FirstChunk(c, key, cs, body).Some?)
  }

  /**
   On a chunked layout, Decrypt succeeds exactly when the stream succeeds and
   leaves nothing unread, with the same plaintext (on GB1 it may otherwise still
   read the body as a small blob); and every streaming success is Decrypt of the
   prefix that was consumed.
   */
  lemma ChunkedAgree(c: Primitives, key: Bytes, cs: int, blob: Bytes)
    requires cs > 0 && Chunked(c, key, cs, blob)
    ensures var r := StreamSpec(c, key, cs, blob);
      && DecryptSpec(c, key, cs, blob) ==
           (if blob[..MagicSize] == MagicGB1 && Complete(r, |blob|).None?
            then DecryptSmall(c, key, blob[MagicSize..]) else Complete(r, |blob|))
      && (r.Some? ==> DecryptSpec(c, key, cs, blob[..r.value.1]) == Some(r.value.0))
  {
    MagicsDistinct();
    if blob[..MagicSize] == MagicGB3 {
      GB3Agree(c, key, cs, blob);
    } else if blob[..MagicSize] == MagicGB2 {
      GB2Agree(c, key, cs, blob);
    } else {
      GB1LargeAgree(c, key, cs, blob);
    }
  }

  lemma GB3Agree(c: Primitives, key: Bytes, cs: int, blob: Bytes)
    requires cs > 0 && HasPrefix(blob, MagicGB3)
    ensures DecryptSpec(c, key, cs, blob) == Complete(StreamSpec(c, key, cs, blob), |blob|)
    ensures var r := StreamSpec(c, key, cs, blob);
      r.Some? ==> DecryptSpec(c, key, cs, blob[..r.value.1]) == Some(r.value.0)
  {
    hide ParseGB3Header, DecryptFrames, StreamFrames;
    MagicsDistinct();
    var hdr := ParseGB3Header(blob);
    if hdr.Some? {
      var rules, data, n := RulesGB3(hdr.value.chunkSize), blob[GB3HeaderSize..], hdr.value.ChunkCount();
      FramesAgree(c, key, rules, data, n);
      var r := StreamSpec(c, key, cs, blob);
      if r.Some? {
        var p := blob[..r.value.1];
        ParseGB3HeaderLocal(blob, r.value.1);
        assert p[..MagicSize] == blob[..MagicSize];
        assert p[GB3HeaderSize..] == data[..r.value.1 - GB3HeaderSize];
      }
    }
  }

  lemma ParseGB3HeaderLocal(data: Bytes, k: nat)
    requires GB3HeaderSize <= k <= |data|
    ensures ParseGB3Header(data[..k]) == ParseGB3Header(data)
  {
    hide Uint16, Uint32, Uint64;
    var p := data[..k];
    assert p[..4] == data[..4] && p[10..12] == data[10..12] && p[12..16] == data[12..16] && p[16..24] == data[16..24];
  }

  lemma GB2Agree(c: Primitives, key: Bytes, cs: int, blob: Bytes)
    requires cs > 0 && HasPrefix(blob, MagicGB2)
    ensures DecryptSpec(c, key, cs, blob) == Complete(StreamSpec(c, key, cs, blob), |blob|)
    ensures var r := StreamSpec(c, key, cs, blob);
      r.Some? ==> DecryptSpec(c, key, cs, blob[..r.value.1]) == Some(r.value.0)
  {
    hide Uint32, DecryptFrames, StreamFrames;
    MagicsDistinct();
    var body := blob[MagicSize..];
    if |body| >= ChunkCountSize {
      var data, n := body[ChunkCountSize..], Uint32(body[..ChunkCountSize]);
      FramesAgree(c, key, RulesGB2, data, n);
      var r := StreamSpec(c, key, cs, blob);
      if r.Some? {
        var p := blob[..r.value.1];
        assert p[..MagicSize] == blob[..MagicSize];
        assert p[MagicSize..][..ChunkCountSize] == body[..ChunkCountSize];
        assert p[MagicSize..][ChunkCountSize..] == data[..r.value.1 - 8];
      }
    }
  }

  lemma GB1LargeAgree(c: Primitives, key: Bytes, cs: int, blob: Bytes)
    requires cs > 0 && Chunked(c, key, cs, blob) && HasPrefix(blob, MagicGB1)
    ensures DecryptLarge(c, key, cs, blob[MagicSize..]) == Complete(StreamSpec(c, key, cs, blob), |blob|)
    ensures var r := StreamSpec(c, key, cs, blob);
      r.Some? ==> DecryptSpec(c, key, cs, blob[..r.value.1]) == Some(r.value.0)
  {
    hide Uint32, DecryptChunksGB1, StreamChunks;
    MagicsDistinct();
    var body := blob[MagicSize..];
    var data, n := body[ChunkCountSize..], Uint32(body[..ChunkCountSize]);
    ChunksAgree(c, key, cs, data, n);
    var r := StreamSpec(c, key, cs, blob);
    if r.Some? {
      var k := r.value.1;
      var p := blob[..k];
      ChunksPrefix(c, key, cs, data, n);
      StreamChunksConsumes(c, key, cs, data, n);
      assert p[..MagicSize] == blob[..MagicSize];
      assert p[MagicSize..][..ChunkCountSize] == body[..ChunkCountSize];
      assert p[MagicSize..][ChunkCountSize..] == data[..k - 8];
    }
  }

  /** A successful chunk stream of at least one chunk consumes at least an IV. */
  lemma StreamChunksConsumes(c: Primitives, key: Bytes, cs: int, data: Bytes, n: nat)
    requires cs > 0 && n > 0 && StreamChunks(c, key, cs, data, n).Some?
    ensures StreamChunks(c, key, cs, data, n).value.1 >= IVSize
  {
  }

  /**
   Small blobs: the stream writes the decompressed plaintext. Under an IV that does
   not look like a chunk count it does so exactly up to 5 MiB. Under a legacy IV
   that does, absent accidental authentication as a first chunk, Decrypt always gives
   the plaintext, and the stream does so exactly if the blob ends inside what it
   reads as the first chunk.
   */
  lemma SmallAgree(c: Primitives, key: Bytes, cs: int, iv: IV, plaintext: Bytes)
    requires cs > 0 && ValidKey(key)
    ensures var blob := SmallBlob(c, key, iv, plaintext);
      && (!IsChunkCount(iv) ==>
            StreamSpec(c, key, cs, blob) ==
              if |plaintext| <= 5 * 1024 * 1024 then InflatedTo(c, Some(plaintext), |blob|) else None)
      && (IsChunkCount(iv) && FirstChunk(c, key, cs, blob[MagicSize..]) == None ==>
            && DecryptSpec(c, key, cs, blob) == Some(plaintext)
            && StreamSpec(c, key, cs, blob) ==
                 if |plaintext| < cs + ChunkCountSize then InflatedTo(c, Some(plaintext), |blob|) else None)
  {
    hide Uint32;
    MagicsDistinct();
    var blob := SmallBlob(c, key, iv, plaintext);
    var body := blob[MagicSize..];
    var sealed := c.seal(key, iv, plaintext);
    assert blob[..MagicSize] == MagicGB1;
    assert body == iv + sealed;
    assert body[..IVSize] == iv && body[IVSize..] == sealed;
    assert body[..ChunkCountSize] == iv[..ChunkCountSize];
    assert DecryptSmall(c, key, body) == Some(plaintext);
    if IsChunkCount(iv) && FirstChunk(c, key, cs, body) == None {
      FirstChunkFails(c, key, cs, body);
    }
  }

  /** A body whose first chunk does not authenticate is not read as chunks. */
  lemma FirstChunkFails(c: Primitives, key: Bytes, cs: int, body: Bytes)
    requires cs > 0 && |body| >= ChunkCountSize + IVSize && IsChunkCount(body) && FirstChunk(c, key, cs, body) == None
    ensures DecryptLarge(c, key, cs, body) == None
  {
    hide Uint32, DecryptChunksGB1;
    var data, n := body[ChunkCountSize..], Uint32(body[..ChunkCountSize]);
    var end := IVSize + Min(cs + TagSize, |data| - IVSize);
    assert data[..IVSize] == body[4..16] && data[IVSize..end] == body[16..ChunkCountSize + end];
    DecryptChunksUnfold(c, key, cs, data, n, end);
  }

  // ----- The streaming writer ----------------------------------------------

  /** The part of the source a writer that expects `count` chunks reads. */
  function Taken(content: Bytes, cs: int, count: nat): Bytes
    requires cs > 0
    decreases count
  {
    if count == 0 || content == [] then []
    else content[..Min(cs, |content|)] + Taken(content[Min(cs, |content|)..], cs, count - 1)
  }

  /**
   What encryptFileToWriter writes: the layout is chosen from the stat size, and
   the chunks are those of the bytes then read.
   */
  function WriterSpec(c: Primitives, key: Bytes, cs: int, statSize: nat, content: Bytes, tryCompress: bool,
                      ivs: nat -> IV): Option<Bytes>
    requires 0 < cs && statSize < Two64
  {
    var count := Ceiling(statSize, cs);
    var taken := Taken(content, cs, count);
    var flag := if tryCompress then 1 else 0;
    if !ValidKey(key) then None
    else if count >= MaxChunkCount then
      Some(EncodeGB3Header(flag, flag, cs % Two32, statSize) + Frames(c, key, cs, taken, tryCompress, ivs, 0))
    else if tryCompress then
      Some(MagicGB2 + PutUint32(count) + Frames(c, key, cs, taken, true, ivs, 0))
    else
      Some(MagicGB1 + PutUint32(count) + ChunksGB1(c, key, cs, taken, ivs, 0))
  }

  lemma {:induction false} TakenAll(content: Bytes, cs: int, count: nat)
    requires cs > 0 && Ceiling(|content|, cs) <= count
    ensures Taken(content, cs, count) == content
    decreases count
  {
    if content != [] {
      var k := Min(cs, |content|);
      TakenAll(content[k..], cs, count - 1);
      assert content == content[..k] + content[k..];
    }
  }

  /** The reader limits that decide whether a written blob can be read back. */
  predicate Readable(c: Primitives, cs: int, content: Bytes, tryCompress: bool)
    requires cs > 0
  {
    var count := Ceiling(|content|, cs);
    if count >= MaxChunkCount then cs <= MaxGB3ChunkSize && count <= MaxUint32
    else tryCompress ==> AllFramesFit(c, RulesGB2, cs, content, true)
  }

  /**
   The writer and both readers are inverse: a non-empty source whose size still
   gives the same number of chunks as at the stat is read back by both readers,
   to its last byte, exactly when the layout chosen is within the readers' limits.
   */
  lemma WriterReadersInverse(c: Primitives, key: Bytes, cs: int, statSize: nat, content: Bytes, tryCompress: bool,
                             ivs: nat -> IV)
    requires 0 < cs && cs + TagSize < Two32 && statSize < Two64 - cs && ValidKey(key)
    requires content != [] && Ceiling(|content|, cs) == Ceiling(statSize, cs)
    ensures var blob := WriterSpec(c, key, cs, statSize, content, tryCompress, ivs);
      && blob.Some?
      && DecryptSpec(c, key, cs, blob.value) == (if Readable(c, cs, content, tryCompress) then Some(content) else None)
      && (StreamSpec(c, key, cs, blob.value) == Some((content, |blob.value|))
          <==> Readable(c, cs, content, tryCompress))
  {
    hide DecryptSpec, StreamSpec, Readable, ChunksGB1, Frames, EncodeGB3Header, PutUint32, Taken, Ceiling;
    var count := Ceiling(statSize, cs);
    FitsIn32(cs);
    TakenAll(content, cs, count);
    if count >= MaxChunkCount {
      WriterGB3(c, key, cs, statSize, content, tryCompress, ivs);
    } else if tryCompress {
      WriterGB2(c, key, cs, content, ivs);
      ReadableSmall(c, cs, content, true);
    } else {
      WriterGB1(c, key, cs, content, ivs);
      ReadableSmall(c, cs, content, false);
    }
  }

  /**
   What the streaming writer writes with chunks of at most 4 MiB + 1 KiB, compressed or
   not, both readers read back, whatever the content, up to the chunk count where the
   layout changes.
   */
  lemma WrittenIsRead(c: Primitives, key: Bytes, cs: int, content: Bytes, tryCompress: bool, ivs: nat -> IV)
    requires 0 < cs <= 4 * 1024 * 1024 + 1024 && |content| < Two64 - cs && ValidKey(key)
    requires content != [] && Ceiling(|content|, cs) < 100000
    ensures var blob := WriterSpec(c, key, cs, |content|, content, tryCompress, ivs);
      && blob.Some? && DecryptSpec(c, key, cs, blob.value) == Some(content)
      && StreamSpec(c, key, cs, blob.value) == Some((content, |blob.value|))
  {
    hide WriterSpec, DecryptSpec, StreamSpec, AllFramesFit, Ceiling;
    WriterReadersInverse(c, key, cs, |content|, content, tryCompress, ivs);
    FramesFit(c, RulesGB2, cs, content, true);
  }

  /**
   The bound is sharp: with larger chunks, a content whose first chunk is full and does
   not compress is written as a blob that neither reader accepts.
   */
  lemma OversizeChunkUnread(c: Primitives, key: Bytes, cs: int, content: Bytes, ivs: nat -> IV)
    requires 4 * 1024 * 1024 + 1024 < cs < Two32 - TagSize && |content| < Two64 - cs && ValidKey(key)
    requires |content| >= cs && Ceiling(|content|, cs) < 100000 && |c.compress(content[..cs])| >= cs
    ensures var blob := WriterSpec(c, key, cs, |content|, content, true, ivs);
      && blob.Some? && DecryptSpec(c, key, cs, blob.value) == None
      && StreamSpec(c, key, cs, blob.value) != Some((content, |blob.value|))
  {
    hide WriterSpec, DecryptSpec, StreamSpec, Ceiling;
    WriterReadersInverse(c, key, cs, |content|, content, true, ivs);
  }

  lemma ReadableSmall(c: Primitives, cs: int, content: Bytes, tryCompress: bool)
    requires cs > 0 && Ceiling(|content|, cs) < MaxChunkCount
    ensures Readable(c, cs, content, tryCompress) == (tryCompress ==> AllFramesFit(c, RulesGB2, cs, content, true))
  {
    hide AllFramesFit;
  }

  lemma WriterGB3(c: Primitives, key: Bytes, cs: int, statSize: nat, content: Bytes, tryCompress: bool, ivs: nat -> IV)
    requires 0 < cs && cs + TagSize < Two32 && statSize < Two64 - cs && ValidKey(key)
    requires content != [] && Ceiling(|content|, cs) == Ceiling(statSize, cs) >= MaxChunkCount
    ensures var flag := if tryCompress then 1 else 0;
      var blob := EncodeGB3Header(flag, flag, cs, statSize) + Frames(c, key, cs, content, tryCompress, ivs, 0);
      && DecryptSpec(c, key, cs, blob) == (if Readable(c, cs, content, tryCompress) then Some(content) else None)
      && (StreamSpec(c, key, cs, blob) == Some((content, |blob|)) <==> Readable(c, cs, content, tryCompress))
  {
    hide Frames, EncodeGB3Header;
    var flag := if tryCompress then 1 else 0;
    var header, frames := EncodeGB3Header(flag, flag, cs, statSize), Frames(c, key, cs, content, tryCompress, ivs, 0);
    var blob := header + frames;
    assert blob[..MagicSize] == MagicGB3;
    GB3Agree(c, key, cs, blob);
    if Ceiling(statSize, cs) <= MaxUint32 {
      GB3RoundTrip(c, key, cs, content, statSize, tryCompress, flag, flag, ivs);
    } else {
      MagicsDistinct();
      HeaderRoundTrip(flag, flag, cs, statSize, frames);
      ChunkCountExactIff(GB3Header(1, flag, 1, flag, 1, 1, 1, cs, statSize));
      assert DecryptSpec(c, key, cs, blob) == None;
    }
  }

  lemma WriterGB2(c: Primitives, key: Bytes, cs: int, content: Bytes, ivs: nat -> IV)
    requires 0 < cs && cs + TagSize < Two32 && ValidKey(key) && content != []
    requires Ceiling(|content|, cs) < MaxChunkCount
    ensures var blob := MagicGB2 + PutUint32(Ceiling(|content|, cs)) + Frames(c, key, cs, content, true, ivs, 0);
      && DecryptSpec(c, key, cs, blob) == (if AllFramesFit(c, RulesGB2, cs, content, true) then Some(content) else None)
      && (StreamSpec(c, key, cs, blob) == Some((content, |blob|)) <==> AllFramesFit(c, RulesGB2, cs, content, true))
  {
    hide Frames, DecryptFrames, PutUint32, Uint32;
    MagicsDistinct();
    var count := Ceiling(|content|, cs);
    var frames := Frames(c, key, cs, content, true, ivs, 0);
    var blob := MagicGB2 + PutUint32(count) + frames;
    var body := blob[MagicSize..];
    assert blob[..MagicSize] == MagicGB2;
    assert body[..ChunkCountSize] == PutUint32(count) && body[ChunkCountSize..] == frames;
    GB2Agree(c, key, cs, blob);
    FramesRoundTrip(c, key, RulesGB2, cs, content, true, ivs, 0, count);
  }

  lemma WriterGB1(c: Primitives, key: Bytes, cs: int, content: Bytes, ivs: nat -> IV)
    requires 0 < cs && ValidKey(key) && content != []
    requires Ceiling(|content|, cs) < MaxChunkCount
    ensures var blob := MagicGB1 + PutUint32(Ceiling(|content|, cs)) + ChunksGB1(c, key, cs, content, ivs, 0);
      && DecryptSpec(c, key, cs, blob) == Some(content)
      && StreamSpec(c, key, cs, blob) == Some((content, |blob|))
  {
    hide PutUint32, Uint32, ChunksGB1, DecryptChunksGB1, StreamGB1, DecryptGB1, DecryptLarge, Chunked;
    LargeRoundTrip(c, key, cs, content, ivs);
    LargeLayout(c, key, cs, content, ivs);
    var blob := MagicGB1 + PutUint32(Ceiling(|content|, cs)) + ChunksGB1(c, key, cs, content, ivs, 0);
    GB1LargeAgree(c, key, cs, blob);
  }

  lemma LargeLayout(c: Primitives, key: Bytes, cs: int, content: Bytes, ivs: nat -> IV)
    requires 0 < cs && ValidKey(key) && content != []
    requires Ceiling(|content|, cs) < MaxChunkCount
    ensures var blob := MagicGB1 + PutUint32(Ceiling(|content|, cs)) + ChunksGB1(c, key, cs, content, ivs, 0);
      Chunked(c, key, cs, blob) && blob[..MagicSize] == MagicGB1 &&
        DecryptLarge(c, key, cs, blob[MagicSize..]) == Some(content)
  {
    hide PutUint32, Uint32, ChunksGB1, DecryptChunksGB1;
    var count := Ceiling(|content|, cs);
    var chunk := content[..Min(cs, |content|)];
    var chunks := ChunksGB1(c, key, cs, content, ivs, 0);
    ChunksGB1Unfold(c, key, cs, content, ivs, 0, chunk);
    var tail := ChunksGB1(c, key, cs, content[|chunk|..], ivs, 1);
    var sealed := c.seal(key, ivs(0), chunk);
    assert chunks == ivs(0) + sealed + tail;
    if |content| <= cs {
      assert content[|chunk|..] == [];
      ChunksGB1Empty(c, key, cs, ivs, 1);
    }
    var blob := MagicGB1 + PutUint32(count) + chunks;
    var body := blob[MagicSize..];
    assert blob[..MagicSize] == MagicGB1;
    assert body[..ChunkCountSize] == PutUint32(count) && body[ChunkCountSize..] == chunks;
    var end := 16 + Min(cs + TagSize, |body| - 16);
    assert end == 16 + |sealed|;
    assert body[4..16] == ivs(0) && body[16..end] == sealed;
    ChunksGB1RoundTrip(c, key, cs, content, ivs, 0, count);
  }

  lemma ChunksGB1Empty(c: Primitives, key: Bytes, cs: int, ivs: nat -> IV, i: nat)
    requires cs > 0
    ensures ChunksGB1(c, key, cs, [], ivs, i) == []
  {
  }

  /** An empty source is written as a blob neither reader accepts. */
  lemma EmptySourceUnreadable(c: Primitives, key: Bytes, cs: int, tryCompress: bool, ivs: nat -> IV)
    requires 0 < cs && ValidKey(key)
    ensures var blob := WriterSpec(c, key, cs, 0, [], tryCompress, ivs);
      blob.Some? && DecryptSpec(c, key, cs, blob.value) == None && StreamSpec(c, key, cs, blob.value) == None
  {
    MagicsDistinct();
    var magic := if tryCompress then MagicGB2 else MagicGB1;
    var blob := magic + PutUint32(0) + [];
    assert blob[..MagicSize] == magic && blob[MagicSize..] == PutUint32(0);
    assert blob[MagicSize..][..ChunkCountSize] == PutUint32(0);
  }
}
