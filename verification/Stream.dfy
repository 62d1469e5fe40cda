/**
 The streaming readers and writer of simple/stream.go as they run: loops over a
 stream that fill buffers and write frames, proved against StreamCodec.
 */
module Stream {
  import opened ByteSeqs
  import opened Primitives
  import opened BlobFormat
  import opened BlobCodec
  import opened StreamCodec

  /**
   The unread bytes of a source. Reads come back short at its end, and once a read
   has failed the reader is marked failed.
   */
  class Reader {
    var rest: Bytes
    var failed: bool

    constructor (data: Bytes)
      ensures rest == data && !failed
    {
      rest, failed := data, false;
    }

    method ReadFull(n: nat) returns (buf: Bytes)
      requires !failed
      modifies this
      ensures !failed ==> buf == old(rest)[..Min(n, |old(rest)|)] && rest == old(rest)[|buf|..]
    {
      var k := Min(n, |rest|);
      var broken: bool := *;
      if broken {
        k :| 0 <= k <= Min(n, |rest|);
        failed := true;
      }
      buf := rest[..k];
      rest := rest[k..];
    }
  }

  /**
   verifyingWriter: a destination together with the hash state and count of the
   bytes that actually reached it. A write may stop early; what was written then
   still counts and the writer is marked failed.
   */
  class VerifyingWriter {
    var written: Bytes
    var hashed: Bytes
    var count: nat
    var failed: bool

    ghost predicate Valid()
      reads this
    {
      hashed == written && count == |written|
    }

    constructor ()
      ensures Valid() && written == [] && !failed
    {
      written, hashed, count, failed := [], [], 0, false;
    }

    method Write(p: Bytes) returns (ok: bool)
      requires Valid()
      modifies this
      ensures Valid()
      ensures old(written) <= written <= old(written) + p
      ensures ok ==> written == old(written) + p && failed == old(failed)
      ensures !ok ==> failed
    {
      var n: nat := |p|;
      if * {
        n :| 0 <= n <= |p|;
        failed := true;
        ok := false;
      } else {
        ok := true;
      }
      written := written + p[..n];
      hashed := hashed + p[..n];
      count := count + n;
    }
  }

  lemma ResumeAssoc(done: Bytes, used: nat, head: Bytes, size: nat, r: Decoded)
    ensures Resume(done, used, Resume(head, size, r)) == Resume(done + head, used + size, r)
    ensures Resume([], 0, r) == r
  {
    if r.Some? {
      ConcatAssoc(done, head, r.value.0);
      assert [] + r.value.0 == r.value.0;
    }
  }

  /** What a reader promises: success means the specified bytes, and only a failed read or write loses one. */
  twostate predicate Decodes(src: Reader, dst: VerifyingWriter, r: Decoded, ok: bool)
    reads src, dst
  {
    && (ok ==> r.Some? && dst.written == old(dst.written) + r.value.0)
    && (ok ==> r.value.1 <= |old(src.rest)| && src.rest == old(src.rest)[r.value.1..])
    && (!dst.failed && !src.failed ==> (ok <==> r.Some?))
    && (ok ==> !src.failed)
  }

  method DecryptStreamToFile(c: Primitives, key: Bytes, cs: int, src: Reader, dst: VerifyingWriter) returns (ok: bool)
    requires cs > 0 && dst.Valid() && !dst.failed && !src.failed
    modifies src, dst
    ensures dst.Valid()
    ensures Decodes(src, dst, StreamSpec(c, key, cs, old(src.rest)), ok)
  {
    hide StreamGB1, StreamGB2, StreamGB3, ParseGB3Header;
    ghost var blob := src.rest;
    var magic := src.ReadFull(MagicSize);
    if src.failed { return false; }
    if |magic| < MagicSize { return false; }
    if magic == MagicGB3 {
      ok := DecryptGB3StreamToFile(c, key, src, dst, magic);
      assert magic + blob[MagicSize..] == blob;
    } else if magic == MagicGB2 {
      ok := DecryptGB2StreamToFile(c, key, src, dst);
    } else if magic == MagicGB1 {
      ok := DecryptGB1StreamToFile(c, key, cs, src, dst);
    } else {
      ok := false;
    }
    if ok {
      ghost var used := StreamSpec(c, key, cs, blob).value.1;
      DropDrop(blob, MagicSize, used - MagicSize);
    }
  }

  method DecryptGB1StreamToFile(c: Primitives, key: Bytes, cs: int, src: Reader, dst: VerifyingWriter)
    returns (ok: bool)
    requires cs > 0 && dst.Valid() && !dst.failed && !src.failed
    modifies src, dst
    ensures dst.Valid()
    ensures Decodes(src, dst, StreamGB1(c, key, cs, old(src.rest)), ok)
  {
    hide Uint32;
    ghost var body := src.rest;
    var countBuf := src.ReadFull(ChunkCountSize);
    if src.failed || |countBuf| < ChunkCountSize {
      // The source hands the four (zero-padded) bytes to the small reader, which needs 28.
      return false;
    }
    assert countBuf[..ChunkCountSize] == body[..ChunkCountSize];
    if !IsChunkCount(countBuf) {
      var ivBuf := src.ReadFull(IVSize - ChunkCountSize);
      if src.failed || |ivBuf| < IVSize - ChunkCountSize { return false; }
      var ivData := countBuf + ivBuf;
      assert ivData == body[..IVSize];
      ok := DecryptSmallStreamFromIV(c, key, ivData, src, dst);
      assert ivData + body[IVSize..] == body;
      return;
    }
    var chunkCount := Uint32(countBuf);
    if !ValidKey(key) { return false; }
    ok := DecryptChunkStream(c, key, cs, countBuf, chunkCount, src, dst);
    assert countBuf + body[ChunkCountSize..] == body;
    if ok {
      DropDrop(body, ChunkCountSize, StreamGB1(c, key, cs, body).value.1 - ChunkCountSize);
    }
  }

  /** The chunk loop of the GB1 reader, with the small-blob reading of the first chunk. */
  method DecryptChunkStream(c: Primitives, key: Bytes, cs: int, countBuf: Bytes, chunkCount: nat, src: Reader,
                            dst: VerifyingWriter)
    returns (ok: bool)
    requires cs > 0 && ValidKey(key) && dst.Valid() && !dst.failed && !src.failed
    requires |countBuf| == ChunkCountSize && IsChunkCount(countBuf) && chunkCount == Uint32(countBuf)
    modifies src, dst
    ensures dst.Valid()
    ensures Decodes(src, dst, ChunkStreamSpec(c, key, cs, countBuf, old(src.rest)), ok)
  {
    hide Uint32, StreamChunks, FirstChunk;
    ghost var start := src.rest;
    var iv, encrypted, decrypted := ReadChunk(c, key, cs, src);
    if src.failed || |iv| < IVSize { return false; }
    FirstChunkOf(c, key, cs, countBuf, start);
    if decrypted.None? {
      if |encrypted| < cs + TagSize {
        var smallData := countBuf + iv + encrypted;
        assert smallData == countBuf + start && src.rest == [];
        ok := DecryptSmallData(c, key, smallData, dst);
        return;
      }
      return false;
    }
    ghost var end: nat := IVSize + |encrypted|;
    assert countBuf[..ChunkCountSize] == countBuf;
    StreamChunksUnfold(c, key, cs, start, chunkCount, end);
    ok := dst.Write(decrypted.value);
    if !ok { return false; }
    ok := DecryptChunkLoop(c, key, cs, chunkCount - 1, src, dst);
    if ok {
      ghost var tail := StreamChunks(c, key, cs, start[end..], chunkCount - 1).value;
      ConcatAssoc(old(dst.written), decrypted.value, tail.0);
      DropDrop(start, end, tail.1);
    }
  }

  /** The chunks after the first. */
  method DecryptChunkLoop(c: Primitives, key: Bytes, cs: int, chunkCount: nat, src: Reader, dst: VerifyingWriter)
    returns (ok: bool)
    requires cs > 0 && dst.Valid() && !dst.failed && !src.failed
    modifies src, dst
    ensures dst.Valid()
    ensures Decodes(src, dst, StreamChunks(c, key, cs, old(src.rest), chunkCount), ok)
  {
    hide StreamChunks;
    ghost var start, base := src.rest, dst.written;
    ghost var done: Bytes, used: nat := [], 0;
    ResumeAssoc([], 0, [], 0, StreamChunks(c, key, cs, start, chunkCount));
    for i := 0 to chunkCount
      invariant dst.Valid() && !dst.failed && !src.failed && dst.written == base + done
      invariant used <= |start| && src.rest == start[used..]
      invariant StreamChunks(c, key, cs, start, chunkCount)
             == Resume(done, used, StreamChunks(c, key, cs, src.rest, chunkCount - i))
    {
      ghost var rest := src.rest;
      StreamChunksEnds(c, key, cs, rest, chunkCount - i);
      var iv, encrypted, decrypted := ReadChunk(c, key, cs, src);
      if src.failed || |iv| < IVSize { return false; }
      ghost var end: nat := IVSize + |encrypted|;
      StreamChunksUnfold(c, key, cs, rest, chunkCount - i, end);
      if decrypted.None? { return false; }
      ResumeAssoc(done, used, decrypted.value, end, StreamChunks(c, key, cs, src.rest, chunkCount - i - 1));
      ok := dst.Write(decrypted.value);
      if !ok { return false; }
      ConcatAssoc(base, done, decrypted.value);
      DropDrop(start, used, end);
      done, used := done + decrypted.value, used + end;
    }
    StreamChunksEnds(c, key, cs, src.rest, 0);
    assert done + [] == done;
    ok := true;
  }

  method ReadChunk(c: Primitives, key: Bytes, cs: int, src: Reader)
    returns (iv: Bytes, encrypted: Bytes, decrypted: Option<Bytes>)
    requires cs > 0 && !src.failed
    modifies src
    ensures !src.failed ==> |iv| <= IVSize && (|iv| < IVSize <==> |old(src.rest)| < IVSize)
    ensures !src.failed && |iv| == IVSize ==>
      && |encrypted| == Min(cs + TagSize, |old(src.rest)| - IVSize)
      && old(src.rest) == iv + encrypted + src.rest
      && iv == old(src.rest)[..IVSize] && encrypted == old(src.rest)[IVSize..IVSize + |encrypted|]
      && src.rest == old(src.rest)[IVSize + |encrypted|..]
      && decrypted == c.open(key, iv, encrypted)
  {
    iv := src.ReadFull(IVSize);
    if src.failed || |iv| < IVSize { return iv, [], None; }
    encrypted := src.ReadFull(cs + TagSize);
    decrypted := c.open(key, iv, encrypted);
  }

  method DecryptSmallData(c: Primitives, key: Bytes, data: Bytes, dst: VerifyingWriter) returns (ok: bool)
    requires dst.Valid() && !dst.failed
    modifies dst
    ensures dst.Valid()
    ensures var r := InflatedTo(c, DecryptSmall(c, key, data), 0);
      (ok ==> r.Some? && dst.written == old(dst.written) + r.value.0) && (!dst.failed ==> (ok <==> r.Some?))
  {
    var plaintext := DecryptSmall(c, key, data);
    if plaintext.None? { return false; }
    ok := WriteSmallPlaintext(c, dst, plaintext.value);
  }

  /** StreamGB1 once the count bytes have been read and recognised. */
  ghost function ChunkStreamSpec(c: Primitives, key: Bytes, cs: int, countBuf: Bytes, rest: Bytes): Decoded
    requires cs > 0 && |countBuf| == ChunkCountSize
  {
    if |rest| < IVSize then None
    else if FirstChunk(c, key, cs, countBuf + rest).None? then
      if |rest| - IVSize < cs + TagSize then InflatedTo(c, DecryptSmall(c, key, countBuf + rest), |rest|) else None
    else StreamChunks(c, key, cs, rest, Uint32(countBuf))
  }

  lemma FirstChunkOf(c: Primitives, key: Bytes, cs: int, countBuf: Bytes, rest: Bytes)
    requires cs > 0 && |countBuf| == ChunkCountSize && |rest| >= IVSize
    ensures FirstChunk(c, key, cs, countBuf + rest)
         == c.open(key, rest[..IVSize], rest[IVSize..IVSize + Min(cs + TagSize, |rest| - IVSize)])
  {
    var body := countBuf + rest;
    var end := IVSize + Min(cs + TagSize, |rest| - IVSize);
    assert body[4..16] == rest[..IVSize] && body[16..4 + end] == rest[IVSize..end];
  }

  method DecryptSmallStreamFromIV(c: Primitives, key: Bytes, ivData: Bytes, src: Reader, dst: VerifyingWriter)
    returns (ok: bool)
    requires |ivData| == IVSize && dst.Valid() && !dst.failed && !src.failed
    modifies src, dst
    ensures dst.Valid()
    ensures var all := ivData + old(src.rest);
      Decodes(src, dst,
        if |all| > MaxBlobSize then None else InflatedTo(c, DecryptSmall(c, key, all), |old(src.rest)|), ok)
  {
    ghost var rest0 := src.rest;
    var rest := src.ReadFull(MaxBlobSize + 1 - |ivData|);
    if src.failed { return false; }
    var all := ivData + rest;
    if |all| > MaxBlobSize { return false; }
    assert rest == rest0 && src.rest == [];
    ok := DecryptSmallData(c, key, all, dst);
  }

  method WriteSmallPlaintext(c: Primitives, dst: VerifyingWriter, plaintext: Bytes) returns (ok: bool)
    requires dst.Valid() && !dst.failed
    modifies dst
    ensures dst.Valid()
    ensures ok ==> Inflate(c, plaintext).Some? && dst.written == old(dst.written) + Inflate(c, plaintext).value
    ensures !dst.failed ==> (ok <==> Inflate(c, plaintext).Some?)
  {
    var out := plaintext;
    if IsZstd(plaintext) {
      var inflated := c.decompress(plaintext, MaxDecompressedSize);
      if inflated.None? { return false; }
      out := inflated.value;
    }
    ok := dst.Write(out);
  }

  method DecryptGB2StreamToFile(c: Primitives, key: Bytes, src: Reader, dst: VerifyingWriter) returns (ok: bool)
    requires dst.Valid() && !dst.failed && !src.failed
    modifies src, dst
    ensures dst.Valid()
    ensures Decodes(src, dst, StreamGB2(c, key, old(src.rest)), ok)
  {
    hide Uint32;
    ghost var body := src.rest;
    var countBuf := src.ReadFull(ChunkCountSize);
    if src.failed || |countBuf| < ChunkCountSize { return false; }
    assert countBuf == body[..ChunkCountSize] && src.rest == body[ChunkCountSize..];
    var chunkCount := Uint32(countBuf);
    if chunkCount == 0 || chunkCount >= MaxChunkCount || !ValidKey(key) { return false; }
    ok := DecryptFrameStream(c, key, RulesGB2, chunkCount, src, dst);
  }

  method DecryptGB3StreamToFile(c: Primitives, key: Bytes, src: Reader, dst: VerifyingWriter, magic: Bytes)
    returns (ok: bool)
    requires dst.Valid() && !dst.failed && !src.failed && magic == MagicGB3
    modifies src, dst
    ensures dst.Valid()
    ensures Decodes(src, dst, Unshift(StreamGB3(c, key, magic + old(src.rest))), ok)
  {
    hide ParseGB3Header;
    ghost var rest0 := src.rest;
    var rest := src.ReadFull(GB3HeaderSize - MagicSize);
    if src.failed { return false; }
    if |rest| < GB3HeaderSize - MagicSize {
      ParseNeedsHeader(magic + rest0);
      return false;
    }
    var full := magic + rest;
    assert full == (magic + rest0)[..GB3HeaderSize];
    ParseGB3HeaderLocal(magic + rest0, GB3HeaderSize);
    var hdr := ParseGB3Header(full);
    if hdr.None? || !ValidKey(key) { return false; }
    assert src.rest == (magic + rest0)[GB3HeaderSize..];
    ok := DecryptFrameStream(c, key, RulesGB3(hdr.value.chunkSize), hdr.value.ChunkCount(), src, dst);
  }

  lemma ParseNeedsHeader(data: Bytes)
    requires |data| < GB3HeaderSize
    ensures ParseGB3Header(data) == None
  {
  }

  /** A result counted from after the magic, which the caller has consumed. */
  ghost function Unshift(r: Decoded): Decoded {
    if r.None? || r.value.1 < MagicSize then None else Some((r.value.0, r.value.1 - MagicSize))
  }

  /** The chunk loop that the GB2 and GB3 readers share, up to the frame rules. */
  method DecryptFrameStream(c: Primitives, key: Bytes, rules: FrameRules, chunkCount: nat, src: Reader,
                            dst: VerifyingWriter)
    returns (ok: bool)
    requires dst.Valid() && !dst.failed && !src.failed
    modifies src, dst
    ensures dst.Valid()
    ensures Decodes(src, dst, StreamFrames(c, key, rules, old(src.rest), chunkCount), ok)
  {
    hide ReadFrame;
    ghost var start, base := src.rest, dst.written;
    ghost var done: Bytes, used: nat := [], 0;
    ResumeAssoc([], 0, [], 0, StreamFrames(c, key, rules, start, chunkCount));
    for i := 0 to chunkCount
      invariant dst.Valid() && !dst.failed && !src.failed && dst.written == base + done
      invariant used <= |start| && src.rest == start[used..]
      invariant StreamFrames(c, key, rules, start, chunkCount)
             == Resume(done, used, StreamFrames(c, key, rules, src.rest, chunkCount - i))
    {
      ghost var rest := src.rest;
      var frame := ReadFrameFrom(c, key, rules, src);
      if frame.None? { return false; }
      ghost var size := ReadFrame(c, key, rules, rest).value.1;
      ResumeAssoc(done, used, frame.value, size, StreamFrames(c, key, rules, src.rest, chunkCount - i - 1));
      ok := dst.Write(frame.value);
      if !ok { return false; }
      ConcatAssoc(base, done, frame.value);
      done, used := done + frame.value, used + size;
    }
    assert done + [] == done;
    ok := true;
  }

  /** One frame, read field by field. */
  method ReadFrameFrom(c: Primitives, key: Bytes, rules: FrameRules, src: Reader) returns (r: Option<Bytes>)
    requires !src.failed
    modifies src
    ensures src.failed ==> r.None?
    ensures var f := ReadFrame(c, key, rules, old(src.rest));
      !src.failed ==> r.Some? == f.Some? && (f.Some? ==> r.value == f.value.0 && src.rest == old(src.rest)[f.value.1..])
  {
    hide Uint32;
    ghost var rest := src.rest;
    var headerBuf := src.ReadFull(ChunkCountSize + FlagsSize);
    if src.failed || |headerBuf| < ChunkCountSize + FlagsSize { return None; }
    var storedSize := Uint32(headerBuf[..ChunkCountSize]);
    assert headerBuf[..ChunkCountSize] == rest[..ChunkCountSize];
    var compressed := FlaggedCompressed(rules, headerBuf[ChunkCountSize]);
    if storedSize > rules.maxStored { return None; }
    var iv := src.ReadFull(IVSize);
    if src.failed || |iv| < IVSize { return None; }
    var encrypted := src.ReadFull(storedSize);
    if src.failed || |encrypted| < storedSize { return None; }
    assert iv == rest[5..17] && encrypted == rest[17..17 + storedSize] && src.rest == rest[17 + storedSize..];
    r := c.open(key, iv, encrypted);
    if r.Some? && compressed {
      r := c.decompress(r.value, MaxDecompressedSize);
    }
  }

  // ----- The writer --------------------------------------------------------

  /**
   encryptFileToWriter. The layout comes from the stat size; the loop reads up
   to that many chunks and stops early at the end of the source. `plainHash`
   collects the plaintext exactly as read. The chunk size goes into a GB3 header
   cut to 32 bits.
   */
  method EncryptFileToWriter(c: Primitives, key: Bytes, cs: int, statSize: nat, src: Reader, dst: VerifyingWriter,
                             tryCompress: bool, ivs: nat -> IV)
    returns (ok: bool, plainHash: Bytes)
    requires 0 < cs && statSize < Two64 && dst.Valid() && !dst.failed && !src.failed
    modifies src, dst
    ensures dst.Valid()
    ensures var blob := WriterSpec(c, key, cs, statSize, old(src.rest), tryCompress, ivs);
      && (ok <==> blob.Some? && !src.failed && !dst.failed)
      && (ok ==> dst.written == old(dst.written) + blob.value)
    ensures ok ==> plainHash == Taken(old(src.rest), cs, Ceiling(statSize, cs))
  {
    hide PutUint32, EncodeGB3Header;
    plainHash := [];
    if !ValidKey(key) { return false, []; }
    CeilingIsDivision(statSize, cs);
    var chunkCount := (statSize + cs - 1) / cs;
    var useGB3 := chunkCount >= MaxChunkCount;
    var header;
    if useGB3 {
      var flag := if tryCompress then 1 else 0;
      header := EncodeGB3Header(flag, flag, cs % Two32, statSize);
    } else {
      header := (if tryCompress then MagicGB2 else MagicGB1) + PutUint32(chunkCount);
    }
    ok := dst.Write(header);
    if !ok { return; }
    ghost var base := dst.written;
    ok, plainHash := WriteChunks(c, key, cs, chunkCount, src, dst, tryCompress, tryCompress || useGB3, ivs);
    if ok {
      ghost var layout := ChunkLayout(c, key, cs, plainHash, tryCompress, tryCompress || useGB3, ivs, 0);
      ConcatAssoc(old(dst.written), header, layout);
    }
  }

  /** The chunk loop of the writer: framed for GB2 and GB3, bare for GB1. */
  method WriteChunks(c: Primitives, key: Bytes, cs: int, chunkCount: nat, src: Reader, dst: VerifyingWriter,
                     tryCompress: bool, framed: bool, ivs: nat -> IV)
    returns (ok: bool, plainHash: Bytes)
    requires cs > 0 && (tryCompress ==> framed) && dst.Valid() && !dst.failed && !src.failed
    modifies src, dst
    ensures dst.Valid() && (ok <==> !src.failed && !dst.failed)
    ensures ok ==> plainHash == Taken(old(src.rest), cs, chunkCount)
    ensures ok ==> dst.written == old(dst.written) + ChunkLayout(c, key, cs, plainHash, tryCompress, framed, ivs, 0)
  {
    hide Progress, ChunkLayout, PieceLayout;
    plainHash := [];
    ghost var start, base, out := src.rest, dst.written, NoBytes;
    ghost var ctx := WriterContext(c, key, cs, tryCompress, framed, ivs);
    ProgressStart(ctx, start, chunkCount);
    assert base + NoBytes == base;
    var i := 0;
    while i < chunkCount
      invariant 0 <= i <= chunkCount && dst.Valid() && !dst.failed && !src.failed && dst.written == base + out
      invariant Progress(ctx, start, chunkCount, plainHash, out, src.rest, i)
    {
      ghost var rest := src.rest;
      var chunk := src.ReadFull(cs);
      if src.failed { return false, plainHash; }
      if |chunk| == 0 { break; }
      ProgressStep(ctx, start, chunkCount, plainHash, out, rest, i);
      plainHash := plainHash + chunk;
      var piece := SealPiece(c, key, chunk, tryCompress, framed, ivs(i));
      ok := dst.Write(piece);
      if !ok { return; }
      ConcatAssoc(base, out, piece);
      out := out + piece;
      i := i + 1;
    }
    ProgressEnd(ctx, start, chunkCount, plainHash, out, src.rest, i);
    ok := true;
  }

  ghost const NoBytes: Bytes := []

  datatype WriterContext = WriterContext(c: Primitives, key: Bytes, cs: int, tryCompress: bool, framed: bool,
                                         ivs: nat -> IV)

  /** The writer has hashed `plain` and written `out`; what it will still take is laid out next. */
  ghost predicate Progress(x: WriterContext, start: Bytes, count: nat, plain: Bytes, out: Bytes, rest: Bytes, i: nat) {
    && x.cs > 0 && i <= count
    && var taken, todo := Taken(start, x.cs, count), Taken(rest, x.cs, count - i);
    && taken == plain + todo
    && ChunkLayout(x.c, x.key, x.cs, taken, x.tryCompress, x.framed, x.ivs, 0)
       == out + ChunkLayout(x.c, x.key, x.cs, todo, x.tryCompress, x.framed, x.ivs, i)
  }

  lemma ProgressStart(x: WriterContext, start: Bytes, count: nat)
    requires x.cs > 0
    ensures Progress(x, start, count, [], [], start, 0)
  {
    hide Taken, ChunkLayout;
    var taken := Taken(start, x.cs, count);
    var layout := ChunkLayout(x.c, x.key, x.cs, taken, x.tryCompress, x.framed, x.ivs, 0);
    assert NoBytes + taken == taken && NoBytes + layout == layout;
  }

  lemma ProgressStep(x: WriterContext, start: Bytes, count: nat, plain: Bytes, out: Bytes, rest: Bytes, i: nat)
    requires Progress(x, start, count, plain, out, rest, i) && i < count && rest != []
    ensures var chunk := rest[..Min(x.cs, |rest|)];
      var piece := PieceLayout(x.c, x.key, chunk, x.tryCompress, x.framed, x.ivs(i));
      Progress(x, start, count, plain + chunk, out + piece, rest[|chunk|..], i + 1)
  {
    hide Taken, ChunkLayout, PieceLayout;
    var chunk := rest[..Min(x.cs, |rest|)];
    var piece := PieceLayout(x.c, x.key, chunk, x.tryCompress, x.framed, x.ivs(i));
    var todo := Taken(rest, x.cs, count - i);
    TakenUnfold(rest, x.cs, count - i);
    ChunkLayoutUnfold(x.c, x.key, x.cs, todo, x.tryCompress, x.framed, x.ivs, i, chunk);
    var todo' := todo[|chunk|..];
    ConcatAssoc(plain, chunk, todo');
    ConcatAssoc(out, piece, ChunkLayout(x.c, x.key, x.cs, todo', x.tryCompress, x.framed, x.ivs, i + 1));
  }

  lemma ProgressEnd(x: WriterContext, start: Bytes, count: nat, plain: Bytes, out: Bytes, rest: Bytes, i: nat)
    requires Progress(x, start, count, plain, out, rest, i) && (i == count || rest == [])
    ensures plain == Taken(start, x.cs, count)
    ensures out == ChunkLayout(x.c, x.key, x.cs, plain, x.tryCompress, x.framed, x.ivs, 0)
  {
    assert Taken(rest, x.cs, count - i) == [];
    assert plain + [] == plain && out + [] == out;
  }

  method SealPiece(c: Primitives, key: Bytes, chunk: Bytes, tryCompress: bool, framed: bool, iv: IV)
    returns (piece: Bytes)
    requires tryCompress ==> framed
    ensures piece == PieceLayout(c, key, chunk, tryCompress, framed, iv)
  {
    hide PutUint32;
    var toStore, compressed := chunk, false;
    if tryCompress && |chunk| >= 65536 {
      var z := c.compress(chunk);
      if |z| < |chunk| {
        toStore, compressed := z, true;
      }
    }
    var encrypted := c.seal(key, iv, toStore);
    piece := iv + encrypted;
    if framed {
      piece := PutUint32(|encrypted| % Two32) + [if compressed then 1 else 0] + iv + encrypted;
    }
  }

  function PieceLayout(c: Primitives, key: Bytes, chunk: Bytes, tryCompress: bool, framed: bool, iv: IV): Bytes {
    if framed then Frame(c, key, chunk, tryCompress, iv) else iv + c.seal(key, iv, chunk)
  }

  function ChunkLayout(c: Primitives, key: Bytes, cs: int, rest: Bytes, tryCompress: bool, framed: bool, ivs: nat -> IV,
                       i: nat): Bytes
    requires cs > 0
  {
    if framed then Frames(c, key, cs, rest, tryCompress, ivs, i) else ChunksGB1(c, key, cs, rest, ivs, i)
  }

  lemma ChunkLayoutUnfold(c: Primitives, key: Bytes, cs: int, rest: Bytes, tryCompress: bool, framed: bool,
                          ivs: nat -> IV, i: nat, chunk: Bytes)
    requires cs > 0 && rest != [] && chunk == rest[..Min(cs, |rest|)]
    ensures ChunkLayout(c, key, cs, rest, tryCompress, framed, ivs, i)
      == PieceLayout(c, key, chunk, tryCompress, framed, ivs(i))
         + ChunkLayout(c, key, cs, rest[|chunk|..], tryCompress, framed, ivs, i + 1)
  {
    hide Frame;
    FramesUnfold(c, key, cs, rest, tryCompress, ivs, i, chunk);
    ChunksGB1Unfold(c, key, cs, rest, ivs, i, chunk);
  }

  /** The next chunk read is the next chunk of what will be taken. */
  lemma TakenUnfold(content: Bytes, cs: int, count: nat)
    requires cs > 0 && count > 0
    ensures var chunk, taken := content[..Min(cs, |content|)], Taken(content, cs, count);
      && (chunk == [] ==> taken == [])
      && (chunk != [] ==>
            && taken != []
            && chunk == taken[..Min(cs, |taken|)]
            && taken[|chunk|..] == Taken(content[|chunk|..], cs, count - 1)
            && taken == chunk + taken[|chunk|..])
  {
    var k := Min(cs, |content|);
    if content != [] {
      var tail := Taken(content[k..], cs, count - 1);
      assert (content[..k] + tail)[k..] == tail;
      if |content| < cs {
        assert content[k..] == [] && tail == [];
      }
    }
  }
}
