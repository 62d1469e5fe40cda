/**
 Streamed chunk decoding with scratch buffers carried from chunk to chunk:
 readAllBounded and decryptChunkBlobStream of simple/restore.go.
 */
module ChunkBuffers {
  import opened ByteSeqs
  import opened Primitives
  import opened BlobFormat
  import opened BlobCodec
  import opened Hashing
  import opened Crypto

  const CdcMaxSize: nat := 16 * 1024 * 1024

  const MaxChunkBlobSize: nat := CdcMaxSize + MagicSize + IVSize + TagSize + 1024 * 1024

  const ScratchSize: nat := 128 * 1024

  /**
   An io.Reader over a blob. The length of each read is arbitrary, a read may
   return nothing, the end may come with the last bytes or after them, and the
   stream may break off with an error instead of ending.
   */
  class PieceReader {
    var rest: Bytes
    var sizes: seq<nat>
    const endsWithData: bool
    const breaks: bool

    constructor (data: Bytes, sizes: seq<nat>, endsWithData: bool, breaks: bool)
      ensures rest == data && this.sizes == sizes && this.breaks == breaks
    {
      rest, this.sizes, this.endsWithData, this.breaks := data, sizes, endsWithData, breaks;
    }

    method Read(scratch: array<byte>) returns (n: nat, done: bool)
      requires scratch.Length > 0
      modifies this, scratch
      ensures n <= |old(rest)| && n <= scratch.Length
      ensures scratch[..n] == old(rest)[..n] && rest == old(rest)[n..]
      ensures done ==> rest == []
      ensures !done ==> |rest| + |sizes| < |old(rest)| + |old(sizes)|
    {
      n := Min(|rest|, scratch.Length);
      if sizes != [] {
        n := Min(n, sizes[0]);
        sizes := sizes[1..];
      }
      forall i | 0 <= i < n { scratch[i] := rest[i]; }
      done := n == |rest| && (n == 0 || endsWithData);
      rest := rest[n..];
    }
  }

  /** A larger array with the same first `len` bytes. */
  method Grow(buf: array<byte>, len: nat, need: nat) returns (grown: array<byte>)
    requires len <= buf.Length < need
    ensures fresh(grown) && grown.Length >= need && grown[..len] == buf[..len]
  {
    var newCap := buf.Length * 2;
    if newCap < need { newCap := need; }
    grown := new byte[newCap](_ => 0);
    forall i | 0 <= i < len { grown[i] := buf[i]; }
    assert forall i :: 0 <= i < len ==> grown[..len][i] == buf[..len][i];
  }

  /** append(buf[:len], scratch[:n]...) within the capacity. */
  method Append(buf: array<byte>, len: nat, scratch: array<byte>, n: nat)
    requires buf != scratch && len + n <= buf.Length && n <= scratch.Length
    modifies buf
    ensures buf[..len + n] == old(buf[..len]) + scratch[..n]
  {
    forall i | 0 <= i < n { buf[len + i] := scratch[i]; }
    assert buf[..len] == old(buf[..len]);
    assert buf[len..len + n] == scratch[..n];
    assert buf[..len + n] == buf[..len] + buf[len..len + n];
  }

  /**
   readAllBounded: the whole blob, whatever the read sizes and however small the
   buffer handed in, or a failure when the blob exceeds the limit or breaks off.
   */
  method ReadAllBounded(buf: array<byte>, src: PieceReader, limit: nat) returns (data: array<byte>, len: nat, ok: bool)
    modifies buf, src
    ensures len <= data.Length && (data == buf || fresh(data))
    ensures ok <==> |old(src.rest)| <= limit && !src.breaks
    ensures ok ==> data[..len] == old(src.rest)
  {
    ghost var blob := src.rest;
    data, len, ok := buf, 0, false;
    var scratch := new byte[ScratchSize](_ => 0);
    var done := false;
    while !done
      invariant data == buf || fresh(data)
      invariant data != scratch && fresh(scratch) && scratch.Length == ScratchSize
      invariant len <= data.Length && len <= limit && len <= |blob|
      invariant data[..len] == blob[..len] && src.rest == blob[len..]
      invariant done ==> src.rest == []
      decreases !done, |src.rest| + |src.sizes|
    {
      var n;
      n, done := src.Read(scratch);
      if n > 0 {
        if len + n > limit { return; }
        if len + n > data.Length {
          data := Grow(data, len, len + n);
        }
        Append(data, len, scratch, n);
        assert blob[..len] + blob[len..][..n] == blob[..len + n];
        DropDrop(blob, len, n);
        len := len + n;
      }
    }
    ok := !src.breaks;
  }

  /** AEAD decryption into the capacity of `dst`, or into a new array when it does not fit. */
  method OpenInto(c: Primitives, key: Bytes, dst: array<byte>, iv: Bytes, sealed: Bytes)
    returns (out: array<byte>, len: nat, ok: bool)
    modifies dst
    ensures len <= out.Length && (out == dst || fresh(out))
    ensures ok <==> c.open(key, iv, sealed).Some?
    ensures ok ==> out[..len] == c.open(key, iv, sealed).value
  {
    var plaintext := c.open(key, iv, sealed);
    out, len := dst, 0;
    ok := plaintext.Some?;
    if ok {
      len := |plaintext.value|;
      if len > dst.Length {
        out, len := NewSlice(plaintext.value);
      } else {
        forall i | 0 <= i < len { dst[i] := plaintext.value[i]; }
      }
    } else {
      // The AEAD clears its output area when authentication fails.
      forall i | 0 <= i < dst.Length { dst[i] := 0; }
    }
  }

  /** The staging file of one restored file. A write may fail after any part of it. */
  class StagingFile {
    var data: Bytes
    var failed: bool

    constructor ()
      ensures data == [] && !failed
    {
      data, failed := [], false;
    }

    method Write(p: Bytes) returns (ok: bool)
      modifies this
      ensures ok ==> data == old(data) + p && failed == old(failed)
      ensures !ok ==> failed
    {
      ok := *;
      if ok {
        data := data + p;
      } else {
        var n: nat :| n <= |p|;
        data, failed := data + p[..n], true;
      }
    }
  }

  /** What DownloadBlob makes of a blob stored under `hash`. */
  function DecodeAs(c: Primitives, key: Bytes, hash: Hash, blob: Bytes): Option<Bytes> {
    DownloadBlob(c, key, map[hash := blob], hash)
  }

  lemma DecodeAsDownload(c: Primitives, key: Bytes, store: map<Hash, Bytes>, hash: Hash)
    requires hash in store
    ensures DownloadBlob(c, key, store, hash) == DecodeAs(c, key, hash, store[hash])
  {
  }

  predicate DecodesWithin(c: Primitives, key: Bytes, hash: Hash, blob: Bytes) {
    |blob| <= MaxChunkBlobSize && DecodeAs(c, key, hash, blob).Some?
  }

  /** The layout decryptChunkBlobStream opens directly. */
  predicate DirectlyOpened(data: Bytes) {
    |data| > MagicSize + IVSize + TagSize && data[..MagicSize] == MagicGB1 &&
      !IsChunkCount(data[MagicSize..MagicSize + ChunkCountSize])
  }

  lemma SliceOfSlice(data: Bytes, a: nat, b: nat)
    requires a + b <= |data|
    ensures data[a..][..b] == data[a..a + b]
  {
  }

  /** Opening directly, when it authenticates, is what Decrypt does. */
  lemma DirectOpenAgrees(c: Primitives, key: Bytes, data: Bytes)
    requires DirectlyOpened(data)
    ensures var p := c.open(key, data[MagicSize..MagicSize + IVSize], data[MagicSize + IVSize..]);
      if !ValidKey(key) then DecryptSpec(c, key, DefaultChunkSize, data) == None
      else p.Some? ==> DecryptSpec(c, key, DefaultChunkSize, data) == p
  {
    hide ParseGB3Header, DecryptChunksGB1, Uint32;
    MagicsDistinct();
    var body := data[MagicSize..];
    SliceOfSlice(data, MagicSize, ChunkCountSize);
    SliceOfSlice(data, MagicSize, IVSize);
    DropDrop(data, MagicSize, IVSize);
    IsChunkCountLocal(body);
  }

  lemma IsChunkCountLocal(buf: Bytes)
    requires |buf| >= ChunkCountSize
    ensures IsChunkCount(buf) == IsChunkCount(buf[..ChunkCountSize])
  {
    assert buf[..ChunkCountSize][..ChunkCountSize] == buf[..ChunkCountSize];
  }

  /**
   decryptChunkBlobStream: with any scratch buffers that are not the same array,
   exactly what a fresh DownloadBlob of the same blob gives is appended to the
   destination; it fails only if that download fails, the blob exceeds the limit,
   or the stream or the write breaks. The buffers handed on are again different arrays.
   */
  method DecryptChunkBlobStream(c: Primitives, key: Bytes, src: PieceReader, dst: StagingFile, hash: Hash,
                                ctBuf: array<byte>, ptBuf: array<byte>)
    returns (ct: array<byte>, pt: array<byte>, ok: bool)
    requires ctBuf != ptBuf
    modifies src, dst, ctBuf, ptBuf
    ensures ct != pt && (ct == ctBuf || fresh(ct)) && (pt == ptBuf || fresh(pt))
    ensures ok ==> DecodesWithin(c, key, hash, old(src.rest)) && !src.breaks && dst.failed == old(dst.failed)
    ensures ok ==> dst.data == old(dst.data) + DecodeAs(c, key, hash, old(src.rest)).value
    ensures !ok ==> !DecodesWithin(c, key, hash, old(src.rest)) || src.breaks || dst.failed
  {
    hide DecryptSpec, SHA256Bytes, HasPrefix;
    var len, read, authentic;
    ct, len, read := ReadAllBounded(ctBuf, src, MaxChunkBlobSize);
    pt, ok := ptBuf, false;
    if !read { return; }
    var data := ct[..len];
    pt, len, authentic := DecryptChunk(c, key, data, ptBuf);
    if !authentic { return; }
    if IsZstd(pt[..len]) {
      var decompressed := c.decompress(pt[..len], MaxDecompressedSize);
      if decompressed.None? { return; }
      pt, len := NewSlice(decompressed.value);
    }
    if SHA256Bytes(c, pt[..len]) != hash { return; }
    ok := dst.Write(pt[..len]);
  }

  method NewSlice(s: Bytes) returns (out: array<byte>, len: nat)
    ensures fresh(out) && len == |s| == out.Length && out[..len] == s
  {
    len := |s|;
    out := new byte[len](i requires 0 <= i < |s| => s[i]);
  }

  /** The direct path, and Decrypt for every other layout and after a failed authentication. */
  method DecryptChunk(c: Primitives, key: Bytes, data: Bytes, ptBuf: array<byte>)
    returns (pt: array<byte>, len: nat, ok: bool)
    modifies ptBuf
    ensures len <= pt.Length && (pt == ptBuf || fresh(pt))
    ensures ok <==> DecryptSpec(c, key, DefaultChunkSize, data).Some?
    ensures ok ==> pt[..len] == DecryptSpec(c, key, DefaultChunkSize, data).value
  {
    hide DecryptSpec, IsChunkCount;
    pt, len, ok := ptBuf, 0, false;
    if |data| > MagicSize + IVSize + TagSize && data[..MagicSize] == MagicGB1
       && !IsChunkCount(data[MagicSize..MagicSize + ChunkCountSize])
    {
      DirectOpenAgrees(c, key, data);
      if !ValidKey(key) { return; }
      pt, len, ok := OpenInto(c, key, ptBuf, data[MagicSize..MagicSize + IVSize], data[MagicSize + IVSize..]);
      if ok { return; }
    }
    var decryptor := Decryptor(key, DefaultChunkSize);
    var plaintext := decryptor.Decrypt(c, data);
    ok := plaintext.Some?;
    if ok {
      pt, len := NewSlice(plaintext.value);
    }
  }
}
