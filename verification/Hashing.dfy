/**
 Content addressing: the hexadecimal SHA-256 names of blobs, what a blob stored
 under a name decodes to, and UploadBlob and DownloadBlob of simple/hash.go.
 */
module Hashing {
  import opened ByteSeqs
  import opened Primitives
  import opened BlobFormat
  import opened BlobCodec
  import opened StreamCodec

  type Hash = string

  predicate IsLowerHex(ch: char) {
    '0' <= ch <= '9' || 'a' <= ch <= 'f'
  }

  /** 64 lower-case hexadecimal digits; upper case is rejected. */
  predicate ValidateHash(hash: Hash) {
    |hash| == 64 && forall i :: 0 <= i < |hash| ==> IsLowerHex(hash[i])
  }

  function HexDigit(v: int): (ch: char)
    requires 0 <= v < 16
    ensures IsLowerHex(ch)
  {
    if v < 10 then '0' + v as char else 'a' + (v - 10) as char
  }

  function Hex(b: Bytes): (s: string)
    ensures |s| == 2 * |b| && forall i :: 0 <= i < |s| ==> IsLowerHex(s[i])
  {
    if b == [] then "" else [HexDigit(b[0] / 16), HexDigit(b[0] % 16)] + Hex(b[1..])
  }

  lemma {:induction false} HexInjective(a: Bytes, b: Bytes)
    requires Hex(a) == Hex(b)
    ensures a == b
    decreases |a|
  {
    if a != [] {
      assert |b| == |a|;
      assert Hex(a)[0] == HexDigit(a[0] / 16) && Hex(a)[1] == HexDigit(a[0] % 16);
      assert Hex(b)[0] == HexDigit(b[0] / 16) && Hex(b)[1] == HexDigit(b[0] % 16);
      assert a[0] == b[0];
      assert Hex(a[1..]) == Hex(a)[2..] && Hex(b[1..]) == Hex(b)[2..];
      HexInjective(a[1..], b[1..]);
    }
  }

  function SHA256Bytes(c: Primitives, data: Bytes): (h: Hash)
    ensures ValidateHash(h)
  {
    Hex(c.digest(data))
  }

  /** No two different byte strings of `universe` share a digest. */
  ghost predicate CollisionFree(c: Primitives, universe: iset<Bytes>) {
    forall x, y :: x in universe && y in universe && c.digest(x) == c.digest(y) ==> x == y
  }

  lemma SameHashSameBytes(c: Primitives, universe: iset<Bytes>, x: Bytes, y: Bytes)
    requires CollisionFree(c, universe) && x in universe && y in universe
    requires SHA256Bytes(c, x) == SHA256Bytes(c, y)
    ensures x == y
  {
    HexInjective(c.digest(x), c.digest(y));
  }

  // ----- Blob contents -----------------------------------------------------

  /** What a blob holds: decrypted, then decompressed if it looks like a zstd frame. */
  function DecodeBlob(c: Primitives, key: Bytes, blob: Bytes): Option<Bytes> {
    var plaintext := DecryptSpec(c, key, DefaultChunkSize, blob);
    if plaintext.None? then None else Inflate(c, plaintext.value)
  }

  /** The blob the pipeline writes for one chunk; without a key the bytes stay bare. */
  function ChunkBlob(c: Primitives, key: Bytes, iv: SmallIV, chunk: Bytes, tryCompress: bool): Bytes {
    var toStore := StoredForm(c, chunk, tryCompress);
    if key == [] then toStore else SmallBlob(c, key, iv, toStore)
  }

  /** Content that survives being stored: it goes in compressed, or does not look compressed. */
  predicate Storable(c: Primitives, chunk: Bytes, tryCompress: bool) {
    StoredCompressed(c, chunk, tryCompress) || !IsZstd(chunk) || c.decompress(chunk, MaxDecompressedSize) == Some(chunk)
  }

  /** With a key, a stored chunk decodes to itself exactly when it is storable. */
  lemma ChunkBlobDecodesIff(c: Primitives, key: Bytes, iv: SmallIV, chunk: Bytes, tryCompress: bool)
    requires ValidKey(key) && |chunk| <= 128 * 1024 * 1024
    ensures DecodeBlob(c, key, ChunkBlob(c, key, iv, chunk, tryCompress)) == Some(chunk)
       <==> Storable(c, chunk, tryCompress)
  {
    hide DecryptSpec, SmallBlob;
    SmallRoundTrip(c, key, DefaultChunkSize, iv, StoredForm(c, chunk, tryCompress));
  }

  /** Raw content that starts with the zstd magic but is no zstd frame is lost. */
  lemma RawZstdPrefixLost(c: Primitives, key: Bytes, iv: SmallIV, chunk: Bytes)
    requires ValidKey(key) && IsZstd(chunk) && |chunk| <= 128 * 1024 * 1024
    requires c.decompress(chunk, MaxDecompressedSize) == None
    ensures DecodeBlob(c, key, ChunkBlob(c, key, iv, chunk, false)) == None
  {
    hide DecryptSpec, SmallBlob;
    SmallRoundTrip(c, key, DefaultChunkSize, iv, chunk);
  }

  /** Without a usable key no blob decodes, bare ones included. */
  lemma NoKeyNoDecode(c: Primitives, key: Bytes, blob: Bytes)
    requires !ValidKey(key)
    ensures DecodeBlob(c, key, blob) == None
  {
    hide Uint32, ParseGB3Header;
  }

  /** Get, Decrypt, decompress, compare the hash. */
  function DownloadBlob(c: Primitives, key: Bytes, store: map<Hash, Bytes>, hash: Hash): (r: Option<Bytes>)
    ensures r.Some? ==> SHA256Bytes(c, r.value) == hash
  {
    if hash !in store then None
    else
      var plaintext := DecodeBlob(c, key, store[hash]);
      if plaintext.Some? && SHA256Bytes(c, plaintext.value) == hash then plaintext else None
  }

  /** A store whose every blob downloads, to content drawn from `universe`. */
  ghost predicate Sound(c: Primitives, key: Bytes, universe: iset<Bytes>, store: map<Hash, Bytes>) {
    forall h :: h in store ==> DownloadBlob(c, key, store, h).Some? && DownloadBlob(c, key, store, h).value in universe
  }

  /** In a sound store, content is found under its name or its name is not there. */
  lemma DownloadFinds(c: Primitives, key: Bytes, universe: iset<Bytes>, store: map<Hash, Bytes>, x: Bytes)
    requires CollisionFree(c, universe) && Sound(c, key, universe, store)
    requires x in universe && SHA256Bytes(c, x) in store
    ensures DownloadBlob(c, key, store, SHA256Bytes(c, x)) == Some(x)
  {
    var h := SHA256Bytes(c, x);
    var r := DownloadBlob(c, key, store, h);
    SameHashSameBytes(c, universe, r.value, x);
  }

  /** Adding a blob that decodes to the bytes it is named after keeps a store sound. */
  lemma PutKeepsSound(c: Primitives, key: Bytes, universe: iset<Bytes>, store: map<Hash, Bytes>, x: Bytes, blob: Bytes)
    requires Sound(c, key, universe, store) && x in universe && DecodeBlob(c, key, blob) == Some(x)
    ensures Sound(c, key, universe, store[SHA256Bytes(c, x) := blob])
  {
    hide DecodeBlob, SHA256Bytes;
    var h := SHA256Bytes(c, x);
    var store' := store[h := blob];
    assert DownloadBlob(c, key, store', h) == Some(x);
    forall g | g in store' && g != h
      ensures DownloadBlob(c, key, store', g) == DownloadBlob(c, key, store, g)
    {
    }
  }

  /**
   UploadBlob: an existing name is left alone, otherwise the encrypted plaintext
   is stored under its hash. `None` when encryption fails.
   */
  function UploadBlob(c: Primitives, key: Bytes, store: map<Hash, Bytes>, plaintext: Bytes, iv: SmallIV,
                      ivs: nat -> IV): Option<map<Hash, Bytes>>
    requires |plaintext| < Two64
  {
    var h := SHA256Bytes(c, plaintext);
    if h in store then Some(store)
    else
      var blob := EncryptSpec(c, key, DefaultChunkSize, plaintext, iv, ivs);
      if blob.None? then None else Some(store[h := blob.value])
  }

  /**
   After an upload, from any sound store and for all content: every earlier blob is as
   it was, and downloading gives the bytes back exactly if the name was there before or
   the content survives being stored uncompressed; the store is then sound again.
   */
  lemma UploadThenDownloadIff(c: Primitives, key: Bytes, universe: iset<Bytes>, store: map<Hash, Bytes>,
                              plaintext: Bytes, iv: SmallIV, ivs: nat -> IV)
    requires |plaintext| < Two64 && plaintext in universe
    requires CollisionFree(c, universe) && Sound(c, key, universe, store)
    ensures var h, store' := SHA256Bytes(c, plaintext), UploadBlob(c, key, store, plaintext, iv, ivs);
      store'.Some? ==>
        && (forall g :: g in store ==> g in store'.value && store'.value[g] == store[g])
        && (DownloadBlob(c, key, store'.value, h) == Some(plaintext) <==> h in store || Storable(c, plaintext, false))
        && (h in store || Storable(c, plaintext, false) ==> Sound(c, key, universe, store'.value))
  {
    hide EncryptSpec, DecryptSpec, SHA256Bytes, Sound;
    var h, store' := SHA256Bytes(c, plaintext), UploadBlob(c, key, store, plaintext, iv, ivs);
    if store'.Some? {
      if h in store {
        DownloadFinds(c, key, universe, store, plaintext);
      } else {
        var blob := EncryptSpec(c, key, DefaultChunkSize, plaintext, iv, ivs).value;
        EncryptRoundTripIff(c, key, DefaultChunkSize, plaintext, iv, ivs);
        if Storable(c, plaintext, false) {
          PutKeepsSound(c, key, universe, store, plaintext, blob);
        }
      }
    }
  }
}
