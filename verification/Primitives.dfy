/**
 The cryptographic and compression primitives the engine is built on. They are
 fields of a record, so nothing is known about them beyond the laws in
 `Lawful`; the witness of the subset type shows that the laws are consistent.
 */
module Primitives {
  import opened ByteSeqs

  const IVSize: nat := 12
  const TagSize: nat := 16
  const DigestSize: nat := 32

  /** compress/zstd.go:155, and section 3.1.1 of RFC 8878. */
  const ZstdMagic: Bytes := [0x28, 0xb5, 0x2f, 0xfd]

  /** compress/zstd.go:28: the output cap of every blob decompression. */
  const MaxDecompressedSize: nat := 128 * 1024 * 1024

  /** compress/zstd.go:38: the output cap of manifest decompression. */
  const MaxManifestDecompressedSize: nat := 256 * 1024 * 1024

  type IV = b: Bytes | |b| == IVSize witness seq(IVSize, _ => 0)

  datatype RawPrimitives = RawPrimitives(
    seal: (Bytes, Bytes, Bytes) -> Bytes,          // key, IV, plaintext
    open: (Bytes, Bytes, Bytes) -> Option<Bytes>,  // key, IV, ciphertext and tag
    digest: Bytes -> Bytes,                        // SHA-256
    deriveKey: Bytes -> Bytes,                     // HKDF with the metadata purpose
    compress: Bytes -> Bytes,                      // zstd
    decompress: (Bytes, nat) -> Option<Bytes>)     // zstd, with an output cap

  predicate IsZstd(data: Bytes) {
    HasPrefix(data, ZstdMagic)
  }

  /** The AEAD laws are those of sections 7.1 and 7.2 of NIST SP 800-38D. */
  ghost predicate Lawful(c: RawPrimitives) {
    && (forall key, iv, p :: c.open(key, iv, c.seal(key, iv, p)) == Some(p))
    && (forall key, iv, p :: |c.seal(key, iv, p)| == |p| + TagSize)
    && (forall key, iv, ct :: c.open(key, iv, ct).Some? ==> |ct| == |c.open(key, iv, ct).value| + TagSize)
    && (forall x :: |c.digest(x)| == DigestSize)
    && (forall key :: |c.deriveKey(key)| == 32)
    && (forall x :: IsZstd(c.compress(x)))
    && (forall x, cap :: |x| <= cap ==> c.decompress(c.compress(x), cap) == Some(x))
    && (forall x, cap :: |x| > cap ==> c.decompress(c.compress(x), cap) == None)
  }

  /** A degenerate instance: a constant tag, a constant digest, a stored-block compressor. */
  function Degenerate(): (c: RawPrimitives)
    ensures Lawful(c)
  {
    var c := RawPrimitives(
      (key, iv, p) => p + seq(TagSize, _ => 0),
      (key, iv, ct: Bytes) => if |ct| < TagSize then None else Some(ct[..|ct| - TagSize]),
      x => seq(DigestSize, _ => 0),
      key => seq(32, _ => 0),
      x => ZstdMagic + x,
      (y: Bytes, cap: nat) => if IsZstd(y) && |y| <= cap + 4 then Some(y[4..]) else None);
    assert forall p: Bytes :: (p + seq(TagSize, _ => 0))[..|p|] == p;
    assert forall x: Bytes :: (ZstdMagic + x)[4..] == x && (ZstdMagic + x)[..4] == ZstdMagic;
    c
  }

  type Primitives = c: RawPrimitives | Lawful(c) witness Degenerate()

  /** aes.NewCipher accepts exactly the three AES key lengths. */
  predicate ValidKey(key: Bytes) {
    |key| == 16 || |key| == 24 || |key| == 32
  }
}
