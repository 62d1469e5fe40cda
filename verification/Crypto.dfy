/**
 The Encryptor and Decryptor of simple/crypto.go as they run: loops that append
 to a result and advance through the input, proved against BlobCodec.
 */
module Crypto {
  import opened ByteSeqs
  import opened Primitives
  import opened BlobFormat
  import opened BlobCodec

  datatype Encryptor = Encryptor(key: Bytes, chunkSize: int) {

    predicate Valid() {
      0 < chunkSize
    }

    method Encrypt(c: Primitives, plaintext: Bytes, smallIV: SmallIV, ivs: nat -> IV) returns (r: Option<Bytes>)
      requires Valid() && |plaintext| < Two64
      ensures r == EncryptSpec(c, key, chunkSize, plaintext, smallIV, ivs)
    {
      if |plaintext| < chunkSize {
        if !ValidKey(key) { return None; }
        var ciphertext := c.seal(key, smallIV, plaintext);
        return Some(MagicGB1 + smallIV + ciphertext);
      }
      r := EncryptLarge(c, plaintext, smallIV, ivs);
    }

    method EncryptLarge(c: Primitives, plaintext: Bytes, ghost smallIV: SmallIV, ivs: nat -> IV)
      returns (r: Option<Bytes>)
      requires Valid() && chunkSize <= |plaintext| < Two64
      ensures r == EncryptSpec(c, key, chunkSize, plaintext, smallIV, ivs)
    {
      CeilingIsDivision(|plaintext|, chunkSize);
      var chunkCount := (|plaintext| + chunkSize - 1) / chunkSize;
      if chunkCount >= MaxChunkCount {
        r := EncryptLargeV3(c, plaintext, smallIV, ivs);
        return;
      }
      if !ValidKey(key) { return None; }
      var chunks := SealChunks(c, plaintext, chunkCount, ivs);
      return Some(MagicGB1 + PutUint32(chunkCount) + chunks);
    }

    method SealChunks(c: Primitives, plaintext: Bytes, chunkCount: int, ivs: nat -> IV) returns (result: Bytes)
      requires Valid() && chunkCount == Ceiling(|plaintext|, chunkSize)
      ensures result == ChunksGB1(c, key, chunkSize, plaintext, ivs, 0)
    {
      result := [];
      ghost var rest := plaintext;
      for i := 0 to chunkCount
        invariant Remaining(plaintext, chunkSize, i, rest) && Ceiling(|rest|, chunkSize) == chunkCount - i
        invariant result + ChunksGB1(c, key, chunkSize, rest, ivs, i) == ChunksGB1(c, key, chunkSize, plaintext, ivs, 0)
      {
        hide Remaining, Ceiling, ChunksGB1, Frames;
        RemainingStep(plaintext, chunkSize, i, rest);
        var start := i * chunkSize;
        var end := start + chunkSize;
        if end > |plaintext| {
          end := |plaintext|;
        }
        var chunk := plaintext[start..end];
        var iv := ivs(i);
        var encrypted := c.seal(key, iv, chunk);
        ChunksGB1Unfold(c, key, chunkSize, rest, ivs, i, chunk);
        rest := rest[|chunk|..];
        ConcatAssoc(result, iv + encrypted, ChunksGB1(c, key, chunkSize, rest, ivs, i + 1));
        result := result + (iv + encrypted);
      }
      assert result + [] == result;
    }

    method EncryptLargeV3(c: Primitives, plaintext: Bytes, ghost smallIV: SmallIV, ivs: nat -> IV)
      returns (r: Option<Bytes>)
      requires Valid() && chunkSize <= |plaintext| < Two64 && Ceiling(|plaintext|, chunkSize) >= MaxChunkCount
      ensures r == EncryptSpec(c, key, chunkSize, plaintext, smallIV, ivs)
    {
      CeilingIsDivision(|plaintext|, chunkSize);
      var chunkCount := (|plaintext| + chunkSize - 1) / chunkSize;
      if chunkCount > MaxUint32 || !ValidKey(key) { return None; }
      var frames := SealFrames(c, plaintext, chunkCount, ivs);
      return Some(EncodeGB3Header(0, 0, chunkSize % Two32, |plaintext|) + frames);
    }

    method SealFrames(c: Primitives, plaintext: Bytes, chunkCount: int, ivs: nat -> IV) returns (result: Bytes)
      requires Valid() && chunkCount == Ceiling(|plaintext|, chunkSize)
      ensures result == Frames(c, key, chunkSize, plaintext, false, ivs, 0)
    {
      hide PutUint32;
      result := [];
      ghost var rest := plaintext;
      for i := 0 to chunkCount
        invariant Remaining(plaintext, chunkSize, i, rest) && Ceiling(|rest|, chunkSize) == chunkCount - i
        invariant result + Frames(c, key, chunkSize, rest, false, ivs, i)
               == Frames(c, key, chunkSize, plaintext, false, ivs, 0)
      {
        hide Remaining, Ceiling, ChunksGB1, Frames;
        RemainingStep(plaintext, chunkSize, i, rest);
        var start := i * chunkSize;
        var end := start + chunkSize;
        if end > |plaintext| {
          end := |plaintext|;
        }
        var chunk := plaintext[start..end];
        var iv := ivs(i);
        var encrypted := c.seal(key, iv, chunk);
        var frame := PutUint32(|encrypted| % Two32) + [0] + iv + encrypted;
        FramesUnfold(c, key, chunkSize, rest, false, ivs, i, chunk);
        rest := rest[|chunk|..];
        ConcatAssoc(result, frame, Frames(c, key, chunkSize, rest, false, ivs, i + 1));
        result := result + frame;
      }
      assert result + [] == result;
    }
  }

  /** `rest` is what the chunk loop has left of the plaintext before chunk `i`. */
  ghost predicate Remaining(plaintext: Bytes, cs: int, i: nat, rest: Bytes) {
    rest == [] || (0 <= i * cs <= |plaintext| && rest == plaintext[i * cs..])
  }

  lemma RemainingStep(plaintext: Bytes, cs: int, i: nat, rest: Bytes)
    requires cs > 0 && Ceiling(|rest|, cs) > 0 && Remaining(plaintext, cs, i, rest)
    ensures var n := Min(cs, |rest|);
      && rest != [] && Ceiling(|rest[n..]|, cs) == Ceiling(|rest|, cs) - 1
      && 0 <= i * cs < |plaintext|
      && plaintext[i * cs..Min(i * cs + cs, |plaintext|)] == rest[..n]
      && Remaining(plaintext, cs, i + 1, rest[n..])
  {
    assert (i + 1) * cs == i * cs + cs;
  }

  datatype Decryptor = Decryptor(key: Bytes, chunkSize: int) {

    predicate Valid() {
      0 < chunkSize
    }

    method Decrypt(c: Primitives, ciphertext: Bytes) returns (r: Option<Bytes>)
      requires Valid()
      ensures r == DecryptSpec(c, key, chunkSize, ciphertext)
    {
      hide Uint32, ParseGB3Header;
      if |ciphertext| < MagicSize { return None; }
      var magic, data := ciphertext[..MagicSize], ciphertext[MagicSize..];
      if magic == MagicGB3 {
        r := DecryptLargeV3(c, ciphertext);
      } else if magic == MagicGB2 {
        r := DecryptLargeV2(c, data);
      } else if magic == MagicGB1 {
        if |data| > ChunkCountSize && IsChunkCount(data[..ChunkCountSize]) {
          assert data[..ChunkCountSize][..ChunkCountSize] == data[..ChunkCountSize];
          r := DecryptLarge(c, data);
          if r.None? {
            r := DecryptSmall(c, key, data);
          }
        } else {
          assert |data| >= ChunkCountSize ==> data[..ChunkCountSize][..ChunkCountSize] == data[..ChunkCountSize];
          r := DecryptSmall(c, key, data);
          if r.None? && |data| > ChunkCountSize {
            r := DecryptLarge(c, data);
          }
        }
      } else {
        r := None;
      }
    }

    method DecryptLarge(c: Primitives, input: Bytes) returns (r: Option<Bytes>)
      requires Valid() && |input| >= ChunkCountSize
      ensures r == BlobCodec.DecryptLarge(c, key, chunkSize, input)
    {
      hide Uint32, DecryptChunksGB1;
      var chunkCount := Uint32(input[..ChunkCountSize]);
      if chunkCount == 0 || chunkCount >= MaxChunkCount || !ValidKey(key) { return None; }
      var data := input[ChunkCountSize..];
      ghost var whole := DecryptChunksGB1(c, key, chunkSize, data, chunkCount);
      var plaintext: Bytes := [];
      for i := 0 to chunkCount
        invariant whole == Prepend(plaintext, DecryptChunksGB1(c, key, chunkSize, data, chunkCount - i))
      {
        DecryptChunksEnds(c, key, chunkSize, data, chunkCount - i);
        if |data| < IVSize { return None; }
        var iv := data[..IVSize];
        var body := data[IVSize..];
        var chunkEnd := chunkSize + TagSize;
        if chunkEnd > |body| {
          chunkEnd := |body|;
        }
        var encrypted := body[..chunkEnd];
        var decrypted := c.open(key, iv, encrypted);
        assert encrypted == data[IVSize..IVSize + chunkEnd] && body[chunkEnd..] == data[IVSize + chunkEnd..];
        DecryptChunksUnfold(c, key, chunkSize, data, chunkCount - i, IVSize + chunkEnd);
        if decrypted.None? { return None; }
        data := body[chunkEnd..];
        PrependAssoc(plaintext, decrypted.value, DecryptChunksGB1(c, key, chunkSize, data, chunkCount - i - 1));
        plaintext := plaintext + decrypted.value;
      }
      DecryptChunksEnds(c, key, chunkSize, data, 0);
      if |data| != 0 { return None; }
      assert plaintext + [] == plaintext;
      return Some(plaintext);
    }

    method DecryptLargeV2(c: Primitives, input: Bytes) returns (r: Option<Bytes>)
      ensures r == BlobCodec.DecryptLargeV2(c, key, input)
    {
      hide Uint32;
      if |input| < ChunkCountSize { return None; }
      var chunkCount := Uint32(input[..ChunkCountSize]);
      if chunkCount == 0 || chunkCount >= MaxChunkCount || !ValidKey(key) { return None; }
      r := DecryptFrameLoop(c, RulesGB2, input[ChunkCountSize..], chunkCount);
    }

    method DecryptLargeV3(c: Primitives, full: Bytes) returns (r: Option<Bytes>)
      ensures r == BlobCodec.DecryptLargeV3(c, key, full)
    {
      hide Uint32;
      var hdr := ParseGB3Header(full);
      if hdr.None? || !ValidKey(key) { return None; }
      r := DecryptFrameLoop(c, RulesGB3(hdr.value.chunkSize), full[GB3HeaderSize..], hdr.value.ChunkCount());
    }

    /** The chunk loop that the GB2 and GB3 decoders share, up to the frame rules. */
    method DecryptFrameLoop(c: Primitives, rules: FrameRules, input: Bytes, chunkCount: nat) returns (r: Option<Bytes>)
      ensures r == DecryptFrames(c, key, rules, input, chunkCount)
    {
      hide BlobCodec.ReadFrame;
      var data := input;
      var plaintext: Bytes := [];
      for i := 0 to chunkCount
        invariant DecryptFrames(c, key, rules, input, chunkCount)
               == Prepend(plaintext, DecryptFrames(c, key, rules, data, chunkCount - i))
      {
        var frame := ReadFrame(c, rules, data);
        if frame.None? { return None; }
        data := data[frame.value.1..];
        PrependAssoc(plaintext, frame.value.0, DecryptFrames(c, key, rules, data, chunkCount - i - 1));
        plaintext := plaintext + frame.value.0;
      }
      if |data| != 0 { return None; }
      return Some(plaintext);
    }

    method ReadFrame(c: Primitives, rules: FrameRules, data: Bytes) returns (r: Option<(Bytes, nat)>)
      ensures r == BlobCodec.ReadFrame(c, key, rules, data)
    {
      hide Uint32;
      if |data| < ChunkCountSize + FlagsSize { return None; }
      var storedSize := Uint32(data[..ChunkCountSize]);
      var compressed := FlaggedCompressed(rules, data[ChunkCountSize]);
      if storedSize > rules.maxStored { return None; }
      var body := data[ChunkCountSize + FlagsSize..];
      if |body| < IVSize { return None; }
      var iv := body[..IVSize];
      var sealed := body[IVSize..];
      if |sealed| < storedSize { return None; }
      var encrypted := sealed[..storedSize];
      assert iv == data[5..17] && encrypted == data[17..17 + storedSize];
      var decrypted := c.open(key, iv, encrypted);
      if decrypted.None? { return None; }
      if compressed {
        decrypted := c.decompress(decrypted.value, MaxDecompressedSize);
        if decrypted.None? { return None; }
      }
      return Some((decrypted.value, 17 + storedSize));
    }
  }

  /** The result of a decoder once `done` has already been decoded. */
  ghost function Prepend(done: Bytes, r: Option<Bytes>): (p: Option<Bytes>)
    ensures done == [] ==> p == r
    ensures r == Some([]) ==> p == Some(done)
  {
    assert done + [] == done && (r.Some? ==> [] + r.value == r.value);
    if r.Some? then Some(done + r.value) else None
  }

  lemma PrependAssoc(done: Bytes, head: Bytes, r: Option<Bytes>)
    ensures Prepend(done, Prepend(head, r)) == Prepend(done + head, r)
  {
    if r.Some? { ConcatAssoc(done, head, r.value); }
  }
}
