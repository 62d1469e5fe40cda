/**
 The file-level work of the backup pipeline as it runs: the two hash passes, the
 chunk upload, and the deleted-file count of simple/pipeline.go and
 simple/chunk_cdc.go.
 */
module Pipeline {
  import opened ByteSeqs
  import opened Primitives
  import opened BlobFormat
  import opened Hashing
  import opened ManifestTypes
  import opened ChunkPlan
  import opened LocalStore
  import Stream

  const InMemoryChunkThreshold: nat := 32 * 1024 * 1024

  // ----- Hash passes ---------------------------------------------------------

  lemma RefsAppend(c: Primitives, pieces: seq<Bytes>, piece: Bytes)
    ensures Refs(c, pieces + [piece]) == Refs(c, pieces) + [ChunkRef(SHA256Bytes(c, piece), |piece|)]
  {
    hide SHA256Bytes;
  }

  lemma PiecesUnfold(cs: int, data: Bytes)
    requires cs > 0 && data != []
    ensures var n := Min(cs, |data|); Pieces(cs, data) == [data[..n]] + Pieces(cs, data[n..])
  {
  }

  lemma ListAssoc(done: seq<Bytes>, head: Bytes, tail: seq<Bytes>)
    ensures done + ([head] + tail) == (done + [head]) + tail
  {
  }

  /**
   hashFileWithChunks: fixed-size chunks of the bytes up to the scanned size,
   however much the file holds by now.
   */
  method HashFileWithChunks(c: Primitives, cs: int, f: Stream.Reader, size: nat, retain: bool)
    returns (ok: bool, contentHash: Hash, chunks: seq<ChunkRef>, retained: seq<Bytes>)
    requires cs > 0 && !f.failed
    modifies f
    ensures ok <==> !f.failed
    ensures var seen := old(f.rest)[..Min(size, |old(f.rest)|)];
      ok ==>
      && contentHash == SHA256Bytes(c, seen)
      && chunks == Refs(c, Pieces(cs, seen))
      && retained == if retain then Pieces(cs, seen) else []
    ensures ok && |retained| == |chunks| ==> PreimagesOf(c, chunks, retained)
  {
    hide SHA256Bytes, Pieces, Refs, Flatten, NonEmpty, PreimagesOf;
    ghost var seen := f.rest[..Min(size, |f.rest|)];
    ghost var pieces: seq<Bytes> := [];
    var h: Bytes := [];  // the bytes fed to the hash
    ok, contentHash, chunks, retained := false, "", [], [];
    var remaining: int := size;
    var more := true;
    NoRefs(c);
    while remaining > 0 && more
      invariant |h| <= |seen| && remaining == size - |h| && h == seen[..|h|]
      invariant f.rest == old(f.rest)[|h|..] && !f.failed
      invariant pieces + Pieces(cs, seen[|h|..]) == Pieces(cs, seen)
      invariant chunks == Refs(c, pieces) && retained == if retain then pieces else []
      invariant !more ==> |h| == |seen|
      decreases remaining, more
    {
      var chunkData := f.ReadFull(Min(remaining, cs));
      if f.failed { return; }
      if chunkData == [] {
        more := false;
      } else {
        HashStep(old(f.rest), seen, |h|, cs, size, chunkData, pieces);
        RefsAppend(c, pieces, chunkData);
        pieces := pieces + [chunkData];
        chunks := chunks + [ChunkRef(SHA256Bytes(c, chunkData), |chunkData|)];
        if retain { retained := retained + [chunkData]; }
        h := h + chunkData;
        remaining := remaining - |chunkData|;
      }
    }
    assert seen[..|h|] == seen && seen[|h|..] == [];
    NoPieces(cs);
    assert pieces + [] == pieces;
    RefsPreimages(c, pieces);
    ok, contentHash := true, SHA256Bytes(c, h);
  }

  lemma RefsPreimages(c: Primitives, pieces: seq<Bytes>)
    ensures |Refs(c, pieces)| == |pieces| && PreimagesOf(c, Refs(c, pieces), pieces)
  {
    hide SHA256Bytes;
  }

  lemma NoRefs(c: Primitives)
    ensures Refs(c, []) == []
  {
  }

  lemma NoPieces(cs: int)
    requires cs > 0
    ensures Pieces(cs, []) == []
  {
  }

  /** What one read delivers is the next piece of the bytes to be seen. */
  lemma NextPiece(file: Bytes, seen: Bytes, at: nat, cs: int, size: nat, chunk: Bytes)
    requires cs > 0 && seen == file[..Min(size, |file|)] && at <= |seen| && at < size
    requires chunk == file[at..][..Min(Min(size - at, cs), |file| - at)]
    ensures |chunk| == Min(cs, |seen| - at) && chunk == seen[at..][..|chunk|]
    ensures seen[..at] + chunk == seen[..at + |chunk|]
  {
    var n := |chunk|;
    assert at + n <= |seen|;
    assert forall i :: 0 <= i < n ==> chunk[i] == file[at + i] == seen[at + i] == seen[at..][i];
  }

  lemma HashStep(file: Bytes, seen: Bytes, at: nat, cs: int, size: nat, chunk: Bytes, pieces: seq<Bytes>)
    requires cs > 0 && seen == file[..Min(size, |file|)] && at <= |seen| && at < size
    requires chunk == file[at..][..Min(Min(size - at, cs), |file| - at)] && chunk != []
    requires pieces + Pieces(cs, seen[at..]) == Pieces(cs, seen)
    ensures at + |chunk| <= |seen| && seen[..at] + chunk == seen[..at + |chunk|]
    ensures file[at..][|chunk|..] == file[at + |chunk|..]
    ensures (pieces + [chunk]) + Pieces(cs, seen[at + |chunk|..]) == Pieces(cs, seen)
  {
    hide Pieces;
    NextPiece(file, seen, at, cs, size, chunk);
    PiecesUnfold(cs, seen[at..]);
    DropDrop(seen, at, |chunk|);
    DropDrop(file, at, |chunk|);
    ListAssoc(pieces, chunk, Pieces(cs, seen[at + |chunk|..]));
  }

  /**
   hashFileWithCDC over the pieces the chunker delivers before it ends or, if
   `broken`, fails. The pieces are retained all or not at all: retention is given up
   once they exceed the threshold.
   */
  method HashFileWithCDC(c: Primitives, pieces: seq<Bytes>, broken: bool, retain: bool)
    returns (ok: bool, contentHash: Hash, chunks: seq<ChunkRef>, retained: seq<Bytes>)
    ensures ok <==> !broken
    ensures ok ==> contentHash == SHA256Bytes(c, Flatten(pieces)) && chunks == Refs(c, pieces)
    ensures ok ==> retained == if retain && |Flatten(pieces)| <= InMemoryChunkThreshold then pieces else []
    ensures ok && |retained| == |chunks| ==> PreimagesOf(c, chunks, retained)
  {
    hide SHA256Bytes, Refs;
    var h: Bytes := [];
    var retaining, retainedBytes := retain, 0;
    chunks, retained := [], [];
    NoRefs(c);
    for i := 0 to |pieces|
      invariant h == Flatten(pieces[..i]) && chunks == Refs(c, pieces[..i])
      invariant retaining ==> retain && retainedBytes == |h| <= InMemoryChunkThreshold && retained == pieces[..i]
      invariant !retaining ==> retained == [] && (retain ==> |h| > InMemoryChunkThreshold)
    {
      var data := pieces[i];
      FlattenAppend(pieces[..i], data);
      RefsAppend(c, pieces[..i], data);
      assert pieces[..i] + [data] == pieces[..i + 1];
      h := h + data;
      chunks := chunks + [ChunkRef(SHA256Bytes(c, data), |data|)];
      if retaining {
        if retainedBytes + |data| > InMemoryChunkThreshold {
          retained, retaining := [], false;
        } else {
          retained, retainedBytes := retained + [data], retainedBytes + |data|;
        }
      }
    }
    if broken { return false, "", [], []; }
    assert pieces[..|pieces|] == pieces;
    RefsPreimages(c, pieces);
    ok, contentHash := true, SHA256Bytes(c, h);
  }

  /** Each buffer is the preimage of its chunk's hash. */
  ghost predicate PreimagesOf(c: Primitives, chunks: seq<ChunkRef>, data: seq<Bytes>) {
    && |data| == |chunks|
    && forall i :: 0 <= i < |data| ==> SHA256Bytes(c, data[i]) == chunks[i].hash && |data[i]| == chunks[i].size
  }

  // ----- Upload --------------------------------------------------------------

  /** A blob the pipeline may store under a hash. */
  ghost predicate HonestBlob(c: Primitives, key: Bytes, h: Hash, blob: Bytes) {
    exists iv: SmallIV, chunk, tryCompress ::
      SHA256Bytes(c, chunk) == h && blob == ChunkBlob(c, key, iv, chunk, tryCompress)
  }

  /** Every blob that is new or different is honest. */
  ghost predicate HonestChange(c: Primitives, key: Bytes, before: map<Hash, Bytes>, after: map<Hash, Bytes>) {
    && before.Keys <= after.Keys
    && forall h :: h in after ==> (h in before && after[h] == before[h]) || HonestBlob(c, key, h, after[h])
  }

  lemma HonestPut(c: Primitives, key: Bytes, before: map<Hash, Bytes>, mid: map<Hash, Bytes>, after: map<Hash, Bytes>,
                  h: Hash, iv: SmallIV, chunk: Bytes, tryCompress: bool)
    requires HonestChange(c, key, before, mid) && SHA256Bytes(c, chunk) == h
    requires mid.Keys <= after.Keys <= mid.Keys + {h}
    requires forall g :: g in mid && g != h ==> after[g] == mid[g]
    requires h in after ==> after[h] == ChunkBlob(c, key, iv, chunk, tryCompress) || (h in mid && after[h] == mid[h])
    ensures HonestChange(c, key, before, after)
  {
    hide SHA256Bytes, ChunkBlob;
    forall g | g in after
      ensures (g in before && after[g] == before[g]) || HonestBlob(c, key, g, after[g])
    {
      if g != h || (h in mid && after[h] == mid[h]) { assert g in mid; }
    }
  }

  /** All hashes of these puts are in the store. */
  ghost predicate Stored(puts: seq<(Hash, Bytes)>, disk: map<Hash, Bytes>) {
    forall i :: 0 <= i < |puts| ==> puts[i].0 in disk
  }

  class Uploader {
    const key: Bytes
    const store: LocalBlobStore
    const batching: bool
    const bufSize: nat

    constructor (key: Bytes, store: LocalBlobStore, batching: bool, bufSize: nat)
      ensures this.key == key && this.store == store && this.batching == batching && this.bufSize == bufSize
    {
      this.key, this.store, this.batching, this.bufSize := key, store, batching, bufSize;
    }

    /** Which hashes of the previous chunk list are known to be present. */
    static function Known(r: map<Hash, bool>): Hash -> bool {
      (h: Hash) => h in r && r[h]
    }

    /**
     uploadChangedChunks, with what a second read of the file returns. `present` is
     what the store knows of the previous chunk list. The upload succeeds exactly when
     the plan for those chunks does, no presence query is denied and no put or read
     fails; it then has stored what is planned, and counts the bytes of the plan.
     */
    method UploadChangedChunks(c: Primitives, chunks: seq<ChunkRef>, chunkData: seq<Bytes>, prevChunks: seq<ChunkRef>,
                               f: Stream.Reader, tryCompress: bool, ivs: nat -> SmallIV, ghost pieces: seq<Bytes>)
      returns (uploaded: nat, ok: bool, ghost present: Hash -> bool)
      requires store.Valid() && chunks == Refs(c, pieces) && (|chunkData| == |chunks| ==> chunkData == pieces)
      requires !f.failed
      modifies store, f
      ensures store.Valid() && HonestChange(c, key, old(store.disk), store.disk)
      ensures forall h :: present(h) <==> Listed(prevChunks, h) && old(store.Now()).Present(h)
      ensures forall h :: present(h) ==> h in store.disk
      ensures var plan := UploadPlan(c, key, bufSize, chunks, chunkData, old(f.rest), present);
        && (ok <==> plan.ok && !AnyDenied(old(store.Now()), prevChunks) &&
                    store.failedPuts == old(store.failedPuts) && !f.failed)
        && (ok ==> uploaded == PutBytes(plan.puts) && Stored(plan.puts, store.disk))
    {
      hide UploadPlan, HonestChange, SHA256Bytes, PutBytes, Refs, Listed, AnyDenied, View.Present, View.Answers,
           View.Denied,
           Stored, Known, MemPlan, ReadPlan, ValidateHash;
      ghost var before, file, view := store.disk, f.rest, store.Now();
      present := (h: Hash) => Listed(prevChunks, h) && view.Present(h);
      PresentStored(prevChunks, view);
      NoChange(c, key, before);
      var prevHashes := seq(|prevChunks|, i requires 0 <= i < |prevChunks| => prevChunks[i].hash);
      var answer := store.BlobsExist(prevHashes, batching);
      uploaded, ok := 0, false;
      QueryAnswer(view, prevChunks, prevHashes, answer);
      if answer.None? { return; }
      var known := Known(answer.value);
      SamePlan(c, key, bufSize, chunks, chunkData, file, known, present);
      var needRead := NeedsRead(chunks, known);
      PlanCases(c, key, bufSize, chunks, chunkData, file, known);
      if !needRead {
        NothingPut(store.disk);
        return 0, true, present;
      }
      if !UsableKey(key) { return; }
      if InMemory(chunks, chunkData) {
        uploaded, ok := UploadRetained(c, chunks, chunkData, known, tryCompress, ivs, before);
      } else {
        uploaded, ok := UploadReread(c, chunks, known, f, tryCompress, ivs, before, pieces);
      }
    }

    method NeedsRead(chunks: seq<ChunkRef>, known: Hash -> bool) returns (needRead: bool)
      ensures needRead <==> exists i :: 0 <= i < |chunks| && !known(chunks[i].hash)
    {
      needRead := false;
      for i := 0 to |chunks|
        invariant needRead <==> exists j :: 0 <= j < i && !known(chunks[j].hash)
      {
        if !known(chunks[i].hash) { needRead := true; }
      }
    }

    /** Seal one chunk and put it under its hash. */
    method PutChunk(c: Primitives, hash: Hash, chunk: Bytes, tryCompress: bool, iv: SmallIV,
                    ghost before: map<Hash, Bytes>) returns (ok: bool)
      requires store.Valid() && UsableKey(key) && SHA256Bytes(c, chunk) == hash
      requires HonestChange(c, key, before, store.disk)
      modifies store
      ensures store.Valid() && HonestChange(c, key, before, store.disk)
      ensures ok ==> hash in store.disk
      ensures store.failedPuts == old(store.failedPuts) + if ok then 0 else 1
      ensures old(store.disk).Keys <= store.disk.Keys
    {
      hide SHA256Bytes, HonestChange;
      var toStore := chunk;
      if tryCompress && |chunk| >= 65536 {
        var compressed := c.compress(chunk);
        if |compressed| < |chunk| { toStore := compressed; }
      }
      var blobData := toStore;
      if key != [] {
        blobData := MagicGB1 + iv + c.seal(key, iv, toStore);
      }
      ghost var mid := store.disk;
      var err := store.Put(hash, blobData);
      assert blobData == ChunkBlob(c, key, iv, chunk, tryCompress);
      HonestPut(c, key, before, mid, store.disk, hash, iv, chunk, tryCompress);
      ok := err.NoError?;
    }

    method UploadRetained(c: Primitives, chunks: seq<ChunkRef>, data: seq<Bytes>, known: Hash -> bool,
                          tryCompress: bool, ivs: nat -> SmallIV, ghost before: map<Hash, Bytes>)
      returns (uploaded: nat, ok: bool)
      requires store.Valid() && UsableKey(key) && chunks == Refs(c, data) && HonestChange(c, key, before, store.disk)
      modifies store
      ensures store.Valid() && HonestChange(c, key, before, store.disk) && old(store.disk).Keys <= store.disk.Keys
      ensures var plan := MemPlan(chunks, data, known);
        && (ok <==> plan.ok && store.failedPuts == old(store.failedPuts))
        && (ok ==> uploaded == PutBytes(plan.puts) && Stored(plan.puts, store.disk))
    {
      hide SHA256Bytes, HonestChange, MemPlan, PutBytes, Stored;
      ghost var whole := MemPlan(chunks, data, known);
      ghost var done: seq<(Hash, Bytes)> := [];
      uploaded, ok := 0, false;
      assert chunks[0..] == chunks && data[0..] == data;
      Progress0(whole, store.disk);
      for i := 0 to |chunks|
        invariant store.Valid() && HonestChange(c, key, before, store.disk) && old(store.disk).Keys <= store.disk.Keys
        invariant whole == After(done, MemPlan(chunks[i..], data[i..], known))
        invariant uploaded == PutBytes(done) && Stored(done, store.disk)
        invariant store.failedPuts == old(store.failedPuts)
      {
        MemPlanUnfold(chunks[i..], data[i..], known);
        assert chunks[i..][1..] == chunks[i + 1..] && data[i..][1..] == data[i + 1..];
        if !known(chunks[i].hash) {
          ghost var disk := store.disk;
          ok := PutChunk(c, chunks[i].hash, data[i], tryCompress, ivs(i), before);
          if !ok { return uploaded, false; }
          PlanStep(done, (chunks[i].hash, data[i]), MemPlan(chunks[i + 1..], data[i + 1..], known).puts, disk,
                   store.disk);
          done := done + [(chunks[i].hash, data[i])];
          uploaded := uploaded + |data[i]|;
        }
      }
      assert chunks[|chunks|..] == [] && data[|chunks|..] == [];
      MemPlanNil(known);
      assert done + [] == done;
      ok := true;
    }

    method UploadReread(c: Primitives, chunks: seq<ChunkRef>, known: Hash -> bool, f: Stream.Reader,
                        tryCompress: bool, ivs: nat -> SmallIV, ghost before: map<Hash, Bytes>,
                        ghost pieces: seq<Bytes>)
      returns (uploaded: nat, ok: bool)
      requires store.Valid() && UsableKey(key) && chunks == Refs(c, pieces) && HonestChange(c, key, before, store.disk)
      requires !f.failed
      modifies store, f
      ensures store.Valid() && HonestChange(c, key, before, store.disk) && old(store.disk).Keys <= store.disk.Keys
      ensures var plan := ReadPlan(c, bufSize, chunks, old(f.rest), known);
        && (ok <==> plan.ok && store.failedPuts == old(store.failedPuts) && !f.failed)
        && (ok ==> uploaded == PutBytes(plan.puts) && Stored(plan.puts, store.disk))
    {
      hide SHA256Bytes, HonestChange, ReadPlan, PutBytes, Stored;
      ghost var whole := ReadPlan(c, bufSize, chunks, f.rest, known);
      ghost var done: seq<(Hash, Bytes)> := [];
      uploaded, ok := 0, false;
      var i := 0;
      assert chunks[0..] == chunks;
      Progress0(whole, store.disk);
      while i < |chunks|
        invariant 0 <= i <= |chunks|
        invariant store.Valid() && HonestChange(c, key, before, store.disk) && old(store.disk).Keys <= store.disk.Keys
        invariant whole == After(done, ReadPlan(c, bufSize, chunks[i..], f.rest, known))
        invariant uploaded == PutBytes(done) && Stored(done, store.disk)
        invariant store.failedPuts == old(store.failedPuts) && !f.failed
      {
        ghost var file := f.rest;
        ReadPlanUnfold(c, bufSize, chunks[i..], file, known);
        assert chunks[i..][1..] == chunks[i + 1..];
        var want := Min(chunks[i].size, bufSize);
        var chunk := f.ReadFull(want);
        if f.failed { return uploaded, false; }
        if 0 < |chunk| < want { return uploaded, false; }
        if |chunk| == 0 {
          assert done + [] == done;
          return uploaded, true;
        }
        if !known(chunks[i].hash) {
          if SHA256Bytes(c, chunk) != chunks[i].hash { return uploaded, false; }
          ghost var disk := store.disk;
          ok := PutChunk(c, chunks[i].hash, chunk, tryCompress, ivs(i), before);
          if !ok { return uploaded, false; }
          PlanStep(done, (chunks[i].hash, chunk), ReadPlan(c, bufSize, chunks[i + 1..], f.rest, known).puts, disk,
                   store.disk);
          done := done + [(chunks[i].hash, chunk)];
          uploaded := uploaded + |chunk|;
        }
        i := i + 1;
      }
      assert chunks[|chunks|..] == [];
      ReadPlanNil(c, bufSize, f.rest, known);
      assert done + [] == done;
      ok := true;
    }
  }

  ghost predicate Listed(chunks: seq<ChunkRef>, h: Hash) {
    exists i :: 0 <= i < |chunks| && chunks[i].hash == h
  }

  /** The store refuses to answer for some chunk of the list. */
  ghost predicate AnyDenied(view: View, chunks: seq<ChunkRef>) {
    exists h :: Listed(chunks, h) && view.Denied(h)
  }

  lemma NoChange(c: Primitives, key: Bytes, disk: map<Hash, Bytes>)
    ensures HonestChange(c, key, disk, disk)
  {
  }

  lemma PresentStored(chunks: seq<ChunkRef>, view: View)
    requires view.cache <= view.disk.Keys
    ensures forall h :: Listed(chunks, h) && view.Present(h) ==> h in view.disk
  {
    hide ValidateHash;
    assert forall h :: h in view.cache ==> h in view.disk.Keys;
  }

  /** The answer of blobsExist, read off the previous chunk list. */
  lemma QueryAnswer(view: View, chunks: seq<ChunkRef>, hashes: seq<Hash>, answer: Option<map<Hash, bool>>)
    requires |hashes| == |chunks| && forall i :: 0 <= i < |chunks| ==> hashes[i] == chunks[i].hash
    requires view.Answers(hashes, answer)
    ensures answer.None? <==> AnyDenied(view, chunks)
    ensures answer.Some? ==> forall h :: Uploader.Known(answer.value)(h) <==> Listed(chunks, h) && view.Present(h)
  {
    hide View.Present, View.Denied;
    forall h ensures Listed(chunks, h) <==> h in hashes {
      if h in hashes {
        var i :| 0 <= i < |hashes| && hashes[i] == h;
        assert chunks[i].hash == h;
      }
      if Listed(chunks, h) {
        var i :| 0 <= i < |chunks| && chunks[i].hash == h;
        assert hashes[i] == h;
      }
    }
  }

  lemma {:induction false} SameMemPlan(chunks: seq<ChunkRef>, data: seq<Bytes>, a: Hash -> bool, b: Hash -> bool)
    requires |data| == |chunks| && forall h :: a(h) == b(h)
    ensures MemPlan(chunks, data, a) == MemPlan(chunks, data, b)
  {
    if chunks != [] { SameMemPlan(chunks[1..], data[1..], a, b); }
  }

  lemma {:induction false} SameReadPlan(c: Primitives, bufSize: nat, chunks: seq<ChunkRef>, file: Bytes,
                                        a: Hash -> bool, b: Hash -> bool)
    requires (forall i :: 0 <= i < |chunks| ==> chunks[i].size >= 0) && forall h :: a(h) == b(h)
    ensures ReadPlan(c, bufSize, chunks, file, a) == ReadPlan(c, bufSize, chunks, file, b)
    decreases |chunks|
  {
    hide SHA256Bytes;
    if chunks != [] {
      var n := Min(Min(chunks[0].size, bufSize), |file|);
      SameReadPlan(c, bufSize, chunks[1..], file[n..], a, b);
    }
  }

  lemma SamePlan(c: Primitives, key: Bytes, bufSize: nat, chunks: seq<ChunkRef>, data: seq<Bytes>, file: Bytes,
                 a: Hash -> bool, b: Hash -> bool)
    requires (forall i :: 0 <= i < |chunks| ==> chunks[i].size >= 0) && forall h :: a(h) == b(h)
    ensures UploadPlan(c, key, bufSize, chunks, data, file, a) == UploadPlan(c, key, bufSize, chunks, data, file, b)
  {
    hide MemPlan, ReadPlan;
    if |data| == |chunks| { SameMemPlan(chunks, data, a, b); }
    SameReadPlan(c, bufSize, chunks, file, a, b);
  }

  lemma PlanCases(c: Primitives, key: Bytes, bufSize: nat, chunks: seq<ChunkRef>, data: seq<Bytes>, file: Bytes,
                  present: Hash -> bool)
    requires forall i :: 0 <= i < |chunks| ==> chunks[i].size >= 0
    ensures var plan := UploadPlan(c, key, bufSize, chunks, data, file, present);
      if forall i :: 0 <= i < |chunks| ==> present(chunks[i].hash) then plan == Plan([], true)
      else if !UsableKey(key) then plan == Plan([], false)
      else if InMemory(chunks, data) then plan == MemPlan(chunks, data, present)
      else plan == ReadPlan(c, bufSize, chunks, file, present)
  {
    hide MemPlan, ReadPlan;
  }

  lemma NothingPut(disk: map<Hash, Bytes>)
    ensures PutBytes([]) == 0 && Stored([], disk)
  {
  }

  /** A plan whose first puts are done. */
  function After(done: seq<(Hash, Bytes)>, rest: Plan): Plan {
    Plan(done + rest.puts, rest.ok)
  }

  lemma Progress0(plan: Plan, disk: map<Hash, Bytes>)
    ensures plan == After([], plan) && PutBytes([]) == 0 && Stored([], disk)
  {
    assert [] + plan.puts == plan.puts;
  }

  lemma PlanStep(done: seq<(Hash, Bytes)>, put: (Hash, Bytes), rest: seq<(Hash, Bytes)>, before: map<Hash, Bytes>,
                 after: map<Hash, Bytes>)
    requires Stored(done, before) && before.Keys <= after.Keys && put.0 in after
    ensures done + ([put] + rest) == (done + [put]) + rest
    ensures PutBytes(done + [put]) == PutBytes(done) + |put.1|
    ensures Stored(done + [put], after)
  {
    var all := done + [put];
    assert all[..|all| - 1] == done;
    forall i | 0 <= i < |all| ensures all[i].0 in after {
      assert i < |done| ==> done[i].0 in before.Keys;
    }
  }

  // ----- Deleted files -------------------------------------------------------

  /** countDeletedFiles: deleted and surviving previous paths add up to the previous count. */
  method CountDeletedFiles(prev: map<string, FileEntry>, paths: seq<string>) returns (deleted: nat)
    ensures deleted + |set p | p in prev && p in paths| == |prev|
  {
    if |prev| == 0 {
      assert (set p | p in prev && p in paths) == {};
      return 0;
    }
    var current: set<string> := {};
    for i := 0 to |paths|
      invariant current == set p | p in paths[..i]
    {
      assert paths[..i + 1] == paths[..i] + [paths[i]];
      current := current + {paths[i]};
    }
    assert paths[..|paths|] == paths;
    deleted := 0;
    var rest := prev.Keys;
    ghost var survivors: set<string> := {};
    while rest != {}
      invariant rest <= prev.Keys
      invariant survivors == set p | p in prev && p !in rest && p in paths
      invariant deleted + |survivors| + |rest| == |prev|
      decreases |rest|
    {
      var p :| p in rest;
      rest := rest - {p};
      if p !in current {
        deleted := deleted + 1;
        assert survivors == set q | q in prev && q !in rest && q in paths;
      } else {
        survivors := survivors + {p};
      }
    }
    assert survivors == set p | p in prev && p in paths;
  }
}
