/**
 What the worker pool stores and records: for every schedule, bytes only under
 their own hash; and when the source does not change during the run, entries that
 describe it and whose blobs are all there.
 */
module PoolContent {
  import opened ByteSeqs
  import opened Primitives
  import opened BlobFormat
  import opened Hashing
  import opened ManifestTypes
  import opened ManifestTree
  import opened ChunkPlan
  import opened ChunkBuffers
  import opened Pipeline
  import opened Pool

  // ----- Every schedule, whatever the reads return ---------------------------

  /** Retained buffers are the pieces or none; planned puts are honest. */
  ghost predicate HonestPhase(r: Job, phase: Phase) {
    match phase
    case Comparing(pieces, retained) => retained == pieces || retained == []
    case Preparing(pieces, retained) => retained == pieces || retained == []
    case Uploading(_, plan, _) => HonestPuts(r.c, plan.puts)
    case SmallCompare(content, again) => Steady(r, content, again)
    case SmallProbe(content, again) => Steady(r, content, again)
    case SmallPut(content, again) => Steady(r, content, again)
    case _ => true
  }

  /** Without a key the second read of a small file must have the hash of the first. */
  predicate Steady(r: Job, content: Bytes, again: Bytes) {
    r.key != [] || SHA256Bytes(r.c, again) == SHA256Bytes(r.c, content)
  }

  predicate SteadyRead(r: Job, a: Action) {
    a.ReadSmall? ==> Steady(r, a.content, a.again)
  }

  ghost predicate Honest(r: Job, before: map<Hash, Bytes>, s: State) {
    && (forall i :: 0 <= i < |s.phases| ==> HonestPhase(r, s.phases[i]))
    && HonestChange(r.c, r.key, before, s.blobs)
  }

  lemma HonestNext(r: Job, fe: ScanEntry, phase: Phase, blobs: map<Hash, Bytes>, a: Action)
    requires Allowed(r, fe, phase, blobs, a) && HonestPhase(r, phase) && SteadyRead(r, a)
    ensures HonestPhase(r, NextPhase(r, fe, phase, blobs, a))
  {
    hide SHA256Bytes, UploadPlan, Flatten, HonestPuts, AllFound, LooksUnchanged, Refs, Chunkable;
    if a.Prepare? {
      UploadIsHonest(r.c, r.key, CdcMaxSize, phase.pieces, phase.retained, a.file, KnownChunks(r, fe, a.found));
    }
  }

  lemma HonestBlobs(r: Job, fe: ScanEntry, phase: Phase, before: map<Hash, Bytes>, blobs: map<Hash, Bytes>, a: Action)
    requires Allowed(r, fe, phase, blobs, a) && HonestPhase(r, phase)
    requires HonestChange(r.c, r.key, before, blobs)
    ensures HonestChange(r.c, r.key, before, NextBlobs(r, fe, phase, blobs, a))
  {
    hide SHA256Bytes, HonestChange, ChunkBlob;
    var after := NextBlobs(r, fe, phase, blobs, a);
    if a.PutNext? && a.stored {
      if phase.SmallPut? && r.key == [] {
        BareBlob(r.c, a.iv, phase.again);
        HonestPut(r.c, r.key, before, blobs, after, PutHash(r, phase), a.iv, phase.again, false);
      } else {
        var chunk := if phase.Uploading? then phase.plan.puts[phase.next].1 else phase.content;
        HonestPut(r.c, r.key, before, blobs, after, PutHash(r, phase), a.iv, chunk, r.tryCompress(fe.path));
      }
    }
  }

  lemma BareBlob(c: Primitives, iv: SmallIV, data: Bytes)
    ensures ChunkBlob(c, [], iv, data, false) == data
  {
  }

  lemma StepHonest(r: Job, before: map<Hash, Bytes>, s: State, a: Action)
    requires Honest(r, before, s) && Enabled(r, s, a) && SteadyRead(r, a)
    ensures Honest(r, before, Do(r, s, a))
  {
    hide NextPhase, NextBlobs, HonestPhase, HonestChange, SteadyRead, Allowed, Apply, Count;
    HonestNext(r, r.scan[a.i], s.phases[a.i], s.blobs, a);
    HonestBlobs(r, r.scan[a.i], s.phases[a.i], before, s.blobs, a);
  }

  lemma {:induction false} RunHonest(r: Job, before: map<Hash, Bytes>, s: State, actions: seq<Action>, t: State)
    requires Honest(r, before, s) && Reaches(r, s, actions, t)
    requires forall k :: 0 <= k < |actions| ==> SteadyRead(r, actions[k])
    ensures Honest(r, before, t)
    decreases |actions|
  {
    hide Honest, Do, Enabled, SteadyRead;
    if actions != [] {
      StepHonest(r, before, s, actions[0]);
      RunHonest(r, before, Do(r, s, actions[0]), actions[1..], t);
    }
  }

  /**
   No schedule and no reads make the pool store bytes under a hash that is not
   theirs, as long as there is a key or no small file changes between its two reads.
   */
  lemma {:induction false} PoolStoresHonestly(r: Job, blobs: map<Hash, Bytes>, actions: seq<Action>, t: State)
    requires Reaches(r, Start(r, blobs), actions, t)
    requires forall k :: 0 <= k < |actions| ==> SteadyRead(r, actions[k])
    ensures HonestChange(r.c, r.key, blobs, t.blobs)
  {
    hide Reaches, HonestBlob, Build, SteadyRead;
    assert Honest(r, blobs, Start(r, blobs));
    RunHonest(r, blobs, Start(r, blobs), actions, t);
  }

  /** The steps of a new small file up to its put. */
  function SmallFileSteps(content: Bytes, again: Bytes, iv: SmallIV): seq<Action> {
    [Probe(0, {}, false)] + ([ReadSmall(0, content, again)] + ([Probe(0, {}, false)] + [PutNext(0, iv, true, true)]))
  }

  /** Where they lead: the blob is stored and the entry is ready. */
  function SmallFileStored(r: Job, s: State, content: Bytes, again: Bytes, iv: SmallIV): State
    requires |r.scan| == 1
  {
    var fe, h := r.scan[0], SHA256Bytes(r.c, content);
    s.(phases := [Ready(MakeEntry(fe, h, New, []), New, fe.size)],
       blobs := s.blobs[h := PutBlob(r, fe, SmallPut(content, again), iv)])
  }

  lemma SmallFilePut(r: Job, s: State, content: Bytes, again: Bytes, iv: SmallIV)
    requires |r.scan| == 1 && r.prev == map[] && s.phases == [SmallProbe(content, again)]
    ensures var steps := [Probe(0, {}, false)] + [PutNext(0, iv, true, true)];
      Reaches(r, s, steps, SmallFileStored(r, s, content, again, iv))
  {
    hide SHA256Bytes, ChunkBlob, Apply;
    var mid, t := s.(phases := [SmallPut(content, again)]), SmallFileStored(r, s, content, again, iv);
    assert Do(r, mid, PutNext(0, iv, true, true)) == t;
    ReachesCons(r, mid, PutNext(0, iv, true, true), t, [], t);
    assert [PutNext(0, iv, true, true)] + [] == [PutNext(0, iv, true, true)];
    ReachesCons(r, s, Probe(0, {}, false), mid, [PutNext(0, iv, true, true)], t);
  }

  lemma SmallFileRun(r: Job, blobs: map<Hash, Bytes>, content: Bytes, again: Bytes, iv: SmallIV)
    requires |r.scan| == 1 && r.prev == map[] && r.scan[0].size < DefaultChunkSize && UsableKey(r.key)
    ensures var s := Start(r, blobs);
      Reaches(r, s, SmallFileSteps(content, again, iv), SmallFileStored(r, s, content, again, iv))
  {
    hide SHA256Bytes, Build, Reaches, PutBlob;
    var s := Start(r, blobs);
    var s1, s2 := s.(phases := [Hashing(true)]), s.(phases := [SmallProbe(content, again)]);
    var t := SmallFileStored(r, s, content, again, iv);
    var tail := [Probe(0, {}, false)] + [PutNext(0, iv, true, true)];
    SmallFilePut(r, s2, content, again, iv);
    ReachesCons(r, s1, ReadSmall(0, content, again), s2, tail, t);
    ReachesCons(r, s, Probe(0, {}, false), s1, [ReadSmall(0, content, again)] + tail, t);
  }

  /**
   Without a key that condition is needed: a small new file that changes between the
   hash and the second read is stored, as read the second time, under the hash of
   the first.
   */
  lemma KeylessSmallFileMisstored(r: Job, blobs: map<Hash, Bytes>, content: Bytes, again: Bytes, iv: SmallIV)
    requires r.key == [] && |r.scan| == 1 && r.scan[0].size < DefaultChunkSize && r.prev == map[]
    ensures exists actions, t ::
      && Reaches(r, Start(r, blobs), actions, t)
      && SHA256Bytes(r.c, content) in t.blobs && t.blobs[SHA256Bytes(r.c, content)] == again
      && |t.phases| == 1 && t.phases[0].Ready? && t.phases[0].entry.contentHash == SHA256Bytes(r.c, content) &&
           t.phases[0].kind == New
  {
    hide SHA256Bytes, Build, Reaches, Start;
    SmallFileRun(r, blobs, content, again, iv);
  }

  // ----- A file truncated between its two reads --------------------------------

  /** All puts of an upload, from the `next` one on. */
  lemma {:induction false} PutAll(r: Job, s: State, pieces: seq<Bytes>, plan: Plan, next: nat, iv: SmallIV, h: Hash)
    returns (actions: seq<Action>, t: State)
    requires |r.scan| == 1 && next <= |plan.puts| && s.phases == [Uploading(pieces, plan, next)]
    requires h !in s.blobs && forall j :: next <= j < |plan.puts| ==> plan.puts[j].0 != h
    ensures Reaches(r, s, actions, t) && t.phases == [Uploading(pieces, plan, |plan.puts|)] && h !in t.blobs
    decreases |plan.puts| - next
  {
    hide ChunkBlob, SHA256Bytes, Apply;
    if next == |plan.puts| {
      actions, t := [], s;
    } else {
      var a := PutNext(0, iv, true, true);
      var mid := Do(r, s, a);
      var rest;
      rest, t := PutAll(r, mid, pieces, plan, next + 1, iv, h);
      ReachesCons(r, s, a, mid, rest, t);
      actions := [a] + rest;
    }
  }

  /** The plan of a new large file that a second read finds cut after `k` pieces. */
  lemma TruncatedPlan(r: Job, fe: ScanEntry, pieces: seq<Bytes>, k: nat)
    requires r.prev == map[] && UsableKey(r.key) && Chunkable(pieces) && k < |pieces|
    ensures var known := KnownChunks(r, fe, {});
      var plan := UploadPlan(r.c, r.key, CdcMaxSize, Refs(r.c, pieces), [], Flatten(pieces[..k]), known);
      plan.ok && forall j :: 0 <= j < |plan.puts| ==>
        exists m :: 0 <= m < k && plan.puts[j].0 == SHA256Bytes(r.c, pieces[m])
  {
    hide SHA256Bytes, UploadPlan, Missing, Covers, LostAfter, Flatten;
    var known := KnownChunks(r, fe, {});
    assert !known(SHA256Bytes(r.c, pieces[0]));
    TruncatedReadIff(r.c, r.key, CdcMaxSize, pieces, k, [], known);
    assert Flatten(pieces[..k]) + [] == Flatten(pieces[..k]);
    MissingFrom(r.c, pieces[..k], known);
    var puts := Missing(r.c, pieces[..k], known);
    forall j | 0 <= j < |puts| ensures exists m :: 0 <= m < k && puts[j].0 == SHA256Bytes(r.c, pieces[m]) {
      var m :| 0 <= m < k && pieces[..k][m] == puts[j].1;
      assert puts[j].0 == SHA256Bytes(r.c, pieces[m]);
    }
  }

  /**
   A new file too large to be retained that is truncated between two chunks, after it
   was hashed and before it is uploaded: its entry lists every chunk and counts as
   new, although a chunk after the cut is not in the store.
   */
  lemma TruncatedFileRecorded(r: Job, blobs: map<Hash, Bytes>, pieces: seq<Bytes>, k: nat, i: nat, iv: SmallIV)
    requires |r.scan| == 1 && r.prev == map[] && UsableKey(r.key) && Chunkable(pieces) && k <= i < |pieces|
    requires r.scan[0].size == |Flatten(pieces)| > InMemoryChunkThreshold
    requires SHA256Bytes(r.c, pieces[i]) !in blobs
    requires forall j :: 0 <= j < k ==> SHA256Bytes(r.c, pieces[j]) != SHA256Bytes(r.c, pieces[i])
    ensures exists actions, t ::
      && Reaches(r, Start(r, blobs), actions, t) && |t.phases| == 1 && t.phases[0].Ready? && t.phases[0].kind == New
      && t.phases[0].entry.chunks == Refs(r.c, pieces) && SHA256Bytes(r.c, pieces[i]) !in t.blobs
  {
    hide SHA256Bytes, Build, Reaches, UploadPlan, Flatten, Refs, Chunkable;
    var s := Start(r, blobs);
    var s1, s2 := s.(phases := [Hashing(true)]), s.(phases := [Preparing(pieces, [])]);
    var file := Flatten(pieces[..k]);
    var plan := UploadPlan(r.c, r.key, CdcMaxSize, Refs(r.c, pieces), [], file, KnownChunks(r, r.scan[0], {}));
    var s3 := s.(phases := [Uploading(pieces, plan, 0)]);
    TruncatedPlan(r, r.scan[0], pieces, k);
    var puts, mid := PutAll(r, s3, pieces, plan, 0, iv, SHA256Bytes(r.c, pieces[i]));
    var t := Do(r, mid, Finish(0));
    ReachesSnoc(r, s3, puts, mid, Finish(0));
    var tail := puts + [Finish(0)];
    ReachesCons(r, s2, Prepare(0, {}, false, file), s3, tail, t);
    var later := [Prepare(0, {}, false, file)] + tail;
    ReachesCons(r, s1, ReadLarge(0, pieces, false), s2, later, t);
    ReachesCons(r, s, Probe(0, {}, false), s1, [ReadLarge(0, pieces, false)] + later, t);
  }

  // ----- A source that does not change ---------------------------------------

  ghost predicate IsSplit(c: Primitives, universe: iset<Bytes>, pieces: seq<Bytes>, content: Bytes) {
    Chunkable(pieces) && Flatten(pieces) == content && forall i :: 0 <= i < |pieces| ==> pieces[i] in universe
  }

  /** The entry fields of this content: chunked exactly from DefaultChunkSize on. */
  ghost predicate Describes(c: Primitives, universe: iset<Bytes>, hash: Hash, size: int, chunks: seq<ChunkRef>,
                            content: Bytes)
  {
    && content in universe && hash == SHA256Bytes(c, content) && size == |content|
    && (chunks == [] <==> |content| < DefaultChunkSize)
    && (chunks != [] ==> exists pieces :: IsSplit(c, universe, pieces, content) && chunks == Refs(c, pieces))
  }

  ghost predicate DescribesEntry(c: Primitives, universe: iset<Bytes>, e: FileEntry, content: Bytes) {
    Describes(c, universe, e.contentHash, e.size, e.chunks, content)
  }

  /** Every blob downloads, to content of the universe, and is within the chunk blob limit. */
  ghost predicate Healthy(c: Primitives, key: Bytes, universe: iset<Bytes>, blobs: map<Hash, Bytes>) {
    Sound(c, key, universe, blobs) && forall h :: h in blobs ==> |blobs[h]| <= MaxChunkBlobSize
  }

  /**
   What restoring needs of a previous entry: it describes some content, and an equal
   mtime and size mean that content.
   */
  ghost predicate HonestPrevious(r: Job, universe: iset<Bytes>, fe: ScanEntry, content: Bytes) {
    fe.path in r.prev && r.prev[fe.path].contentHash != "" ==>
      && (exists was :: DescribesEntry(r.c, universe, r.prev[fe.path], was))
      && (r.prev[fe.path].mtime == fe.mtime && r.prev[fe.path].size == fe.size ==>
            r.prev[fe.path].contentHash == SHA256Bytes(r.c, content))
  }

  /** A scan of `source`, which stays as it is, with a usable key and no collisions among the bytes involved. */
  ghost predicate Setting(r: Job, universe: iset<Bytes>, source: map<string, Bytes>) {
    && ValidKey(r.key) && CollisionFree(r.c, universe)
    && forall i :: 0 <= i < |r.scan| ==> Scanned(r, universe, source, r.scan[i])
  }

  ghost predicate Scanned(r: Job, universe: iset<Bytes>, source: map<string, Bytes>, fe: ScanEntry) {
    && fe.path in source && source[fe.path] in universe && |source[fe.path]| == fe.size
    && HonestPrevious(r, universe, fe, source[fe.path])
    && (fe.size < DefaultChunkSize ==> Storable(r.c, source[fe.path], r.tryCompress(fe.path)))
  }

  /** Reads return the source, in pieces that can be stored. */
  ghost predicate Faithful(r: Job, universe: iset<Bytes>, fe: ScanEntry, content: Bytes, a: Action) {
    match a
    case ReadLarge(_, pieces, _) => IsSplit(r.c, universe, pieces, content) && AllStorable(r, fe, pieces)
    case Prepare(_, _, _, file) => file == content
    case ReadSmall(_, data, again) => data == content && again == content
    case _ => true
  }

  predicate AllStorable(r: Job, fe: ScanEntry, pieces: seq<Bytes>) {
    forall i :: 0 <= i < |pieces| ==> Storable(r.c, pieces[i], r.tryCompress(fe.path))
  }

  /** Each chunk is in the store or still to be put. */
  ghost predicate Pending(refs: seq<ChunkRef>, puts: seq<(Hash, Bytes)>, next: nat, blobs: map<Hash, Bytes>) {
    forall i :: 0 <= i < |refs| ==> refs[i].hash in blobs || exists j :: next <= j < |puts| && puts[j].0 == refs[i].hash
  }

  ghost predicate PiecesOf(r: Job, universe: iset<Bytes>, fe: ScanEntry, content: Bytes, pieces: seq<Bytes>) {
    IsSplit(r.c, universe, pieces, content) && AllStorable(r, fe, pieces) && fe.size >= DefaultChunkSize
  }

  /** A finished entry that counts as backed up describes the content, and its blobs are in the store. */
  ghost predicate Backed(c: Primitives, universe: iset<Bytes>, e: FileEntry, content: Bytes, blobs: map<Hash, Bytes>) {
    DescribesEntry(c, universe, e, content) && AllFound(e, blobs.Keys)
  }

  ghost predicate PhaseTrue(r: Job, universe: iset<Bytes>, fe: ScanEntry, content: Bytes, phase: Phase,
                            blobs: map<Hash, Bytes>)
  {
    match phase
    case Comparing(pieces, retained) =>
      PiecesOf(r, universe, fe, content, pieces) && (retained == pieces || retained == []) &&
        SameHash(r, fe, SHA256Bytes(r.c, content))
    case Preparing(pieces, retained) => PiecesOf(r, universe, fe, content, pieces) &&
      (retained == pieces || retained == [])
    case Uploading(pieces, plan, next) =>
      && PiecesOf(r, universe, fe, content, pieces) && next <= |plan.puts| && PutsFrom(r.c, plan.puts, pieces)
      && (plan.ok ==> Pending(Refs(r.c, pieces), plan.puts, next, blobs))
    case SmallCompare(data, _) => data == content && fe.size < DefaultChunkSize &&
      SameHash(r, fe, SHA256Bytes(r.c, content))
    case SmallProbe(data, _) => data == content && fe.size < DefaultChunkSize
    case SmallPut(data, _) => data == content && fe.size < DefaultChunkSize
    case Ready(e, kind, _) => kind == Failed || kind == Locked || Backed(r.c, universe, e, content, blobs)
    case Done(e, kind) => kind == Failed || kind == Locked || Backed(r.c, universe, e, content, blobs)
    case _ => true
  }

  lemma PhaseMono(r: Job, universe: iset<Bytes>, fe: ScanEntry, content: Bytes, phase: Phase, blobs: map<Hash, Bytes>,
                  blobs': map<Hash, Bytes>)
    requires PhaseTrue(r, universe, fe, content, phase, blobs) && blobs.Keys <= blobs'.Keys
    ensures PhaseTrue(r, universe, fe, content, phase, blobs')
  {
    hide PiecesOf, PutsFrom, SameHash, DescribesEntry, SHA256Bytes, Refs, FileEntry.Hashes;
    if phase.Uploading? && phase.plan.ok {
      var refs, puts := Refs(r.c, phase.pieces), phase.plan.puts;
      forall i | 0 <= i < |refs|
        ensures refs[i].hash in blobs' || exists j :: phase.next <= j < |puts| && puts[j].0 == refs[i].hash
      {
        assert refs[i].hash in blobs ==> refs[i].hash in blobs'.Keys;
      }
    }
  }

  /** A previous entry with the hash of the content is an entry for the content. */
  lemma PreviousDescribes(r: Job, universe: iset<Bytes>, fe: ScanEntry, content: Bytes)
    requires CollisionFree(r.c, universe) && content in universe && |content| == fe.size
    requires HonestPrevious(r, universe, fe, content) && SameHash(r, fe, SHA256Bytes(r.c, content))
    ensures fe.path in r.prev && DescribesEntry(r.c, universe, UnchangedPhase(fe, r.prev[fe.path]).entry, content)
    ensures UnchangedPhase(fe, r.prev[fe.path]).entry.Hashes() == r.prev[fe.path].Hashes()
  {
    hide SHA256Bytes, CollisionFree, IsSplit, LooksUnchanged;
    var e := r.prev[fe.path];
    assert |SHA256Bytes(r.c, content)| == 64;
    var was :| DescribesEntry(r.c, universe, e, was);
    SameHashSameBytes(r.c, universe, was, content);
  }

  lemma ProbeTrue(r: Job, universe: iset<Bytes>, fe: ScanEntry, content: Bytes, phase: Phase, blobs: map<Hash, Bytes>,
                  found: set<Hash>, denied: bool)
    requires CollisionFree(r.c, universe) && content in universe && |content| == fe.size
    requires HonestPrevious(r, universe, fe, content) && found <= blobs.Keys
    requires PhaseTrue(r, universe, fe, content, phase, blobs)
    ensures PhaseTrue(r, universe, fe, content, AfterProbe(r, fe, phase, found, denied), blobs)
  {
    hide CollisionFree, PiecesOf, SHA256Bytes, DescribesEntry, HonestPrevious;
    if phase.Queued? && LooksUnchanged(r, fe) {
      LooksUnchangedHash(r, universe, fe, content);
      PreviousDescribes(r, universe, fe, content);
    } else if phase.Comparing? {
      PreviousDescribes(r, universe, fe, content);
    } else if phase.SmallCompare? {
      PreviousDescribes(r, universe, fe, content);
      SmallHasNoChunks(r.c, universe, UnchangedPhase(fe, r.prev[fe.path]).entry, content);
    } else if phase.SmallProbe? {
      SmallBacked(r.c, universe, fe, content, Resolve(PrevOf(r, fe), SHA256Bytes(r.c, content)), blobs);
    }
  }

  lemma LooksUnchangedHash(r: Job, universe: iset<Bytes>, fe: ScanEntry, content: Bytes)
    requires HonestPrevious(r, universe, fe, content) && LooksUnchanged(r, fe)
    ensures SameHash(r, fe, SHA256Bytes(r.c, content))
  {
    hide SHA256Bytes, DescribesEntry;
  }

  lemma SmallHasNoChunks(c: Primitives, universe: iset<Bytes>, e: FileEntry, content: Bytes)
    requires DescribesEntry(c, universe, e, content) && |content| < DefaultChunkSize
    ensures e.chunks == [] && e.Hashes() == [SHA256Bytes(c, content)]
  {
    hide SHA256Bytes;
  }

  /** The entry of a small file whose blob is in the store. */
  lemma SmallBacked(c: Primitives, universe: iset<Bytes>, fe: ScanEntry, content: Bytes, kind: Kind,
                    blobs: map<Hash, Bytes>)
    requires content in universe && |content| == fe.size < DefaultChunkSize
    ensures SHA256Bytes(c, content) in blobs ==>
      Backed(c, universe, MakeEntry(fe, SHA256Bytes(c, content), kind, []), content, blobs)
  {
    hide SHA256Bytes;
  }

  lemma PrepareTrue(r: Job, universe: iset<Bytes>, fe: ScanEntry, content: Bytes, pieces: seq<Bytes>,
                    retained: seq<Bytes>, blobs: map<Hash, Bytes>, found: set<Hash>, denied: bool)
    requires PiecesOf(r, universe, fe, content, pieces) && (retained == pieces || retained == []) && found <= blobs.Keys
    ensures PhaseTrue(r, universe, fe, content, AfterPrepare(r, fe, pieces, retained, found, denied, content), blobs)
  {
    hide SHA256Bytes, UploadPlan, AllStorable, PutBytes, MissingSize;
    var known := KnownChunks(r, fe, found);
    UploadPutsPieces(r.c, r.key, CdcMaxSize, pieces, retained, content, known);
    UploadCovers(r.c, r.key, CdcMaxSize, pieces, retained, content, known);
    var plan := UploadPlan(r.c, r.key, CdcMaxSize, Refs(r.c, pieces), retained, content, known);
    if plan.ok {
      CoveredIsPending(Refs(r.c, pieces), plan.puts, known, blobs);
    }
  }

  lemma CoveredIsPending(refs: seq<ChunkRef>, puts: seq<(Hash, Bytes)>, known: Hash -> bool, blobs: map<Hash, Bytes>)
    requires Covers(refs, puts, known) && forall h :: known(h) ==> h in blobs
    ensures Pending(refs, puts, 0, blobs)
  {
  }

  lemma PutTrue(r: Job, universe: iset<Bytes>, fe: ScanEntry, content: Bytes, phase: Phase, blobs: map<Hash, Bytes>,
                ok: bool)
    requires CanPut(phase) && content in universe && |content| == fe.size
    requires PhaseTrue(r, universe, fe, content, phase, blobs) && (ok ==> PutHash(r, phase) in blobs)
    ensures PhaseTrue(r, universe, fe, content, AfterPut(r, fe, phase, ok), blobs)
  {
    hide SHA256Bytes, PiecesOf, PutsFrom, DescribesEntry, Refs;
    if phase.SmallPut? {
      SmallBacked(r.c, universe, fe, content, Resolve(PrevOf(r, fe), SHA256Bytes(r.c, content)), blobs);
    } else if ok && phase.plan.ok {
      var refs, puts := Refs(r.c, phase.pieces), phase.plan.puts;
      forall i | 0 <= i < |refs| && refs[i].hash !in blobs
        ensures exists j :: phase.next + 1 <= j < |puts| && puts[j].0 == refs[i].hash
      {
        var j :| phase.next <= j < |puts| && puts[j].0 == refs[i].hash;
      }
    }
  }

  lemma FinishTrue(r: Job, universe: iset<Bytes>, fe: ScanEntry, content: Bytes, pieces: seq<Bytes>, plan: Plan,
                   blobs: map<Hash, Bytes>)
    requires content in universe && |content| == fe.size && PiecesOf(r, universe, fe, content, pieces)
    requires plan.ok ==> Pending(Refs(r.c, pieces), plan.puts, |plan.puts|, blobs)
    ensures PhaseTrue(r, universe, fe, content, AfterFinish(r, fe, pieces, plan), blobs)
  {
    hide SHA256Bytes, AllStorable, Chunkable;
    assert pieces != [];
    assert IsSplit(r.c, universe, pieces, content);
    var refs := Refs(r.c, pieces);
    if plan.ok {
      assert forall i :: 0 <= i < |refs| ==> refs[i].hash in blobs;
    }
  }

  lemma NextTrue(r: Job, universe: iset<Bytes>, source: map<string, Bytes>, fe: ScanEntry, phase: Phase,
                 blobs: map<Hash, Bytes>, a: Action)
    requires CollisionFree(r.c, universe) && Scanned(r, universe, source, fe)
    requires Allowed(r, fe, phase, blobs, a) && Faithful(r, universe, fe, source[fe.path], a)
    requires PhaseTrue(r, universe, fe, source[fe.path], phase, blobs)
    ensures var blobs' := NextBlobs(r, fe, phase, blobs, a);
      PhaseTrue(r, universe, fe, source[fe.path], NextPhase(r, fe, phase, blobs, a), blobs')
  {
    hide CollisionFree, HonestPrevious, SHA256Bytes, Storable, AfterProbe, AfterPut, AfterPrepare, AfterFinish, PutBlob,
         PutHash, IsSplit, AllStorable, PutsFrom, Pending, DescribesEntry;
    var content := source[fe.path];
    match a
    case Probe(_, found, denied) => ProbeTrue(r, universe, fe, content, phase, blobs, found, denied);
    case Prepare(_, found, denied, _) =>
      PrepareTrue(r, universe, fe, content, phase.pieces, phase.retained, blobs, found, denied);
    case PutNext(_, _, _, ok) =>
      var blobs' := NextBlobs(r, fe, phase, blobs, a);
      PhaseMono(r, universe, fe, content, phase, blobs, blobs');
      PutTrue(r, universe, fe, content, phase, blobs', ok);
    case Finish(_) => FinishTrue(r, universe, fe, content, phase.pieces, phase.plan, blobs);
    case Commit(_) =>
    case ReadLarge(_, pieces, _) => SplitWhole(r.c, universe, pieces, content);
    case ReadSmall(_, _, _) =>
    case Fail(_, _) =>
  }

  lemma SplitWhole(c: Primitives, universe: iset<Bytes>, pieces: seq<Bytes>, content: Bytes)
    requires IsSplit(c, universe, pieces, content)
    ensures Flatten(pieces) == content
  {
  }

  /** A stored chunk decodes to itself and stays within the limit. */
  lemma StoredChunk(c: Primitives, key: Bytes, iv: SmallIV, chunk: Bytes, tryCompress: bool)
    requires ValidKey(key) && |chunk| <= CdcMaxSize && Storable(c, chunk, tryCompress)
    ensures DecodeBlob(c, key, ChunkBlob(c, key, iv, chunk, tryCompress)) == Some(chunk)
    ensures |ChunkBlob(c, key, iv, chunk, tryCompress)| <= MaxChunkBlobSize
  {
    hide DecodeBlob;
    ChunkBlobDecodesIff(c, key, iv, chunk, tryCompress);
  }

  lemma PutHealthy(c: Primitives, key: Bytes, universe: iset<Bytes>, blobs: map<Hash, Bytes>, iv: SmallIV, chunk: Bytes,
                   tryCompress: bool)
    requires ValidKey(key) && |chunk| <= CdcMaxSize && Storable(c, chunk, tryCompress)
    requires Healthy(c, key, universe, blobs) && chunk in universe
    ensures Healthy(c, key, universe, blobs[SHA256Bytes(c, chunk) := ChunkBlob(c, key, iv, chunk, tryCompress)])
  {
    hide Sound, DecodeBlob, ChunkBlob, SHA256Bytes, Storable;
    StoredChunk(c, key, iv, chunk, tryCompress);
    PutKeepsSound(c, key, universe, blobs, chunk, ChunkBlob(c, key, iv, chunk, tryCompress));
  }

  lemma NextHealthy(r: Job, universe: iset<Bytes>, source: map<string, Bytes>, fe: ScanEntry, phase: Phase,
                    blobs: map<Hash, Bytes>, a: Action)
    requires ValidKey(r.key) && Scanned(r, universe, source, fe) && Allowed(r, fe, phase, blobs, a)
    requires PhaseTrue(r, universe, fe, source[fe.path], phase, blobs) && Healthy(r.c, r.key, universe, blobs)
    ensures Healthy(r.c, r.key, universe, NextBlobs(r, fe, phase, blobs, a))
  {
    hide Healthy, SHA256Bytes, ChunkBlob, Storable, HonestPrevious, Pending, Flatten;
    if a.PutNext? && a.stored {
      if phase.Uploading? {
        var chunk := phase.plan.puts[phase.next].1;
        assert chunk in phase.pieces;
        var i :| 0 <= i < |phase.pieces| && phase.pieces[i] == chunk;
        PutHealthy(r.c, r.key, universe, blobs, a.iv, chunk, r.tryCompress(fe.path));
      } else {
        PutHealthy(r.c, r.key, universe, blobs, a.iv, phase.content, r.tryCompress(fe.path));
      }
    }
  }

  ghost predicate Truthful(r: Job, universe: iset<Bytes>, source: map<string, Bytes>, s: State)
    requires Setting(r, universe, source)
  {
    && |s.phases| == |r.scan| && Healthy(r.c, r.key, universe, s.blobs)
    && forall i :: 0 <= i < |s.phases| ==>
         PhaseTrue(r, universe, r.scan[i], source[r.scan[i].path], s.phases[i], s.blobs)
  }

  /** All reads of a run are faithful. */
  ghost predicate FaithfulRun(r: Job, universe: iset<Bytes>, source: map<string, Bytes>, actions: seq<Action>) {
    forall k :: 0 <= k < |actions| ==>
      && actions[k].i < |r.scan| && r.scan[actions[k].i].path in source
      && Faithful(r, universe, r.scan[actions[k].i], source[r.scan[actions[k].i].path], actions[k])
  }

  lemma StepTruthful(r: Job, universe: iset<Bytes>, source: map<string, Bytes>, s: State, a: Action)
    requires Setting(r, universe, source) && Truthful(r, universe, source, s) && Enabled(r, s, a)
    requires Faithful(r, universe, r.scan[a.i], source[r.scan[a.i].path], a)
    ensures Truthful(r, universe, source, Do(r, s, a))
  {
    hide NextPhase, PutHash, PutBlob, PhaseTrue, Healthy, Faithful, CollisionFree, HonestPrevious, Allowed, Storable,
         Apply;
    var fe, phase := r.scan[a.i], s.phases[a.i];
    assert Scanned(r, universe, source, fe);
    NextTrue(r, universe, source, fe, phase, s.blobs, a);
    NextHealthy(r, universe, source, fe, phase, s.blobs, a);
    var s' := Do(r, s, a);
    forall i | 0 <= i < |s.phases| && i != a.i
      ensures PhaseTrue(r, universe, r.scan[i], source[r.scan[i].path], s'.phases[i], s'.blobs)
    {
      PhaseMono(r, universe, r.scan[i], source[r.scan[i].path], s.phases[i], s.blobs, s'.blobs);
    }
  }

  lemma {:induction false} RunTruthful(r: Job, universe: iset<Bytes>, source: map<string, Bytes>, s: State,
                                       actions: seq<Action>, t: State)
    requires Setting(r, universe, source) && FaithfulRun(r, universe, source, actions)
    requires Truthful(r, universe, source, s) && Reaches(r, s, actions, t)
    ensures Truthful(r, universe, source, t)
    ensures s.blobs.Keys <= t.blobs.Keys
    decreases |actions|
  {
    hide Setting, Truthful, Faithful, PutHash, PutBlob, NextPhase, Allowed, Apply;
    if actions != [] {
      StepTruthful(r, universe, source, s, actions[0]);
      RunTruthful(r, universe, source, Do(r, s, actions[0]), actions[1..], t);
    }
  }

  /**
   A run over an unchanging source, from a healthy store: the store stays healthy
   and keeps its blobs, and every file that did not fail and was not locked is
   recorded as it is, with all its blobs stored.
   */
  lemma {:induction false} PoolBacksUp(r: Job, universe: iset<Bytes>, source: map<string, Bytes>,
                                       blobs: map<Hash, Bytes>, actions: seq<Action>, t: State)
    requires Setting(r, universe, source) && FaithfulRun(r, universe, source, actions)
    requires Healthy(r.c, r.key, universe, blobs) && Reaches(r, Start(r, blobs), actions, t) && Finished(t)
    ensures Healthy(r.c, r.key, universe, t.blobs) && blobs.Keys <= t.blobs.Keys && |t.phases| == |r.scan|
    ensures forall i :: 0 <= i < |t.phases| ==>
      IsMissed(t.phases[i]) || Backed(r.c, universe, t.phases[i].entry, source[r.scan[i].path], t.blobs)
  {
    hide HonestPrevious, Storable, CollisionFree, FaithfulRun, Healthy, Reaches, Build, Backed;
    assert Truthful(r, universe, source, Start(r, blobs));
    RunTruthful(r, universe, source, Start(r, blobs), actions, t);
    forall i | 0 <= i < |t.phases|
      ensures IsMissed(t.phases[i]) || Backed(r.c, universe, t.phases[i].entry, source[r.scan[i].path], t.blobs)
    {
      assert Scanned(r, universe, source, r.scan[i]);
      assert PhaseTrue(r, universe, r.scan[i], source[r.scan[i].path], t.phases[i], t.blobs);
    }
  }
}
