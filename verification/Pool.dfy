/**
 The upload worker pool of simple/pipeline.go as a state machine. Each scanned
 file moves through the branches of processFile in small steps, every store call
 being one step, and any number of files may be in flight: a run of the machine
 is any schedule of any number of workers. What the file system and the store
 answer is part of the action, so nothing is assumed about it here.
 */
module Pool {
  import opened ByteSeqs
  import opened Primitives
  import opened BlobFormat
  import opened Hashing
  import opened ManifestTypes
  import opened ManifestTree
  import opened ChunkPlan
  import opened ChunkBuffers

  datatype ScanEntry = ScanEntry(path: string, size: nat, mtime: string, mode: int)

  /** What a run is given: the key, the scan, and the file map of the previous manifest. */
  datatype Job = Job(c: Primitives, key: Bytes, scan: seq<ScanEntry>, prev: map<string, FileEntry>,
                     emptyDirs: seq<string>, tryCompress: string -> bool)

  datatype Kind = New | Changed | Unchanged | Failed | Locked

  datatype Phase =
    | Queued
    | Hashing(recheck: bool)                               // false after the mtime and size check missed blobs
    | Comparing(pieces: seq<Bytes>, retained: seq<Bytes>)  // hashed, same content hash as before
    | Preparing(pieces: seq<Bytes>, retained: seq<Bytes>)  // about to look for the previous chunks
    | Uploading(pieces: seq<Bytes>, plan: Plan, next: nat)
    | SmallCompare(content: Bytes, again: Bytes)           // small file read, same content hash as before
    | SmallProbe(content: Bytes, again: Bytes)
    | SmallPut(content: Bytes, again: Bytes)
    | Ready(entry: FileEntry, kind: Kind, uploaded: nat)
    | Done(entry: FileEntry, kind: Kind)

  datatype Counts = Counts(newFiles: nat, changed: nat, same: nat, failed: nat, locked: nat, uploaded: nat)

  datatype State = State(phases: seq<Phase>, blobs: map<Hash, Bytes>, tree: Tree, log: seq<Op>, counts: Counts)

  datatype Action =
    | Probe(i: nat, found: set<Hash>, denied: bool)
    | ReadLarge(i: nat, pieces: seq<Bytes>, keep: bool)
    | Prepare(i: nat, found: set<Hash>, denied: bool, file: Bytes)
    | ReadSmall(i: nat, content: Bytes, again: Bytes)
    | PutNext(i: nat, iv: SmallIV, stored: bool, ok: bool)
    | Finish(i: nat)
    | Fail(i: nat, locked: bool)
    | Commit(i: nat)

  // ----- Entries -------------------------------------------------------------

  function StatusOf(kind: Kind): string {
    match kind
    case New => "new"
    case Changed => "changed"
    case Unchanged => "unchanged"
    case Failed => "error"
    case Locked => "locked"
  }

  /** resolveFileStatus. */
  function Resolve(prev: Option<FileEntry>, contentHash: Hash): Kind {
    if prev.None? then New else if prev.value.contentHash == contentHash then Unchanged else Changed
  }

  function MakeEntry(fe: ScanEntry, contentHash: Hash, kind: Kind, chunks: seq<ChunkRef>): FileEntry {
    FileEntry(fe.path, contentHash, fe.size, fe.mtime, fe.mode, StatusOf(kind), chunks)
  }

  /** Failed and locked files get an entry without content. */
  function ErrorPhase(fe: ScanEntry, kind: Kind): Phase {
    Ready(MakeEntry(fe, "", kind, []), kind, 0)
  }

  function PrevOf(r: Job, fe: ScanEntry): Option<FileEntry> {
    if fe.path in r.prev then Some(r.prev[fe.path]) else None
  }

  /** The mtime and size check that lets a file go by without being read. */
  predicate LooksUnchanged(r: Job, fe: ScanEntry) {
    var prev := PrevOf(r, fe);
    prev.Some? && prev.value.mtime == fe.mtime && prev.value.size == fe.size && |prev.value.contentHash| >= 2
  }

  predicate SameHash(r: Job, fe: ScanEntry, contentHash: Hash) {
    var prev := PrevOf(r, fe);
    prev.Some? && prev.value.contentHash == contentHash
  }

  predicate AllFound(e: FileEntry, found: set<Hash>) {
    forall i :: 0 <= i < |e.Hashes()| ==> e.Hashes()[i] in found
  }

  /** tryUnchangedEntry's entry: the previous content under the scanned metadata. */
  function UnchangedPhase(fe: ScanEntry, e: FileEntry): Phase {
    Ready(MakeEntry(fe, e.contentHash, Unchanged, e.chunks), Unchanged, 0)
  }

  // ----- Steps ---------------------------------------------------------------

  /** The branches after an existence check; a permission failure fails the file. */
  function AfterProbe(r: Job, fe: ScanEntry, phase: Phase, found: set<Hash>, denied: bool): Phase {
    match phase
    case Queued =>
      if !LooksUnchanged(r, fe) then Hashing(true)
      else if denied then ErrorPhase(fe, Failed)
      else if AllFound(r.prev[fe.path], found) then UnchangedPhase(fe, r.prev[fe.path])
      else Hashing(false)
    case Comparing(pieces, retained) =>
      if denied then ErrorPhase(fe, Failed)
      else if fe.path in r.prev && AllFound(r.prev[fe.path], found) then UnchangedPhase(fe, r.prev[fe.path])
      else Preparing(pieces, retained)
    case SmallCompare(content, again) =>
      if denied then ErrorPhase(fe, Failed)
      else if fe.path in r.prev && SHA256Bytes(r.c, content) in found then UnchangedPhase(fe, r.prev[fe.path])
      else SmallProbe(content, again)
    case SmallProbe(content, again) =>
      var h := SHA256Bytes(r.c, content);
      var kind := Resolve(PrevOf(r, fe), h);
      if denied then ErrorPhase(fe, Failed)
      else if h in found then Ready(MakeEntry(fe, h, kind, []), kind, 0)
      else SmallPut(content, again)
    case _ => phase
  }

  function AfterReadLarge(r: Job, fe: ScanEntry, recheck: bool, pieces: seq<Bytes>, keep: bool): Phase {
    var retained := if keep then pieces else [];
    if recheck && SameHash(r, fe, SHA256Bytes(r.c, Flatten(pieces))) then Comparing(pieces, retained)
    else Preparing(pieces, retained)
  }

  /** The chunks of the previous entry that were found. */
  function KnownChunks(r: Job, fe: ScanEntry, found: set<Hash>): Hash -> bool {
    var prev := if fe.path in r.prev then r.prev[fe.path].chunks else [];
    (h: Hash) => h in found && exists i :: 0 <= i < |prev| && prev[i].hash == h
  }

  function AfterPrepare(r: Job, fe: ScanEntry, pieces: seq<Bytes>, retained: seq<Bytes>, found: set<Hash>, denied: bool,
                        file: Bytes): Phase
  {
    if denied then ErrorPhase(fe, Failed)
    else
      var known := KnownChunks(r, fe, found);
      Uploading(pieces, UploadPlan(r.c, r.key, CdcMaxSize, Refs(r.c, pieces), retained, file, known), 0)
  }

  function AfterReadSmall(r: Job, fe: ScanEntry, content: Bytes, again: Bytes): Phase {
    if !UsableKey(r.key) then ErrorPhase(fe, Failed)
    else if SameHash(r, fe, SHA256Bytes(r.c, content)) then SmallCompare(content, again)
    else SmallProbe(content, again)
  }

  /** The hash and the blob the next put of this phase stores. */
  function PutHash(r: Job, phase: Phase): Hash {
    match phase
    case Uploading(_, plan, next) => if next < |plan.puts| then plan.puts[next].0 else ""
    case SmallPut(content, _) => SHA256Bytes(r.c, content)
    case _ => ""
  }

  /** Without a key a small file is hashed and then read again; the second read is what is stored. */
  function PutBlob(r: Job, fe: ScanEntry, phase: Phase, iv: SmallIV): Bytes {
    match phase
    case Uploading(_, plan, next) =>
      if next < |plan.puts| then ChunkBlob(r.c, r.key, iv, plan.puts[next].1, r.tryCompress(fe.path)) else []
    case SmallPut(content, again) =>
      if r.key == [] then again else ChunkBlob(r.c, r.key, iv, content, r.tryCompress(fe.path))
    case _ => []
  }

  function AfterPut(r: Job, fe: ScanEntry, phase: Phase, ok: bool): Phase {
    if !ok then ErrorPhase(fe, Failed)
    else
      match phase
      case Uploading(pieces, plan, next) => Uploading(pieces, plan, next + 1)
      case SmallPut(content, _) =>
        var h := SHA256Bytes(r.c, content);
        Ready(MakeEntry(fe, h, Resolve(PrevOf(r, fe), h), []), Resolve(PrevOf(r, fe), h), fe.size)
      case _ => phase
  }

  function AfterFinish(r: Job, fe: ScanEntry, pieces: seq<Bytes>, plan: Plan): Phase {
    var h := SHA256Bytes(r.c, Flatten(pieces));
    var kind := Resolve(PrevOf(r, fe), h);
    if !plan.ok then ErrorPhase(fe, Failed)
    else Ready(MakeEntry(fe, h, kind, Refs(r.c, pieces)), kind, PutBytes(plan.puts))
  }

  predicate CanPut(phase: Phase) {
    phase.SmallPut? || (phase.Uploading? && phase.next < |phase.plan.puts|)
  }

  /** Which actions a phase allows, given the blobs in the store. */
  predicate Allowed(r: Job, fe: ScanEntry, phase: Phase, blobs: map<Hash, Bytes>, a: Action) {
    match a
    case Probe(_, found, _) => (phase.Queued? || phase.Comparing? || phase.SmallCompare? || phase.SmallProbe?) &&
      found <= blobs.Keys
    case ReadLarge(_, pieces, _) => phase.Hashing? && fe.size >= DefaultChunkSize && Chunkable(pieces)
    case Prepare(_, found, _, _) => phase.Preparing? && found <= blobs.Keys
    case ReadSmall(_, _, _) => phase.Hashing? && fe.size < DefaultChunkSize
    case PutNext(_, _, stored, ok) => CanPut(phase) && (ok ==> stored || PutHash(r, phase) in blobs)
    case Finish(_) => phase.Uploading? && phase.next == |phase.plan.puts|
    case Fail(_, _) => !phase.Ready? && !phase.Done?
    case Commit(_) => phase.Ready?
  }

  /** What either chunker delivers: non-empty pieces of bounded size. */
  predicate Chunkable(pieces: seq<Bytes>) {
    NonEmpty(pieces) && forall i :: 0 <= i < |pieces| ==> |pieces[i]| <= 16 * 1024 * 1024
  }

  function NextPhase(r: Job, fe: ScanEntry, phase: Phase, blobs: map<Hash, Bytes>, a: Action): Phase
    requires Allowed(r, fe, phase, blobs, a)
  {
    match a
    case Probe(_, found, denied) => AfterProbe(r, fe, phase, found, denied)
    case ReadLarge(_, pieces, keep) => AfterReadLarge(r, fe, phase.recheck, pieces, keep)
    case Prepare(_, found, denied, file) => AfterPrepare(r, fe, phase.pieces, phase.retained, found, denied, file)
    case ReadSmall(_, content, again) => AfterReadSmall(r, fe, content, again)
    case PutNext(_, _, _, ok) => AfterPut(r, fe, phase, ok)
    case Finish(_) => AfterFinish(r, fe, phase.pieces, phase.plan)
    case Fail(_, locked) => ErrorPhase(fe, if locked then Locked else Failed)
    case Commit(_) => Done(phase.entry, phase.kind)
  }

  /** A put may fail before or after the blob appeared, or find the name taken. */
  function NextBlobs(r: Job, fe: ScanEntry, phase: Phase, blobs: map<Hash, Bytes>, a: Action): map<Hash, Bytes> {
    if a.PutNext? && a.stored && CanPut(phase) then blobs[PutHash(r, phase) := PutBlob(r, fe, phase, a.iv)] else blobs
  }

  function Count(n: Counts, kind: Kind, uploaded: nat): Counts {
    match kind
    case New => n.(newFiles := n.newFiles + 1, uploaded := n.uploaded + uploaded)
    case Changed => n.(changed := n.changed + 1, uploaded := n.uploaded + uploaded)
    case Unchanged => n.(same := n.same + 1, uploaded := n.uploaded + uploaded)
    case Failed => n.(failed := n.failed + 1)
    case Locked => n.(locked := n.locked + 1)
  }

  predicate Enabled(r: Job, s: State, a: Action) {
    a.i < |r.scan| && a.i < |s.phases| && Allowed(r, r.scan[a.i], s.phases[a.i], s.blobs, a)
  }

  /** One step: the file's phase moves on, a put reaches the store, a commit reaches the manifest. */
  function Do(r: Job, s: State, a: Action): State
    requires Enabled(r, s, a)
  {
    var fe, phase := r.scan[a.i], s.phases[a.i];
    var s' := s.(phases := s.phases[a.i := NextPhase(r, fe, phase, s.blobs, a)],
                 blobs := NextBlobs(r, fe, phase, s.blobs, a));
    if a.Commit? then
      var op := File(phase.entry);
      s'.(tree := Apply(s.tree, op), log := s.log + [op], counts := Count(s.counts, phase.kind, phase.uploaded))
    else s'
  }

  function EmptyOps(dirs: seq<string>): seq<Op> {
    seq(|dirs|, i requires 0 <= i < |dirs| => Empty(dirs[i]))
  }

  function Start(r: Job, blobs: map<Hash, Bytes>): State {
    var log := EmptyOps(r.emptyDirs);
    State(seq(|r.scan|, _ => Queued), blobs, Build(log), log, Counts(0, 0, 0, 0, 0, 0))
  }

  /** `t` is reached from `s` by these actions. */
  predicate Reaches(r: Job, s: State, actions: seq<Action>, t: State)
    decreases |actions|
  {
    if actions == [] then s == t
    else Enabled(r, s, actions[0]) && Reaches(r, Do(r, s, actions[0]), actions[1..], t)
  }

  lemma {:induction false} ReachesCons(r: Job, s: State, a: Action, mid: State, rest: seq<Action>, t: State)
    requires Enabled(r, s, a) && Do(r, s, a) == mid && Reaches(r, mid, rest, t)
    ensures Reaches(r, s, [a] + rest, t)
  {
    hide Enabled, Do;
    assert ([a] + rest)[1..] == rest;
  }

  lemma {:induction false} ReachesSnoc(r: Job, s: State, actions: seq<Action>, t: State, a: Action)
    requires Reaches(r, s, actions, t) && Enabled(r, t, a)
    ensures Reaches(r, s, actions + [a], Do(r, t, a))
    decreases |actions|
  {
    hide Enabled, Do;
    if actions == [] {
      assert Reaches(r, Do(r, t, a), [], Do(r, t, a));
      ReachesCons(r, s, a, Do(r, t, a), [], Do(r, t, a));
      assert actions + [a] == [a] + [];
    } else {
      ReachesSnoc(r, Do(r, s, actions[0]), actions[1..], t, a);
      assert actions + [a] == [actions[0]] + (actions[1..] + [a]);
      ReachesCons(r, s, actions[0], Do(r, s, actions[0]), actions[1..] + [a], Do(r, t, a));
    }
  }

  predicate Finished(s: State) {
    forall i :: 0 <= i < |s.phases| ==> s.phases[i].Done?
  }

  // ----- The fast path -------------------------------------------------------

  /** Every hash this entry restores from is in the set. */
  ghost predicate BlobsIn(e: FileEntry, found: set<Hash>) {
    if e.chunks == [] then e.contentHash in found else forall ch :: ch in e.chunks ==> ch.hash in found
  }

  /**
   A file goes by without being read exactly if its previous entry has its mtime and
   size and a content hash, and every blob of that entry was found; the new entry is
   then the previous content under the scanned metadata. A denied query fails the
   file, a missing blob sends it to the reader, which then does not ask again.
   */
  lemma FastPathIff(r: Job, fe: ScanEntry, blobs: map<Hash, Bytes>, i: nat, found: set<Hash>, denied: bool)
    requires found <= blobs.Keys
    ensures var next := NextPhase(r, fe, Queued, blobs, Probe(i, found, denied));
      var same := fe.path in r.prev && r.prev[fe.path].mtime == fe.mtime && r.prev[fe.path].size == fe.size
        && |r.prev[fe.path].contentHash| >= 2;
      && (next.Ready? && next.entry.status == "unchanged" <==> same && !denied && BlobsIn(r.prev[fe.path], found))
      && (next.Ready? && next.entry.status == "unchanged" ==>
            var e := r.prev[fe.path].(name := fe.path, mode := fe.mode, status := "unchanged");
            next == Ready(e, Unchanged, 0))
      && (next.Ready? && next.entry.status != "unchanged" <==> same && denied)
      && (next == Hashing(true) <==> !same)
      && (next == Hashing(false) <==> same && !denied && !BlobsIn(r.prev[fe.path], found))
  {
    assert "error"[0] == 'e' && "unchanged"[0] == 'u';
    if fe.path in r.prev { FoundIsBlobsIn(r.prev[fe.path], found); }
  }

  lemma FoundIsBlobsIn(e: FileEntry, found: set<Hash>)
    ensures AllFound(e, found) <==> BlobsIn(e, found)
  {
    var hashes := e.Hashes();
    if e.chunks == [] {
      assert hashes == [e.contentHash] && hashes[0] == e.contentHash;
    } else {
      assert forall i :: 0 <= i < |hashes| ==> hashes[i] == e.chunks[i].hash;
      if AllFound(e, found) {
        forall ch | ch in e.chunks ensures ch.hash in found {
          var i :| 0 <= i < |e.chunks| && e.chunks[i] == ch;
          assert hashes[i] in found;
        }
      }
    }
  }

  /** A denied query fails the file wherever it asks. */
  lemma DeniedFails(r: Job, fe: ScanEntry, phase: Phase, blobs: map<Hash, Bytes>, a: Action)
    requires Allowed(r, fe, phase, blobs, a) && (a.Probe? || a.Prepare?) && a.denied
    ensures var next := NextPhase(r, fe, phase, blobs, a);
      next == Hashing(true) || (next.Ready? && next.entry.status == "error" && next.entry.contentHash == "")
    ensures !phase.Queued? ==> NextPhase(r, fe, phase, blobs, a).Ready?
  {
    hide SHA256Bytes, UploadPlan, Refs, Flatten, AllFound;
  }

  /**
   A large file whose chunks were kept in memory by the hash pass uploads exactly the
   pieces hashed that its previous chunks do not cover, whatever the file holds by then,
   whether or not it was compared with its previous entry first.
   */
  lemma KeptChunksAreUploaded(r: Job, fe: ScanEntry, recheck: bool, pieces: seq<Bytes>, blobs: map<Hash, Bytes>,
                              i: nat, asked: set<Hash>, found: set<Hash>, file: Bytes)
    requires Chunkable(pieces) && UsableKey(r.key) && asked <= blobs.Keys && found <= blobs.Keys
    requires fe.size >= DefaultChunkSize
    ensures var read := NextPhase(r, fe, Hashing(recheck), blobs, ReadLarge(i, pieces, true));
      var asks := if read.Comparing? then NextPhase(r, fe, read, blobs, Probe(i, asked, false)) else read;
      asks.Preparing? ==>
        NextPhase(r, fe, asks, blobs, Prepare(i, found, false, file))
          == Uploading(pieces, Plan(Missing(r.c, pieces, KnownChunks(r, fe, found)), true), 0)
  {
    hide SHA256Bytes, UploadPlan, Flatten, Refs, AllFound;
    UploadPlanExact(r.c, r.key, CdcMaxSize, pieces, pieces, file, KnownChunks(r, fe, found));
  }

  /** A file given up is recorded as locked exactly if it was locked, without content. */
  lemma FailReports(r: Job, fe: ScanEntry, phase: Phase, blobs: map<Hash, Bytes>, i: nat, locked: bool)
    requires Allowed(r, fe, phase, blobs, Fail(i, locked))
    ensures var e := FileEntry(fe.path, "", fe.size, fe.mtime, fe.mode, if locked then "locked" else "error", []);
      var next := NextPhase(r, fe, phase, blobs, Fail(i, locked));
      next.Ready? && next.entry == e && next.uploaded == 0
  {
  }

  /** No file gets stuck: in every phase some step other than giving up can be taken. */
  lemma EveryPhaseGoesOn(r: Job, fe: ScanEntry, phase: Phase, blobs: map<Hash, Bytes>, i: nat)
    requires !phase.Done? && (phase.Uploading? ==> phase.next <= |phase.plan.puts|)
    ensures exists a: Action :: a.i == i && !a.Fail? && Allowed(r, fe, phase, blobs, a)
  {
    hide SHA256Bytes, PutHash;
    var found: set<Hash> := {};
    match phase
    case Queued => assert Allowed(r, fe, phase, blobs, Probe(i, found, false));
    case Hashing(_) =>
      assert Chunkable([]);
      assert Allowed(r, fe, phase, blobs, ReadLarge(i, [], false))
          || Allowed(r, fe, phase, blobs, ReadSmall(i, [], []));
    case Comparing(_, _) => assert Allowed(r, fe, phase, blobs, Probe(i, found, false));
    case Preparing(_, _) => assert Allowed(r, fe, phase, blobs, Prepare(i, found, false, []));
    case Uploading(_, plan, next) =>
      if next < |plan.puts| {
        assert Allowed(r, fe, phase, blobs, PutNext(i, SmallIVWitness(), true, true));
      } else {
        assert Allowed(r, fe, phase, blobs, Finish(i));
      }
    case SmallCompare(_, _) => assert Allowed(r, fe, phase, blobs, Probe(i, found, false));
    case SmallProbe(_, _) => assert Allowed(r, fe, phase, blobs, Probe(i, found, false));
    case SmallPut(_, _) => assert Allowed(r, fe, phase, blobs, PutNext(i, SmallIVWitness(), true, true));
    case Ready(_, _, _) => assert Allowed(r, fe, phase, blobs, Commit(i));
  }

  // ----- Conservation --------------------------------------------------------

  function DoneCount(phases: seq<Phase>): nat {
    if phases == [] then 0
    else DoneCount(phases[..|phases| - 1]) + if phases[|phases| - 1].Done? then 1 else 0
  }

  function DoneOf(phases: seq<Phase>, kind: Kind): nat {
    if phases == [] then 0
    else
      var p := phases[|phases| - 1];
      DoneOf(phases[..|phases| - 1], kind) + if p.Done? && p.kind == kind then 1 else 0
  }

  function DoneSize(phases: seq<Phase>, scan: seq<ScanEntry>): nat
    requires |phases| == |scan|
  {
    if phases == [] then 0
    else
      var n := |phases| - 1;
      DoneSize(phases[..n], scan[..n]) + if phases[n].Done? then scan[n].size else 0
  }

  function ScanSize(scan: seq<ScanEntry>): nat {
    if scan == [] then 0 else ScanSize(scan[..|scan| - 1]) + scan[|scan| - 1].size
  }

  lemma {:induction false} DoneUpdate(phases: seq<Phase>, scan: seq<ScanEntry>, i: nat, p: Phase)
    requires |phases| == |scan| && i < |phases| && !phases[i].Done?
    ensures var after := phases[i := p];
      && DoneCount(after) == DoneCount(phases) + (if p.Done? then 1 else 0)
      && DoneSize(after, scan) == DoneSize(phases, scan) + (if p.Done? then scan[i].size else 0)
      && forall kind :: DoneOf(after, kind) == DoneOf(phases, kind) + (if p.Done? && p.kind == kind then 1 else 0)
    decreases |phases|
  {
    var n := |phases| - 1;
    var after := phases[i := p];
    if i == n {
      assert after[..n] == phases[..n];
    } else {
      DoneUpdate(phases[..n], scan[..n], i, p);
      assert after[..n] == phases[..n][i := p];
    }
  }

  lemma {:induction false} DoneAll(phases: seq<Phase>, scan: seq<ScanEntry>)
    requires |phases| == |scan| && forall i :: 0 <= i < |phases| ==> phases[i].Done?
    ensures DoneCount(phases) == |scan| && DoneSize(phases, scan) == ScanSize(scan)
    decreases |phases|
  {
    if phases != [] { DoneAll(phases[..|phases| - 1], scan[..|scan| - 1]); }
  }

  lemma {:induction false} DoneNone(phases: seq<Phase>, scan: seq<ScanEntry>)
    requires |phases| == |scan| && forall i :: 0 <= i < |phases| ==> !phases[i].Done?
    ensures DoneCount(phases) == 0 && DoneSize(phases, scan) == 0 && forall kind :: DoneOf(phases, kind) == 0
    decreases |phases|
  {
    if phases != [] { DoneNone(phases[..|phases| - 1], scan[..|scan| - 1]); }
  }

  lemma {:induction false} KindPresent(phases: seq<Phase>, kind: Kind)
    ensures DoneOf(phases, kind) > 0 <==> exists i :: 0 <= i < |phases| && phases[i].Done? && phases[i].kind == kind
  {
    if phases != [] {
      var init, n := phases[..|phases| - 1], |phases| - 1;
      KindPresent(init, kind);
      if DoneOf(init, kind) > 0 {
        var i :| 0 <= i < |init| && init[i].Done? && init[i].kind == kind;
        assert phases[i] == init[i];
      }
      if i :| 0 <= i < |phases| && phases[i].Done? && phases[i].kind == kind {
        if i < n { assert init[i] == phases[i]; }
      }
    }
  }

  function PathIn(fe: ScanEntry): string {
    ManifestPath(fe.path)
  }

  /** A walk delivers each path once. */
  ghost predicate DistinctPaths(scan: seq<ScanEntry>) {
    forall i, j :: 0 <= i < j < |scan| ==> PathIn(scan[i]) != PathIn(scan[j])
  }

  /** A finished phase carries an entry for its own file, with the status of its kind. */
  predicate EntryFor(fe: ScanEntry, e: FileEntry, kind: Kind) {
    && e.name == fe.path && e.size == fe.size && e.mtime == fe.mtime && e.mode == fe.mode
    && e.status == StatusOf(kind)
  }

  predicate Consistent(fe: ScanEntry, phase: Phase) {
    (phase.Ready? || phase.Done?) ==> EntryFor(fe, phase.entry, phase.kind)
  }

  /** The manifest holds the entry of each file that is done, and no other. */
  ghost predicate Recorded(r: Job, phases: seq<Phase>, fm: map<string, FileEntry>)
    requires |phases| == |r.scan|
  {
    && (forall i :: 0 <= i < |phases| && phases[i].Done? ==>
          PathIn(r.scan[i]) in fm && fm[PathIn(r.scan[i])] == phases[i].entry.(name := PathIn(r.scan[i])))
    && (forall p :: p in fm ==> exists i :: 0 <= i < |phases| && phases[i].Done? && PathIn(r.scan[i]) == p)
  }

  ghost predicate CountsMatch(n: Counts, phases: seq<Phase>) {
    && n.newFiles == DoneOf(phases, New) && n.changed == DoneOf(phases, Changed) && n.same == DoneOf(phases, Unchanged)
    && n.failed == DoneOf(phases, Failed) && n.locked == DoneOf(phases, Locked)
    && n.newFiles + n.changed + n.same + n.failed + n.locked == DoneCount(phases)
  }

  ghost predicate Conserved(r: Job, s: State) {
    && |s.phases| == |r.scan|
    && (forall i :: 0 <= i < |s.phases| ==> Consistent(r.scan[i], s.phases[i]))
    && CountsMatch(s.counts, s.phases)
    && s.tree == Build(s.log)
    && s.tree.fileCount == DoneCount(s.phases)
    && s.tree.totalSize == DoneSize(s.phases, r.scan)
    && Recorded(r, s.phases, Added(s.log))
    && IsFileMap(s.tree.dirs, Added(s.log))
  }

  lemma ProbeConsistent(r: Job, fe: ScanEntry, phase: Phase, found: set<Hash>, denied: bool)
    requires Consistent(fe, phase)
    ensures Consistent(fe, AfterProbe(r, fe, phase, found, denied))
    ensures AfterProbe(r, fe, phase, found, denied).Done? ==> phase.Done?
  {
    hide SHA256Bytes, AllFound, LooksUnchanged;
  }

  lemma PhaseConsistent(r: Job, fe: ScanEntry, phase: Phase, blobs: map<Hash, Bytes>, a: Action)
    requires Allowed(r, fe, phase, blobs, a) && Consistent(fe, phase)
    ensures Consistent(fe, NextPhase(r, fe, phase, blobs, a))
    ensures NextPhase(r, fe, phase, blobs, a).Done? <==> a.Commit?
  {
    hide SHA256Bytes, UploadPlan, Flatten, Refs, AfterProbe;
    if a.Probe? { ProbeConsistent(r, fe, phase, a.found, a.denied); }
  }

  lemma CountMatches(n: Counts, phases: seq<Phase>, scan: seq<ScanEntry>, i: nat, e: FileEntry, kind: Kind,
                     uploaded: nat)
    requires |phases| == |scan| && i < |phases| && !phases[i].Done? && CountsMatch(n, phases)
    ensures CountsMatch(Count(n, kind, uploaded), phases[i := Done(e, kind)])
  {
    DoneUpdate(phases, scan, i, Done(e, kind));
  }

  lemma NotDoneMatches(n: Counts, phases: seq<Phase>, scan: seq<ScanEntry>, i: nat, p: Phase)
    requires |phases| == |scan| && i < |phases| && !phases[i].Done? && !p.Done? && CountsMatch(n, phases)
    ensures CountsMatch(n, phases[i := p])
  {
    DoneUpdate(phases, scan, i, p);
  }

  lemma RecordCommit(r: Job, phases: seq<Phase>, fm: map<string, FileEntry>, i: nat, e: FileEntry, kind: Kind)
    requires |phases| == |r.scan| && i < |phases| && !phases[i].Done? && DistinctPaths(r.scan)
    requires Recorded(r, phases, fm) && e.name == r.scan[i].path
    ensures PathIn(r.scan[i]) !in fm
    ensures Recorded(r, phases[i := Done(e, kind)], Record(fm, File(e)))
  {
    hide ManifestPath;
    var path := PathIn(r.scan[i]);
    forall p | p in fm
      ensures p != path
      ensures exists j :: 0 <= j < |phases| && phases[i := Done(e, kind)][j].Done? && PathIn(r.scan[j]) == p
    {
      var j :| 0 <= j < |phases| && phases[j].Done? && PathIn(r.scan[j]) == p;
      assert phases[i := Done(e, kind)][j] == phases[j];
    }
  }

  lemma RecordOther(r: Job, phases: seq<Phase>, fm: map<string, FileEntry>, i: nat, p: Phase)
    requires |phases| == |r.scan| && i < |phases| && !phases[i].Done? && !p.Done?
    requires Recorded(r, phases, fm)
    ensures Recorded(r, phases[i := p], fm)
  {
    hide ManifestPath;
    var after := phases[i := p];
    forall q | q in fm
      ensures exists j :: 0 <= j < |after| && after[j].Done? && PathIn(r.scan[j]) == q
    {
      var j :| 0 <= j < |phases| && phases[j].Done? && PathIn(r.scan[j]) == q;
      assert after[j] == phases[j];
    }
  }

  lemma BuildSnoc(log: seq<Op>, op: Op)
    ensures Build(log + [op]) == Apply(Build(log), op) && Added(log + [op]) == Record(Added(log), op)
  {
    hide Apply, Record;
    assert (log + [op])[..|log|] == log;
  }

  /** What a commit does, field by field. */
  lemma CommitStep(r: Job, s: State, a: Action)
    requires Enabled(r, s, a) && a.Commit?
    ensures a.i < |s.phases| && a.i < |r.scan|
    ensures var phase, s' := s.phases[a.i], Do(r, s, a);
      && phase.Ready? && s'.phases == s.phases[a.i := Done(phase.entry, phase.kind)]
      && s'.tree == Apply(s.tree, File(phase.entry)) && s'.log == s.log + [File(phase.entry)]
      && s'.counts == Count(s.counts, phase.kind, phase.uploaded)
      && s'.tree.fileCount == s.tree.fileCount + 1 && s'.tree.totalSize == s.tree.totalSize + phase.entry.size
  {
    hide AddFileTo, Count;
  }

  lemma ConsistentAfter(r: Job, phases: seq<Phase>, i: nat, p: Phase)
    requires |phases| == |r.scan| && i < |phases| && Consistent(r.scan[i], p)
    requires forall j :: 0 <= j < |phases| ==> Consistent(r.scan[j], phases[j])
    ensures forall j :: 0 <= j < |phases| ==> Consistent(r.scan[j], phases[i := p][j])
  {
    hide Consistent;
  }

  lemma CommitConserves(r: Job, s: State, a: Action)
    requires DistinctPaths(r.scan) && Conserved(r, s) && Enabled(r, s, a) && a.Commit?
    ensures Conserved(r, Do(r, s, a))
  {
    hide Enabled, Do, Apply, Count, DistinctPaths, Recorded, CountsMatch, IsFileMap, Build, Added, Record, DoneCount,
         DoneSize, DoneOf, StatusOf, ManifestPath;
    CommitStep(r, s, a);
    var phase := s.phases[a.i];
    assert Consistent(r.scan[a.i], phase);
    ConsistentAfter(r, s.phases, a.i, Done(phase.entry, phase.kind));
    DoneUpdate(s.phases, r.scan, a.i, Done(phase.entry, phase.kind));
    CountMatches(s.counts, s.phases, r.scan, a.i, phase.entry, phase.kind, phase.uploaded);
    RecordCommit(r, s.phases, Added(s.log), a.i, phase.entry, phase.kind);
    BuildSnoc(s.log, File(phase.entry));
    ApplyKeepsMap(s.tree, Added(s.log), File(phase.entry));
  }

  lemma OtherConserves(r: Job, s: State, a: Action)
    requires Conserved(r, s) && Enabled(r, s, a) && !a.Commit?
    ensures Conserved(r, Do(r, s, a))
  {
    hide Recorded, CountsMatch, IsFileMap, Build, Added, NextPhase, NextBlobs, DoneCount, DoneSize;
    var p := NextPhase(r, r.scan[a.i], s.phases[a.i], s.blobs, a);
    assert Consistent(r.scan[a.i], s.phases[a.i]);
    PhaseConsistent(r, r.scan[a.i], s.phases[a.i], s.blobs, a);
    assert !s.phases[a.i].Done?;
    DoneUpdate(s.phases, r.scan, a.i, p);
    NotDoneMatches(s.counts, s.phases, r.scan, a.i, p);
    RecordOther(r, s.phases, Added(s.log), a.i, p);
  }

  lemma {:induction false} RunConserves(r: Job, s: State, actions: seq<Action>, t: State)
    requires DistinctPaths(r.scan) && Conserved(r, s) && Reaches(r, s, actions, t)
    ensures Conserved(r, t)
    decreases |actions|
  {
    hide DistinctPaths, Conserved, Do, Enabled;
    if actions != [] {
      if actions[0].Commit? {
        CommitConserves(r, s, actions[0]);
      } else {
        OtherConserves(r, s, actions[0]);
      }
      RunConserves(r, Do(r, s, actions[0]), actions[1..], t);
    }
  }

  lemma {:induction false} EmptyOpsStart(dirs: seq<string>)
    ensures var log := EmptyOps(dirs);
      Added(log) == map[] && IsFileMap(Build(log).dirs, map[]) && Build(log).fileCount == 0 && Build(log).totalSize == 0
  {
    hide AddEmptyDirTo, IsFileMap;
    if dirs == [] {
      NewTreeInv();
    } else {
      var init := dirs[..|dirs| - 1];
      EmptyOpsStart(init);
      assert EmptyOps(dirs) == EmptyOps(init) + [Empty(dirs[|dirs| - 1])];
      BuildSnoc(EmptyOps(init), Empty(dirs[|dirs| - 1]));
      ApplyKeepsMap(Build(EmptyOps(init)), map[], Empty(dirs[|dirs| - 1]));
    }
  }

  lemma StartConserved(r: Job, blobs: map<Hash, Bytes>)
    ensures Conserved(r, Start(r, blobs))
  {
    hide Build, Added, IsFileMap;
    EmptyOpsStart(r.emptyDirs);
    DoneNone(Start(r, blobs).phases, r.scan);
  }

  /** The paths of a scan. */
  function ScanPaths(scan: seq<ScanEntry>): set<string> {
    set i | 0 <= i < |scan| :: PathIn(scan[i])
  }

  /**
   For every schedule that runs to its end: each scanned path is in the manifest
   exactly once, the five counters add up to the scan and to the manifest's file
   count, its total size is the scanned size, and the snapshot is complete exactly
   when nothing failed to scan, failed, or was locked.
   */
  lemma {:induction false} PoolConserves(r: Job, blobs: map<Hash, Bytes>, actions: seq<Action>, t: State,
                                         scanErrors: int)
    requires DistinctPaths(r.scan) && Reaches(r, Start(r, blobs), actions, t) && Finished(t)
    ensures t.tree == Build(t.log) && IsFileMap(t.tree.dirs, Added(t.log)) && Added(t.log).Keys == ScanPaths(r.scan)
    ensures var n := t.counts;
      n.newFiles + n.changed + n.same + n.failed + n.locked == |r.scan| == t.tree.fileCount == |Added(t.log)|
    ensures t.tree.totalSize == ScanSize(r.scan)
    ensures Complete(t.tree.dirs, scanErrors) <==> scanErrors <= 0 && t.counts.failed == 0 && t.counts.locked == 0
  {
    hide Reaches, Start, Build, Added, IsFileMap, DoneCount, DoneSize, DoneOf, ManifestPath, Complete, Missed,
         Consistent, AllBackedUp;
    StartConserved(r, blobs);
    RunConserves(r, Start(r, blobs), actions, t);
    DoneAll(t.phases, r.scan);
    assert Added(t.log).Keys == ScanPaths(r.scan);
    PathCount(r.scan);
    MissedCounts(t.phases);
    CompleteByMap(t.tree.dirs, Added(t.log), scanErrors);
    CleanIff(r, t.phases, Added(t.log));
  }

  lemma {:induction false} PathCount(scan: seq<ScanEntry>)
    requires DistinctPaths(scan)
    ensures |ScanPaths(scan)| == |scan|
  {
    hide ManifestPath;
    if scan != [] {
      var init, n := scan[..|scan| - 1], |scan| - 1;
      PathCount(init);
      assert ScanPaths(scan) == ScanPaths(init) + {PathIn(scan[n])};
      assert PathIn(scan[n]) !in ScanPaths(init);
    }
  }

  lemma StatusMissed()
    ensures forall kind :: Missed(StatusOf(kind)) <==> kind == Failed || kind == Locked
  {
    assert "new"[0] == 'n' && "changed"[0] == 'c' && "unchanged"[0] == 'u' && "error"[0] == 'e' && "locked"[0] == 'l';
  }

  ghost predicate NoneMissed(fm: map<string, FileEntry>) {
    forall p :: p in fm ==> !Missed(fm[p].status)
  }

  predicate IsMissed(phase: Phase) {
    phase.Done? && (phase.kind == Failed || phase.kind == Locked)
  }

  ghost predicate AllBackedUp(phases: seq<Phase>) {
    forall i :: 0 <= i < |phases| ==> !IsMissed(phases[i])
  }

  lemma MissedCounts(phases: seq<Phase>)
    ensures AllBackedUp(phases) <==> DoneOf(phases, Failed) == 0 && DoneOf(phases, Locked) == 0
  {
    hide DoneOf;
    KindPresent(phases, Failed);
    KindPresent(phases, Locked);
  }

  /** Error statuses in the manifest are exactly those of failed and locked files. */
  lemma CleanIff(r: Job, phases: seq<Phase>, fm: map<string, FileEntry>)
    requires |phases| == |r.scan| && Recorded(r, phases, fm)
    requires forall i :: 0 <= i < |phases| ==> phases[i].Done? && Consistent(r.scan[i], phases[i])
    ensures NoneMissed(fm) <==> AllBackedUp(phases)
  {
    hide ManifestPath, Missed, StatusOf;
    StatusMissed();
    if NoneMissed(fm) {
      forall i | 0 <= i < |phases| ensures !IsMissed(phases[i]) {
        assert PathIn(r.scan[i]) in fm && fm[PathIn(r.scan[i])].status == StatusOf(phases[i].kind);
      }
    }
    if AllBackedUp(phases) {
      forall p | p in fm ensures !Missed(fm[p].status) {
        var i :| 0 <= i < |phases| && phases[i].Done? && PathIn(r.scan[i]) == p;
        assert !IsMissed(phases[i]) && fm[p].status == StatusOf(phases[i].kind);
      }
    }
  }
}
