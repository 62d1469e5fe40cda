/**
 What a finished run of the worker pool reports: the status of each entry, the
 counters over these statuses, and the bytes it counts as uploaded.
 */
module PoolStatus {
  import opened ByteSeqs
  import opened Primitives
  import opened Hashing
  import opened ManifestTypes
  import opened ManifestTree
  import opened BlobFormat
  import opened ChunkPlan
  import opened ChunkBuffers
  import opened Pool
  import opened PoolContent

  // ----- Statuses ------------------------------------------------------------

  /** The file could not be read or stored. */
  predicate GaveUp(e: FileEntry) {
    e.status == "error" || e.status == "locked"
  }

  /** An entry's status tells how its content hash compares with the previous entry of the path. */
  ghost predicate StatusTrue(r: Job, path: string, e: FileEntry) {
    || GaveUp(e)
    || (&& (e.status == "new" <==> path !in r.prev)
        && (e.status == "changed" <==> path in r.prev && r.prev[path].contentHash != e.contentHash)
        && (e.status == "unchanged" <==> path in r.prev && r.prev[path].contentHash == e.contentHash))
  }

  /** An entry carries the metadata of the scan, by which the next run recognises the file. */
  predicate SameMetadata(fe: ScanEntry, e: FileEntry) {
    e.size == fe.size && e.mtime == fe.mtime && e.mode == fe.mode
  }

  ghost predicate ReportTrue(r: Job, fe: ScanEntry, phase: Phase) {
    phase.Ready? || phase.Done? ==> StatusTrue(r, fe.path, phase.entry)
  }

  lemma StatusesDiffer()
    ensures "new" != "changed" && "new" != "unchanged" && "changed" != "unchanged"
    ensures "error" != "new" && "error" != "changed" && "error" != "unchanged" && "error" != "locked"
    ensures "locked" != "new" && "locked" != "changed" && "locked" != "unchanged"
  {
    assert "new"[0] == 'n' && "changed"[0] == 'c' && "unchanged"[0] == 'u' && "error"[0] == 'e' && "locked"[0] == 'l';
  }

  lemma EntryStatusTrue(r: Job, fe: ScanEntry, h: Hash, chunks: seq<ChunkRef>)
    ensures StatusTrue(r, fe.path, MakeEntry(fe, h, Resolve(PrevOf(r, fe), h), chunks))
  {
    StatusesDiffer();
  }

  lemma UnchangedStatusTrue(r: Job, fe: ScanEntry)
    requires fe.path in r.prev
    ensures StatusTrue(r, fe.path, UnchangedPhase(fe, r.prev[fe.path]).entry)
  {
    StatusesDiffer();
  }

  lemma NextReportTrue(r: Job, fe: ScanEntry, phase: Phase, blobs: map<Hash, Bytes>, a: Action)
    requires Allowed(r, fe, phase, blobs, a) && ReportTrue(r, fe, phase)
    ensures ReportTrue(r, fe, NextPhase(r, fe, phase, blobs, a))
  {
    hide SHA256Bytes, AllFound, UploadPlan, Refs, Flatten, PutBytes, StatusTrue, Resolve, UnchangedPhase;
    forall h, chunks ensures StatusTrue(r, fe.path, MakeEntry(fe, h, Resolve(PrevOf(r, fe), h), chunks)) {
      EntryStatusTrue(r, fe, h, chunks);
    }
    if fe.path in r.prev { UnchangedStatusTrue(r, fe); }
    forall kind | kind == Kind.Failed || kind == Locked ensures StatusTrue(r, fe.path, MakeEntry(fe, "", kind, [])) {
      GaveUpTrue(r, fe, kind);
    }
    UnchangedIsReady(fe);
  }

  lemma UnchangedIsReady(fe: ScanEntry)
    ensures forall e :: UnchangedPhase(fe, e).Ready?
  {
  }

  lemma GaveUpTrue(r: Job, fe: ScanEntry, kind: Kind)
    requires kind == Kind.Failed || kind == Locked
    ensures StatusTrue(r, fe.path, MakeEntry(fe, "", kind, []))
  {
  }

  ghost predicate Reported(r: Job, s: State) {
    |s.phases| == |r.scan| && forall i :: 0 <= i < |s.phases| ==> ReportTrue(r, r.scan[i], s.phases[i])
  }

  lemma {:induction false} RunReported(r: Job, s: State, actions: seq<Action>, t: State)
    requires Reported(r, s) && Reaches(r, s, actions, t)
    ensures Reported(r, t)
    decreases |actions|
  {
    hide NextPhase, NextBlobs, ReportTrue, Allowed, Apply, Count;
    if actions != [] {
      var a := actions[0];
      NextReportTrue(r, r.scan[a.i], s.phases[a.i], s.blobs, a);
      RunReported(r, Do(r, s, a), actions[1..], t);
    }
  }

  // ----- Counters ------------------------------------------------------------

  /** The scanned files whose entry has this status. */
  function WithStatus(r: Job, fm: map<string, FileEntry>, status: string): set<nat> {
    set i: nat | i < |r.scan| && PathIn(r.scan[i]) in fm && fm[PathIn(r.scan[i])].status == status
  }

  function DoneAs(phases: seq<Phase>, kind: Kind): set<nat> {
    set i: nat | i < |phases| && phases[i].Done? && phases[i].kind == kind
  }

  lemma {:induction false} DoneOfIsSize(phases: seq<Phase>, kind: Kind)
    ensures DoneOf(phases, kind) == |DoneAs(phases, kind)|
  {
    if phases != [] {
      var n := |phases| - 1;
      DoneOfIsSize(phases[..n], kind);
      var init := DoneAs(phases[..n], kind);
      assert n !in init;
      if phases[n].Done? && phases[n].kind == kind {
        assert DoneAs(phases, kind) == init + {n};
      } else {
        assert DoneAs(phases, kind) == init;
      }
    }
  }

  lemma StatusOfInjective(k: Kind, l: Kind)
    ensures StatusOf(k) == StatusOf(l) <==> k == l
  {
    StatusesDiffer();
  }

  lemma CountIsStatus(r: Job, t: State, kind: Kind)
    requires Conserved(r, t) && Finished(t)
    ensures DoneOf(t.phases, kind) == |WithStatus(r, Added(t.log), StatusOf(kind))|
  {
    hide CountsMatch, Build, Added, IsFileMap, DoneCount, DoneSize, DoneOf, ManifestPath, StatusOf;
    DoneOfIsSize(t.phases, kind);
    forall i: nat | i < |r.scan|
      ensures PathIn(r.scan[i]) in Added(t.log)
      ensures Added(t.log)[PathIn(r.scan[i])].status == StatusOf(kind) <==> t.phases[i].kind == kind
    {
      StatusOfInjective(t.phases[i].kind, kind);
      assert Consistent(r.scan[i], t.phases[i]);
    }
    assert WithStatus(r, Added(t.log), StatusOf(kind)) == DoneAs(t.phases, kind);
  }

  /**
   For every schedule that ends, whatever the reads returned: each status tells how
   the recorded hash compares with the previous one, and the five counters are the
   numbers of entries with the five statuses.
   */
  lemma {:induction false} PoolReports(r: Job, blobs: map<Hash, Bytes>, actions: seq<Action>, t: State)
    requires DistinctPaths(r.scan) && Reaches(r, Start(r, blobs), actions, t) && Finished(t)
    ensures var fm := Added(t.log);
      && (forall i :: 0 <= i < |r.scan| ==>
            PathIn(r.scan[i]) in fm && StatusTrue(r, r.scan[i].path, fm[PathIn(r.scan[i])]))
      && (forall i :: 0 <= i < |r.scan| ==> SameMetadata(r.scan[i], fm[PathIn(r.scan[i])]))
      && t.counts.newFiles == |WithStatus(r, fm, "new")| && t.counts.changed == |WithStatus(r, fm, "changed")|
      && t.counts.same == |WithStatus(r, fm, "unchanged")| && t.counts.failed == |WithStatus(r, fm, "error")|
      && t.counts.locked == |WithStatus(r, fm, "locked")|
  {
    hide Reaches, Build, Added, IsFileMap, DoneCount, DoneSize, DoneOf, ManifestPath, StatusTrue, WithStatus;
    StartConserved(r, blobs);
    RunConserves(r, Start(r, blobs), actions, t);
    RunReported(r, Start(r, blobs), actions, t);
    CountIsStatus(r, t, New);
    CountIsStatus(r, t, Changed);
    CountIsStatus(r, t, Unchanged);
    CountIsStatus(r, t, Kind.Failed);
    CountIsStatus(r, t, Locked);
    forall i | 0 <= i < |r.scan|
      ensures PathIn(r.scan[i]) in Added(t.log) &&
        StatusTrue(r, r.scan[i].path, Added(t.log)[PathIn(r.scan[i])])
      ensures SameMetadata(r.scan[i], Added(t.log)[PathIn(r.scan[i])])
    {
      assert Consistent(r.scan[i], t.phases[i]);
      RenamedStatus(r, r.scan[i].path, t.phases[i].entry, PathIn(r.scan[i]));
      assert ReportTrue(r, r.scan[i], t.phases[i]);
    }
  }

  lemma RenamedStatus(r: Job, path: string, e: FileEntry, name: string)
    ensures StatusTrue(r, path, e) <==> StatusTrue(r, path, e.(name := name))
  {
  }

  /** The scanned files that were backed up. */
  function Kept(r: Job, fm: map<string, FileEntry>): set<nat> {
    set i: nat | i < |r.scan| && PathIn(r.scan[i]) in fm && !GaveUp(fm[PathIn(r.scan[i])])
  }

  /** Every scanned file was backed up exactly if none failed and none was locked. */
  lemma {:induction false} KeptCount(r: Job, blobs: map<Hash, Bytes>, actions: seq<Action>, t: State)
    requires DistinctPaths(r.scan) && Reaches(r, Start(r, blobs), actions, t) && Finished(t)
    ensures |Kept(r, Added(t.log))| == |r.scan| - t.counts.failed - t.counts.locked
  {
    hide Reaches, Start, Added, ManifestPath, StatusTrue, Kept, WithStatus;
    PoolReports(r, blobs, actions, t);
    KeptOrGivenUp(r, Added(t.log));
  }

  lemma KeptOrGivenUp(r: Job, fm: map<string, FileEntry>)
    requires forall i :: 0 <= i < |r.scan| ==> PathIn(r.scan[i]) in fm
    ensures |Kept(r, fm)| == |r.scan| - |WithStatus(r, fm, "error")| - |WithStatus(r, fm, "locked")|
  {
    hide ManifestPath;
    var failed, locked := WithStatus(r, fm, "error"), WithStatus(r, fm, "locked");
    IndicesCount(|r.scan|);
    StatusesDiffer();
    assert Indices(|r.scan|) == Kept(r, fm) + failed + locked;
    assert Kept(r, fm) !! failed !! locked;
  }

  /** The indices of a scan of this length. */
  function Indices(n: nat): set<nat> {
    if n == 0 then {} else Indices(n - 1) + {n - 1}
  }

  lemma {:induction false} IndicesCount(n: nat)
    ensures |Indices(n)| == n && forall i: nat :: i in Indices(n) <==> i < n
  {
    if n > 0 { IndicesCount(n - 1); }
  }

  /** Whether the previous manifest has this file with the bytes it has now. */
  ghost predicate WasSame(r: Job, source: map<string, Bytes>, path: string) {
    path in r.prev && path in source && r.prev[path].contentHash == SHA256Bytes(r.c, source[path])
  }

  /**
   For every schedule over an unchanging source that ends: of the files that did not
   fail and were not locked, exactly those without a previous entry are new, exactly
   those whose previous entry has another hash than their bytes are changed, exactly
   those whose previous entry has that hash are unchanged, and the counters count them.
   */
  lemma {:induction false} PoolClassifies(r: Job, universe: iset<Bytes>, source: map<string, Bytes>,
                                          blobs: map<Hash, Bytes>, actions: seq<Action>, t: State)
    requires Setting(r, universe, source) && FaithfulRun(r, universe, source, actions) && DistinctPaths(r.scan)
    requires Healthy(r.c, r.key, universe, blobs) && Reaches(r, Start(r, blobs), actions, t) && Finished(t)
    ensures var fm := Added(t.log);
      && (forall i :: i in Kept(r, fm) ==>
            var path, status := r.scan[i].path, fm[PathIn(r.scan[i])].status;
            && (status == "new" <==> path !in r.prev)
            && (status == "changed" <==> path in r.prev && !WasSame(r, source, path))
            && (status == "unchanged" <==> WasSame(r, source, path)))
      && t.counts.newFiles == |set i | i in Kept(r, fm) && r.scan[i].path !in r.prev|
      && t.counts.same == |set i | i in Kept(r, fm) && WasSame(r, source, r.scan[i].path)|
      && t.counts.changed
         == |set i | i in Kept(r, fm) && r.scan[i].path in r.prev && !WasSame(r, source, r.scan[i].path)|
  {
    hide Reaches, Start, Build, Added, ManifestPath, Setting, FaithfulRun, Healthy, DistinctPaths, SHA256Bytes,
         StatusTrue, WithStatus, WasSame;
    var fm := Added(t.log);
    PoolReports(r, blobs, actions, t);
    forall i | i in Kept(r, fm)
      ensures r.scan[i].path in source && fm[PathIn(r.scan[i])].contentHash == SHA256Bytes(r.c, source[r.scan[i].path])
    {
      KeptHash(r, universe, source, blobs, actions, t, i);
    }
    ClassSets(r, source, fm);
  }

  lemma ClassSets(r: Job, source: map<string, Bytes>, fm: map<string, FileEntry>)
    requires forall i :: 0 <= i < |r.scan| ==>
      PathIn(r.scan[i]) in fm && StatusTrue(r, r.scan[i].path, fm[PathIn(r.scan[i])])
    requires forall i :: i in Kept(r, fm) ==>
      && r.scan[i].path in source
      && fm[PathIn(r.scan[i])].contentHash == SHA256Bytes(r.c, source[r.scan[i].path])
    ensures forall i :: i in Kept(r, fm) ==>
      var path, status := r.scan[i].path, fm[PathIn(r.scan[i])].status;
      && (status == "new" <==> path !in r.prev)
      && (status == "changed" <==> path in r.prev && !WasSame(r, source, path))
      && (status == "unchanged" <==> WasSame(r, source, path))
    ensures WithStatus(r, fm, "new") == set i | i in Kept(r, fm) && r.scan[i].path !in r.prev
    ensures WithStatus(r, fm, "unchanged") == set i | i in Kept(r, fm) && WasSame(r, source, r.scan[i].path)
    ensures WithStatus(r, fm, "changed")
         == set i | i in Kept(r, fm) && r.scan[i].path in r.prev && !WasSame(r, source, r.scan[i].path)
  {
    hide SHA256Bytes, ManifestPath;
    StatusesDiffer();
    assert WithStatus(r, fm, "new") == set i | i in Kept(r, fm) && r.scan[i].path !in r.prev;
    assert WithStatus(r, fm, "unchanged") == set i | i in Kept(r, fm) && WasSame(r, source, r.scan[i].path);
    assert WithStatus(r, fm, "changed")
        == set i | i in Kept(r, fm) && r.scan[i].path in r.prev && !WasSame(r, source, r.scan[i].path);
  }

  lemma KeptHash(r: Job, universe: iset<Bytes>, source: map<string, Bytes>, blobs: map<Hash, Bytes>,
                 actions: seq<Action>, t: State, i: nat)
    requires Setting(r, universe, source) && FaithfulRun(r, universe, source, actions) && DistinctPaths(r.scan)
    requires Healthy(r.c, r.key, universe, blobs) && Reaches(r, Start(r, blobs), actions, t) && Finished(t)
    requires i in Kept(r, Added(t.log))
    ensures r.scan[i].path in source
    ensures Added(t.log)[PathIn(r.scan[i])].contentHash == SHA256Bytes(r.c, source[r.scan[i].path])
  {
    hide Reaches, Start, Build, Added, IsFileMap, DoneCount, DoneSize, DoneOf, ManifestPath, FaithfulRun, Healthy,
         CountsMatch, SHA256Bytes, Storable, HonestPrevious, CollisionFree;
    StartConserved(r, blobs);
    RunConserves(r, Start(r, blobs), actions, t);
    PoolBacksUp(r, universe, source, blobs, actions, t);
    assert Scanned(r, universe, source, r.scan[i]);
    assert Consistent(r.scan[i], t.phases[i]);
    assert !IsMissed(t.phases[i]);
    assert DescribesEntry(r.c, universe, t.phases[i].entry, source[r.scan[i].path]);
  }

  // ----- Uploaded bytes --------------------------------------------------------

  /** The bytes of its file that a step puts into the store. */
  function PutSize(fe: ScanEntry, phase: Phase, a: Action): nat {
    if !a.PutNext? || !a.ok then 0
    else if phase.Uploading? && phase.next < |phase.plan.puts| then |phase.plan.puts[phase.next].1|
    else fe.size
  }

  /** The bytes put for each file after these actions, `h` being those put before. */
  function PutHistory(r: Job, s: State, actions: seq<Action>, h: seq<nat>): (after: seq<nat>)
    requires |h| == |r.scan|
    ensures |after| == |r.scan|
    decreases |actions|
  {
    if actions == [] || !Enabled(r, s, actions[0]) then h
    else
      var a := actions[0];
      PutHistory(r, Do(r, s, a), actions[1..], h[a.i := h[a.i] + PutSize(r.scan[a.i], s.phases[a.i], a)])
  }

  /** The bytes put for the files that are done and were neither failed nor locked. */
  function KeptBytes(phases: seq<Phase>, h: seq<nat>): nat
    requires |phases| == |h|
  {
    if phases == [] then 0
    else
      var n := |phases| - 1;
      KeptBytes(phases[..n], h[..n]) + if phases[n].Done? && !IsMissed(phases[n]) then h[n] else 0
  }

  /** What a phase knows about the bytes put for its file. */
  predicate PutsTracked(phase: Phase, n: nat) {
    match phase
    case Uploading(_, plan, next) => next <= |plan.puts| && n == PutBytes(plan.puts[..next])
    case Ready(_, kind, uploaded) => kind == Kind.Failed || kind == Locked || n == uploaded
    case Done(_, _) => true
    case _ => n == 0
  }

  ghost predicate UploadsTracked(r: Job, s: State, h: seq<nat>) {
    && |s.phases| == |r.scan| == |h| && s.counts.uploaded == KeptBytes(s.phases, h)
    && forall i :: 0 <= i < |h| ==> PutsTracked(s.phases[i], h[i])
  }

  lemma NextTracked(r: Job, fe: ScanEntry, phase: Phase, blobs: map<Hash, Bytes>, a: Action, n: nat)
    requires Allowed(r, fe, phase, blobs, a) && PutsTracked(phase, n)
    ensures PutsTracked(NextPhase(r, fe, phase, blobs, a), n + PutSize(fe, phase, a))
  {
    hide SHA256Bytes, AllFound, LooksUnchanged, UploadPlan, Refs, Flatten, PutBytes, StatusOf;
    if phase.Uploading? {
      PutBytesNext(phase.plan.puts, phase.next);
    }
    NothingPut();
  }

  lemma NothingPut()
    ensures forall puts: seq<(Hash, Bytes)> :: PutBytes(puts[..0]) == 0
  {
  }

  lemma PutBytesNext(puts: seq<(Hash, Bytes)>, k: nat)
    requires k <= |puts|
    ensures k < |puts| ==> PutBytes(puts[..k + 1]) == PutBytes(puts[..k]) + |puts[k].1|
    ensures k == |puts| ==> PutBytes(puts[..k]) == PutBytes(puts)
  {
    if k < |puts| {
      assert puts[..k + 1][..k] == puts[..k];
    } else {
      assert puts[..k] == puts;
    }
  }

  /** A step of a file that is not done yet. */
  lemma {:induction false} KeptUpdate(phases: seq<Phase>, h: seq<nat>, i: nat, p: Phase, n: nat)
    requires |phases| == |h| && i < |h| && !phases[i].Done?
    ensures KeptBytes(phases[i := p], h[i := n]) == KeptBytes(phases, h) + if p.Done? && !IsMissed(p) then n else 0
    decreases |phases|
  {
    var last := |phases| - 1;
    if i == last {
      assert phases[i := p][..last] == phases[..last] && h[i := n][..last] == h[..last];
    } else {
      KeptUpdate(phases[..last], h[..last], i, p, n);
      assert phases[i := p][..last] == phases[..last][i := p] && h[i := n][..last] == h[..last][i := n];
    }
  }

  lemma StepTracked(r: Job, s: State, a: Action, h: seq<nat>)
    requires UploadsTracked(r, s, h) && Enabled(r, s, a)
    ensures UploadsTracked(r, Do(r, s, a), h[a.i := h[a.i] + PutSize(r.scan[a.i], s.phases[a.i], a)])
  {
    hide NextPhase, NextBlobs, PutsTracked, KeptBytes, Apply;
    var fe, phase := r.scan[a.i], s.phases[a.i];
    NextTracked(r, fe, phase, s.blobs, a, h[a.i]);
    NotDoneYet(r, fe, phase, s.blobs, a);
    KeptUpdate(s.phases, h, a.i, NextPhase(r, fe, phase, s.blobs, a), h[a.i] + PutSize(fe, phase, a));
    if a.Commit? { ReadyTracked(phase, h[a.i]); }
  }

  lemma ReadyTracked(phase: Phase, n: nat)
    requires phase.Ready? && PutsTracked(phase, n)
    ensures phase.kind == Kind.Failed || phase.kind == Locked || n == phase.uploaded
  {
  }

  /** Only a commit finishes a file, and it does so once. */
  lemma NotDoneYet(r: Job, fe: ScanEntry, phase: Phase, blobs: map<Hash, Bytes>, a: Action)
    requires Allowed(r, fe, phase, blobs, a)
    ensures !phase.Done?
    ensures var next := NextPhase(r, fe, phase, blobs, a);
      if a.Commit? then phase.Ready? && next == Done(phase.entry, phase.kind) else !next.Done?
  {
    hide SHA256Bytes, AllFound, LooksUnchanged, UploadPlan, Refs, Flatten, PutBytes, StatusOf;
  }

  lemma {:induction false} RunTracked(r: Job, s: State, actions: seq<Action>, t: State, h: seq<nat>)
    requires UploadsTracked(r, s, h) && Reaches(r, s, actions, t)
    ensures UploadsTracked(r, t, PutHistory(r, s, actions, h))
    decreases |actions|
  {
    hide UploadsTracked, Enabled, Do, PutSize;
    if actions != [] {
      var a := actions[0];
      LengthsAgree(r, s, a, h);
      StepTracked(r, s, a, h);
      RunTracked(r, Do(r, s, a), actions[1..], t, h[a.i := h[a.i] + PutSize(r.scan[a.i], s.phases[a.i], a)]);
    }
  }

  lemma LengthsAgree(r: Job, s: State, a: Action, h: seq<nat>)
    requires UploadsTracked(r, s, h) && Enabled(r, s, a)
    ensures a.i < |h| == |s.phases| == |r.scan|
  {
  }

  lemma {:induction false} NothingKept(phases: seq<Phase>, h: seq<nat>)
    requires |phases| == |h| && forall i :: 0 <= i < |phases| ==> !phases[i].Done?
    ensures KeptBytes(phases, h) == 0
  {
    if phases != [] { NothingKept(phases[..|phases| - 1], h[..|h| - 1]); }
  }

  /** Over every schedule, the uploaded bytes are the bytes put for the files that are done and did not fail. */
  lemma {:induction false} PoolCountsUploads(r: Job, blobs: map<Hash, Bytes>, actions: seq<Action>, t: State)
    requires Reaches(r, Start(r, blobs), actions, t)
    ensures |t.phases| == |r.scan|
    ensures t.counts.uploaded == KeptBytes(t.phases, PutHistory(r, Start(r, blobs), actions, seq(|r.scan|, _ => 0)))
  {
    hide Reaches, Build, KeptBytes;
    var s, h := Start(r, blobs), seq(|r.scan|, _ => 0);
    NothingKept(s.phases, h);
    RunTracked(r, s, actions, t, h);
  }

  // ----- What is not put -------------------------------------------------------

  /** The previous entry of the path lists this chunk. */
  ghost predicate WasChunk(r: Job, path: string, h: Hash) {
    path in r.prev && exists i :: 0 <= i < |r.prev[path].chunks| && r.prev[path].chunks[i].hash == h
  }

  /** Nothing this phase is about to put was in the store and could be known to be. */
  ghost predicate PutsNeeded(r: Job, path: string, before: map<Hash, Bytes>, phase: Phase) {
    match phase
    case Uploading(_, plan, _) => forall put :: put in plan.puts && WasChunk(r, path, put.0) ==> put.0 !in before
    case SmallPut(content, _) => SHA256Bytes(r.c, content) !in before
    case _ => true
  }

  /** A query finds at least what was in the store when the run began. */
  predicate Informed(before: map<Hash, Bytes>, a: Action) {
    a.Probe? || a.Prepare? ==> before.Keys <= a.found
  }

  lemma NextNeeded(r: Job, fe: ScanEntry, before: map<Hash, Bytes>, phase: Phase, blobs: map<Hash, Bytes>, a: Action)
    requires Allowed(r, fe, phase, blobs, a) && Informed(before, a) && PutsNeeded(r, fe.path, before, phase)
    ensures PutsNeeded(r, fe.path, before, NextPhase(r, fe, phase, blobs, a))
  {
    hide SHA256Bytes, AllFound, LooksUnchanged, UploadPlan, Flatten, PutBytes, StatusOf;
    if a.Prepare? {
      var known := KnownChunks(r, fe, a.found);
      UploadPutsAbsent(r.c, r.key, CdcMaxSize, Refs(r.c, phase.pieces), phase.retained, a.file, known);
      forall h | WasChunk(r, fe.path, h) && h in before ensures known(h) {
        assert h in before.Keys;
      }
    }
  }

  /** Some step of this run puts a hash that was in the store and that its file could know to be there. */
  ghost predicate SomePutRepeats(r: Job, before: map<Hash, Bytes>, s: State, actions: seq<Action>)
    decreases |actions|
  {
    actions != [] && Enabled(r, s, actions[0]) &&
    (Repeats(r, before, s, actions[0]) || SomePutRepeats(r, before, Do(r, s, actions[0]), actions[1..]))
  }

  ghost predicate Repeats(r: Job, before: map<Hash, Bytes>, s: State, a: Action)
    requires Enabled(r, s, a)
  {
    && a.PutNext? && PutHash(r, s.phases[a.i]) in before
    && (r.scan[a.i].size < DefaultChunkSize || WasChunk(r, r.scan[a.i].path, PutHash(r, s.phases[a.i])))
  }

  ghost predicate AllNeeded(r: Job, before: map<Hash, Bytes>, s: State) {
    && |s.phases| == |r.scan|
    && forall i :: 0 <= i < |s.phases| ==>
         PutsNeeded(r, r.scan[i].path, before, s.phases[i]) && SizeFits(r.scan[i], s.phases[i])
  }

  /** Only large files are uploaded in chunks. */
  predicate SizeFits(fe: ScanEntry, phase: Phase) {
    phase.Comparing? || phase.Preparing? || phase.Uploading? ==> fe.size >= DefaultChunkSize
  }

  lemma NextSizeFits(r: Job, fe: ScanEntry, phase: Phase, blobs: map<Hash, Bytes>, a: Action)
    requires Allowed(r, fe, phase, blobs, a) && SizeFits(fe, phase)
    ensures SizeFits(fe, NextPhase(r, fe, phase, blobs, a))
  {
    hide SHA256Bytes, AllFound, LooksUnchanged, UploadPlan, Flatten, PutBytes, StatusOf, Refs;
  }

  lemma NeededNotRepeated(r: Job, before: map<Hash, Bytes>, s: State, a: Action)
    requires AllNeeded(r, before, s) && Enabled(r, s, a)
    ensures !Repeats(r, before, s, a)
  {
    hide SHA256Bytes;
    assert PutsNeeded(r, r.scan[a.i].path, before, s.phases[a.i]) && SizeFits(r.scan[a.i], s.phases[a.i]);
    if a.PutNext? && s.phases[a.i].Uploading? {
      assert s.phases[a.i].plan.puts[s.phases[a.i].next] in s.phases[a.i].plan.puts;
    }
  }

  /**
   In every schedule whose queries find what was in the store at the start: the blob of
   a small file is put only if it was not there, and so is a chunk of a large file that
   its previous entry lists.
   */
  lemma {:induction false} NothingPutAgain(r: Job, before: map<Hash, Bytes>, s: State, actions: seq<Action>, t: State)
    requires AllNeeded(r, before, s) && Reaches(r, s, actions, t)
    requires forall k :: 0 <= k < |actions| ==> Informed(before, actions[k])
    ensures !SomePutRepeats(r, before, s, actions)
    decreases |actions|
  {
    hide NextPhase, NextBlobs, PutsNeeded, SizeFits, Informed, Allowed, Apply, Count, Repeats;
    if actions != [] {
      var a := actions[0];
      NeededNotRepeated(r, before, s, a);
      NextNeeded(r, r.scan[a.i], before, s.phases[a.i], s.blobs, a);
      NextSizeFits(r, r.scan[a.i], s.phases[a.i], s.blobs, a);
      NothingPutAgain(r, before, Do(r, s, a), actions[1..], t);
    }
  }

  lemma StartNeeded(r: Job, blobs: map<Hash, Bytes>)
    ensures AllNeeded(r, blobs, Start(r, blobs))
  {
    hide Build;
  }

  /** Without a usable key, no put is planned in any phase. */
  predicate NoPuts(phase: Phase) {
    !phase.SmallCompare? && !phase.SmallProbe? && !phase.SmallPut? && (phase.Uploading? ==> phase.plan.puts == [])
  }

  lemma NextNoPuts(r: Job, fe: ScanEntry, phase: Phase, blobs: map<Hash, Bytes>, a: Action)
    requires r.key != [] && !ValidKey(r.key) && Allowed(r, fe, phase, blobs, a) && NoPuts(phase)
    ensures NoPuts(NextPhase(r, fe, phase, blobs, a)) && NextBlobs(r, fe, phase, blobs, a) == blobs
  {
    hide SHA256Bytes, AllFound, LooksUnchanged, UploadPlan, Flatten, PutBytes, StatusOf;
    if a.Prepare? {
      var known := KnownChunks(r, fe, a.found);
      UploadPutsAbsent(r.c, r.key, CdcMaxSize, Refs(r.c, phase.pieces), phase.retained, a.file, known);
    }
  }

  /** A key of a wrong size: no schedule stores anything, whatever the reads return. */
  lemma {:induction false} BadKeyStoresNothing(r: Job, s: State, actions: seq<Action>, t: State)
    requires r.key != [] && !ValidKey(r.key) && Reaches(r, s, actions, t)
    requires forall i :: 0 <= i < |s.phases| ==> NoPuts(s.phases[i])
    ensures t.blobs == s.blobs
    decreases |actions|
  {
    hide NextPhase, NextBlobs, NoPuts, Allowed, Apply, Count;
    if actions != [] {
      var a := actions[0];
      NextNoPuts(r, r.scan[a.i], s.phases[a.i], s.blobs, a);
      BadKeyStoresNothing(r, Do(r, s, a), actions[1..], t);
    }
  }

  // ----- The next run ------------------------------------------------------------

  /**
   After a run over an unchanging source, a next run with that baseline that finds the
   same metadata passes every file that was backed up without reading it, and records
   the same content.
   */
  lemma {:induction false} NextRunReadsNothing(r: Job, universe: iset<Bytes>, source: map<string, Bytes>,
                                               blobs: map<Hash, Bytes>, actions: seq<Action>, t: State, next: Job,
                                               i: nat)
    requires Setting(r, universe, source) && FaithfulRun(r, universe, source, actions) && DistinctPaths(r.scan)
    requires Healthy(r.c, r.key, universe, blobs) && Reaches(r, Start(r, blobs), actions, t) && Finished(t)
    requires next.prev == Added(t.log) && i in Kept(r, Added(t.log)) && PathIn(r.scan[i]) == r.scan[i].path
    ensures var was := Added(t.log)[r.scan[i].path];
      NextPhase(next, r.scan[i], Queued, t.blobs, Probe(i, t.blobs.Keys, false))
        == Ready(was.(status := "unchanged"), Unchanged, 0)
  {
    hide Reaches, Start, Build, Added, ManifestPath, Setting, FaithfulRun, Healthy, DistinctPaths, NextPhase,
         Allowed, StatusTrue, WithStatus;
    var fe, was := r.scan[i], Added(t.log)[r.scan[i].path];
    PoolReports(r, blobs, actions, t);
    KeptHash(r, universe, source, blobs, actions, t, i);
    KeptBlobs(r, universe, source, blobs, actions, t, i);
    FastPathIff(next, fe, t.blobs, i, t.blobs.Keys, false);
  }

  lemma KeptBlobs(r: Job, universe: iset<Bytes>, source: map<string, Bytes>, blobs: map<Hash, Bytes>,
                  actions: seq<Action>, t: State, i: nat)
    requires Setting(r, universe, source) && FaithfulRun(r, universe, source, actions) && DistinctPaths(r.scan)
    requires Healthy(r.c, r.key, universe, blobs) && Reaches(r, Start(r, blobs), actions, t) && Finished(t)
    requires i in Kept(r, Added(t.log))
    ensures BlobsIn(Added(t.log)[PathIn(r.scan[i])], t.blobs.Keys)
    ensures Added(t.log)[PathIn(r.scan[i])].name == PathIn(r.scan[i])
  {
    hide Reaches, Start, Build, Added, IsFileMap, DoneCount, DoneSize, DoneOf, ManifestPath, FaithfulRun, Healthy,
         CountsMatch, SHA256Bytes, DescribesEntry, Setting, BlobsIn;
    StartConserved(r, blobs);
    RunConserves(r, Start(r, blobs), actions, t);
    PoolBacksUp(r, universe, source, blobs, actions, t);
    var e := t.phases[i].entry;
    assert Consistent(r.scan[i], t.phases[i]) && !IsMissed(t.phases[i]);
    FoundIsBlobsIn(e, t.blobs.Keys);
    RenamedBlobs(e, PathIn(r.scan[i]), t.blobs.Keys);
  }

  lemma RenamedBlobs(e: FileEntry, name: string, found: set<Hash>)
    ensures BlobsIn(e, found) <==> BlobsIn(e.(name := name), found)
  {
  }

  // ----- Content that has not changed ----------------------------------------------

  /** The previous entry has the hash of the source, and its blobs were in the store. */
  ghost predicate StoredBefore(r: Job, fe: ScanEntry, content: Bytes, before: map<Hash, Bytes>) {
    && fe.path in r.prev && r.prev[fe.path].contentHash == SHA256Bytes(r.c, content)
    && BlobsIn(r.prev[fe.path], before.Keys)
  }

  /** An entry that repeats the content of the previous one. */
  predicate Repeated(e: FileEntry, prev: FileEntry) {
    GaveUp(e) || (e.status == "unchanged" && e.contentHash == prev.contentHash && e.chunks == prev.chunks)
  }

  /** Such a file never comes to a put. */
  predicate NeverPuts(prev: FileEntry, phase: Phase) {
    match phase
    case Queued => true
    case Hashing(recheck) => recheck
    case Comparing(_, _) => true
    case SmallCompare(_, _) => true
    case Ready(e, _, _) => Repeated(e, prev)
    case Done(e, _) => Repeated(e, prev)
    case _ => false
  }

  lemma UnchangedRepeats(fe: ScanEntry, prev: FileEntry)
    ensures NeverPuts(prev, UnchangedPhase(fe, prev))
    ensures NeverPuts(prev, ErrorPhase(fe, Kind.Failed)) && NeverPuts(prev, ErrorPhase(fe, Locked))
  {
  }

  lemma NextNeverPuts(r: Job, universe: iset<Bytes>, source: map<string, Bytes>, fe: ScanEntry, phase: Phase,
                      blobs: map<Hash, Bytes>, before: map<Hash, Bytes>, a: Action)
    requires CollisionFree(r.c, universe) && Scanned(r, universe, source, fe) && UsableKey(r.key)
    requires StoredBefore(r, fe, source[fe.path], before)
    requires Allowed(r, fe, phase, blobs, a) && Faithful(r, universe, fe, source[fe.path], a) && Informed(before, a)
    requires PhaseTrue(r, universe, fe, source[fe.path], phase, blobs) && NeverPuts(r.prev[fe.path], phase)
    ensures NeverPuts(r.prev[fe.path], NextPhase(r, fe, phase, blobs, a)) && PutSize(fe, phase, a) == 0
  {
    hide CollisionFree, HonestPrevious, SHA256Bytes, Storable, UploadPlan, Refs, PutBytes, ErrorPhase, UnchangedPhase,
         AllFound, PiecesOf, AllStorable, Chunkable, Backed;
    var content, prev := source[fe.path], r.prev[fe.path];
    UnchangedRepeats(fe, prev);
    PreviousDescribes(r, universe, fe, content);
    if a.Probe? {
      FoundGrows(prev, before.Keys, a.found);
      FoundIsBlobsIn(prev, a.found);
      if phase.SmallCompare? { SmallPrevious(r, universe, fe, content, a.found); }
    }
  }

  lemma FoundGrows(e: FileEntry, some: set<Hash>, more: set<Hash>)
    requires BlobsIn(e, some) && some <= more
    ensures BlobsIn(e, more)
  {
  }

  lemma SmallPrevious(r: Job, universe: iset<Bytes>, fe: ScanEntry, content: Bytes, found: set<Hash>)
    requires fe.path in r.prev && BlobsIn(r.prev[fe.path], found) && |content| < DefaultChunkSize
    requires DescribesEntry(r.c, universe, UnchangedPhase(fe, r.prev[fe.path]).entry, content)
    ensures SHA256Bytes(r.c, content) in found
  {
    hide SHA256Bytes;
  }

  /**
   In every schedule over an unchanging source whose queries find what was in the store:
   a file whose previous entry has its hash and all blobs puts nothing, whatever its
   mtime, and is recorded with its previous chunks.
   */
  lemma {:induction false} UnchangedContentPutsNothing(r: Job, universe: iset<Bytes>, source: map<string, Bytes>,
                                                       before: map<Hash, Bytes>, s: State, actions: seq<Action>,
                                                       t: State, i: nat, h: seq<nat>)
    requires Setting(r, universe, source) && FaithfulRun(r, universe, source, actions) && i < |r.scan| == |h|
    requires Truthful(r, universe, source, s) && Reaches(r, s, actions, t)
    requires forall k :: 0 <= k < |actions| ==> Informed(before, actions[k])
    requires StoredBefore(r, r.scan[i], source[r.scan[i].path], before)
    requires NeverPuts(r.prev[r.scan[i].path], s.phases[i])
    ensures |t.phases| == |r.scan| && NeverPuts(r.prev[r.scan[i].path], t.phases[i])
    ensures PutHistory(r, s, actions, h)[i] == h[i]
    decreases |actions|
  {
    hide FaithfulRun, NextPhase, NextBlobs, NeverPuts, Informed, Allowed, Apply, Count, Faithful, PhaseTrue, Healthy,
         CollisionFree, HonestPrevious, Storable, StoredBefore, PutSize, Scanned;
    if actions != [] {
      var a, fe := actions[0], r.scan[i];
      FaithfulFirst(r, universe, source, actions);
      StepTruthful(r, universe, source, s, a);
      if a.i == i {
        assert Scanned(r, universe, source, fe);
        KnownPath(r, universe, source, before, i);
        NextNeverPuts(r, universe, source, fe, s.phases[i], s.blobs, before, a);
      }
      var h' := h[a.i := h[a.i] + PutSize(r.scan[a.i], s.phases[a.i], a)];
      UnchangedContentPutsNothing(r, universe, source, before, Do(r, s, a), actions[1..], t, i, h');
    }
  }

  lemma KnownPath(r: Job, universe: iset<Bytes>, source: map<string, Bytes>, before: map<Hash, Bytes>, i: nat)
    requires Setting(r, universe, source) && i < |r.scan|
    ensures r.scan[i].path in source && UsableKey(r.key)
    ensures StoredBefore(r, r.scan[i], source[r.scan[i].path], before) ==> r.scan[i].path in r.prev
  {
    hide CollisionFree, HonestPrevious, Storable, SHA256Bytes;
    assert Scanned(r, universe, source, r.scan[i]);
  }

  lemma FaithfulFirst(r: Job, universe: iset<Bytes>, source: map<string, Bytes>, actions: seq<Action>)
    requires FaithfulRun(r, universe, source, actions) && actions != []
    ensures actions[0].i < |r.scan| && r.scan[actions[0].i].path in source
    ensures Faithful(r, universe, r.scan[actions[0].i], source[r.scan[actions[0].i].path], actions[0])
    ensures FaithfulRun(r, universe, source, actions[1..])
  {
    hide Faithful;
    forall k | 0 <= k < |actions[1..]|
      ensures actions[1..][k].i < |r.scan| && r.scan[actions[1..][k].i].path in source
      ensures Faithful(r, universe, r.scan[actions[1..][k].i], source[r.scan[actions[1..][k].i].path], actions[1..][k])
    {
      assert actions[1..][k] == actions[k + 1];
    }
  }
}
