/**
 The whole repository over its lifetime: backups, abandoned runs, manifest
 deletions and garbage collection in any order, and what restoring a snapshot gives.
 */
module Repository {
  import opened ByteSeqs
  import opened Primitives
  import opened BlobFormat
  import opened Hashing
  import opened Paths
  import opened ManifestTypes
  import opened ManifestTree
  import opened ManifestCodec
  import opened ChunkPlan
  import opened Pool
  import opened PoolContent
  import opened PoolStatus
  import opened Restore
  import opened RestorePaths
  import opened RestoreExact

  /** What stays fixed: the primitives, the JSON codec, the key, and bytes without collisions. */
  datatype World = World(c: Primitives, j: Json, key: Bytes, universe: iset<Bytes>)

  /** Blobs, manifest files, and, for each manifest, the source it was made from. */
  datatype Repo = Repo(blobs: map<Hash, Bytes>, manifests: map<string, Bytes>, sources: map<string, map<string, Bytes>>)

  const NewRepo := Repo(map[], map[], map[])

  ghost predicate Usable(w: World) {
    ValidKey(w.key) && CollisionFree(w.c, w.universe)
  }

  ghost function Decoded(w: World, data: Bytes): Option<Manifest> {
    Load(w.c, w.j, KeyHook(w.c, w.key), data)
  }

  // ----- A finished run becomes a manifest ------------------------------------

  /** A path as a walk delivers it, with components a manifest may hold. */
  predicate ProperPath(p: string) {
    p != "" && p[0] != '/' && ValidDirKey(DirOf(p)) && ValidEntryName(BaseOf(p))
  }

  /** Scanned paths are proper and distinct, and none of them is also a directory of the scan. */
  ghost predicate ProperScan(r: Job) {
    && DistinctPaths(r.scan)
    && (forall i :: 0 <= i < |r.scan| ==> ProperPath(r.scan[i].path))
    && (forall i :: 0 <= i < |r.emptyDirs| ==> ValidDirKey(Normalize(r.emptyDirs[i])))
    && (forall i, j :: 0 <= i < |r.scan| && 0 <= j < |r.scan| ==> r.scan[i].path !in DirsAbove(r.scan[j].path))
    && (forall i, j :: 0 <= i < |r.scan| && 0 <= j < |r.emptyDirs| ==>
          r.scan[i].path !in DirsOf(Normalize(r.emptyDirs[j])))
  }

  /** A directory and those above it, the root left out. */
  function DirsOf(dir: string): set<string> {
    if dir == "" then {} else Ancestors(dir)
  }

  function DirsAbove(path: string): set<string> {
    DirsOf(DirOf(path))
  }

  // ----- Where the directories of a manifest come from -----------------------------

  function OpDirs(op: Op): set<string> {
    match op
    case File(e) => DirsAbove(Normalize(e.name))
    case Empty(p) => DirsOf(Normalize(p))
  }

  ghost predicate FromOps(ops: seq<Op>, dir: string) {
    dir == "" || exists i :: 0 <= i < |ops| && dir in OpDirs(ops[i])
  }

  lemma {:induction false} EnsuredKeys(dirs: Dirs, parts: seq<string>, i: nat, k: string)
    requires i <= |parts| && k in EnsureFrom(dirs, parts, i)
    ensures k in dirs || exists j :: i <= j < |parts| && k == Join(parts[..j])
    decreases |parts| - i
  {
    hide Join;
    if i < |parts| {
      var dirs' := AddChild(dirs, Join(parts[..i]), parts[i]);
      EnsuredKeys(dirs', parts, i + 1, k);
      assert k in dirs' ==> k in dirs || k == Join(parts[..i]);
    }
  }

  /** ensureParentDirs adds the root and ancestors of the directory. */
  lemma EnsuredParents(dirs: Dirs, dir: string, k: string)
    requires k in EnsureParentDirs(dirs, dir)
    ensures k in dirs || k == "" || k in Ancestors(dir)
  {
    hide EnsureFrom, Join, Split;
    EnsuredKeys(dirs, Split(dir), 0, k);
    JoinNothing(Split(dir));
    if k !in dirs {
      var j :| 0 <= j < |Split(dir)| && k == Join(Split(dir)[..j]);
    }
  }

  /** One operation adds no directories but its own. */
  lemma AppliedKeys(t: Tree, op: Op, k: string)
    requires k in Apply(t, op).dirs
    ensures k in t.dirs || k == "" || k in OpDirs(op)
  {
    hide EnsureParentDirs, LastSlash, Ancestors;
    match op
    case File(e) =>
      var dir := DirOf(Normalize(e.name));
      var dirs' := AppendFile(t.dirs, dir, e.(name := BaseOf(Normalize(e.name))));
      SelfAncestor(dir);
      if dir != "" { EnsuredParents(dirs', dir, k); }
    case Empty(path) =>
      var p := Normalize(path);
      if p != "" && BaseOf(p) != "" {
        var dirs' := t.dirs[p := DirAt(t.dirs, p)];
        SelfAncestor(p);
        if DirOf(p) != "" { EnsuredParents(dirs', p, k); }
      }
  }

  lemma {:induction false} BuiltKeys(ops: seq<Op>, k: string)
    requires k in Build(ops).dirs
    ensures FromOps(ops, k)
  {
    hide Apply, OpDirs;
    if ops != [] {
      var init, op := ops[..|ops| - 1], ops[|ops| - 1];
      AppliedKeys(Build(init), op, k);
      if k in Build(init).dirs {
        BuiltKeys(init, k);
        if k != "" {
          var i :| 0 <= i < |init| && k in OpDirs(init[i]);
          assert ops[i] == init[i];
        }
      } else if k != "" {
        assert k in OpDirs(ops[|ops| - 1]);
      }
    }
  }

  /** The skeleton of a built manifest consists of directories its operations name. */
  lemma SkeletonFromOps(ops: seq<Op>, a: string)
    requires a in SkeletonDirs(Build(ops).dirs)
    ensures exists i :: 0 <= i < |ops| && a in OpDirs(ops[i])
  {
    hide Build, Ancestors, LastSlash;
    var k :| k in Build(ops).dirs && k != "" && a in Ancestors(k);
    BuiltKeys(ops, k);
    var i :| 0 <= i < |ops| && k in OpDirs(ops[i]);
    var dir := if ops[i].File? then DirOf(Normalize(ops[i].entry.name)) else Normalize(ops[i].path);
    AncestorsClosed(dir, k);
    assert a in OpDirs(ops[i]);
  }

  /** The directory an operation is about. */
  function DirNamed(op: Op): string {
    match op
    case File(e) => DirOf(Normalize(e.name))
    case Empty(p) => Normalize(p)
  }

  /** A proper operation makes its directory and removes none. */
  lemma AppliedMakes(t: Tree, op: Op)
    requires op.Empty? ==> ValidDirKey(Normalize(op.path))
    ensures t.dirs.Keys <= Apply(t, op).dirs.Keys
    ensures DirNamed(op) != "" ==> DirNamed(op) in Apply(t, op).dirs
  {
    hide EnsureFrom, LastSlash, Total;
    match op
    case File(e) =>
      var dir := DirOf(Normalize(e.name));
      var dirs' := AppendFile(t.dirs, dir, e.(name := BaseOf(Normalize(e.name))));
      EnsureFromSameFiles(dirs', Split(dir), 0);
    case Empty(path) =>
      var p := Normalize(path);
      if p != "" {
        NonEmptyBase(p);
        var dirs' := t.dirs[p := DirAt(t.dirs, p)];
        EnsureFromSameFiles(dirs', Split(p), 0);
        AddChildSameFiles(dirs', "", BaseOf(p));
      }
  }

  lemma NonEmptyBase(p: string)
    requires p != "" && ValidDirKey(p)
    ensures BaseOf(p) != ""
  {
    assert Split(p)[|Split(p)| - 1] == BaseOf(p);
    assert BaseOf(p) in Split(p);
  }

  lemma {:induction false} BuiltHolds(ops: seq<Op>, i: nat)
    requires GoodOps(ops) && i < |ops| && DirNamed(ops[i]) != ""
    ensures DirNamed(ops[i]) in Build(ops).dirs
    decreases |ops|
  {
    hide Apply, Added, EntryOK, ValidDirKey, ManifestPath;
    var init, op := ops[..|ops| - 1], ops[|ops| - 1];
    assert GoodOp(Added(ops[..|ops| - 1]), op);
    AppliedMakes(Build(init), op);
    if i < |init| {
      GoodPrefix(ops);
      assert init[i] == ops[i];
      BuiltHolds(init, i);
    }
  }

  lemma GoodPrefix(ops: seq<Op>)
    requires GoodOps(ops) && ops != []
    ensures GoodOps(ops[..|ops| - 1])
  {
    hide GoodOp;
    var init := ops[..|ops| - 1];
    forall i | 0 <= i < |init| ensures GoodOp(Added(init[..i]), init[i]) {
      assert init[..i] == ops[..i] && init[i] == ops[i];
    }
  }

  /** The skeleton of a built manifest is exactly the directories its operations name, with those above them. */
  lemma SkeletonOfOps(ops: seq<Op>, a: string)
    requires GoodOps(ops)
    ensures a in SkeletonDirs(Build(ops).dirs) <==> exists i :: 0 <= i < |ops| && a in OpDirs(ops[i])
  {
    hide Build, Ancestors, LastSlash, GoodOps;
    if a in SkeletonDirs(Build(ops).dirs) { SkeletonFromOps(ops, a); }
    if i :| 0 <= i < |ops| && a in OpDirs(ops[i]) {
      BuiltHolds(ops, i);
      assert DirNamed(ops[i]) in Build(ops).dirs && a in Ancestors(DirNamed(ops[i]));
    }
  }

  /** Every operation of the log is a scanned file or one of the empty directories. */
  ghost predicate LogFrom(r: Job, log: seq<Op>) {
    forall i :: 0 <= i < |log| ==> OpFrom(r, log[i])
  }

  ghost predicate OpFrom(r: Job, op: Op) {
    match op
    case File(e) => exists j :: 0 <= j < |r.scan| && r.scan[j].path == e.name
    case Empty(p) => p in r.emptyDirs
  }

  /** In a manifest of a proper scan no scanned path is in the way of a directory. */
  lemma ScanHasNoClash(r: Job, log: seq<Op>, i: nat)
    requires ProperScan(r) && LogFrom(r, log) && i < |r.scan|
    ensures r.scan[i].path !in SkeletonDirs(Build(log).dirs)
  {
    hide Build, SkeletonDirs, DirsAbove, DirsOf, DistinctPaths, ProperPath, ValidDirKey;
    var p := r.scan[i].path;
    if p in SkeletonDirs(Build(log).dirs) {
      SkeletonFromOps(log, p);
      var k :| 0 <= k < |log| && p in OpDirs(log[k]);
      assert OpFrom(r, log[k]);
      ScannedOpDirs(r, log[k], p);
    }
  }

  /** The directories of a logged operation are directories of the scan. */
  lemma ScannedOpDirs(r: Job, op: Op, a: string)
    requires ProperScan(r) && OpFrom(r, op) && a in OpDirs(op)
    ensures (exists j :: 0 <= j < |r.scan| && a in DirsAbove(r.scan[j].path))
         || (exists j :: 0 <= j < |r.emptyDirs| && a in DirsOf(Normalize(r.emptyDirs[j])))
  {
    hide DirsAbove, DirsOf, DistinctPaths, ValidDirKey;
    match op
    case File(e) =>
      var j :| 0 <= j < |r.scan| && r.scan[j].path == e.name;
      ProperPathIn(r.scan[j]);
    case Empty(p) =>
      var j :| 0 <= j < |r.emptyDirs| && r.emptyDirs[j] == p;
  }

  lemma ProperPathIn(fe: ScanEntry)
    requires ProperPath(fe.path)
    ensures PathIn(fe) == fe.path && Normalize(fe.path) == fe.path
  {
    hide LastSlash, ValidDirKey, ValidEntryName;
    JoinSplit(fe.path);
  }

  lemma BackedEntryOK(c: Primitives, universe: iset<Bytes>, e: FileEntry, content: Bytes, base: string)
    requires DescribesEntry(c, universe, e, content) && ValidEntryName(base)
    ensures EntryOK(e.(name := base))
  {
    hide SHA256Bytes, ValidEntryName, Chunkable;
    if e.chunks != [] {
      var pieces :| IsSplit(c, universe, pieces, content) && e.chunks == Refs(c, pieces);
      RefsSum(c, pieces);
    }
  }

  /** Committing a finished entry is a proper operation on the manifest. */
  lemma CommitIsGood(r: Job, universe: iset<Bytes>, s: Pool.State, i: nat, content: Bytes)
    requires Conserved(r, s) && DistinctPaths(r.scan) && i < |s.phases| && ProperPath(r.scan[i].path)
    requires s.phases[i].Ready? && PhaseTrue(r, universe, r.scan[i], content, s.phases[i], s.blobs)
    requires NoContent(s.phases[i])
    ensures GoodOp(Added(s.log), File(s.phases[i].entry))
  {
    hide SHA256Bytes, ValidEntryName, ValidDirKey, Build, Added, IsFileMap, CountsMatch, DoneCount, DoneSize, LastSlash,
         Recorded, ManifestPath, EntryOK, DescribesEntry, AllFound, StatusOf;
    var fe, phase := r.scan[i], s.phases[i];
    assert Consistent(fe, phase);
    ProperPathIn(fe);
    RecordCommit(r, s.phases, Added(s.log), i, phase.entry, phase.kind);
    if phase.kind == Kind.Failed || phase.kind == Locked {
      EmptyEntryOK(phase.entry, BaseOf(fe.path));
    } else {
      BackedEntryOK(r.c, universe, phase.entry, content, BaseOf(fe.path));
    }
  }

  /** Entries of failed and locked files carry no content. */
  predicate NoContent(phase: Phase) {
    (phase.Ready? || phase.Done?) && (phase.kind == Kind.Failed || phase.kind == Locked) ==>
      phase.entry.chunks == [] && phase.entry.contentHash == "" && phase.entry.size >= 0
  }

  lemma EmptyEntryOK(e: FileEntry, base: string)
    requires e.chunks == [] && e.size >= 0 && ValidEntryName(base)
    ensures EntryOK(e.(name := base))
  {
    hide ValidEntryName;
  }

  lemma NoContentNext(r: Job, fe: ScanEntry, phase: Phase, blobs: map<Hash, Bytes>, a: Action)
    requires Allowed(r, fe, phase, blobs, a) && NoContent(phase)
    ensures NoContent(NextPhase(r, fe, phase, blobs, a))
  {
    hide SHA256Bytes, AllFound, LooksUnchanged, UploadPlan, Refs, Flatten, PutBytes, StatusOf;
  }

  /** Everything that is known along a faithful run. */
  ghost predicate Sane(r: Job, universe: iset<Bytes>, source: map<string, Bytes>, s: Pool.State)
    requires Setting(r, universe, source)
  {
    && Conserved(r, s) && Truthful(r, universe, source, s) && GoodOps(s.log) && LogFrom(r, s.log)
    && forall i :: 0 <= i < |s.phases| ==> NoContent(s.phases[i])
  }

  lemma GoodOpsSnoc(log: seq<Op>, op: Op)
    requires GoodOps(log) && GoodOp(Added(log), op)
    ensures GoodOps(log + [op])
  {
    hide GoodOp, Added;
    var all := log + [op];
    forall i | 0 <= i < |all| ensures GoodOp(Added(all[..i]), all[i]) {
      if i < |log| {
        assert all[..i] == log[..i];
      } else {
        assert all[..i] == log;
      }
    }
  }

  lemma StepSane(r: Job, universe: iset<Bytes>, source: map<string, Bytes>, s: Pool.State, a: Action)
    requires Setting(r, universe, source) && ProperScan(r) && Sane(r, universe, source, s) && Enabled(r, s, a)
    requires Faithful(r, universe, r.scan[a.i], source[r.scan[a.i].path], a)
    ensures Sane(r, universe, source, Do(r, s, a))
  {
    hide Conserved, Truthful, NoContent, Faithful, GoodOps, Allowed, NextPhase, NextBlobs, Apply, Count, Setting,
         LogFrom, DistinctPaths, ProperPath, ValidDirKey, DirsAbove, DirsOf;
    StepTruthful(r, universe, source, s, a);
    NoContentNext(r, r.scan[a.i], s.phases[a.i], s.blobs, a);
    if a.Commit? {
      CommitConserves(r, s, a);
      CommitKeepsGood(r, universe, source, s, a);
      CommitKeepsLog(r, s, a);
    } else {
      OtherConserves(r, s, a);
    }
  }

  lemma CommitKeepsGood(r: Job, universe: iset<Bytes>, source: map<string, Bytes>, s: Pool.State, a: Action)
    requires Setting(r, universe, source) && ProperScan(r) && Sane(r, universe, source, s) && Enabled(r, s, a) &&
        a.Commit?
    ensures GoodOps(Do(r, s, a).log)
  {
    hide Conserved, NoContent, GoodOps, GoodOp, Apply, Count, Healthy, PhaseTrue, ProperPath, DistinctPaths,
         HonestPrevious, Storable;
    assert Scanned(r, universe, source, r.scan[a.i]);
    assert PhaseTrue(r, universe, r.scan[a.i], source[r.scan[a.i].path], s.phases[a.i], s.blobs);
    CommitIsGood(r, universe, s, a.i, source[r.scan[a.i].path]);
    GoodOpsSnoc(s.log, File(s.phases[a.i].entry));
  }

  lemma CommitKeepsLog(r: Job, s: Pool.State, a: Action)
    requires Conserved(r, s) && LogFrom(r, s.log) && Enabled(r, s, a) && a.Commit?
    ensures LogFrom(r, Do(r, s, a).log)
  {
    hide CountsMatch, Recorded, IsFileMap, Build, Apply, Count, StatusOf;
    assert Consistent(r.scan[a.i], s.phases[a.i]);
    assert OpFrom(r, File(s.phases[a.i].entry));
  }

  lemma {:induction false} RunSane(r: Job, universe: iset<Bytes>, source: map<string, Bytes>, s: Pool.State,
                                   actions: seq<Action>, t: Pool.State)
    requires Setting(r, universe, source) && ProperScan(r) && FaithfulRun(r, universe, source, actions)
    requires Sane(r, universe, source, s) && Pool.Reaches(r, s, actions, t)
    ensures Sane(r, universe, source, t)
    decreases |actions|
  {
    hide Setting, ProperScan, Sane, Faithful, Do, Enabled;
    if actions != [] {
      StepSane(r, universe, source, s, actions[0]);
      RunSane(r, universe, source, Do(r, s, actions[0]), actions[1..], t);
    }
  }

  lemma {:induction false} EmptyOpsGood(dirs: seq<string>)
    requires forall i :: 0 <= i < |dirs| ==> ValidDirKey(Normalize(dirs[i]))
    ensures GoodOps(EmptyOps(dirs))
  {
    hide Added, ValidDirKey;
  }

  lemma StartSane(r: Job, universe: iset<Bytes>, source: map<string, Bytes>, blobs: map<Hash, Bytes>)
    requires Setting(r, universe, source) && ProperScan(r) && Healthy(r.c, r.key, universe, blobs)
    ensures Sane(r, universe, source, Start(r, blobs))
  {
    hide Setting, Conserved, Healthy, Build, GoodOps, DistinctPaths, ProperPath, ValidDirKey, DirsOf, DirsAbove;
    StartConserved(r, blobs);
    EmptyOpsGood(r.emptyDirs);
  }

  /** The paths of the previous manifest that were not scanned any more. */
  function DeletedPaths(r: Job): set<string> {
    set p | p in r.prev && !exists i :: 0 <= i < |r.scan| && r.scan[i].path == p
  }

  /** The manifest of a finished run. */
  ghost function MadeManifest(header: Header, r: Job, t: Pool.State, scanErrors: int): Manifest {
    var n := t.counts;
    var stats := Stats(t.tree.fileCount, t.tree.totalSize, n.newFiles, n.changed, n.same, |DeletedPaths(r)|,
                       n.uploaded, scanErrors);
    Manifest(header, t.tree.dirs, stats, if Complete(t.tree.dirs, scanErrors) then "complete" else "incomplete")
  }

  // ----- Events ----------------------------------------------------------------

  /** A run of the worker pool: its job, the source it reads, its steps and the state they lead to. */
  datatype Run = Run(job: Job, source: map<string, Bytes>, actions: seq<Action>, end: Pool.State)

  datatype Event =
    | Backup(name: string, run: Run, header: Header, scanErrors: int, iv: IV)
    | Abandon(run: Run)
    | DeleteManifest(name: string)
    | CollectGarbage(gone: set<Hash>)

  /** The file map of a saved manifest, or nothing when there is no baseline. */
  ghost predicate Baseline(w: World, repo: Repo, r: Job, source: map<string, Bytes>) {
    r.prev == map[] || exists n :: IsBaseline(w, repo, r, source, n)
  }

  /** The baseline's mtimes and sizes are honest: an equal mtime and size mean an equal content. */
  ghost predicate IsBaseline(w: World, repo: Repo, r: Job, source: map<string, Bytes>, n: string) {
    && n in repo.manifests && n in repo.sources && Decoded(w, repo.manifests[n]).Some?
    && IsFileMap(Decoded(w, repo.manifests[n]).value.dirs, r.prev)
    && forall i :: 0 <= i < |r.scan| ==> HonestClock(r, source, repo.sources[n], r.scan[i])
  }

  ghost predicate HonestClock(r: Job, source: map<string, Bytes>, was: map<string, Bytes>, fe: ScanEntry) {
    fe.path in r.prev && r.prev[fe.path].contentHash != "" && fe.path in was && fe.path in source ==>
      (r.prev[fe.path].mtime == fe.mtime && r.prev[fe.path].size == fe.size ==> was[fe.path] == source[fe.path])
  }

  /** What a scan of an unchanging source guarantees, the baseline aside. */
  ghost predicate ScannedSource(w: World, r: Job, source: map<string, Bytes>) {
    forall i :: 0 <= i < |r.scan| ==>
      var fe := r.scan[i];
      && fe.path in source && source[fe.path] in w.universe && |source[fe.path]| == fe.size
      && (fe.size < DefaultChunkSize ==> Storable(w.c, source[fe.path], r.tryCompress(fe.path)))
  }

  /** Any part of a backup of an unchanging source. */
  ghost predicate GoodRun(w: World, repo: Repo, run: Run) {
    && run.job.c == w.c && run.job.key == w.key
    && ProperScan(run.job) && ScannedSource(w, run.job, run.source) && Baseline(w, repo, run.job, run.source)
    && FaithfulRun(run.job, w.universe, run.source, run.actions)
    && Pool.Reaches(run.job, Start(run.job, repo.blobs), run.actions, run.end)
  }

  /** A backup that runs to its end and saves its manifest under a free name. */
  ghost predicate GoodBackup(w: World, repo: Repo, e: Event)
    requires e.Backup?
  {
    && GoodRun(w, repo, e.run) && Pool.Finished(e.run.end) && e.name !in repo.manifests
    && e.header.version >= 2 && JsonFaithful(w.j, Made(e)) && |w.j.marshal(Made(e))| <= 256 * 1024 * 1024
  }

  ghost function Made(e: Event): Manifest
    requires e.Backup?
  {
    MadeManifest(e.header, e.run.job, e.run.end, e.scanErrors)
  }

  ghost predicate KeepsAlive(m: Option<Manifest>, h: Hash) {
    m.Some? && h in Alive(m.value.dirs)
  }

  /** The hashes kept alive by the saved manifests. */
  ghost predicate IsAlive(w: World, repo: Repo, h: Hash) {
    exists n :: n in repo.manifests && KeepsAlive(Decoded(w, repo.manifests[n]), h)
  }

  ghost predicate Possible(w: World, repo: Repo, e: Event) {
    match e
    case Backup(_, _, _, _, _) => GoodBackup(w, repo, e)
    case Abandon(run) => GoodRun(w, repo, run)
    case DeleteManifest(_) => true
    case CollectGarbage(gone) => forall h :: h in gone ==> !IsAlive(w, repo, h)
  }

  ghost function After(w: World, repo: Repo, e: Event): Repo {
    match e
    case Backup(name, run, _, _, iv) =>
      var envelope := Encode(w.c, w.j, Made(e), w.key, iv);
      Repo(run.end.blobs, repo.manifests[name := envelope], repo.sources[name := run.source])
    case Abandon(run) => repo.(blobs := run.end.blobs)
    case DeleteManifest(name) => repo.(manifests := repo.manifests - {name})
    case CollectGarbage(gone) => repo.(blobs := repo.blobs - gone)
  }

  ghost predicate Lifetime(w: World, repo: Repo, events: seq<Event>, end: Repo)
    decreases |events|
  {
    if events == [] then repo == end
    else Possible(w, repo, events[0]) && Lifetime(w, After(w, repo, events[0]), events[1..], end)
  }

  // ----- The invariant -----------------------------------------------------------

  /** Every restorable entry describes the file it was made from, and its blobs are in the store. */
  ghost predicate AllBacked(w: World, fm: map<string, FileEntry>, source: map<string, Bytes>, blobs: map<Hash, Bytes>) {
    forall p :: p in fm && fm[p].contentHash != "" ==> p in source && Backed(w.c, w.universe, fm[p], source[p], blobs)
  }

  ghost predicate SnapshotOK(w: World, m: Manifest, source: map<string, Bytes>, blobs: map<Hash, Bytes>) {
    && ValidStructure(m.dirs, m.stats.fileCount, m.stats.totalSize)
    && exists fm :: IsFileMap(m.dirs, fm) && AllBacked(w, fm, source, blobs) && NoClash(m.dirs, fm)
  }

  ghost predicate RepoInv(w: World, repo: Repo) {
    && Healthy(w.c, w.key, w.universe, repo.blobs)
    && forall n :: n in repo.manifests ==>
         && n in repo.sources && Decoded(w, repo.manifests[n]).Some?
         && SnapshotOK(w, Decoded(w, repo.manifests[n]).value, repo.sources[n], repo.blobs)
  }

  lemma BackedMono(c: Primitives, universe: iset<Bytes>, e: FileEntry, content: Bytes, blobs: map<Hash, Bytes>,
                   blobs': map<Hash, Bytes>)
    requires Backed(c, universe, e, content, blobs) && forall i :: 0 <= i < |e.Hashes()| ==> e.Hashes()[i] in blobs ==>
        e.Hashes()[i] in blobs'
    ensures Backed(c, universe, e, content, blobs')
  {
    hide DescribesEntry, FileEntry.Hashes;
  }

  lemma SnapshotMono(w: World, m: Manifest, source: map<string, Bytes>, blobs: map<Hash, Bytes>,
                     blobs': map<Hash, Bytes>)
    requires SnapshotOK(w, m, source, blobs) && forall h :: h in Alive(m.dirs) && h in blobs ==> h in blobs'
    ensures SnapshotOK(w, m, source, blobs')
  {
    hide ValidStructure, IsFileMap, Backed, Alive, FileEntry.Hashes, NoClash;
    var fm: map<string, FileEntry> :| IsFileMap(m.dirs, fm) && AllBacked(w, fm, source, blobs) && NoClash(m.dirs, fm);
    forall p | p in fm && fm[p].contentHash != ""
      ensures p in source && Backed(w.c, w.universe, fm[p], source[p], blobs')
    {
      EntryHashesAlive(m.dirs, fm, p);
      BackedMono(w.c, w.universe, fm[p], source[p], blobs, blobs');
    }
  }

  /** The hashes a restore reads are among the alive hashes. */
  lemma EntryHashesAlive(dirs: Dirs, fm: map<string, FileEntry>, p: string)
    requires IsFileMap(dirs, fm) && p in fm && fm[p].contentHash != ""
    ensures forall i :: 0 <= i < |fm[p].Hashes()| ==> fm[p].Hashes()[i] in Alive(dirs)
  {
    hide LastSlash, Alive, EntryAlive, FileEntry.Hashes;
    assert InTree(dirs, p);
    var i :| 0 <= i < |dirs[DirOf(p)].files| && dirs[DirOf(p)].files[i].name == BaseOf(p);
    var e := dirs[DirOf(p)].files[i];
    assert Holds(fm, DirOf(p), e);
    ReadHashes(e, fm[p]);
    InAlive(dirs, DirOf(p), i);
  }

  /** The alive hashes are exactly those that a restore of some entry with content reads. */
  lemma AliveIff(dirs: Dirs, fm: map<string, FileEntry>, h: Hash)
    requires IsFileMap(dirs, fm)
    ensures h in Alive(dirs) <==>
      exists p :: p in fm && (fm[p].chunks != [] || fm[p].contentHash != "") && h in fm[p].Hashes()
  {
    hide LastSlash, FileEntry.Hashes, JoinPath;
    if h in Alive(dirs) {
      var k :| k in dirs && h in FilesAlive(dirs[k].files);
      var i :| 0 <= i < |dirs[k].files| && h in EntryAlive(dirs[k].files[i].contentHash, dirs[k].files[i].chunks);
      var e := dirs[k].files[i];
      assert Holds(fm, k, e);
      EntryAliveIff(e, JoinPath(k, e.name), h);
    }
    if p :| p in fm && (fm[p].chunks != [] || fm[p].contentHash != "") && h in fm[p].Hashes() {
      assert InTree(dirs, p);
      var i :| 0 <= i < |dirs[DirOf(p)].files| && dirs[DirOf(p)].files[i].name == BaseOf(p);
      var e := dirs[DirOf(p)].files[i];
      assert Holds(fm, DirOf(p), e);
      EntryAliveIff(e, p, h);
      assert h in FilesAlive(dirs[DirOf(p)].files);
    }
  }

  lemma EntryAliveIff(e: FileEntry, name: string, h: Hash)
    ensures h in EntryAlive(e.contentHash, e.chunks) <==>
      (e.chunks != [] || e.contentHash != "") && h in e.(name := name).Hashes()
  {
    var hashes := e.(name := name).Hashes();
    if e.chunks != [] {
      assert forall i :: 0 <= i < |hashes| ==> hashes[i] == e.chunks[i].hash;
    }
  }

  lemma ReadHashes(e: FileEntry, renamed: FileEntry)
    requires renamed == e.(name := renamed.name) && e.contentHash != ""
    ensures forall i :: 0 <= i < |renamed.Hashes()| ==> renamed.Hashes()[i] in EntryAlive(e.contentHash, e.chunks)
  {
  }

  lemma InAlive(dirs: Dirs, k: string, i: nat)
    requires k in dirs && i < |dirs[k].files|
    ensures EntryAlive(dirs[k].files[i].contentHash, dirs[k].files[i].chunks) <= Alive(dirs)
  {
    hide EntryAlive;
    forall h | h in EntryAlive(dirs[k].files[i].contentHash, dirs[k].files[i].chunks) ensures h in Alive(dirs) {
      assert h in FilesAlive(dirs[k].files);
    }
  }

  // ----- Each event keeps it -----------------------------------------------------

  lemma DeleteManifestKeeps(w: World, repo: Repo, name: string)
    requires RepoInv(w, repo)
    ensures RepoInv(w, After(w, repo, DeleteManifest(name)))
  {
    hide Healthy, SnapshotOK, Decoded;
  }

  lemma HealthyWithout(c: Primitives, key: Bytes, universe: iset<Bytes>, blobs: map<Hash, Bytes>, gone: set<Hash>)
    requires Healthy(c, key, universe, blobs)
    ensures Healthy(c, key, universe, blobs - gone)
  {
    hide DecodeBlob, SHA256Bytes;
    forall h | h in blobs - gone
      ensures DownloadBlob(c, key, blobs - gone, h) == DownloadBlob(c, key, blobs, h)
    {
    }
  }

  lemma CollectGarbageKeeps(w: World, repo: Repo, gone: set<Hash>)
    requires RepoInv(w, repo) && forall h :: h in gone ==> !IsAlive(w, repo, h)
    ensures RepoInv(w, After(w, repo, CollectGarbage(gone)))
  {
    hide Healthy, SnapshotOK, Decoded, Alive;
    HealthyWithout(w.c, w.key, w.universe, repo.blobs, gone);
    forall n | n in repo.manifests
      ensures SnapshotOK(w, Decoded(w, repo.manifests[n]).value, repo.sources[n], repo.blobs - gone)
    {
      var m := Decoded(w, repo.manifests[n]).value;
      forall h | h in Alive(m.dirs) && h in repo.blobs ensures h in repo.blobs - gone {
        assert IsAlive(w, repo, h);
      }
      SnapshotMono(w, m, repo.sources[n], repo.blobs, repo.blobs - gone);
    }
  }

  /** The parsed document of a manifest file, as the streaming extractor sees it. */
  ghost function Document(w: World, data: Bytes): Option<Doc> {
    var text := Unwrap(w.c, KeyHook(w.c, w.key), data);
    if text.None? then None else w.j.unmarshal(text.value)
  }

  lemma LoadedFromDocument(w: World, data: Bytes)
    requires Decoded(w, data).Some?
    ensures Document(w, data).Some? && Alive(Decoded(w, data).value.dirs) == LoadedAlive(Document(w, data).value)
  {
    hide Unwrap, Alive, Migrate, ValidStructure;
  }

  /**
   Garbage collection as it runs: deleting blobs that the streaming extraction of no
   manifest file reports is a collection of dead blobs, so it keeps every snapshot.
   */
  lemma StreamedCollectionKeeps(w: World, repo: Repo, gone: set<Hash>)
    requires RepoInv(w, repo) && gone <= repo.blobs.Keys
    requires forall n, h :: n in repo.manifests && h in gone && Document(w, repo.manifests[n]).Some? ==>
      h !in StreamedAlive(Document(w, repo.manifests[n]).value)
    ensures Possible(w, repo, CollectGarbage(gone)) && RepoInv(w, After(w, repo, CollectGarbage(gone)))
  {
    hide Healthy, SnapshotOK, Decoded, Document, StreamedAlive, LoadedAlive, Alive;
    forall h | h in gone ensures !IsAlive(w, repo, h) {
      assert h in repo.blobs.Keys;
      BlobNameNotEmpty(w, repo.blobs, h);
      forall n | n in repo.manifests ensures !KeepsAlive(Decoded(w, repo.manifests[n]), h) {
        LoadedFromDocument(w, repo.manifests[n]);
        StreamedCoversLoaded(Document(w, repo.manifests[n]).value);
      }
    }
    CollectGarbageKeeps(w, repo, gone);
  }

  lemma BlobNameNotEmpty(w: World, blobs: map<Hash, Bytes>, h: Hash)
    requires Healthy(w.c, w.key, w.universe, blobs) && h in blobs
    ensures h != ""
  {
    hide DecodeBlob;
    assert DownloadBlob(w.c, w.key, blobs, h).Some?;
  }

  /** A baseline taken from the repository is what the pool needs of the previous entries. */
  lemma BaselineIsHonest(w: World, repo: Repo, r: Job, source: map<string, Bytes>, fe: ScanEntry)
    requires RepoInv(w, repo) && Baseline(w, repo, r, source) && r.c == w.c && fe in r.scan && fe.path in source
    ensures HonestPrevious(r, w.universe, fe, source[fe.path])
  {
    hide Healthy, Decoded, IsFileMap, ValidStructure, SHA256Bytes, LooksUnchanged, IsSplit, NoClash;
    if fe.path in r.prev && r.prev[fe.path].contentHash != "" {
      var n :| IsBaseline(w, repo, r, source, n);
      var m := Decoded(w, repo.manifests[n]).value;
      assert SnapshotOK(w, m, repo.sources[n], repo.blobs);
      var fm: map<string, FileEntry> :| IsFileMap(m.dirs, fm) && AllBacked(w, fm, repo.sources[n], repo.blobs);
      FileMapUnique(m.dirs, fm, r.prev);
      assert Backed(w.c, w.universe, r.prev[fe.path], repo.sources[n][fe.path], repo.blobs);
      assert HonestClock(r, source, repo.sources[n], fe);
    }
  }

  lemma RunSetting(w: World, repo: Repo, run: Run)
    requires Usable(w) && RepoInv(w, repo) && GoodRun(w, repo, run)
    ensures Setting(run.job, w.universe, run.source)
  {
    hide CollisionFree, RepoInv, Baseline, ProperScan, FaithfulRun, Pool.Reaches, HonestPrevious, Storable;
    forall i | 0 <= i < |run.job.scan| ensures Scanned(run.job, w.universe, run.source, run.job.scan[i]) {
      assert run.job.scan[i].path in run.source;
      BaselineIsHonest(w, repo, run.job, run.source, run.job.scan[i]);
    }
  }

  /** Wherever a run stops, the store is healthy and has lost nothing. */
  lemma RunStaysSane(w: World, repo: Repo, run: Run)
    requires Usable(w) && RepoInv(w, repo) && GoodRun(w, repo, run)
    ensures Setting(run.job, w.universe, run.source) && Sane(run.job, w.universe, run.source, run.end)
    ensures Healthy(w.c, w.key, w.universe, run.end.blobs) && repo.blobs.Keys <= run.end.blobs.Keys
  {
    hide CollisionFree, Baseline, Healthy, ScannedSource, FaithfulRun, ProperScan, Setting, Pool.Reaches, SnapshotOK,
         Conserved, GoodOps, PhaseTrue, NoContent;
    RunSetting(w, repo, run);
    StartSane(run.job, w.universe, run.source, repo.blobs);
    RunSane(run.job, w.universe, run.source, Start(run.job, repo.blobs), run.actions, run.end);
    RunTruthful(run.job, w.universe, run.source, Start(run.job, repo.blobs), run.actions, run.end);
  }

  /** What a good backup's run ends with. */
  lemma RunEndsWell(w: World, repo: Repo, e: Event)
    requires Usable(w) && RepoInv(w, repo) && e.Backup? && GoodBackup(w, repo, e)
    ensures Setting(e.run.job, w.universe, e.run.source) && Sane(e.run.job, w.universe, e.run.source, e.run.end)
    ensures Healthy(w.c, w.key, w.universe, e.run.end.blobs) && repo.blobs.Keys <= e.run.end.blobs.Keys &&
        |e.run.end.phases| == |e.run.job.scan|
    ensures forall i :: 0 <= i < |e.run.end.phases| ==>
      IsMissed(e.run.end.phases[i]) ||
        Backed(w.c, w.universe, e.run.end.phases[i].entry, e.run.source[e.run.job.scan[i].path], e.run.end.blobs)
  {
    hide CollisionFree, Baseline, Healthy, ScannedSource, FaithfulRun, ProperScan, Setting, Pool.Reaches, JsonFaithful,
         Sane, SnapshotOK, Backed, IsMissed;
    RunStaysSane(w, repo, e.run);
    PoolBacksUp(e.run.job, w.universe, e.run.source, repo.blobs, e.run.actions, e.run.end);
  }

  /** A run given up at any point, by a crash, a cancellation or a failed save, harms no snapshot. */
  lemma AbandonKeeps(w: World, repo: Repo, run: Run)
    requires Usable(w) && RepoInv(w, repo) && GoodRun(w, repo, run)
    ensures RepoInv(w, After(w, repo, Abandon(run)))
  {
    hide Healthy, SnapshotOK, Decoded, Usable, GoodRun, Sane, Setting;
    RunStaysSane(w, repo, run);
    forall n | n in repo.manifests
      ensures SnapshotOK(w, Decoded(w, repo.manifests[n]).value, repo.sources[n], run.end.blobs)
    {
      assert forall h :: h in repo.blobs ==> h in repo.blobs.Keys;
      SnapshotMono(w, Decoded(w, repo.manifests[n]).value, repo.sources[n], repo.blobs, run.end.blobs);
    }
  }

  /** The manifest of a good run is valid, loads, and has all its restorable entries backed. */
  lemma NewSnapshotOK(w: World, repo: Repo, e: Event)
    requires Usable(w) && RepoInv(w, repo) && e.Backup? && GoodBackup(w, repo, e)
    ensures Healthy(w.c, w.key, w.universe, e.run.end.blobs) && repo.blobs.Keys <= e.run.end.blobs.Keys
    ensures SnapshotOK(w, Made(e), e.run.source, e.run.end.blobs) && IsFileMap(Made(e).dirs, Added(e.run.end.log))
    ensures Decoded(w, Encode(w.c, w.j, Made(e), w.key, e.iv)) == Some(Made(e))
  {
    hide CollisionFree, Baseline, Healthy, ScannedSource, FaithfulRun, ProperScan, Setting, Pool.Reaches, Pool.Finished,
         JsonFaithful, Sane, ValidStructure, SnapshotOK, Encode, Load, RepoInv, IsMissed, Backed, IsFileMap, AllBacked,
         NoClash;
    RunEndsWell(w, repo, e);
    SaneIsValid(e.run.job, w.universe, e.run.source, e.run.end);
    FinishedBacked(w, e.run.job, e.run.source, e.run.end);
    RunHasNoClash(e.run.job, w.universe, e.run.source, e.run.end);
    MadeSnapshot(w, e, Added(e.run.end.log));
    SaveLoadIff(w.c, w.j, Made(e), w.key, e.iv, KeyHook(w.c, w.key));
  }

  lemma MadeSnapshot(w: World, e: Event, fm: map<string, FileEntry>)
    requires e.Backup? && ValidStructure(e.run.end.tree.dirs, e.run.end.tree.fileCount, e.run.end.tree.totalSize)
    requires IsFileMap(e.run.end.tree.dirs, fm) && AllBacked(w, fm, e.run.source, e.run.end.blobs)
    requires NoClash(e.run.end.tree.dirs, fm)
    ensures SnapshotOK(w, Made(e), e.run.source, e.run.end.blobs)
    ensures ValidStructure(Made(e).dirs, Made(e).stats.fileCount, Made(e).stats.totalSize)
  {
    hide ValidStructure, IsFileMap, AllBacked, NoClash;
  }

  lemma SaneIsValid(r: Job, universe: iset<Bytes>, source: map<string, Bytes>, t: Pool.State)
    requires Setting(r, universe, source) && Sane(r, universe, source, t)
    ensures ValidStructure(t.tree.dirs, t.tree.fileCount, t.tree.totalSize) && IsFileMap(t.tree.dirs, Added(t.log))
  {
    hide Setting, Truthful, GoodOps, ValidStructure, IsFileMap, Build, Added, Recorded, CountsMatch, DoneCount,
         DoneSize;
    BuiltTreeIsValid(t.log);
  }

  /** The manifest of a proper scan has no file in the way of a directory. */
  lemma RunHasNoClash(r: Job, universe: iset<Bytes>, source: map<string, Bytes>, t: Pool.State)
    requires Setting(r, universe, source) && ProperScan(r) && Sane(r, universe, source, t)
    ensures NoClash(t.tree.dirs, Added(t.log))
  {
    hide Setting, Truthful, GoodOps, Build, Added, CountsMatch, DoneCount, DoneSize, IsFileMap, ManifestPath,
         DistinctPaths,
         ProperPath, SkeletonDirs, LogFrom, DirsAbove, DirsOf, FileEntry.IsRestorable;
    var fm := Added(t.log);
    forall p | p in fm ensures p !in SkeletonDirs(t.tree.dirs) {
      var i :| 0 <= i < |t.phases| && t.phases[i].Done? && PathIn(r.scan[i]) == p;
      ProperPathIn(r.scan[i]);
      ScanHasNoClash(r, t.log, i);
    }
  }

  lemma FinishedBacked(w: World, r: Job, source: map<string, Bytes>, t: Pool.State)
    requires Setting(r, w.universe, source) && ProperScan(r) && Sane(r, w.universe, source, t) && Pool.Finished(t) &&
        r.c == w.c
    requires forall i :: 0 <= i < |t.phases| ==>
      IsMissed(t.phases[i]) || Backed(r.c, w.universe, t.phases[i].entry, source[r.scan[i].path], t.blobs)
    ensures AllBacked(w, Added(t.log), source, t.blobs)
  {
    hide Truthful, GoodOps, Build, Added, CountsMatch, DoneCount, DoneSize, IsFileMap, Backed, ProperPath, ManifestPath,
         DistinctPaths, CollisionFree, HonestPrevious, Storable;
    var fm := Added(t.log);
    forall p | p in fm && fm[p].contentHash != ""
      ensures p in source && Backed(w.c, w.universe, fm[p], source[p], t.blobs)
    {
      var i :| 0 <= i < |t.phases| && t.phases[i].Done? && PathIn(r.scan[i]) == p;
      assert Scanned(r, w.universe, source, r.scan[i]);
      ProperPathIn(r.scan[i]);
      assert fm[p] == t.phases[i].entry.(name := p);
      assert NoContent(t.phases[i]);
      BackedRenamed(w.c, w.universe, t.phases[i].entry, p, source[p], t.blobs);
    }
  }

  lemma BackedRenamed(c: Primitives, universe: iset<Bytes>, e: FileEntry, name: string, content: Bytes,
                      blobs: map<Hash, Bytes>)
    ensures Backed(c, universe, e, content, blobs) ==> Backed(c, universe, e.(name := name), content, blobs)
  {
    hide Describes;
    assert e.(name := name).Hashes() == e.Hashes();
  }

  lemma BackupKeeps(w: World, repo: Repo, e: Event)
    requires Usable(w) && RepoInv(w, repo) && e.Backup? && GoodBackup(w, repo, e)
    ensures RepoInv(w, After(w, repo, e))
  {
    hide Healthy, SnapshotOK, Decoded, Usable, GoodBackup, Encode;
    NewSnapshotOK(w, repo, e);
    forall n | n in repo.manifests && n != e.name
      ensures SnapshotOK(w, Decoded(w, repo.manifests[n]).value, repo.sources[n], e.run.end.blobs)
    {
      assert forall h :: h in repo.blobs ==> h in repo.blobs.Keys;
      SnapshotMono(w, Decoded(w, repo.manifests[n]).value, repo.sources[n], repo.blobs, e.run.end.blobs);
    }
  }

  /**
   The repository invariant over every sequence of backups of unchanging sources,
   runs abandoned anywhere, manifest deletions and garbage collections: every blob decodes to bytes with its
   hash, every manifest loads, and every restorable entry's blobs are there.
   */
  lemma {:induction false} LifetimeKeeps(w: World, repo: Repo, events: seq<Event>, end: Repo)
    requires Usable(w) && RepoInv(w, repo) && Lifetime(w, repo, events, end)
    ensures RepoInv(w, end)
    decreases |events|
  {
    hide Usable, RepoInv, GoodBackup, GoodRun, After, IsAlive;
    if events != [] {
      var e := events[0];
      match e {
        case Backup(_, _, _, _, _) => BackupKeeps(w, repo, e);
        case Abandon(run) => AbandonKeeps(w, repo, run);
        case DeleteManifest(name) => DeleteManifestKeeps(w, repo, name);
        case CollectGarbage(gone) => CollectGarbageKeeps(w, repo, gone);
      }
      LifetimeKeeps(w, After(w, repo, e), events[1..], end);
    }
  }

  lemma NewRepoInv(w: World)
    ensures RepoInv(w, NewRepo)
  {
  }

  // ----- Backup then restore -------------------------------------------------------

  /**
   At any time in the life of a repository, restoring any of its snapshots into an
   empty target finishes exactly when no restorable name looks like a drive, and then
   gives back the directories of the manifest and, byte for byte, the files its source
   held when it was made. The order of directories and files, whether files may be
   overwritten, how the store streams and how its reads are cut make no difference.
   */
  lemma {:induction false} RestoreGivesBack(w: World, events: seq<Event>, repo: Repo, name: string,
                                            fm: map<string, FileEntry>, keys: seq<string>, files: seq<FileEntry>,
                                            streamable: Hash -> bool, readSizes: Hash -> seq<nat>, overwrite: bool)
    requires Usable(w) && Lifetime(w, NewRepo, events, repo) && name in repo.manifests
    requires Reading(w, repo, name).Some? ==>
      var dirs := Reading(w, repo, name).value.dirs;
      IsFileMap(dirs, fm) && IsKeyListing(dirs, keys) && IsListing(fm, files)
    ensures Reading(w, repo, name).Some? && name in repo.sources
    ensures forall p :: p in fm && fm[p].IsRestorable() ==> p in repo.sources[name]
    ensures var store := Store(repo.blobs, streamable, readSizes);
      var o := RestoreRun(w.c, w.key, store, overwrite, EmptyTarget, keys, files);
      var source, dirs := repo.sources[name], Reading(w, repo, name).value.dirs;
      && (o.Finished? <==> NoDriveNames(fm))
      && (o.Finished? ==> o.target.dirs == SkeletonDirs(dirs))
      && (o.Finished? ==> o.target.files == map p | p in fm && fm[p].IsRestorable() && p in source :: source[p])
  {
    hide Usable, Lifetime, Reading, RestoreRun, IsFileMap, IsListing, IsKeyListing, NoDriveNames, SkeletonDirs, RepoInv,
         Restorable, NoClash, FileEntry.IsRestorable;
    NewRepoInv(w);
    LifetimeKeeps(w, NewRepo, events, repo);
    SnapshotRestorable(w, repo, name, fm);
    var dirs, source := Reading(w, repo, name).value.dirs, repo.sources[name];
    var store := Store(repo.blobs, streamable, readSizes);
    RestoreIsExactIff(w.c, w.key, w.universe, store, overwrite, dirs, fm, keys, files, source);
    NothingPassedOver(dirs, fm, source);
  }

  lemma NothingPassedOver(dirs: Dirs, fm: map<string, FileEntry>, source: map<string, Bytes>)
    requires NoClash(dirs, fm)
    ensures (map p | p in fm && fm[p].IsRestorable() && p in source && p !in SkeletonDirs(dirs) :: source[p])
         == (map p | p in fm && fm[p].IsRestorable() && p in source :: source[p])
  {
    hide SkeletonDirs, FileEntry.IsRestorable;
  }

  /** The manifest under a name, as it loads. */
  ghost function Reading(w: World, repo: Repo, name: string): Option<Manifest> {
    if name in repo.manifests then Decoded(w, repo.manifests[name]) else None
  }

  lemma SnapshotRestorable(w: World, repo: Repo, name: string, fm: map<string, FileEntry>)
    requires Usable(w) && RepoInv(w, repo) && name in repo.manifests
    requires Reading(w, repo, name).Some? ==> IsFileMap(Reading(w, repo, name).value.dirs, fm)
    ensures Reading(w, repo, name).Some? && name in repo.sources
    ensures Restorable(w.c, w.key, w.universe, repo.blobs, Reading(w, repo, name).value.dirs, fm, repo.sources[name])
    ensures NoClash(Reading(w, repo, name).value.dirs, fm)
    ensures forall p :: p in fm && fm[p].IsRestorable() ==> p in repo.sources[name]
  {
    hide Decoded, IsFileMap, NoClash, Backed, Healthy, ValidDirKey, FilesOK, CollisionFree, Missed;
    var m, source := Reading(w, repo, name).value, repo.sources[name];
    assert SnapshotOK(w, m, source, repo.blobs);
    var known: map<string, FileEntry> :|
      IsFileMap(m.dirs, known) && AllBacked(w, known, source, repo.blobs) && NoClash(m.dirs, known);
    FileMapUnique(m.dirs, known, fm);
  }

  ghost predicate ScannedPath(e: Event, p: string)
    requires e.Backup?
  {
    exists i :: 0 <= i < |e.run.job.scan| && e.run.job.scan[i].path == p
  }

  /** A file of a finished run that is recorded with an error status. */
  ghost predicate Skipped(e: Event, p: string)
    requires e.Backup?
  {
    var scan, phases := e.run.job.scan, e.run.end.phases;
    exists i :: 0 <= i < |scan| && i < |phases| && scan[i].path == p && IsMissed(phases[i])
  }

  /** What is backed up is every scanned file but those that failed or were locked. */
  lemma BackedUpFiles(w: World, repo: Repo, e: Event, p: string)
    requires Usable(w) && RepoInv(w, repo) && e.Backup? && GoodBackup(w, repo, e)
    ensures var fm := Added(e.run.end.log);
      (p in fm && fm[p].IsRestorable()) <==> ScannedPath(e, p) && !Skipped(e, p)
  {
    hide Usable, Baseline, Healthy, Storable, FaithfulRun, Setting, Pool.Reaches, JsonFaithful, RepoInv, Truthful,
         GoodOps, Build, Added, CountsMatch, DoneCount, DoneSize, IsFileMap, ManifestPath, ProperPath, Missed, StatusOf,
         Backed;
    RunEndsWell(w, repo, e);
    var r, t, fm := e.run.job, e.run.end, Added(e.run.end.log);
    StatusMissed();
    forall i | 0 <= i < |r.scan|
      ensures PathIn(r.scan[i]) == r.scan[i].path && r.scan[i].path in fm
      ensures fm[r.scan[i].path].IsRestorable() <==> !IsMissed(t.phases[i])
    {
      ProperPathIn(r.scan[i]);
      assert r.scan[i].path in e.run.source;
      assert Consistent(r.scan[i], t.phases[i]) && NoContent(t.phases[i]);
      RestorableIff(w.c, w.universe, r.scan[i], t.phases[i], fm[r.scan[i].path], e.run.source, t.blobs);
    }
  }

  lemma RestorableIff(c: Primitives, universe: iset<Bytes>, fe: ScanEntry, phase: Phase, e: FileEntry,
                      source: map<string, Bytes>, blobs: map<Hash, Bytes>)
    requires phase.Done? && Consistent(fe, phase) && NoContent(phase) && fe.path in source &&
        e == phase.entry.(name := fe.path)
    requires IsMissed(phase) || Backed(c, universe, phase.entry, source[fe.path], blobs)
    ensures e.IsRestorable() <==> !IsMissed(phase)
  {
    hide Missed, StatusOf, IsSplit;
    StatusMissed();
  }

  /**
   Backup then restore: restoring the manifest a run has just saved writes exactly
   the scanned bytes of every file that did not fail and was not locked, and makes
   exactly the directories of the scan.
   */
  lemma {:induction false} BackupThenRestore(w: World, events: seq<Event>, repo: Repo, e: Event, keys: seq<string>,
                                             files: seq<FileEntry>, streamable: Hash -> bool,
                                             readSizes: Hash -> seq<nat>, overwrite: bool)
    requires Usable(w) && Lifetime(w, NewRepo, events, repo) && e.Backup? && GoodBackup(w, repo, e)
    requires IsKeyListing(Made(e).dirs, keys) && IsListing(Added(e.run.end.log), files) &&
        NoDriveNames(Added(e.run.end.log))
    ensures Reading(w, After(w, repo, e), e.name) == Some(Made(e)) && IsFileMap(Made(e).dirs, Added(e.run.end.log))
    ensures var store := Store(After(w, repo, e).blobs, streamable, readSizes);
      var o := RestoreRun(w.c, w.key, store, overwrite, EmptyTarget, keys, files);
      && o.Finished? && (forall p :: p in o.target.files <==> ScannedPath(e, p) && !Skipped(e, p))
      && (forall p :: p in o.target.files ==> p in e.run.source && o.target.files[p] == e.run.source[p])
      && forall a :: a in o.target.dirs <==> ScannedDir(e.run.job, a)
  {
    hide Usable, Lifetime, GoodBackup, RestoreRun, IsListing, IsKeyListing, NoDriveNames, RepoInv, SnapshotOK, Added,
         Made,
         Decoded, Encode, Healthy, Skipped, ScannedPath, FileEntry.IsRestorable, IsFileMap, SkeletonDirs, ScannedDir;
    NewRepoInv(w);
    LifetimeKeeps(w, NewRepo, events, repo);
    NewSnapshotOK(w, repo, e);
    var repo', fm := After(w, repo, e), Added(e.run.end.log);
    LifetimeAppend(w, NewRepo, events, repo, e);
    RestoreGivesBack(w, events + [e], repo', e.name, fm, keys, files, streamable, readSizes, overwrite);
    forall p ensures (p in fm && fm[p].IsRestorable()) <==> ScannedPath(e, p) && !Skipped(e, p) {
      BackedUpFiles(w, repo, e, p);
    }
    forall a ensures a in SkeletonDirs(Made(e).dirs) <==> ScannedDir(e.run.job, a) {
      BackedUpDirs(w, repo, e, a);
    }
  }

  /** The log of a run starts with the empty directories of its scan. */
  lemma {:induction false} LogStarts(r: Job, s: Pool.State, actions: seq<Action>, t: Pool.State)
    requires EmptyOps(r.emptyDirs) <= s.log && Pool.Reaches(r, s, actions, t)
    ensures EmptyOps(r.emptyDirs) <= t.log
    decreases |actions|
  {
    hide NextPhase, NextBlobs, Allowed, Apply, Count, EmptyOps;
    if actions != [] { LogStarts(r, Do(r, s, actions[0]), actions[1..], t); }
  }

  /** A directory of the scan: above a scanned file, or an empty one or above it. */
  ghost predicate ScannedDir(r: Job, a: string) {
    || (exists i :: 0 <= i < |r.scan| && a in DirsAbove(r.scan[i].path))
    || (exists j :: 0 <= j < |r.emptyDirs| && a in DirsOf(Normalize(r.emptyDirs[j])))
  }

  /** The directories of a backup's manifest are exactly those of its scan, empty ones included. */
  lemma BackedUpDirs(w: World, repo: Repo, e: Event, a: string)
    requires Usable(w) && RepoInv(w, repo) && e.Backup? && GoodBackup(w, repo, e)
    ensures a in SkeletonDirs(Made(e).dirs) <==> ScannedDir(e.run.job, a)
  {
    hide Usable, RepoInv, FaithfulRun, ScannedSource, Baseline, ProperScan, Truthful, Conserved, GoodOps, Build, Added,
         SkeletonDirs, OpDirs, DirsOf, DirsAbove, Pool.Reaches, LogFrom, Setting;
    RunStaysSane(w, repo, e.run);
    var r, log := e.run.job, e.run.end.log;
    SaneTree(r, w.universe, e.run.source, e.run.end);
    SkeletonOfOps(log, a);
    LogStarts(r, Start(r, repo.blobs), e.run.actions, e.run.end);
    if a in SkeletonDirs(Made(e).dirs) {
      var i :| 0 <= i < |log| && a in OpDirs(log[i]);
      LoggedDir(r, log, i, a);
    }
    if ScannedDir(r, a) { ScannedDirLogged(w, repo, e, a); }
  }

  lemma SaneTree(r: Job, universe: iset<Bytes>, source: map<string, Bytes>, s: Pool.State)
    requires Setting(r, universe, source) && Sane(r, universe, source, s)
    ensures s.tree == Build(s.log) && GoodOps(s.log) && LogFrom(r, s.log)
  {
    hide Truthful, GoodOps, Build, LogFrom, Recorded, CountsMatch, IsFileMap, NoContent, Setting;
  }

  lemma LoggedDir(r: Job, log: seq<Op>, i: nat, a: string)
    requires ProperScan(r) && LogFrom(r, log) && i < |log| && a in OpDirs(log[i])
    ensures ScannedDir(r, a)
  {
    hide ProperScan, OpDirs, DirsOf, DirsAbove, OpFrom;
    assert OpFrom(r, log[i]);
    ScannedOpDirs(r, log[i], a);
  }

  lemma ScannedDirLogged(w: World, repo: Repo, e: Event, a: string)
    requires Usable(w) && RepoInv(w, repo) && e.Backup? && GoodBackup(w, repo, e) && ScannedDir(e.run.job, a)
    requires EmptyOps(e.run.job.emptyDirs) <= e.run.end.log
    ensures exists i :: 0 <= i < |e.run.end.log| && a in OpDirs(e.run.end.log[i])
  {
    hide Usable, RepoInv, FaithfulRun, ScannedSource, Baseline, ScannedDir, Pool.Reaches, Setting, Conserved, Added,
         OpDirs, ProperScan, Truthful, GoodOps, LogFrom, NoContent, EmptyOps, JsonFaithful;
    var r := e.run.job;
    RunStaysSane(w, repo, e.run);
    forall j | 0 <= j < |r.scan| ensures PathIn(r.scan[j]) in Added(e.run.end.log) {
      DoneIsAdded(r, e.run.end, j);
    }
    DirIsLogged(r, e.run.end.log, a);
  }

  lemma DirIsLogged(r: Job, log: seq<Op>, a: string)
    requires ProperScan(r) && LogFrom(r, log) && EmptyOps(r.emptyDirs) <= log && ScannedDir(r, a)
    requires forall j :: 0 <= j < |r.scan| ==> PathIn(r.scan[j]) in Added(log)
    ensures exists i :: 0 <= i < |log| && a in OpDirs(log[i])
  {
    hide DirsOf, DirsAbove, Added, ValidDirKey, Normalize, ProperPath, LogFrom, ManifestPath, DistinctPaths;
    if j :| 0 <= j < |r.emptyDirs| && a in DirsOf(Normalize(r.emptyDirs[j])) {
      assert log[j] == EmptyOps(r.emptyDirs)[j] == Empty(r.emptyDirs[j]);
    } else {
      var j :| 0 <= j < |r.scan| && a in DirsAbove(r.scan[j].path);
      ScannedIsLogged(r, log, j);
      var i :| 0 <= i < |log| && log[i].File? && log[i].entry.name == r.scan[j].path;
      ProperPathIn(r.scan[j]);
    }
  }

  lemma DoneIsAdded(r: Job, s: Pool.State, j: nat)
    requires Conserved(r, s) && Pool.Finished(s) && j < |r.scan|
    ensures PathIn(r.scan[j]) in Added(s.log)
  {
    hide CountsMatch, IsFileMap, Build, Added, ManifestPath, Consistent;
  }

  /** A file that is done has been logged. */
  lemma ScannedIsLogged(r: Job, log: seq<Op>, j: nat)
    requires j < |r.scan| && DistinctPaths(r.scan) && LogFrom(r, log) && PathIn(r.scan[j]) in Added(log)
    ensures exists i :: 0 <= i < |log| && log[i].File? && log[i].entry.name == r.scan[j].path
  {
    hide Added, ManifestPath;
    AddedFrom(log, PathIn(r.scan[j]));
    var i :| 0 <= i < |log| && log[i].File? && ManifestPath(log[i].entry.name) == PathIn(r.scan[j]);
    assert OpFrom(r, log[i]);
    var k :| 0 <= k < |r.scan| && r.scan[k].path == log[i].entry.name;
    assert PathIn(r.scan[k]) == PathIn(r.scan[j]);
  }

  lemma {:induction false} AddedFrom(log: seq<Op>, p: string)
    requires p in Added(log)
    ensures exists i :: 0 <= i < |log| && log[i].File? && ManifestPath(log[i].entry.name) == p
  {
    hide ManifestPath;
    var init := log[..|log| - 1];
    if p in Added(init) {
      AddedFrom(init, p);
      var i :| 0 <= i < |init| && init[i].File? && ManifestPath(init[i].entry.name) == p;
      assert log[i] == init[i];
    } else {
      assert log[|log| - 1].File?;
    }
  }

  /**
   The stats of a saved manifest: every scanned file and byte is counted, the files
   that were backed up are counted by how their bytes compare with the baseline, and
   the previous paths divide into deleted and scanned ones. It is marked complete
   exactly if nothing failed to scan and every scanned file was backed up.
   */
  lemma BackupReports(w: World, repo: Repo, e: Event)
    requires Usable(w) && RepoInv(w, repo) && e.Backup? && GoodBackup(w, repo, e)
    ensures var r, source, fm, stats := e.run.job, e.run.source, Added(e.run.end.log), Made(e).stats;
      && stats.fileCount == |r.scan| && stats.totalSize == ScanSize(r.scan)
      && stats.newFiles == |set i | i in Kept(r, fm) && r.scan[i].path !in r.prev|
      && stats.unchangedFiles == |set i | i in Kept(r, fm) && WasSame(r, source, r.scan[i].path)|
      && stats.changedFiles
         == |set i | i in Kept(r, fm) && r.scan[i].path in r.prev && !WasSame(r, source, r.scan[i].path)|
      && |e.run.end.phases| == |r.scan|
      && stats.newBytes == KeptBytes(e.run.end.phases,
                                     PutHistory(r, Start(r, repo.blobs), e.run.actions, seq(|r.scan|, _ => 0)))
      && stats.deletedFiles + |set p | p in r.prev && ScannedPath(e, p)| == |r.prev|
      && (Made(e).completeness == "complete" <==> stats.scanErrors <= 0 && |Kept(r, fm)| == |r.scan|)
  {
    hide Usable, FaithfulRun, ScannedSource, Baseline, Setting, Healthy, Pool.Reaches, Added, Kept, WasSame, KeptBytes,
         PutHistory, Start, SnapshotOK, Decoded, DistinctPaths, ProperPath, ValidDirKey, DirsAbove, DirsOf, IsFileMap,
         Complete, CollisionFree;
    var r, run := e.run.job, e.run;
    RunSetting(w, repo, run);
    PoolConserves(r, repo.blobs, run.actions, run.end, e.scanErrors);
    PoolClassifies(r, w.universe, run.source, repo.blobs, run.actions, run.end);
    PoolCountsUploads(r, repo.blobs, run.actions, run.end);
    DeletedOrScanned(e);
    KeptCount(r, repo.blobs, run.actions, run.end);
    assert "incomplete"[0] == 'i' && "complete"[0] == 'c';
  }

  lemma DeletedOrScanned(e: Event)
    requires e.Backup?
    ensures var r := e.run.job; |DeletedPaths(r)| + |set p | p in r.prev && ScannedPath(e, p)| == |r.prev|
  {
    var r := e.run.job;
    var gone, kept := DeletedPaths(r), set p | p in r.prev && ScannedPath(e, p);
    assert r.prev.Keys == gone + kept;
    assert gone !! kept;
  }

  /** A deleted manifest is gone, a collected blob is gone, and nothing else is. */
  lemma DeletionsWork(w: World, repo: Repo, name: string, gone: set<Hash>)
    ensures Reading(w, After(w, repo, DeleteManifest(name)), name) == None
    ensures forall n :: n != name ==> Reading(w, After(w, repo, DeleteManifest(name)), n) == Reading(w, repo, n)
    ensures After(w, repo, DeleteManifest(name)).blobs == repo.blobs
    ensures var after := After(w, repo, CollectGarbage(gone));
      && after.manifests == repo.manifests && (forall h :: h in after.blobs <==> h in repo.blobs && h !in gone)
      && forall h :: h in after.blobs ==> after.blobs[h] == repo.blobs[h]
  {
    hide Decoded;
  }

  lemma {:induction false} LifetimeAppend(w: World, repo: Repo, events: seq<Event>, mid: Repo, e: Event)
    requires Lifetime(w, repo, events, mid) && Possible(w, mid, e)
    ensures Lifetime(w, repo, events + [e], After(w, mid, e))
    decreases |events|
  {
    hide Possible, After;
    if events == [] {
      assert events + [e] == [e] && [e][1..] == [];
      assert Lifetime(w, After(w, mid, e), [], After(w, mid, e));
    } else {
      assert (events + [e])[0] == events[0] && (events + [e])[1..] == events[1..] + [e];
      LifetimeAppend(w, After(w, repo, events[0]), events[1..], mid, e);
    }
  }

  // ----- The assumptions can be met -------------------------------------------------

  /** The first backup of one small file: its steps, and the state they lead to. */
  function FirstBackup(w: World, fe: ScanEntry, content: Bytes, smallIV: SmallIV, header: Header, iv: IV): Event {
    var job := Job(w.c, w.key, [fe], map[], [], _ => false);
    var stored := SmallFileStored(job, Start(job, map[]), content, content, smallIV);
    var entry := stored.phases[0].entry;
    var end := stored.(phases := [Done(entry, New)], tree := Apply(stored.tree, File(entry)),
                       log := stored.log + [File(entry)], counts := Count(stored.counts, New, fe.size));
    var steps := SmallFileSteps(content, content, smallIV) + [Commit(0)];
    Backup("first", Run(job, map[fe.path := content], steps, end), header, 0, iv)
  }

  lemma FirstBackupRuns(w: World, fe: ScanEntry, content: Bytes, smallIV: SmallIV, header: Header, iv: IV)
    requires ValidKey(w.key) && fe.size == |content| < DefaultChunkSize
    ensures var run := FirstBackup(w, fe, content, smallIV, header, iv).run;
      Pool.Reaches(run.job, Start(run.job, map[]), run.actions, run.end) && Pool.Finished(run.end)
  {
    hide SHA256Bytes, PutBlob, Apply, Build, Start, Pool.Reaches, SmallFileSteps;
    var run := FirstBackup(w, fe, content, smallIV, header, iv).run;
    var stored := SmallFileStored(run.job, Start(run.job, map[]), content, content, smallIV);
    SmallFileRun(run.job, map[], content, content, smallIV);
    assert Do(run.job, stored, Commit(0)) == run.end;
    ReachesSnoc(run.job, Start(run.job, map[]), SmallFileSteps(content, content, smallIV), stored, Commit(0));
  }

  /** In a new repository, any small file under a proper name that can be stored can be backed up. */
  lemma FirstBackupIsGood(w: World, fe: ScanEntry, content: Bytes, smallIV: SmallIV, header: Header, iv: IV)
    requires ValidKey(w.key) && content in w.universe && fe.size == |content| < DefaultChunkSize && ProperPath(fe.path)
    requires Storable(w.c, content, false) && header.version >= 2
    requires var m := Made(FirstBackup(w, fe, content, smallIV, header, iv));
      JsonFaithful(w.j, m) && |w.j.marshal(m)| <= 256 * 1024 * 1024
    ensures GoodBackup(w, NewRepo, FirstBackup(w, fe, content, smallIV, header, iv))
    ensures !Skipped(FirstBackup(w, fe, content, smallIV, header, iv), fe.path)
  {
    hide SHA256Bytes, ChunkBlob, Pool.Reaches, Pool.Finished, JsonFaithful, Storable, Apply, ValidDirKey, Ancestors,
         LastSlash, ProperScan, Made;
    FirstBackupRuns(w, fe, content, smallIV, header, iv);
    OneProperFile(FirstBackup(w, fe, content, smallIV, header, iv).run.job, fe);
  }

  lemma OneProperFile(r: Job, fe: ScanEntry)
    requires r.scan == [fe] && r.emptyDirs == [] && ProperPath(fe.path)
    ensures ProperScan(r)
  {
    hide DirsAbove, ProperPath, ManifestPath;
    NotAboveItself(fe.path);
  }

  lemma NotAboveItself(p: string)
    requires ProperPath(p)
    ensures p !in DirsAbove(p)
  {
    hide ValidDirKey, Ancestors, LastSlash, DirOf, BaseOf;
    JoinSplit(p);
    if DirOf(p) != "" { NotOwnAncestor(DirOf(p), BaseOf(p)); }
  }

  // ----- Names that do not come back ------------------------------------------------

  /** A root file may be named like a drive. */
  lemma DriveNameIsProper()
    ensures ProperPath("C:x") && DriveLike("C:x")
  {
    hide DirOf, BaseOf, Split;
    RootNames("C:x");
  }

  /**
   The drive condition is needed: backing up one file under a proper name that looks
   like a drive succeeds, and no restore of that backup does.
   */
  lemma DriveNameStopsRestore(w: World, fe: ScanEntry, content: Bytes, smallIV: SmallIV, header: Header, iv: IV,
                              keys: seq<string>, files: seq<FileEntry>, streamable: Hash -> bool,
                              readSizes: Hash -> seq<nat>, overwrite: bool)
    requires Usable(w) && content in w.universe && fe.size == |content| < DefaultChunkSize
    requires ProperPath(fe.path) && DriveLike(fe.path) && Storable(w.c, content, false) && header.version >= 2
    requires var m := Made(FirstBackup(w, fe, content, smallIV, header, iv));
      JsonFaithful(w.j, m) && |w.j.marshal(m)| <= 256 * 1024 * 1024
    requires var e := FirstBackup(w, fe, content, smallIV, header, iv);
      IsKeyListing(Made(e).dirs, keys) && IsListing(Added(e.run.end.log), files)
    ensures var e := FirstBackup(w, fe, content, smallIV, header, iv);
      var store := Store(After(w, NewRepo, e).blobs, streamable, readSizes);
      && GoodBackup(w, NewRepo, e) && !Skipped(e, fe.path)
      && RestoreRun(w.c, w.key, store, overwrite, EmptyTarget, keys, files).Failed?
  {
    hide CollisionFree, ProperPath, DriveLike, Storable, JsonFaithful, GoodBackup, Skipped, RestoreRun, IsKeyListing,
         IsListing, RepoInv, Added, Made, Decoded, Encode, SnapshotOK, Healthy, IsFileMap, SkeletonDirs, FirstBackup;
    var e := FirstBackup(w, fe, content, smallIV, header, iv);
    FirstBackupIsGood(w, fe, content, smallIV, header, iv);
    FirstBackupScans(w, fe, content, smallIV, header, iv);
    NewRepoInv(w);
    NewSnapshotOK(w, NewRepo, e);
    LifetimeAppend(w, NewRepo, [], NewRepo, e);
    assert [] + [e] == [e];
    var fm := Added(e.run.end.log);
    RestoreGivesBack(w, [e], After(w, NewRepo, e), e.name, fm, keys, files, streamable, readSizes, overwrite);
    BackedUpFiles(w, NewRepo, e, fe.path);
    assert !NoDriveNames(fm);
  }

  lemma FirstBackupScans(w: World, fe: ScanEntry, content: Bytes, smallIV: SmallIV, header: Header, iv: IV)
    ensures var e := FirstBackup(w, fe, content, smallIV, header, iv); e.Backup? && ScannedPath(e, fe.path)
  {
    hide SmallFileStored, Apply, Count, SmallFileSteps;
    var e := FirstBackup(w, fe, content, smallIV, header, iv);
    assert e.run.job.scan[0].path == fe.path;
  }

  lemma TwoFiles(x: FileEntry, y: FileEntry)
    ensures Build([File(x), File(y)]) == Apply(Apply(NewTree, File(x)), File(y))
    ensures Added([File(x), File(y)]) == Record(Record(map[], File(x)), File(y))
  {
    hide Apply, Record;
    var none: seq<Op> := [];
    assert none + [File(x)] == [File(x)] && [File(x)] + [File(y)] == [File(x), File(y)];
    BuildSnoc(none, File(x));
    BuildSnoc([File(x)], File(y));
  }

  lemma TwoGoodFiles(x: FileEntry, y: FileEntry)
    requires GoodOp(map[], File(x)) && GoodOp(Record(map[], File(x)), File(y))
    ensures GoodOps([File(x), File(y)])
  {
    hide GoodOp, Record;
    var ops, none: seq<Op> := [File(x), File(y)], [];
    assert ops[..0] == none && ops[..1] == none + [File(x)];
    BuildSnoc(none, File(x));
  }

  /** Adding a file makes its directory a key of the tree. */
  lemma AddedDirKept(t: Tree, e: FileEntry)
    ensures DirOf(Normalize(e.name)) in Apply(t, File(e)).dirs
  {
    hide LastSlash, EnsureFrom, Total;
    var dir := DirOf(Normalize(e.name));
    var dirs' := AppendFile(t.dirs, dir, e.(name := BaseOf(Normalize(e.name))));
    assert dir in dirs';
    EnsureFromSameFiles(dirs', Split(dir), 0);
  }

  /** A file at a proper path that is free is a proper operation. */
  lemma ProperFileIsGood(fm: map<string, FileEntry>, e: FileEntry, dir: string, base: string)
    requires e.name == JoinPath(dir, base) && e.name != "" && e.name[0] != '/' && e.name !in fm
    requires ValidDirKey(dir) && ValidEntryName(base) && EntryOK(e.(name := base))
    ensures GoodOp(fm, File(e)) && Normalize(e.name) == e.name && ManifestPath(e.name) == e.name
    ensures DirOf(e.name) == dir
  {
    hide DirOf, BaseOf, ValidDirKey, EntryOK, JoinPath;
    SplitJoined(dir, base);
  }

  /**
   The other condition is needed too: a file, and a file in a directory of the same
   path, make a manifest that passes validation and has a clash.
   */
  lemma FileAndDirectoryClash(x: FileEntry, y: FileEntry, dir: string, base: string, below: string)
    requires x.name == JoinPath(dir, base) && x.name != "" && x.name[0] != '/' && x.IsRestorable()
    requires ValidDirKey(dir) && ValidEntryName(base) && EntryOK(x.(name := base))
    requires y.name == JoinPath(x.name, below) && ValidDirKey(x.name) && ValidEntryName(below)
    requires EntryOK(y.(name := below))
    ensures var ops := [File(x), File(y)];
      var t := Build(ops);
      GoodOps(ops) && ValidStructure(t.dirs, t.fileCount, t.totalSize) && !NoClash(t.dirs, Added(ops))
  {
    hide ValidStructure, GoodOps, GoodOp, Build, Added, Apply, EntryOK, ValidDirKey, ValidEntryName, Ancestors, DirOf,
         FileEntry.IsRestorable, ManifestPath, IsFileMap, Missed;
    var ops := [File(x), File(y)];
    LongerPath(x.name, below);
    ProperFileIsGood(map[], x, dir, base);
    ProperFileIsGood(Record(map[], File(x)), y, x.name, below);
    TwoGoodFiles(x, y);
    BuiltTreeIsValid(ops);
    TwoFiles(x, y);
    AddedDirKept(Apply(NewTree, File(x)), y);
    SelfAncestor(x.name);
    assert x.name in SkeletonDirs(Build(ops).dirs);
    var fm := Added(ops);
    assert x.name in fm && fm[x.name] == x.(name := x.name) == x;
  }

  lemma LongerPath(dir: string, base: string)
    requires dir != ""
    ensures JoinPath(dir, base) != dir && JoinPath(dir, base) != "" && JoinPath(dir, base)[0] == dir[0]
  {
    assert |JoinPath(dir, base)| > |dir|;
  }

  /** Such as "a" and "a/b". */
  lemma ClashExists(hash: Hash)
    requires hash != ""
    ensures exists ops :: var t := Build(ops);
      GoodOps(ops) && ValidStructure(t.dirs, t.fileCount, t.totalSize) && !NoClash(t.dirs, Added(ops))
  {
    hide ValidStructure, NoClash, Build, GoodOps, Added, Split, ValidDirKey, Missed;
    var x, y := FileEntry("a", hash, 0, "", 0, "new", []), FileEntry("a/b", hash, 0, "", 0, "new", []);
    StatusMissed();
    assert StatusOf(New) == "new";
    RootKey("a");
    RootKey("");
    assert JoinPath("a", "b") == "a/b" && JoinPath("", "a") == "a";
    FileAndDirectoryClash(x, y, "", "a", "b");
  }

  lemma RootKey(k: string)
    requires k == "" || k == "a"
    ensures ValidDirKey(k)
  {
    if k == "a" {
      LastSlashUnique(k, -1);
      assert Split(k) == ["a"];
    }
  }
}
