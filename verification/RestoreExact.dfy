/**
 Restoring from a store that holds what the entries describe: the target becomes
 exactly the described contents.
 */
module RestoreExact {
  import opened ByteSeqs
  import opened Primitives
  import opened Hashing
  import opened Paths
  import opened ManifestTypes
  import opened ManifestTree
  import opened RestorePaths
  import opened ChunkPlan
  import opened Restore
  import opened Pool
  import opened PoolContent

  lemma FetchFinds(c: Primitives, key: Bytes, universe: iset<Bytes>, store: Store, x: Bytes)
    requires CollisionFree(c, universe) && Healthy(c, key, universe, store.blobs)
    requires x in universe && SHA256Bytes(c, x) in store.blobs
    ensures FetchChunk(c, key, store, SHA256Bytes(c, x)) == Some(x)
    ensures DownloadBlob(c, key, store.blobs, SHA256Bytes(c, x)) == Some(x)
  {
    hide SHA256Bytes, CollisionFree, Sound, DownloadBlob;
    DownloadFinds(c, key, universe, store.blobs, x);
  }

  lemma {:induction false} FetchChunksFinds(c: Primitives, key: Bytes, universe: iset<Bytes>, store: Store,
                                            pieces: seq<Bytes>)
    requires CollisionFree(c, universe) && Healthy(c, key, universe, store.blobs)
    requires forall i :: 0 <= i < |pieces| ==> pieces[i] in universe && SHA256Bytes(c, pieces[i]) in store.blobs
    ensures FetchChunks(c, key, store, Refs(c, pieces)) == Some(Flatten(pieces))
  {
    hide SHA256Bytes, CollisionFree, Healthy, FetchChunk;
    if pieces != [] {
      var init, last := pieces[..|pieces| - 1], pieces[|pieces| - 1];
      FetchChunksFinds(c, key, universe, store, init);
      FetchFinds(c, key, universe, store, last);
      assert Refs(c, pieces)[..|pieces| - 1] == Refs(c, init);
      FlattenAppend(init, last);
      assert pieces == init + [last];
    }
  }

  /** An entry whose content is described and stored is fetched as that content. */
  lemma FetchEntryFinds(c: Primitives, key: Bytes, universe: iset<Bytes>, store: Store, e: FileEntry, content: Bytes)
    requires CollisionFree(c, universe) && Healthy(c, key, universe, store.blobs)
    requires Backed(c, universe, e, content, store.blobs)
    ensures FetchEntry(c, key, store, e) == Some(content)
  {
    hide SHA256Bytes, CollisionFree, Healthy, FetchChunks, DownloadBlob, Chunkable;
    if e.chunks == [] {
      assert e.Hashes()[0] == e.contentHash;
      FetchFinds(c, key, universe, store, content);
    } else {
      var pieces :| IsSplit(c, universe, pieces, content) && e.chunks == Refs(c, pieces);
      forall i | 0 <= i < |pieces| ensures SHA256Bytes(c, pieces[i]) in store.blobs {
        assert e.Hashes()[i] == e.chunks[i].hash;
      }
      FetchChunksFinds(c, key, universe, store, pieces);
    }
  }

  // ----- The directory skeleton ------------------------------------------------

  /** Every key of the manifest, in some order. */
  ghost predicate IsKeyListing(dirs: Dirs, keys: seq<string>) {
    forall k :: k in keys <==> k in dirs
  }

  /** The directories of a manifest: its keys and what is above them. */
  function SkeletonDirs(dirs: Dirs): set<string> {
    set k, a | k in dirs && k != "" && a in Ancestors(k) :: a
  }

  function KeyDirs(keys: seq<string>): set<string> {
    if keys == [] then {}
    else KeyDirs(keys[..|keys| - 1]) + if keys[|keys| - 1] == "" then {} else Ancestors(keys[|keys| - 1])
  }

  function Prefixes(comps: seq<string>): set<string> {
    set i | 1 <= i <= |comps| :: Join(comps[..i])
  }

  /** A walk past no file makes every directory on its way. */
  lemma {:induction false} OpenPathExact(t: Target, comps: seq<string>)
    requires forall p :: p in Prefixes(comps) ==> p !in t.files
    ensures OpenPath(t, comps) == Opened(t.(dirs := t.dirs + Prefixes(comps)), true)
  {
    hide Join;
    if comps == [] {
      assert Prefixes(comps) == {};
      assert t.dirs + {} == t.dirs;
    } else {
      var n := |comps| - 1;
      var init := comps[..n];
      assert forall i :: 0 <= i <= n ==> init[..i] == comps[..i];
      assert comps[..|comps|] == comps;
      assert Prefixes(comps) == Prefixes(init) + {Join(comps)};
      OpenPathExact(t, init);
      assert t.dirs + Prefixes(init) + {Join(comps)} == t.dirs + Prefixes(comps);
    }
  }

  lemma {:induction false} SkeletonExact(keys: seq<string>)
    requires forall i :: 0 <= i < |keys| ==> ValidDirKey(keys[i])
    ensures MakeSkeleton(EmptyTarget, keys) == Opened(Target(map[], KeyDirs(keys)), true)
  {
    hide OpenPath, SafeComponents, ValidDirKey, Ancestors;
    if keys != [] {
      var init, k := keys[..|keys| - 1], keys[|keys| - 1];
      SkeletonExact(init);
      if k != "" {
        KeyKept(k);
        AncestorsArePrefixes(k);
        OpenPathExact(Target(map[], KeyDirs(init)), Split(k));
      }
    }
  }

  lemma AncestorsArePrefixes(k: string)
    ensures Ancestors(k) == Prefixes(Split(k))
  {
  }

  lemma {:induction false} KeyDirsCover(keys: seq<string>, a: string)
    ensures a in KeyDirs(keys) <==> exists i :: 0 <= i < |keys| && keys[i] != "" && a in Ancestors(keys[i])
  {
    hide Ancestors;
    if keys != [] {
      var n := |keys| - 1;
      KeyDirsCover(keys[..n], a);
      if i :| 0 <= i < n && keys[..n][i] != "" && a in Ancestors(keys[..n][i]) {
        assert keys[i] == keys[..n][i];
      }
      if i :| 0 <= i < |keys| && keys[i] != "" && a in Ancestors(keys[i]) {
        if i < n { assert keys[..n][i] == keys[i]; }
      }
    }
  }

  lemma KeyDirsAre(dirs: Dirs, keys: seq<string>)
    requires IsKeyListing(dirs, keys)
    ensures KeyDirs(keys) == SkeletonDirs(dirs)
  {
    hide Ancestors, KeyDirs;
    forall a ensures a in KeyDirs(keys) <==> a in SkeletonDirs(dirs) {
      KeyDirsCover(keys, a);
      if a in SkeletonDirs(dirs) {
        var k :| k in dirs && k != "" && a in Ancestors(k);
        var i :| 0 <= i < |keys| && keys[i] == k;
      }
      if i :| 0 <= i < |keys| && keys[i] != "" && a in Ancestors(keys[i]) {
        assert keys[i] in dirs;
      }
    }
  }

  // ----- A whole listing -----------------------------------------------------

  /** The contents of the restorable entries that are not in the way of a directory, under their names. */
  function Expected(files: seq<FileEntry>, source: map<string, Bytes>, dirs: set<string>): map<string, Bytes> {
    if files == [] then map[]
    else
      var init, e := Expected(files[..|files| - 1], source, dirs), files[|files| - 1];
      if e.IsRestorable() && e.name in source && e.name !in dirs then init[e.name := source[e.name]] else init
  }

  ghost predicate Fetches(c: Primitives, key: Bytes, store: Store, source: map<string, Bytes>, e: FileEntry) {
    e.IsRestorable() ==> e.name in source && FetchEntry(c, key, store, e) == Some(source[e.name])
  }

  /** The name is its own place in the target, below directories of the skeleton. */
  ghost predicate Placed(e: FileEntry, dirs: set<string>) {
    e.IsRestorable() ==>
      && SafeComponents(e.name) == Some(Split(e.name))
      && Prefixes(Split(e.name)[..|Split(e.name)| - 1]) <= dirs
  }

  ghost predicate Contributes(e: FileEntry, source: map<string, Bytes>, dirs: set<string>, p: string) {
    e.name == p && e.IsRestorable() && p in source && p !in dirs
  }

  lemma {:induction false} ExpectedNames(files: seq<FileEntry>, source: map<string, Bytes>, dirs: set<string>,
                                         p: string)
    ensures p in Expected(files, source, dirs) <==>
        exists i :: 0 <= i < |files| && Contributes(files[i], source, dirs, p)
    ensures p in Expected(files, source, dirs) ==> p in source && Expected(files, source, dirs)[p] == source[p]
  {
    hide FileEntry.IsRestorable;
    if files != [] {
      var n := |files| - 1;
      ExpectedNames(files[..n], source, dirs, p);
      if i :| 0 <= i < n && Contributes(files[..n][i], source, dirs, p) {
        assert files[i] == files[..n][i];
      }
      if i :| 0 <= i < |files| && Contributes(files[i], source, dirs, p) {
        if i < n { assert files[..n][i] == files[i]; }
      }
    }
  }

  /** One placed entry on top of a target whose directories are the skeleton's. */
  lemma RestorePlaced(c: Primitives, key: Bytes, store: Store, overwrite: bool, o: Outcome, e: FileEntry,
                      source: map<string, Bytes>)
    requires o.Finished? && Fetches(c, key, store, source, e) && Placed(e, o.target.dirs)
    requires o.target.files.Keys !! o.target.dirs && e.name !in o.target.files
    requires overwrite && e.IsRestorable() ==> e.name !in o.target.dirs
    ensures var o' := RestoreOne(c, key, store, overwrite, o, e);
      && o'.Finished? && o'.target.dirs == o.target.dirs
      && o'.target.files == if e.IsRestorable() && e.name !in o.target.dirs
                            then o.target.files[e.name := source[e.name]] else o.target.files
  {
    hide FileEntry.IsRestorable, FetchEntry, SafeComponents, OpenPath, Prefixes, Split, Join;
    if e.IsRestorable() {
      var comps := Split(e.name);
      OpenPathExact(o.target, comps[..|comps| - 1]);
      assert o.target.dirs + Prefixes(comps[..|comps| - 1]) == o.target.dirs;
      JoinOfSplit(e.name);
    }
  }

  /**
   Into a fresh skeleton, with distinct names in place, every entry is restored, in the
   way of a directory, or no content.
   */
  lemma {:induction false} RestoreListing(c: Primitives, key: Bytes, store: Store, overwrite: bool,
                                          files: seq<FileEntry>, source: map<string, Bytes>, dirs: set<string>)
    requires forall i :: 0 <= i < |files| ==> Fetches(c, key, store, source, files[i]) && Placed(files[i], dirs)
    requires forall i, j :: 0 <= i < j < |files| ==> files[i].name != files[j].name
    requires overwrite ==> forall i :: 0 <= i < |files| && files[i].IsRestorable() ==> files[i].name !in dirs
    ensures var o := RestoreAll(c, key, store, overwrite, Target(map[], dirs), files);
      o.Finished? && o.target == Target(Expected(files, source, dirs), dirs)
  {
    hide FileEntry.IsRestorable, Fetches, Placed, RestoreOne;
    if files != [] {
      var n := |files| - 1;
      var init, e := files[..n], files[n];
      forall i | 0 <= i < |init| ensures Fetches(c, key, store, source, init[i]) && Placed(init[i], dirs) {
        assert init[i] == files[i];
      }
      RestoreListing(c, key, store, overwrite, init, source, dirs);
      var o := RestoreAll(c, key, store, overwrite, Target(map[], dirs), init);
      forall p | p in o.target.files ensures p !in dirs && p != e.name {
        ExpectedNames(init, source, dirs, p);
        var i :| 0 <= i < |init| && Contributes(init[i], source, dirs, p);
      }
      assert Fetches(c, key, store, source, e) && Placed(e, dirs);
      assert o.target.files.Keys !! o.target.dirs && e.name !in o.target.files;
      RestorePlaced(c, key, store, overwrite, o, e, source);
      if e.IsRestorable() { FetchesSource(c, key, store, source, e); }
    }
  }

  lemma FetchesSource(c: Primitives, key: Bytes, store: Store, source: map<string, Bytes>, e: FileEntry)
    requires Fetches(c, key, store, source, e) && e.IsRestorable()
    ensures e.name in source
  {
  }

  /**
   One restorable entry without a place in the target, or with a directory in its
   place, stops an overwriting restore.
   */
  lemma RestoreStops(c: Primitives, key: Bytes, store: Store, overwrite: bool, target: Target, files: seq<FileEntry>,
                     i: nat)
    requires i < |files| && files[i].IsRestorable()
    requires PathOf(files[i].name) == None || (overwrite && PathOf(files[i].name).value in target.dirs)
    ensures RestoreAll(c, key, store, overwrite, target, files).Failed?
  {
    hide FileEntry.IsRestorable, FetchEntry, SafeComponents, OpenPath, Join, SoundChange;
    assert files[..i + 1][..i] == files[..i];
    RestoreAllSound(c, key, store, overwrite, target, files[..i]);
    var o := RestoreAll(c, key, store, overwrite, target, files[..i]);
    var comps := SafeComponents(files[i].name);
    if o.Finished? && comps.Some? && comps.value != [] {
      OpenPathKeepsFiles(o.target, comps.value[..|comps.value| - 1]);
      SoundDirsKept(c, files[..i], target, o.target);
    }
    RestoreAllFails(c, key, store, overwrite, target, files, i + 1);
  }

  lemma SoundDirsKept(c: Primitives, files: seq<FileEntry>, before: Target, after: Target)
    requires SoundChange(c, files, before, after)
    ensures before.dirs <= after.dirs
  {
  }

  // ----- Valid manifests -----------------------------------------------------------

  /** No restorable file of the manifest has a name that starts like a drive. */
  ghost predicate NoDriveNames(fm: map<string, FileEntry>) {
    forall p :: p in fm && fm[p].IsRestorable() ==> !DriveLike(p)
  }

  /** No restorable file of the manifest is in the way of one of its directories. */
  ghost predicate NoClash(dirs: Dirs, fm: map<string, FileEntry>) {
    forall p :: p in fm && fm[p].IsRestorable() ==> p !in SkeletonDirs(dirs)
  }

  /** What loading and a backup guarantee of a manifest. */
  ghost predicate Restorable(c: Primitives, key: Bytes, universe: iset<Bytes>, blobs: map<Hash, Bytes>,
                             dirs: Dirs, fm: map<string, FileEntry>, source: map<string, Bytes>) {
    && CollisionFree(c, universe) && Healthy(c, key, universe, blobs)
    && FilesOK(dirs) && (forall k :: k in dirs ==> ValidDirKey(k)) && IsFileMap(dirs, fm)
    && forall p :: p in fm && fm[p].IsRestorable() ==> p in source && Backed(c, universe, fm[p], source[p], blobs)
  }

  /**
   Restoring a valid manifest whose restorable entries are all backed, into an empty
   target: it finishes exactly when no name looks like a drive and, if overwriting,
   no file is in the way of a directory. The target then has the directories of the
   manifest and the described contents of the restorable entries, except that a file
   in the way of a directory is passed over. So everything is restored exactly when
   there is neither a drive-like name nor a clash.
   */
  lemma RestoreIsExactIff(c: Primitives, key: Bytes, universe: iset<Bytes>, store: Store, overwrite: bool,
                          dirs: Dirs, fm: map<string, FileEntry>, keys: seq<string>, files: seq<FileEntry>,
                          source: map<string, Bytes>)
    requires Restorable(c, key, universe, store.blobs, dirs, fm, source)
    requires IsKeyListing(dirs, keys) && IsListing(fm, files)
    ensures var o := RestoreRun(c, key, store, overwrite, EmptyTarget, keys, files);
      var placed := map p | p in fm && fm[p].IsRestorable() && p in source && p !in SkeletonDirs(dirs) :: source[p];
      && (o.Finished? <==> NoDriveNames(fm) && (overwrite ==> NoClash(dirs, fm)))
      && (o.Finished? ==> o.target == Target(placed, SkeletonDirs(dirs)))
      && (o.Finished? && (forall p :: p in fm && fm[p].IsRestorable() ==> p in o.target.files)
          <==> NoDriveNames(fm) && NoClash(dirs, fm))
  {
    hide Restorable, FileEntry.IsRestorable, DriveLike, RestoreAll, SkeletonDirs, IsKeyListing, MakeSkeleton;
    ManifestSkeleton(c, key, universe, store.blobs, dirs, fm, source, keys);
    ListingReady(c, key, universe, store, dirs, fm, files, source);
    var skeleton := SkeletonDirs(dirs);
    if NoDriveNames(fm) && (overwrite ==> NoClash(dirs, fm)) {
      RestoreListing(c, key, store, overwrite, files, source, skeleton);
      ListedTarget(fm, files, source, skeleton);
      SourcesThere(c, key, universe, store.blobs, dirs, fm, source);
    } else {
      var p :| p in fm && fm[p].IsRestorable() && (DriveLike(p) || (overwrite && p in skeleton));
      var i :| 0 <= i < |files| && files[i] == fm[p];
      RestoreStops(c, key, store, overwrite, Target(map[], skeleton), files, i);
    }
  }

  lemma ManifestSkeleton(c: Primitives, key: Bytes, universe: iset<Bytes>, blobs: map<Hash, Bytes>,
                         dirs: Dirs, fm: map<string, FileEntry>, source: map<string, Bytes>, keys: seq<string>)
    requires Restorable(c, key, universe, blobs, dirs, fm, source) && IsKeyListing(dirs, keys)
    ensures MakeSkeleton(EmptyTarget, keys) == Opened(Target(map[], SkeletonDirs(dirs)), true)
  {
    hide CollisionFree, Healthy, FilesOK, IsFileMap, Backed, FileEntry.IsRestorable, ValidDirKey, MakeSkeleton,
         SkeletonDirs;
    forall i | 0 <= i < |keys| ensures ValidDirKey(keys[i]) {
      assert keys[i] in dirs;
    }
    SkeletonExact(keys);
    KeyDirsAre(dirs, keys);
  }

  lemma SourcesThere(c: Primitives, key: Bytes, universe: iset<Bytes>, blobs: map<Hash, Bytes>,
                     dirs: Dirs, fm: map<string, FileEntry>, source: map<string, Bytes>)
    requires Restorable(c, key, universe, blobs, dirs, fm, source)
    ensures forall p :: p in fm && fm[p].IsRestorable() ==> p in source
  {
    hide CollisionFree, Healthy, FilesOK, IsFileMap, Backed, FileEntry.IsRestorable;
  }

  /** Every listed entry is fetched as its content and has its place, unless its name looks like a drive. */
  lemma ListingReady(c: Primitives, key: Bytes, universe: iset<Bytes>, store: Store, dirs: Dirs,
                     fm: map<string, FileEntry>, files: seq<FileEntry>, source: map<string, Bytes>)
    requires Restorable(c, key, universe, store.blobs, dirs, fm, source) && IsListing(fm, files)
    ensures forall p :: p in fm ==> fm[p].name == p && PathOf(p) == if DriveLike(p) then None else Some(p)
    ensures forall i :: 0 <= i < |files| ==> Fetches(c, key, store, source, files[i])
    ensures NoDriveNames(fm) ==> forall i :: 0 <= i < |files| ==> Placed(files[i], SkeletonDirs(dirs))
  {
    hide CollisionFree, Healthy, FilesOK, IsFileMap, Backed, FileEntry.IsRestorable, FetchEntry, PathOf, DriveLike,
         ValidDirKey, Split, Prefixes, SafeComponents, SkeletonDirs;
    forall p | p in fm
      ensures fm[p].name == p && PathOf(p) == if DriveLike(p) then None else Some(p)
      ensures !DriveLike(p) ==> SafeComponents(p) == Some(Split(p))
      ensures Prefixes(Split(p)[..|Split(p)| - 1]) <= SkeletonDirs(dirs)
    {
      NameOfListed(dirs, fm, p);
      PathInPlace(dirs, fm, p);
    }
    forall i | 0 <= i < |files| ensures Fetches(c, key, store, source, files[i]) {
      if files[i].IsRestorable() {
        FetchEntryFinds(c, key, universe, store, files[i], source[files[i].name]);
      }
    }
  }

  lemma PathInPlace(dirs: Dirs, fm: map<string, FileEntry>, p: string)
    requires FilesOK(dirs) && (forall k :: k in dirs ==> ValidDirKey(k)) && IsFileMap(dirs, fm) && p in fm
    ensures PathOf(p) == if DriveLike(p) then None else Some(p)
    ensures !DriveLike(p) ==> SafeComponents(p) == Some(Split(p))
    ensures Prefixes(Split(p)[..|Split(p)| - 1]) <= SkeletonDirs(dirs)
  {
    hide ValidDirKey, DriveLike, DirOf, BaseOf, ValidEntryName, Split, Join, SafeComponents, Prefixes, Ancestors,
         FilesOK, IsFileMap;
    ProperParts(dirs, fm, p);
    ProperPathKept(DirOf(p), BaseOf(p));
    ParentPrefixes(DirOf(p), BaseOf(p));
    AncestorsArePrefixes(DirOf(p));
  }

  lemma ProperParts(dirs: Dirs, fm: map<string, FileEntry>, p: string)
    requires FilesOK(dirs) && IsFileMap(dirs, fm) && p in fm
    ensures p == JoinPath(DirOf(p), BaseOf(p)) && DirOf(p) in dirs && ValidEntryName(BaseOf(p))
  {
    hide DirOf, BaseOf, ValidEntryName;
    assert InTree(dirs, p);
    var i :| 0 <= i < |dirs[DirOf(p)].files| && dirs[DirOf(p)].files[i].name == BaseOf(p);
    assert EntryOK(dirs[DirOf(p)].files[i]);
  }

  lemma ParentPrefixes(dir: string, base: string)
    requires '/' !in base
    ensures var comps := Split(JoinPath(dir, base));
      Prefixes(comps[..|comps| - 1]) == if dir == "" then {} else Prefixes(Split(dir))
  {
    hide Join;
    if dir == "" {
      LastSlashUnique(base, -1);
    } else {
      SplitAppend(dir, base);
      assert (Split(dir) + [base])[..|Split(dir)|] == Split(dir);
    }
  }

  lemma NameOfListed(dirs: Dirs, fm: map<string, FileEntry>, p: string)
    requires IsFileMap(dirs, fm) && p in fm
    ensures fm[p].name == p
  {
    hide LastSlash;
    assert InTree(dirs, p);
    var i :| 0 <= i < |dirs[DirOf(p)].files| && dirs[DirOf(p)].files[i].name == BaseOf(p);
    assert Holds(fm, DirOf(p), dirs[DirOf(p)].files[i]);
  }

  lemma ListedTarget(fm: map<string, FileEntry>, files: seq<FileEntry>, source: map<string, Bytes>, dirs: set<string>)
    requires IsListing(fm, files) && forall p :: p in fm ==> fm[p].name == p
    ensures Expected(files, source, dirs)
         == map p | p in fm && fm[p].IsRestorable() && p in source && p !in dirs :: source[p]
  {
    hide FileEntry.IsRestorable;
    var want := map p | p in fm && fm[p].IsRestorable() && p in source && p !in dirs :: source[p];
    forall p ensures p in Expected(files, source, dirs) <==> p in want {
      ExpectedNames(files, source, dirs, p);
      if p in want {
        var i :| 0 <= i < |files| && files[i] == fm[p];
        assert Contributes(files[i], source, dirs, p);
      }
    }
    forall p | p in want ensures Expected(files, source, dirs)[p] == want[p] {
      ExpectedNames(files, source, dirs, p);
    }
  }

  /**
   For arbitrary stores and targets, a run over a valid manifest that finishes has
   restored or skipped as many files as the manifest's stats say.
   */
  lemma RestoredPlusSkipped(c: Primitives, key: Bytes, store: Store, overwrite: bool, target: Target, m: Manifest,
                            fm: map<string, FileEntry>, keys: seq<string>, files: seq<FileEntry>)
    requires ValidStructure(m.dirs, m.stats.fileCount, m.stats.totalSize) && IsFileMap(m.dirs, fm) &&
        IsListing(fm, files)
    ensures var o := RestoreRun(c, key, store, overwrite, target, keys, files);
      o.Finished? ==> o.restored + o.skipped == m.stats.fileCount
  {
    hide RestoreRun, IsFileMap, FilesOK, ValidDirKey, ValidEntryName, Total, SoundChange;
    RestoreIsSound(c, key, store, overwrite, target, keys, files);
    forall p | p in fm ensures fm[p].name == p { NameOfListed(m.dirs, fm, p); }
    ListingCount(m.dirs, fm, files);
  }
}
