/**
 Restoring a manifest: SimpleRestore of simple/restore.go. Functions say what a
 run leaves in the target; the class runs the source's loops against them.
 */
module Restore {
  import opened ByteSeqs
  import opened Primitives
  import opened BlobFormat
  import opened StreamCodec
  import opened Hashing
  import opened Paths
  import opened ManifestTypes
  import opened RestorePaths
  import opened ChunkBuffers
  import Stream

  /** A blob store as restore sees it: the blobs, and how each of them streams. */
  datatype Store = Store(blobs: map<Hash, Bytes>, streamable: Hash -> bool, readSizes: Hash -> seq<nat>) {
    predicate Streams(h: Hash) {
      h in blobs && streamable(h)
    }
  }

  // ----- What one entry restores to -----------------------------------------

  function FetchChunk(c: Primitives, key: Bytes, store: Store, h: Hash): (r: Option<Bytes>)
    ensures r.Some? ==> SHA256Bytes(c, r.value) == h
  {
    if store.Streams(h) && |store.blobs[h]| > MaxChunkBlobSize then None
    else DownloadBlob(c, key, store.blobs, h)
  }

  function FetchChunks(c: Primitives, key: Bytes, store: Store, chunks: seq<ChunkRef>): Option<Bytes> {
    if chunks == [] then Some([])
    else
      var init := FetchChunks(c, key, store, chunks[..|chunks| - 1]);
      var last := FetchChunk(c, key, store, chunks[|chunks| - 1].hash);
      if init.Some? && last.Some? then Some(init.value + last.value) else None
  }

  /** A large file without a chunk list: one blob, checked for hash and size. */
  function FetchLarge(c: Primitives, key: Bytes, store: Store, h: Hash, size: int): Option<Bytes> {
    var content :=
      if store.Streams(h) then
        var r := StreamSpec(c, key, DefaultChunkSize, store.blobs[h]);
        if r.Some? && SHA256Bytes(c, r.value.0) == h then Some(r.value.0) else None
      else DownloadBlob(c, key, store.blobs, h);
    if content.Some? && |content.value| == size then content else None
  }

  function FetchEntry(c: Primitives, key: Bytes, store: Store, e: FileEntry): Option<Bytes> {
    if e.chunks != [] then FetchChunks(c, key, store, e.chunks)
    else if e.size >= DefaultChunkSize then FetchLarge(c, key, store, e.contentHash, e.size)
    else DownloadBlob(c, key, store.blobs, e.contentHash)
  }

  /** The pieces are preimages of the chunk hashes, in order. */
  ghost predicate Preimages(c: Primitives, chunks: seq<ChunkRef>, parts: seq<Bytes>) {
    |parts| == |chunks| && forall i :: 0 <= i < |parts| ==> SHA256Bytes(c, parts[i]) == chunks[i].hash
  }

  /** What a committed file must be, whatever the store holds. */
  ghost predicate Genuine(c: Primitives, e: FileEntry, content: Bytes) {
    if e.chunks != [] then exists parts :: Preimages(c, e.chunks, parts) && content == Flatten(parts)
    else SHA256Bytes(c, content) == e.contentHash && (e.size >= DefaultChunkSize ==> |content| == e.size)
  }

  lemma {:induction false} FetchChunksGenuine(c: Primitives, key: Bytes, store: Store, chunks: seq<ChunkRef>)
    returns (parts: seq<Bytes>)
    requires FetchChunks(c, key, store, chunks).Some?
    ensures Preimages(c, chunks, parts) && FetchChunks(c, key, store, chunks) == Some(Flatten(parts))
  {
    hide SHA256Bytes, DownloadBlob;
    parts := [];
    if chunks != [] {
      var init := FetchChunksGenuine(c, key, store, chunks[..|chunks| - 1]);
      var last := FetchChunk(c, key, store, chunks[|chunks| - 1].hash).value;
      parts := init + [last];
      FlattenAppend(init, last);
    }
  }

  /** Restore soundness: no store contents make an entry restore to anything but what it names. */
  lemma FetchEntryGenuine(c: Primitives, key: Bytes, store: Store, e: FileEntry)
    requires FetchEntry(c, key, store, e).Some?
    ensures Genuine(c, e, FetchEntry(c, key, store, e).value)
  {
    hide SHA256Bytes, StreamSpec;
    if e.chunks != [] {
      var parts := FetchChunksGenuine(c, key, store, e.chunks);
    }
  }

  // ----- What a run leaves in the target -------------------------------------

  /** The restore target: its files and its directories, by path. */
  datatype Target = Target(files: map<string, Bytes>, dirs: set<string>)

  const EmptyTarget := Target(map[], {})

  /** lstat sees files and directories alike. */
  predicate Exists(t: Target, path: string) {
    path in t.files || path in t.dirs
  }

  datatype Opened = Opened(target: Target, ok: bool)

  /** openSecurePath: each component is opened or created; a component that is a file stops the walk. */
  function OpenPath(t: Target, comps: seq<string>): Opened {
    if comps == [] then Opened(t, true)
    else
      var o := OpenPath(t, comps[..|comps| - 1]);
      if !o.ok then o
      else if Join(comps) in o.target.files then Opened(o.target, false)
      else Opened(o.target.(dirs := o.target.dirs + {Join(comps)}), true)
  }

  /** The directories of the manifest, created before any file; the root is the target itself. */
  function MakeSkeleton(t: Target, keys: seq<string>): Opened {
    if keys == [] then Opened(t, true)
    else
      var o, k := MakeSkeleton(t, keys[..|keys| - 1]), keys[|keys| - 1];
      if !o.ok || k == "" then o
      else
        var comps := SafeComponents(k);
        if comps.None? then Opened(o.target, false) else OpenPath(o.target, comps.value)
  }

  datatype Outcome = Finished(target: Target, restored: nat, restoredBytes: int, skipped: nat) | Failed(target: Target)

  /** One turn of the file loop. */
  function RestoreOne(c: Primitives, key: Bytes, store: Store, overwrite: bool, o: Outcome, e: FileEntry): Outcome
    requires o.Finished?
  {
    var comps := SafeComponents(e.name);
    if !e.IsRestorable() then o.(skipped := o.skipped + 1)
    else if comps.None? || comps.value == [] then Failed(o.target)
    else
      var parent, path := OpenPath(o.target, comps.value[..|comps.value| - 1]), Join(comps.value);
      if !parent.ok then Failed(parent.target)
      else if !overwrite && Exists(parent.target, path) then o.(target := parent.target, skipped := o.skipped + 1)
      else PlaceFile(o, parent.target, e, path, FetchEntry(c, key, store, e))
  }

  /** The fetched content goes under its name, which must not be a directory. */
  function PlaceFile(o: Outcome, t: Target, e: FileEntry, path: string, content: Option<Bytes>): Outcome
    requires o.Finished?
  {
    if content.None? || path in t.dirs then Failed(t)
    else Finished(t.(files := t.files[path := content.value]), o.restored + 1, o.restoredBytes + e.size, o.skipped)
  }

  function RestoreAll(c: Primitives, key: Bytes, store: Store, overwrite: bool, target: Target,
                      files: seq<FileEntry>): Outcome {
    if files == [] then Finished(target, 0, 0, 0)
    else
      var o := RestoreAll(c, key, store, overwrite, target, files[..|files| - 1]);
      if o.Failed? then o else RestoreOne(c, key, store, overwrite, o, files[|files| - 1])
  }

  /** A whole run: the directories of the manifest in some order, then its files in some order. */
  function RestoreRun(c: Primitives, key: Bytes, store: Store, overwrite: bool, target: Target,
                      keys: seq<string>, files: seq<FileEntry>): Outcome {
    var skeleton := MakeSkeleton(target, keys);
    if !skeleton.ok then Failed(skeleton.target) else RestoreAll(c, key, store, overwrite, skeleton.target, files)
  }

  // ----- Soundness -------------------------------------------------------------

  /** The target path of an entry. */
  function PathOf(name: string): Option<string> {
    var comps := SafeComponents(name);
    if comps.None? || comps.value == [] then None else Some(Join(comps.value))
  }

  lemma {:induction false} OpenPathKeepsFiles(t: Target, comps: seq<string>)
    ensures OpenPath(t, comps).target.files == t.files && t.dirs <= OpenPath(t, comps).target.dirs
  {
    hide Join;
    if comps != [] { OpenPathKeepsFiles(t, comps[..|comps| - 1]); }
  }

  lemma {:induction false} SkeletonKeepsFiles(t: Target, keys: seq<string>)
    ensures MakeSkeleton(t, keys).target.files == t.files && t.dirs <= MakeSkeleton(t, keys).target.dirs
  {
    hide SafeComponents, OpenPath;
    if keys != [] {
      var init, k := keys[..|keys| - 1], keys[|keys| - 1];
      SkeletonKeepsFiles(t, init);
      if SafeComponents(k).Some? {
        OpenPathKeepsFiles(MakeSkeleton(t, init).target, SafeComponents(k).value);
      }
    }
  }

  /** Some entry names this path and has this content. */
  ghost predicate Accounted(c: Primitives, files: seq<FileEntry>, path: string, content: Bytes) {
    exists i :: 0 <= i < |files| && Accounts(c, files[i], path, content)
  }

  ghost predicate Accounts(c: Primitives, e: FileEntry, path: string, content: Bytes) {
    e.IsRestorable() && PathOf(e.name) == Some(path) && Genuine(c, e, content)
  }

  /** Every file the run put into the target is accounted for by an entry; the rest is as it was. */
  ghost predicate SoundChange(c: Primitives, files: seq<FileEntry>, before: Target, after: Target) {
    && before.files.Keys <= after.files.Keys && before.dirs <= after.dirs
    && forall p :: p in after.files ==>
         (p in before.files && after.files[p] == before.files[p]) || Accounted(c, files, p, after.files[p])
  }

  lemma SoundChangeExtend(c: Primitives, files: seq<FileEntry>, e: FileEntry, before: Target, after: Target)
    requires SoundChange(c, files, before, after)
    ensures SoundChange(c, files + [e], before, after)
  {
    hide Accounts;
    forall p | p in after.files && !(p in before.files && after.files[p] == before.files[p])
      ensures Accounted(c, files + [e], p, after.files[p])
    {
      assert Accounted(c, files, p, after.files[p]);
      var i :| 0 <= i < |files| && Accounts(c, files[i], p, after.files[p]);
      assert (files + [e])[i] == files[i];
    }
  }

  lemma SoundDirs(c: Primitives, files: seq<FileEntry>, before: Target, after: Target, more: Target)
    requires SoundChange(c, files, before, after) && more.files == after.files && after.dirs <= more.dirs
    ensures SoundChange(c, files, before, more)
  {
    hide Accounted;
  }

  lemma RestoreOneSound(c: Primitives, key: Bytes, store: Store, overwrite: bool, before: Target, o: Outcome,
                        files: seq<FileEntry>)
    requires files != [] && o.Finished? && SoundChange(c, files, before, o.target)
    ensures SoundChange(c, files, before, RestoreOne(c, key, store, overwrite, o, files[|files| - 1]).target)
  {
    hide FetchEntry, Genuine, SafeComponents, Join, FileEntry.IsRestorable, OpenPath, SoundChange;
    var e := files[|files| - 1];
    var comps := SafeComponents(e.name);
    if e.IsRestorable() && comps.Some? && comps.value != [] {
      var dir := comps.value[..|comps.value| - 1];
      var t, path := OpenPath(o.target, dir).target, Join(comps.value);
      OpenPathKeepsFiles(o.target, dir);
      SoundDirs(c, files, before, o.target, t);
      var content := FetchEntry(c, key, store, e);
      if content.Some? {
        FetchEntryGenuine(c, key, store, e);
        SoundPlace(c, files, before, t, path, content.value);
      }
    }
  }

  lemma SoundPlace(c: Primitives, files: seq<FileEntry>, before: Target, t: Target, path: string, content: Bytes)
    requires SoundChange(c, files, before, t) && files != [] && Accounts(c, files[|files| - 1], path, content)
    ensures SoundChange(c, files, before, t.(files := t.files[path := content]))
  {
    hide Accounts;
    assert Accounted(c, files, path, content);
  }

  lemma {:induction false} RestoreAllSound(c: Primitives, key: Bytes, store: Store, overwrite: bool, target: Target,
                                           files: seq<FileEntry>)
    ensures var o := RestoreAll(c, key, store, overwrite, target, files);
      SoundChange(c, files, target, o.target) && (o.Finished? ==> o.restored + o.skipped == |files|)
  {
    hide SoundChange, FetchEntry, SafeComponents, Join, FileEntry.IsRestorable, OpenPath;
    if files == [] {
      SoundNone(c, files, target);
    } else {
      var init, e := files[..|files| - 1], files[|files| - 1];
      assert files == init + [e];
      RestoreAllSound(c, key, store, overwrite, target, init);
      var o := RestoreAll(c, key, store, overwrite, target, init);
      SoundChangeExtend(c, init, e, target, o.target);
      if o.Finished? { RestoreOneSound(c, key, store, overwrite, target, o, files); }
    }
  }

  lemma SoundNone(c: Primitives, files: seq<FileEntry>, target: Target)
    ensures SoundChange(c, files, target, target)
  {
  }

  /**
   For arbitrary store contents, runs that finish and runs that fail: every changed
   file is genuine for some entry, nothing is removed, and a run that finishes has
   restored or skipped each entry.
   */
  lemma RestoreIsSound(c: Primitives, key: Bytes, store: Store, overwrite: bool, target: Target,
                       keys: seq<string>, files: seq<FileEntry>)
    ensures var o := RestoreRun(c, key, store, overwrite, target, keys, files);
      SoundChange(c, files, target, o.target) && (o.Finished? ==> o.restored + o.skipped == |files|)
  {
    hide RestoreAll, MakeSkeleton, Accounted;
    SkeletonKeepsFiles(target, keys);
    RestoreAllSound(c, key, store, overwrite, MakeSkeleton(target, keys).target, files);
  }

  /** Every file that was there still has its bytes. */
  ghost predicate FilesKept(before: map<string, Bytes>, after: map<string, Bytes>) {
    forall p :: p in before ==> p in after && after[p] == before[p]
  }

  lemma RestoreOneKeepsFiles(c: Primitives, key: Bytes, store: Store, o: Outcome, e: FileEntry)
    requires o.Finished?
    ensures FilesKept(o.target.files, RestoreOne(c, key, store, false, o, e).target.files)
  {
    hide FetchEntry, SafeComponents, Join, FileEntry.IsRestorable, OpenPath;
    var comps := SafeComponents(e.name);
    if comps.Some? && comps.value != [] {
      OpenPathKeepsFiles(o.target, comps.value[..|comps.value| - 1]);
    }
  }

  lemma {:induction false} RestoreAllKeepsFiles(c: Primitives, key: Bytes, store: Store, target: Target,
                                                files: seq<FileEntry>)
    ensures FilesKept(target.files, RestoreAll(c, key, store, false, target, files).target.files)
  {
    hide RestoreOne;
    if files != [] {
      var init := files[..|files| - 1];
      RestoreAllKeepsFiles(c, key, store, target, init);
      var o := RestoreAll(c, key, store, false, target, init);
      if o.Finished? { RestoreOneKeepsFiles(c, key, store, o, files[|files| - 1]); }
    }
  }

  /** Without overwriting, no run changes a file that was there, for any store and target, finished or failed. */
  lemma ExistingFilesKept(c: Primitives, key: Bytes, store: Store, target: Target, keys: seq<string>,
                          files: seq<FileEntry>)
    ensures FilesKept(target.files, RestoreRun(c, key, store, false, target, keys, files).target.files)
  {
    hide RestoreAll, MakeSkeleton;
    SkeletonKeepsFiles(target, keys);
    RestoreAllKeepsFiles(c, key, store, MakeSkeleton(target, keys).target, files);
  }

  // ----- The run -------------------------------------------------------------

  class SimpleRestore {
    const key: Bytes
    const store: Store
    const overwrite: bool
    var target: Target
    var restored: nat
    var restoredBytes: int
    var skipped: nat
    var faulty: bool  // a read of the store, or a mkdir, write, sync or rename in the target, has failed

    constructor (key: Bytes, store: Store, overwrite: bool, target: Target)
      ensures this.key == key && this.store == store && this.overwrite == overwrite
      ensures this.target == target && restored == 0 && restoredBytes == 0 && skipped == 0 && !faulty
    {
      this.key, this.store, this.overwrite, this.target := key, store, overwrite, target;
      restored, restoredBytes, skipped, faulty := 0, 0, 0, false;
    }

    ghost function State(): Outcome
      reads this
    {
      Finished(target, restored, restoredBytes, skipped)
    }

    /** The files of the target once these entries have been visited. */
    ghost function FilesAfter(c: Primitives, before: Target, keys: seq<string>,
                              files: seq<FileEntry>): map<string, Bytes> {
      RestoreAll(c, key, store, overwrite, MakeSkeleton(before, keys).target, files).target.files
    }

    lemma FilesAfterKept(c: Primitives, before: Target, keys: seq<string>, files: seq<FileEntry>)
      ensures !overwrite ==> FilesKept(before.files, FilesAfter(c, before, keys, files))
    {
      hide RestoreAll, MakeSkeleton;
      SkeletonKeepsFiles(before, keys);
      if !overwrite { RestoreAllKeepsFiles(c, key, store, MakeSkeleton(before, keys).target, files); }
    }

    /**
     The directory and file loops of Run. It stops at the first entry that cannot be
     restored; whatever happens, the files of the target are what a prefix of the
     entries restores to.
     */
    method Run(c: Primitives, keys: seq<string>, files: seq<FileEntry>) returns (ok: bool)
      requires restored == 0 && restoredBytes == 0 && skipped == 0 && !faulty
      modifies this
      ensures ok ==> State() == RestoreRun(c, key, store, overwrite, old(target), keys, files)
      ensures !ok ==> RestoreRun(c, key, store, overwrite, old(target), keys, files).Failed? || faulty
      ensures exists k :: 0 <= k <= |files| && target.files == FilesAfter(c, old(target), keys, files[..k])
      ensures !overwrite ==> forall p :: p in old(target).files ==>
        p in target.files && target.files[p] == old(target).files[p]
    {
      hide RestoreOne, MakeSkeleton;
      forall k | 0 <= k <= |files|
        ensures !overwrite ==> FilesKept(target.files, FilesAfter(c, target, keys, files[..k]))
      {
        FilesAfterKept(c, target, keys, files[..k]);
      }
      ghost var base := MakeSkeleton(target, keys).target;
      SkeletonKeepsFiles(target, keys);
      var made := EnsureSkeleton(keys);
      if !made {
        assert target.files == FilesAfter(c, old(target), keys, files[..0]);
        return false;
      }
      for i := 0 to |files|
        invariant State() == RestoreAll(c, key, store, overwrite, base, files[..i]) && !faulty
      {
        assert files[..i + 1][..i] == files[..i];
        var restoredOne := RestoreFile(c, files[i]);
        if !restoredOne {
          if !faulty {
            RestoreAllFails(c, key, store, overwrite, base, files, i + 1);
          }
          assert target.files == FilesAfter(c, old(target), keys, files[..i])
              || target.files == FilesAfter(c, old(target), keys, files[..i + 1]);
          return false;
        }
      }
      assert files[..|files|] == files;
      return true;
    }

    method EnsureSkeleton(keys: seq<string>) returns (ok: bool)
      requires !faulty
      modifies this`target, this`faulty
      ensures ok ==> MakeSkeleton(old(target), keys) == Opened(target, true) && !faulty
      ensures !ok ==> !MakeSkeleton(old(target), keys).ok || faulty
      ensures target.files == old(target).files
    {
      hide OpenPath, SafeComponents;
      for i := 0 to |keys|
        invariant MakeSkeleton(old(target), keys[..i]) == Opened(target, true) && !faulty
        invariant target.files == old(target).files
      {
        assert keys[..i + 1][..i] == keys[..i];
        if keys[i] != "" {
          var comps := SafeComponents(keys[i]);
          if comps.None? {
            SkeletonFails(old(target), keys, i + 1);
            return false;
          }
          ok := OpenSecurePath(comps.value);
          if !ok {
            if !faulty { SkeletonFails(old(target), keys, i + 1); }
            return;
          }
        }
      }
      assert keys[..|keys|] == keys;
      ok := true;
    }

    method OpenSecurePath(comps: seq<string>) returns (ok: bool)
      requires !faulty
      modifies this`target, this`faulty
      ensures ok ==> OpenPath(old(target), comps) == Opened(target, true) && !faulty
      ensures !ok && !faulty ==> OpenPath(old(target), comps) == Opened(target, false)
      ensures target.files == old(target).files && old(target).dirs <= target.dirs
    {
      hide Join;
      for i := 0 to |comps|
        invariant OpenPath(old(target), comps[..i]) == Opened(target, true) && !faulty
        invariant target.files == old(target).files && old(target).dirs <= target.dirs
      {
        assert comps[..i + 1][..i] == comps[..i];
        var path := Join(comps[..i + 1]);
        if path in target.files {
          OpenFails(old(target), comps, i + 1);
          return false;
        }
        var made: bool := *;
        if !made {
          faulty := true;
          return false;
        }
        target := target.(dirs := target.dirs + {path});
      }
      assert comps[..|comps|] == comps;
      ok := true;
    }

    /** One entry. A failure leaves the files as they were, unless only making the rename durable failed. */
    method RestoreFile(c: Primitives, e: FileEntry) returns (ok: bool)
      requires !faulty
      modifies this
      ensures ok ==> State() == RestoreOne(c, key, store, overwrite, old(State()), e) && !faulty
      ensures !ok ==> RestoreOne(c, key, store, overwrite, old(State()), e).Failed? || faulty
      ensures !ok && !faulty ==> target == RestoreOne(c, key, store, overwrite, old(State()), e).target
      ensures !ok ==>
        || target.files == old(target).files
        || target.files == RestoreOne(c, key, store, overwrite, old(State()), e).target.files
    {
      hide FetchChunks, FetchLarge, DownloadBlob, Join, SafeComponents, OpenPath;
      if !e.IsRestorable() {
        skipped := skipped + 1;
        return true;
      }
      var comps := SafeComponents(e.name);
      if comps.None? || comps.value == [] { return false; }
      ok := OpenSecurePath(comps.value[..|comps.value| - 1]);
      if !ok { return; }
      var path := Join(comps.value);
      if !overwrite && (path in target.files || path in target.dirs) {
        skipped := skipped + 1;
        return true;
      }
      if |e.chunks| > 0 {
        ok := RestoreChunkedFile(c, e.chunks, path);
      } else if e.size >= DefaultChunkSize {
        ok := DownloadLargeBlob(c, e.contentHash, e.size, path);
      } else {
        var plaintext := DownloadBlob(c, key, store.blobs, e.contentHash);
        if plaintext.None? { return false; }
        ok := Commit(path, plaintext.value);
      }
      if ok {
        restored := restored + 1;
        restoredBytes := restoredBytes + e.size;
      }
    }

    /** What committing a fetched content may lead to. */
    twostate predicate Committed(content: Option<Bytes>, path: string, ok: bool)
      reads this
    {
      && (ok ==> content.Some? && path !in old(target).dirs && !faulty)
      && (ok ==> target == old(target).(files := old(target).files[path := content.value]))
      && (!ok ==> content.None? || path in old(target).dirs || faulty)
      && (!ok ==> target == old(target) || (content.Some? && path !in old(target).dirs && faulty &&
                    target == old(target).(files := old(target).files[path := content.value])))
    }

    /**
     Sync, close and rename of a staging file: all of its bytes appear under the name,
     or nothing does. A rename onto a directory fails, and a failed sync of the
     directory after the rename is reported although the file is there.
     */
    method Commit(path: string, content: Bytes) returns (ok: bool)
      requires !faulty
      modifies this`target, this`faulty
      ensures Committed(Some(content), path, ok)
    {
      if path in target.dirs { return false; }
      var renamed: bool := *;
      if renamed {
        target := target.(files := target.files[path := content]);
      }
      var synced: bool := *;
      ok := renamed && synced;
      faulty := !ok;
    }

    /** restoreChunkedFile: chunks go to a staging file, committed only after the last one verified. */
    method RestoreChunkedFile(c: Primitives, chunks: seq<ChunkRef>, path: string) returns (ok: bool)
      requires !faulty
      modifies this`target, this`faulty
      ensures Committed(FetchChunks(c, key, store, chunks), path, ok)
    {
      hide FetchChunk;
      var st := new StagingFile();
      var ctBuf, ptBuf := new byte[0], new byte[0];
      for i := 0 to |chunks|
        invariant fresh(st) && fresh(ctBuf) && fresh(ptBuf) && ctBuf != ptBuf
        invariant FetchChunks(c, key, store, chunks[..i]) == Some(st.data) && !st.failed
        invariant target == old(target) && !faulty
      {
        assert chunks[..i + 1][..i] == chunks[..i];
        var broken;
        ctBuf, ptBuf, ok, broken := RestoreChunkStream(c, chunks[i].hash, st, ctBuf, ptBuf);
        if !ok {
          if st.failed || broken {
            faulty := true;
          } else {
            FetchChunksFails(c, key, store, chunks, i + 1);
          }
          return;
        }
      }
      assert chunks[..|chunks|] == chunks;
      ok := Commit(path, st.data);
    }

    /** restoreChunkStream: the streaming decoder, or DownloadBlob when the store cannot stream. */
    method RestoreChunkStream(c: Primitives, hash: Hash, st: StagingFile, ctBuf: array<byte>, ptBuf: array<byte>)
      returns (ct: array<byte>, pt: array<byte>, ok: bool, broken: bool)
      requires ctBuf != ptBuf
      modifies st, ctBuf, ptBuf
      ensures ct != pt && (ct == ctBuf || fresh(ct)) && (pt == ptBuf || fresh(pt))
      ensures ok ==> FetchChunk(c, key, store, hash).Some? && st.failed == old(st.failed) && !broken
      ensures ok ==> st.data == old(st.data) + FetchChunk(c, key, store, hash).value
      ensures !ok ==> FetchChunk(c, key, store, hash).None? || st.failed || broken
    {
      hide DownloadBlob, DecodeAs;
      ct, pt, ok, broken := ctBuf, ptBuf, false, false;
      if !store.Streams(hash) {
        var plaintext := DownloadBlob(c, key, store.blobs, hash);
        if plaintext.None? { return; }
        ok := st.Write(plaintext.value);
        return;
      }
      broken := *;
      var src := new PieceReader(store.blobs[hash], store.readSizes(hash), false, broken);
      DecodeAsDownload(c, key, store.blobs, hash);
      ct, pt, ok := DecryptChunkBlobStream(c, key, src, st, hash, ctBuf, ptBuf);
    }

    /** downloadBlobToSecureDir: hash and size are checked before the staging file is committed. */
    method DownloadLargeBlob(c: Primitives, hash: Hash, size: int, path: string) returns (ok: bool)
      requires !faulty
      modifies this`target, this`faulty
      ensures Committed(FetchLarge(c, key, store, hash, size), path, ok)
    {
      hide StreamSpec, DownloadBlob, SHA256Bytes;
      if !store.Streams(hash) {
        var plaintext := DownloadBlob(c, key, store.blobs, hash);
        if plaintext.None? || |plaintext.value| != size { return false; }
        ok := Commit(path, plaintext.value);
        return;
      }
      var src := new Stream.Reader(store.blobs[hash]);
      var vw := new Stream.VerifyingWriter();
      ok := Stream.DecryptStreamToFile(c, key, DefaultChunkSize, src, vw);
      if !ok {
        faulty := vw.failed || src.failed;
        return;
      }
      ghost var r := StreamSpec(c, key, DefaultChunkSize, store.blobs[hash]);
      assert vw.written == [] + r.value.0 == r.value.0;
      if SHA256Bytes(c, vw.hashed) != hash || vw.count != size { return false; }
      ok := Commit(path, vw.written);
    }
  }

  lemma {:induction false} OpenFails(t: Target, comps: seq<string>, k: nat)
    requires k <= |comps| && !OpenPath(t, comps[..k]).ok
    ensures OpenPath(t, comps) == OpenPath(t, comps[..k])
    decreases |comps| - k
  {
    hide Join;
    if k == |comps| {
      assert comps[..k] == comps;
    } else {
      assert comps[..k + 1][..k] == comps[..k];
      OpenFails(t, comps, k + 1);
    }
  }

  lemma {:induction false} SkeletonFails(t: Target, keys: seq<string>, k: nat)
    requires k <= |keys| && !MakeSkeleton(t, keys[..k]).ok
    ensures !MakeSkeleton(t, keys).ok
    decreases |keys| - k
  {
    hide OpenPath, SafeComponents;
    if k == |keys| {
      assert keys[..k] == keys;
    } else {
      assert keys[..k + 1][..k] == keys[..k];
      SkeletonFails(t, keys, k + 1);
    }
  }

  lemma {:induction false} RestoreAllFails(c: Primitives, key: Bytes, store: Store, overwrite: bool, target: Target,
                                           files: seq<FileEntry>, k: nat)
    requires k <= |files| && RestoreAll(c, key, store, overwrite, target, files[..k]).Failed?
    ensures RestoreAll(c, key, store, overwrite, target, files)
         == RestoreAll(c, key, store, overwrite, target, files[..k])
    decreases |files| - k
  {
    hide RestoreOne;
    if k == |files| {
      assert files[..k] == files;
    } else {
      assert files[..k + 1][..k] == files[..k];
      RestoreAllFails(c, key, store, overwrite, target, files, k + 1);
    }
  }

  lemma {:induction false} FetchChunksFails(c: Primitives, key: Bytes, store: Store, chunks: seq<ChunkRef>, k: nat)
    requires k <= |chunks| && FetchChunks(c, key, store, chunks[..k]).None?
    ensures FetchChunks(c, key, store, chunks).None?
    decreases |chunks| - k
  {
    hide FetchChunk;
    if k == |chunks| {
      assert chunks[..k] == chunks;
    } else {
      assert chunks[..k + 1][..k] == chunks[..k];
      FetchChunksFails(c, key, store, chunks, k + 1);
    }
  }
}
