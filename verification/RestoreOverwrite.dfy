/**
 Restoring into a target that already holds files and directories: which entries a
 finished run skips, and what it leaves under the paths of the others.
 */
module RestoreOverwrite {
  import opened ByteSeqs
  import opened Primitives
  import opened Paths
  import opened ManifestTypes
  import opened RestorePaths
  import opened Restore

  /** No two restorable entries go to the same path. */
  ghost predicate DistinctTargets(files: seq<FileEntry>) {
    forall i, j :: 0 <= i < j < |files| && files[i].IsRestorable() && files[j].IsRestorable() ==>
      PathOf(files[i].name) != PathOf(files[j].name)
  }

  /** The path of an entry was taken before the run, or is a directory after it. */
  predicate Taken(before: map<string, Bytes>, after: Target, e: FileEntry) {
    PathOf(e.name).Some? && (PathOf(e.name).value in before || PathOf(e.name).value in after.dirs)
  }

  /** An entry is passed over: nothing to restore, or not overwriting and its path is taken. */
  predicate PassedOver(overwrite: bool, before: map<string, Bytes>, after: Target, e: FileEntry) {
    !e.IsRestorable() || (!overwrite && Taken(before, after, e))
  }

  /** The path of an entry holds exactly what the entry is fetched as. */
  predicate InPlace(c: Primitives, key: Bytes, store: Store, after: Target, e: FileEntry) {
    && PathOf(e.name).Some? && FetchEntry(c, key, store, e).Some? && PathOf(e.name).value in after.files
    && after.files[PathOf(e.name).value] == FetchEntry(c, key, store, e).value
    && PathOf(e.name).value !in after.dirs
  }

  function PassedSet(overwrite: bool, before: map<string, Bytes>, after: Target, files: seq<FileEntry>): set<nat> {
    set i: nat | i < |files| && PassedOver(overwrite, before, after, files[i])
  }

  /** The recorded sizes of the other entries. */
  function SizesWithout(files: seq<FileEntry>, passed: set<nat>): int {
    if files == [] then 0
    else
      var n := |files| - 1;
      SizesWithout(files[..n], passed) + if n in passed then 0 else files[n].size
  }

  lemma {:induction false} SizesAgree(files: seq<FileEntry>, p: set<nat>, q: set<nat>)
    requires forall i: nat :: i < |files| ==> (i in p <==> i in q)
    ensures SizesWithout(files, p) == SizesWithout(files, q)
  {
    if files != [] { SizesAgree(files[..|files| - 1], p, q); }
  }

  lemma {:induction false} OpenPathSparesFiles(t: Target, comps: seq<string>, p: string)
    requires p in OpenPath(t, comps).target.dirs && p !in t.dirs
    ensures p !in t.files
  {
    hide Join;
    if comps != [] {
      var init := comps[..|comps| - 1];
      OpenPathKeepsFiles(t, init);
      if p in OpenPath(t, init).target.dirs { OpenPathSparesFiles(t, init, p); }
    }
  }

  /** What is known of an entry that has been visited. */
  ghost predicate Visited(c: Primitives, key: Bytes, store: Store, overwrite: bool, before: map<string, Bytes>,
                          after: Target, e: FileEntry)
  {
    if PassedOver(overwrite, before, after, e) then e.IsRestorable() ==> Exists(after, PathOf(e.name).value)
    else InPlace(c, key, store, after, e)
  }

  /** One turn of the loop changes one path, and makes no directory of a file. */
  ghost predicate OneTurn(t: Target, t': Target, path: Option<string>) {
    && t.dirs <= t'.dirs && (forall p :: p in t'.dirs && p !in t.dirs ==> p !in t.files)
    && t.files.Keys <= t'.files.Keys
    && forall p :: p in t.files && path != Some(p) ==> t'.files[p] == t.files[p]
  }

  lemma RestoreOneTurns(c: Primitives, key: Bytes, store: Store, overwrite: bool, o: Outcome, e: FileEntry)
    requires o.Finished? && RestoreOne(c, key, store, overwrite, o, e).Finished?
    ensures OneTurn(o.target, RestoreOne(c, key, store, overwrite, o, e).target,
                    if e.IsRestorable() then PathOf(e.name) else None)
  {
    hide FetchEntry, SafeComponents, Join, FileEntry.IsRestorable, OpenPath;
    if e.IsRestorable() {
      var comps := SafeComponents(e.name).value;
      var dir := comps[..|comps| - 1];
      OpenPathKeepsFiles(o.target, dir);
      forall p | p in OpenPath(o.target, dir).target.dirs && p !in o.target.dirs ensures p !in o.target.files {
        OpenPathSparesFiles(o.target, dir, p);
      }
    }
  }

  /** The entry of this turn, given which files the earlier turns may have added. */
  lemma RestoreOneVisits(c: Primitives, key: Bytes, store: Store, overwrite: bool, before: map<string, Bytes>,
                         o: Outcome, e: FileEntry)
    requires o.Finished? && RestoreOne(c, key, store, overwrite, o, e).Finished?
    requires before.Keys <= o.target.files.Keys
    requires e.IsRestorable() && PathOf(e.name).Some? && PathOf(e.name).value in o.target.files ==>
      PathOf(e.name).value in before
    ensures var o' := RestoreOne(c, key, store, overwrite, o, e);
      && Visited(c, key, store, overwrite, before, o'.target, e)
      && if PassedOver(overwrite, before, o'.target, e)
         then o'.skipped == o.skipped + 1 && o'.restored == o.restored && o'.restoredBytes == o.restoredBytes
         else o'.skipped == o.skipped && o'.restored == o.restored + 1 && o'.restoredBytes == o.restoredBytes + e.size
  {
    hide FetchEntry, SafeComponents, Join, FileEntry.IsRestorable, OpenPath;
    if e.IsRestorable() {
      var comps := SafeComponents(e.name).value;
      OpenPathKeepsFiles(o.target, comps[..|comps| - 1]);
    }
  }

  lemma StaysVisited(c: Primitives, key: Bytes, store: Store, overwrite: bool, before: map<string, Bytes>, t: Target,
                     t': Target, path: Option<string>, e: FileEntry)
    requires Visited(c, key, store, overwrite, before, t, e) && OneTurn(t, t', path)
    requires e.IsRestorable() && path.Some? ==> PathOf(e.name) != path
    ensures Visited(c, key, store, overwrite, before, t', e)
    ensures PassedOver(overwrite, before, t', e) <==> PassedOver(overwrite, before, t, e)
  {
    hide FetchEntry, PathOf, FileEntry.IsRestorable;
  }

  /** The files of the target are those that were there and those of visited entries. */
  ghost predicate FilesFrom(before: map<string, Bytes>, files: seq<FileEntry>, after: Target) {
    && before.Keys <= after.files.Keys
    && forall p :: p in after.files && p !in before ==>
         exists i :: 0 <= i < |files| && files[i].IsRestorable() && PathOf(files[i].name) == Some(p)
  }

  /** Everything the loop knows after these entries. */
  ghost predicate LoopOK(c: Primitives, key: Bytes, store: Store, overwrite: bool, before: map<string, Bytes>,
                         files: seq<FileEntry>, o: Outcome)
  {
    && o.Finished? && FilesFrom(before, files, o.target)
    && (forall i :: 0 <= i < |files| ==> Visited(c, key, store, overwrite, before, o.target, files[i]))
    && var passed := PassedSet(overwrite, before, o.target, files);
    o.skipped == |passed| && o.restored == |files| - |passed| && o.restoredBytes == SizesWithout(files, passed)
  }

  lemma FilesFromNext(c: Primitives, key: Bytes, store: Store, overwrite: bool, before: map<string, Bytes>,
                      init: seq<FileEntry>, e: FileEntry, o: Outcome)
    requires o.Finished? && RestoreOne(c, key, store, overwrite, o, e).Finished? && FilesFrom(before, init, o.target)
    ensures FilesFrom(before, init + [e], RestoreOne(c, key, store, overwrite, o, e).target)
  {
    hide FetchEntry, SafeComponents, Join, FileEntry.IsRestorable, OpenPath;
    var files, t := init + [e], RestoreOne(c, key, store, overwrite, o, e).target;
    if e.IsRestorable() {
      var comps := SafeComponents(e.name).value;
      OpenPathKeepsFiles(o.target, comps[..|comps| - 1]);
    }
    forall p | p in t.files && p !in before
      ensures exists i :: 0 <= i < |files| && files[i].IsRestorable() && PathOf(files[i].name) == Some(p)
    {
      if p in o.target.files {
        var i :| 0 <= i < |init| && init[i].IsRestorable() && PathOf(init[i].name) == Some(p);
        assert files[i] == init[i];
      } else {
        assert files[|init|] == e;
      }
    }
  }

  lemma LoopNext(c: Primitives, key: Bytes, store: Store, overwrite: bool, before: map<string, Bytes>,
                 files: seq<FileEntry>, o: Outcome)
    requires files != [] && DistinctTargets(files)
    requires LoopOK(c, key, store, overwrite, before, files[..|files| - 1], o)
    requires RestoreOne(c, key, store, overwrite, o, files[|files| - 1]).Finished?
    ensures LoopOK(c, key, store, overwrite, before, files, RestoreOne(c, key, store, overwrite, o, files[|files| - 1]))
  {
    hide RestoreOne, Visited, OneTurn, PassedOver, PathOf, FileEntry.IsRestorable;
    var n := |files| - 1;
    var init, e := files[..n], files[n];
    var o' := RestoreOne(c, key, store, overwrite, o, e);
    var path := if e.IsRestorable() then PathOf(e.name) else None;
    assert files == init + [e];
    FilesFromNext(c, key, store, overwrite, before, init, e, o);
    RestoreOneTurns(c, key, store, overwrite, o, e);
    assert e.IsRestorable() && PathOf(e.name).Some? && PathOf(e.name).value in o.target.files ==>
      PathOf(e.name).value in before;
    RestoreOneVisits(c, key, store, overwrite, before, o, e);
    forall i | 0 <= i < n
      ensures Visited(c, key, store, overwrite, before, o'.target, files[i])
      ensures PassedOver(overwrite, before, o'.target, files[i]) <==> PassedOver(overwrite, before, o.target, init[i])
    {
      assert init[i] == files[i];
      StaysVisited(c, key, store, overwrite, before, o.target, o'.target, path, files[i]);
    }
    PassedNext(overwrite, before, o.target, o'.target, files);
  }

  lemma PassedNext(overwrite: bool, before: map<string, Bytes>, t: Target, t': Target, files: seq<FileEntry>)
    requires files != []
    requires forall i :: 0 <= i < |files| - 1 ==>
      (PassedOver(overwrite, before, t', files[i]) <==> PassedOver(overwrite, before, t, files[..|files| - 1][i]))
    ensures var n := |files| - 1;
      var was, now := PassedSet(overwrite, before, t, files[..n]), PassedSet(overwrite, before, t', files);
      && |now| == |was| + (if PassedOver(overwrite, before, t', files[n]) then 1 else 0)
      && SizesWithout(files, now)
         == SizesWithout(files[..n], was) + (if PassedOver(overwrite, before, t', files[n]) then 0 else files[n].size)
  {
    hide PassedOver, SizesWithout;
    var n := |files| - 1;
    var was, now := PassedSet(overwrite, before, t, files[..n]), PassedSet(overwrite, before, t', files);
    OneMoreIndex(files, was, now);
  }

  lemma OneMoreIndex(files: seq<FileEntry>, was: set<nat>, now: set<nat>)
    requires files != [] && (forall i :: i in was ==> i < |files| - 1) && forall i :: i in now ==> i < |files|
    requires forall i: nat :: i < |files| - 1 ==> (i in now <==> i in was)
    ensures var n := |files| - 1;
      && |now| == |was| + (if n in now then 1 else 0)
      && SizesWithout(files, now) == SizesWithout(files[..n], was) + (if n in now then 0 else files[n].size)
  {
    var n := |files| - 1;
    if n in now {
      assert now == was + {n};
    } else {
      assert now == was;
    }
    SizesAgree(files[..n], now, was);
  }

  lemma {:induction false} LoopKnows(c: Primitives, key: Bytes, store: Store, overwrite: bool, target: Target,
                                     files: seq<FileEntry>)
    requires DistinctTargets(files) && RestoreAll(c, key, store, overwrite, target, files).Finished?
    ensures LoopOK(c, key, store, overwrite, target.files, files,
                   RestoreAll(c, key, store, overwrite, target, files))
  {
    hide RestoreOne, LoopOK, FileEntry.IsRestorable, PathOf;
    if files == [] {
      LoopStart(c, key, store, overwrite, target);
    } else {
      LoopKnows(c, key, store, overwrite, target, files[..|files| - 1]);
      var o := RestoreAll(c, key, store, overwrite, target, files[..|files| - 1]);
      assert o.Finished?;
      LoopNext(c, key, store, overwrite, target.files, files, o);
    }
  }

  lemma LoopStart(c: Primitives, key: Bytes, store: Store, overwrite: bool, target: Target)
    ensures LoopOK(c, key, store, overwrite, target.files, [], Finished(target, 0, 0, 0))
  {
    assert PassedSet(overwrite, target.files, target, []) == {};
  }

  /**
   For any store and target, a run over entries with different paths that finishes has
   passed over exactly the entries that are not restorable and, when not overwriting,
   those whose path was taken by a file or is a directory; each of these paths exists.
   Every other entry is in place with the bytes it is fetched as. The counters say so.
   */
  lemma FinishedRunDelivers(c: Primitives, key: Bytes, store: Store, overwrite: bool, target: Target,
                            keys: seq<string>, files: seq<FileEntry>)
    requires DistinctTargets(files) && RestoreRun(c, key, store, overwrite, target, keys, files).Finished?
    ensures var o := RestoreRun(c, key, store, overwrite, target, keys, files);
      && (forall i :: 0 <= i < |files| && !PassedOver(overwrite, target.files, o.target, files[i]) ==>
            InPlace(c, key, store, o.target, files[i]))
      && (forall i :: 0 <= i < |files| && files[i].IsRestorable() ==>
            PathOf(files[i].name).Some? && Exists(o.target, PathOf(files[i].name).value))
      && var passed := PassedSet(overwrite, target.files, o.target, files);
      o.skipped == |passed| && o.restored == |files| - |passed| && o.restoredBytes == SizesWithout(files, passed)
  {
    hide RestoreAll, MakeSkeleton, FetchEntry, PathOf, FileEntry.IsRestorable, DistinctTargets;
    SkeletonKeepsFiles(target, keys);
    LoopKnows(c, key, store, overwrite, MakeSkeleton(target, keys).target, files);
    var o := RestoreRun(c, key, store, overwrite, target, keys, files);
    forall i | 0 <= i < |files|
      ensures Visited(c, key, store, overwrite, target.files, o.target, files[i])
    {
    }
  }

  // ----- Directories -----------------------------------------------------------

  lemma {:induction false} OpenPathMakes(t: Target, comps: seq<string>, i: nat)
    requires OpenPath(t, comps).ok && 1 <= i <= |comps|
    ensures Join(comps[..i]) in OpenPath(t, comps).target.dirs
    decreases |comps|
  {
    hide Join;
    if i == |comps| {
      assert comps[..i] == comps;
    } else {
      var init := comps[..|comps| - 1];
      OpenPathMakes(t, init, i);
      assert comps[..i] == init[..i];
    }
  }

  /** The directory of this key, and those above it, exist. */
  ghost predicate Made(t: Target, k: string) {
    && SafeComponents(k).Some?
    && forall i :: 1 <= i <= |SafeComponents(k).value| ==> Join(SafeComponents(k).value[..i]) in t.dirs
  }

  lemma {:induction false} SkeletonMakes(t: Target, keys: seq<string>, j: nat)
    requires MakeSkeleton(t, keys).ok && j < |keys| && keys[j] != ""
    ensures Made(MakeSkeleton(t, keys).target, keys[j])
    decreases |keys|
  {
    hide Join, SafeComponents, OpenPath;
    var init, k := keys[..|keys| - 1], keys[|keys| - 1];
    var o := MakeSkeleton(t, init);
    if k != "" {
      var comps := SafeComponents(k).value;
      OpenPathKeepsFiles(o.target, comps);
      forall i | 1 <= i <= |comps| ensures Join(comps[..i]) in OpenPath(o.target, comps).target.dirs {
        OpenPathMakes(o.target, comps, i);
      }
    }
    if j < |init| {
      assert init[j] == keys[j];
      SkeletonMakes(t, init, j);
    }
  }

  /** For any store and target, a run that finishes has accepted and made every directory of the manifest. */
  lemma FinishedRunMakesDirs(c: Primitives, key: Bytes, store: Store, overwrite: bool, target: Target,
                             keys: seq<string>, files: seq<FileEntry>, j: nat)
    requires RestoreRun(c, key, store, overwrite, target, keys, files).Finished? && j < |keys| && keys[j] != ""
    ensures Made(RestoreRun(c, key, store, overwrite, target, keys, files).target, keys[j])
  {
    hide RestoreAll, MakeSkeleton, Join, SafeComponents, Accounted;
    SkeletonMakes(target, keys, j);
    RestoreAllSound(c, key, store, overwrite, MakeSkeleton(target, keys).target, files);
  }
}
