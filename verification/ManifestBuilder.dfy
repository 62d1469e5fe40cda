/**
 The manifest as the object the source mutates: AddFile, AddEmptyDir and the
 loops that validate, index and list its tree, proved against ManifestTree.
 */
module ManifestBuilder {
  import opened Paths
  import opened ManifestTypes
  import opened ManifestTree

  class Builder {
    var dirs: Dirs
    var fileCount: int
    var totalSize: int

    ghost function Value(): Tree
      reads this
    {
      Tree(dirs, fileCount, totalSize)
    }

    constructor ()
      ensures Value() == NewTree
    {
      dirs, fileCount, totalSize := map[], 0, 0;
    }

    method AddFile(entry: FileEntry)
      modifies this
      ensures Value() == Apply(old(Value()), File(entry))
    {
      hide ManifestTree.EnsureParentDirs, LastSlash, DirOf, BaseOf;
      var p := entry.name;
      if p != "" && p[0] == '/' {
        p := p[1..];
      }
      var idx := LastSlash(p);
      var dir, base := "", p;
      if idx >= 0 {
        dir, base := p[..idx], p[idx + 1..];
      }
      SplitAt(p);
      var d := EmptyDir;
      if dir in dirs {
        d := dirs[dir];
      }
      dirs := dirs[dir := Dir(d.files + [entry.(name := base)], d.subDirs)];
      fileCount := fileCount + 1;
      totalSize := totalSize + entry.size;
      if dir != "" {
        EnsureParentDirs(dir);
      }
    }

    method EnsureParentDirs(dirPath: string)
      modifies this`dirs
      ensures dirs == ManifestTree.EnsureParentDirs(old(dirs), dirPath)
    {
      var parts := Split(dirPath);
      for i := 0 to |parts|
        invariant EnsureFrom(dirs, parts, i) == EnsureFrom(old(dirs), parts, 0)
      {
        AddSubDir(Join(parts[..i]), parts[i]);
      }
    }

    /** Find-or-create the parent and append the child unless a scan finds it. */
    method AddSubDir(parent: string, child: string)
      modifies this`dirs
      ensures dirs == AddChild(old(dirs), parent, child)
    {
      var pd := EmptyDir;
      if parent in dirs {
        pd := dirs[parent];
      }
      var found := false;
      for j := 0 to |pd.subDirs|
        invariant !found && child !in pd.subDirs[..j]
      {
        if pd.subDirs[j] == child {
          found := true;
          break;
        }
      }
      assert pd.subDirs[..|pd.subDirs|] == pd.subDirs;
      if !found {
        pd := Dir(pd.files, pd.subDirs + [child]);
      }
      dirs := dirs[parent := pd];
    }

    method AddEmptyDir(relPath: string)
      modifies this
      ensures Value() == Apply(old(Value()), Empty(relPath))
    {
      hide ManifestTree.EnsureParentDirs, AddChild;
      var p := relPath;
      if p != "" && p[0] == '/' {
        p := p[1..];
      }
      if p == "" { return; }
      var idx := LastSlash(p);
      var parentDir, dirName := "", p;
      if idx >= 0 {
        parentDir, dirName := p[..idx], p[idx + 1..];
      }
      if dirName == "" { return; }
      if p !in dirs {
        dirs := dirs[p := EmptyDir];
      }
      assert dirs == old(dirs)[p := DirAt(old(dirs), p)];
      if parentDir != "" {
        EnsureParentDirs(p);
      } else {
        AddSubDir("", dirName);
      }
    }

    /** ValidateStructure, whatever order the directories come in. */
    method ValidateStructure() returns (ok: bool)
      ensures ok <==> ValidStructure(dirs, fileCount, totalSize)
    {
      hide DirValid, ValidStructure;
      ValidByDir(dirs, fileCount, totalSize);
      var count, size := 0, 0;
      var rest := dirs.Keys;
      ghost var left := dirs;
      assert left.Keys == rest;
      while rest != {}
        invariant rest <= dirs.Keys && left.Keys == rest
        invariant forall k :: k in rest ==> left[k] == dirs[k]
        invariant forall k :: k in dirs && k !in rest ==> DirValid(dirs, k)
        invariant count + Total(left, CountIn) == Total(dirs, CountIn)
        invariant size + Total(left, SizeIn) == Total(dirs, SizeIn)
      {
        var k :| k in rest;
        var dirOK, dirSize := ValidateDir(k, dirs[k]);
        if !dirOK { return false; }
        count, size := count + |dirs[k].files|, size + dirSize;
        TotalRemove(left, CountIn, k);
        TotalRemove(left, SizeIn, k);
        rest, left := rest - {k}, left - {k};
      }
      assert |left| == 0;
      assert forall k :: k in dirs ==> DirValid(dirs, k);
      ok := fileCount == count && totalSize == size;
    }

    method ValidateDir(k: string, d: Dir) returns (ok: bool, size: int)
      requires k in dirs && d == dirs[k]
      ensures ok <==> DirValid(dirs, k)
      ensures ok ==> size == SizeIn(d)
    {
      hide ValidDirKey;
      if !ValidDirKey(k) { return false, 0; }
      ok, size := ValidateFiles(d.files);
      if ok {
        ok := ValidateSubDirs(k, d.subDirs);
      }
    }

    method ValidateSubDirs(k: string, subDirs: seq<string>) returns (ok: bool)
      ensures ok <==> SubDirsOK(dirs, k, subDirs)
    {
      hide ValidEntryName;
      for i := 0 to |subDirs|
        invariant forall j :: 0 <= j < i ==> ValidEntryName(subDirs[j]) && JoinPath(k, subDirs[j]) in dirs
      {
        var s := subDirs[i];
        if !ValidEntryName(s) { return false; }
        var child := s;
        if k != "" {
          child := k + "/" + s;
        }
        if child !in dirs { return false; }
      }
      ok := true;
    }

    static method ValidateFiles(files: seq<FileEntry>) returns (ok: bool, size: int)
      ensures ok <==> EntriesOK(files)
      ensures ok ==> size == FileSizes(files)
    {
      hide EntryOK;
      size := 0;
      var seenNames: set<string> := {};
      assert files[..0] == [];
      for i := 0 to |files|
        invariant seenNames == set j | 0 <= j < i :: files[j].name
        invariant forall j :: 0 <= j < i ==> EntryOK(files[j])
        invariant forall a, b :: 0 <= a < b < i ==> files[a].name != files[b].name
        invariant size == FileSizes(files[..i])
      {
        var f := files[i];
        var entryOK := ValidateEntry(f);
        if !entryOK || f.name in seenNames { return false, 0; }
        seenNames := seenNames + {f.name};
        size := size + f.size;
        assert files[..i + 1][..i] == files[..i];
      }
      assert files[..|files|] == files;
      ok := true;
    }

    static method ValidateEntry(f: FileEntry) returns (ok: bool)
      ensures ok <==> EntryOK(f)
    {
      hide ValidEntryName;
      if !ValidEntryName(f.name) || f.size < 0 { return false; }
      var chunkSum := 0;
      for i := 0 to |f.chunks|
        invariant forall j :: 0 <= j < i ==> f.chunks[j].size >= 0
        invariant chunkSum + ChunkSum(f.chunks[i..]) == ChunkSum(f.chunks)
      {
        if f.chunks[i].size < 0 {
          assert f.chunks[i] in f.chunks;
          return false;
        }
        chunkSum := chunkSum + f.chunks[i].size;
        assert f.chunks[i..][1..] == f.chunks[i + 1..];
      }
      ok := !(|f.chunks| > 0 && f.IsRestorable() && chunkSum != f.size);
    }

    /**
     For any tree: every file's path is indexed, and every entry of the index is a file
     of the tree under its path. On a valid tree that is the file map.
     */
    method BuildFileMap() returns (fm: map<string, FileEntry>)
      ensures Indexes(dirs, dirs.Keys, fm)
      ensures FilesOK(dirs) ==> IsFileMap(dirs, fm)
    {
      hide FilesOK, IsFileMap, Indexes;
      fm := map[];
      var rest := dirs.Keys;
      assert dirs.Keys - rest == {};
      NothingIndexed(dirs);
      while rest != {}
        invariant rest <= dirs.Keys && Indexes(dirs, dirs.Keys - rest, fm)
      {
        var k :| k in rest;
        assert dirs.Keys - (rest - {k}) == dirs.Keys - rest + {k};
        fm := IndexDir(fm, k, dirs.Keys - rest);
        rest := rest - {k};
      }
      assert dirs.Keys - {} == dirs.Keys;
      if FilesOK(dirs) { IndexIsFileMap(dirs, fm); }
    }

    method IndexDir(done: map<string, FileEntry>, k: string, ghost seen: set<string>)
      returns (fm: map<string, FileEntry>)
      requires k in dirs && Indexes(dirs, seen, done)
      ensures Indexes(dirs, seen + {k}, fm)
    {
      hide JoinPath, Visited;
      fm := done;
      var files := dirs[k].files;
      forall p | p in fm ensures Visited(dirs, seen + {k}, fm[p]) {
        VisitedMore(dirs, seen, seen + {k}, fm[p]);
      }
      for i := 0 to |files|
        invariant forall d, j :: d in seen && d in dirs && 0 <= j < |dirs[d].files| ==>
            JoinPath(d, dirs[d].files[j].name) in fm
        invariant forall j :: 0 <= j < i ==> JoinPath(k, files[j].name) in fm
        invariant forall p :: p in fm ==> fm[p].name == p && Visited(dirs, seen + {k}, fm[p])
      {
        var path := JoinPath(k, files[i].name);
        VisitedNow(dirs, seen + {k}, k, i);
        fm := fm[path := files[i].(name := path)];
      }
    }

    /** DeriveCompleteness: one missed file, or one scan error, makes the snapshot incomplete. */
    method DeriveCompleteness(scanErrors: int) returns (complete: bool)
      ensures complete <==> Complete(dirs, scanErrors)
    {
      hide Missed;
      if scanErrors > 0 { return false; }
      var rest := dirs.Keys;
      while rest != {}
        invariant rest <= dirs.Keys
        invariant forall k, i :: k in dirs && k !in rest && 0 <= i < |dirs[k].files| ==>
            !Missed(dirs[k].files[i].status)
      {
        var k :| k in rest;
        var files := dirs[k].files;
        for i := 0 to |files|
          invariant forall j :: 0 <= j < i ==> !Missed(files[j].status)
        {
          if Missed(files[i].status) { return false; }
        }
        rest := rest - {k};
      }
      return true;
    }

    /**
     AllFiles: for any tree, its files under their full paths, as many as there are,
     directories in any order. On a valid tree every file occurs once.
     */
    method AllFiles(ghost fm: map<string, FileEntry>) returns (files: seq<FileEntry>)
      ensures |files| == Total(dirs, CountIn) && forall i :: 0 <= i < |files| ==> Visited(dirs, dirs.Keys, files[i])
      ensures forall k, i :: k in dirs && 0 <= i < |dirs[k].files| ==> Full(k, dirs[k].files[i]) in files
      ensures FilesOK(dirs) && IsFileMap(dirs, fm) ==> IsListing(fm, files)
    {
      hide FilesOK, IsFileMap, Total, Visited, NamesDiffer, Full;
      files := [];
      var rest := dirs.Keys;
      NothingVisited();
      assert Part(dirs, rest) == dirs;
      while rest != {}
        invariant rest <= dirs.Keys && |files| + Total(Part(dirs, rest), CountIn) == Total(dirs, CountIn)
        invariant forall i :: 0 <= i < |files| ==> Visited(dirs, dirs.Keys - rest, files[i])
        invariant FilesOK(dirs) ==> NamesDiffer(files)
        invariant forall k, i :: k in dirs && k !in rest && 0 <= i < |dirs[k].files| ==>
            Full(k, dirs[k].files[i]) in files
      {
        var k :| k in rest;
        TotalRemove(Part(dirs, rest), CountIn, k);
        assert Part(dirs, rest) - {k} == Part(dirs, rest - {k});
        files := ListDir(files, k, rest);
        rest := rest - {k};
      }
      assert dirs.Keys - {} == dirs.Keys;
      NoDirsLeft(dirs);
      if FilesOK(dirs) && IsFileMap(dirs, fm) { ListsAll(dirs, fm, files); }
    }

    method ListDir(done: seq<FileEntry>, k: string, ghost rest: set<string>) returns (files: seq<FileEntry>)
      requires k in rest && rest <= dirs.Keys
      requires FilesOK(dirs) ==> NamesDiffer(done)
      requires forall i :: 0 <= i < |done| ==> Visited(dirs, dirs.Keys - rest, done[i])
      ensures FilesOK(dirs) ==> NamesDiffer(files)
      ensures forall i :: 0 <= i < |files| ==> Visited(dirs, dirs.Keys - (rest - {k}), files[i])
      ensures done <= files && |files| == |done| + |dirs[k].files|
      ensures forall i :: 0 <= i < |dirs[k].files| ==> Full(k, dirs[k].files[i]) in files
    {
      hide FilesOK, JoinPath, DirOf, BaseOf, Visited;
      var here := dirs[k].files;
      files := done;
      for i := 0 to |here|
        invariant |files| == |done| + i && done <= files && (FilesOK(dirs) ==> NamesDiffer(files))
        invariant forall j :: 0 <= j < i ==> files[|done| + j] == Full(k, here[j])
      {
        if FilesOK(dirs) {
          forall j | 0 <= j < |files| ensures files[j].name != Full(k, here[i]).name {
            if j < |done| {
              assert files[j] == done[j];
              OtherDirOtherName(dirs, dirs.Keys - rest, done[j], k, i);
            } else {
              SameDirOtherName(dirs, k, j - |done|, i);
            }
          }
        }
        files := files + [Full(k, here[i])];
      }
      forall i | 0 <= i < |files| ensures Visited(dirs, dirs.Keys - (rest - {k}), files[i]) {
        if i < |done| {
          assert files[i] == done[i];
          VisitedMore(dirs, dirs.Keys - rest, dirs.Keys - (rest - {k}), done[i]);
        } else {
          VisitedNow(dirs, dirs.Keys - (rest - {k}), k, i - |done|);
        }
      }
      forall i | 0 <= i < |here| ensures Full(k, here[i]) in files {
        assert files[|done| + i] == Full(k, here[i]);
      }
    }
  }

  function Part(dirs: Dirs, keys: set<string>): Dirs
    requires keys <= dirs.Keys
  {
    map k | k in keys :: dirs[k]
  }

  lemma NoDirsLeft(dirs: Dirs)
    ensures Total(Part(dirs, {}), CountIn) == 0
  {
    assert Part(dirs, {}) == map[];
  }

  lemma NothingVisited()
    ensures NamesDiffer([])
  {
  }

  /** Every file of these directories is indexed, and only files of theirs are, each under its path. */
  ghost predicate Indexes(dirs: Dirs, seen: set<string>, fm: map<string, FileEntry>) {
    && (forall k, i :: k in seen && k in dirs && 0 <= i < |dirs[k].files| ==> JoinPath(k, dirs[k].files[i].name) in fm)
    && (forall p :: p in fm ==> fm[p].name == p && Visited(dirs, seen, fm[p]))
  }

  lemma NothingIndexed(dirs: Dirs)
    ensures Indexes(dirs, {}, map[])
  {
  }

  /** On a valid tree no two files share a path, so the index is the file map. */
  lemma IndexIsFileMap(dirs: Dirs, fm: map<string, FileEntry>)
    requires FilesOK(dirs) && Indexes(dirs, dirs.Keys, fm)
    ensures IsFileMap(dirs, fm)
  {
    hide DirOf, BaseOf, EntryOK, JoinPath;
    forall k, i | k in dirs && 0 <= i < |dirs[k].files| ensures Holds(fm, k, dirs[k].files[i]) {
      var e := fm[JoinPath(k, dirs[k].files[i].name)];
      var d, j :| d in dirs.Keys && d in dirs && 0 <= j < |dirs[d].files| && e == Full(d, dirs[d].files[j]);
      EntryNameHasNoSlash(dirs[k].files[i]);
      EntryNameHasNoSlash(dirs[d].files[j]);
      SplitJoined(k, dirs[k].files[i].name);
      SplitJoined(d, dirs[d].files[j].name);
      assert i == j;
    }
    forall p | p in fm ensures InTree(dirs, p) {
      var d, j :| d in dirs.Keys && d in dirs && 0 <= j < |dirs[d].files| && fm[p] == Full(d, dirs[d].files[j]);
      EntryNameHasNoSlash(dirs[d].files[j]);
      SplitJoined(d, dirs[d].files[j].name);
    }
  }

  lemma ListsAll(dirs: Dirs, fm: map<string, FileEntry>, files: seq<FileEntry>)
    requires FilesOK(dirs) && IsFileMap(dirs, fm) && NamesDiffer(files)
    requires forall i :: 0 <= i < |files| ==> Visited(dirs, dirs.Keys, files[i])
    requires forall k, i :: k in dirs && 0 <= i < |dirs[k].files| ==> Full(k, dirs[k].files[i]) in files
    ensures IsListing(fm, files)
  {
    hide DirOf, BaseOf, EntryOK, JoinPath;
    forall i | 0 <= i < |files| ensures files[i].name in fm && fm[files[i].name] == files[i] {
      assert Visited(dirs, dirs.Keys, files[i]);
      var d, j :| d in dirs.Keys && d in dirs && 0 <= j < |dirs[d].files| && files[i] == Full(d, dirs[d].files[j]);
      assert Holds(fm, d, dirs[d].files[j]);
    }
    forall p | p in fm ensures fm[p] in files {
      assert InTree(dirs, p);
      var i :| 0 <= i < |dirs[DirOf(p)].files| && dirs[DirOf(p)].files[i].name == BaseOf(p);
      assert Holds(fm, DirOf(p), dirs[DirOf(p)].files[i]);
    }
  }

  lemma SplitAt(p: string)
    ensures if LastSlash(p) >= 0 then DirOf(p) == p[..LastSlash(p)] && BaseOf(p) == p[LastSlash(p) + 1..]
            else DirOf(p) == "" && BaseOf(p) == p
  {
  }

  ghost predicate NamesDiffer(files: seq<FileEntry>) {
    forall i, j :: 0 <= i < j < |files| ==> files[i].name != files[j].name
  }

  /** `e` is a file of one of these directories, under its full path. */
  ghost predicate Visited(dirs: Dirs, seen: set<string>, e: FileEntry) {
    exists k, i :: k in seen && k in dirs && 0 <= i < |dirs[k].files| && e == Full(k, dirs[k].files[i])
  }

  lemma VisitedMore(dirs: Dirs, seen: set<string>, seen': set<string>, e: FileEntry)
    requires Visited(dirs, seen, e) && seen <= seen'
    ensures Visited(dirs, seen', e)
  {
    hide Full;
    var k, i :| k in seen && k in dirs && 0 <= i < |dirs[k].files| && e == Full(k, dirs[k].files[i]);
    assert k in seen';
  }

  lemma VisitedNow(dirs: Dirs, seen: set<string>, k: string, i: nat)
    requires k in seen && k in dirs && i < |dirs[k].files|
    ensures Visited(dirs, seen, Full(k, dirs[k].files[i]))
  {
  }

  lemma OtherDirOtherName(dirs: Dirs, seen: set<string>, e: FileEntry, k: string, i: nat)
    requires FilesOK(dirs) && Visited(dirs, seen, e) && k in dirs && k !in seen && i < |dirs[k].files|
    ensures e.name != Full(k, dirs[k].files[i]).name
  {
    hide EntryOK;
    var d, j :| d in seen && d in dirs && 0 <= j < |dirs[d].files| && e == Full(d, dirs[d].files[j]);
    EntryNameHasNoSlash(dirs[d].files[j]);
    EntryNameHasNoSlash(dirs[k].files[i]);
    SplitJoined(d, dirs[d].files[j].name);
    SplitJoined(k, dirs[k].files[i].name);
  }

  lemma SameDirOtherName(dirs: Dirs, k: string, j: nat, i: nat)
    requires FilesOK(dirs) && k in dirs && j < i < |dirs[k].files|
    ensures Full(k, dirs[k].files[j]).name != Full(k, dirs[k].files[i]).name
  {
    hide EntryOK;
    EntryNameHasNoSlash(dirs[k].files[j]);
    EntryNameHasNoSlash(dirs[k].files[i]);
    SplitJoined(k, dirs[k].files[j].name);
    SplitJoined(k, dirs[k].files[i].name);
  }

  ghost predicate EntriesOK(files: seq<FileEntry>) {
    && (forall i :: 0 <= i < |files| ==> EntryOK(files[i]))
    && (forall i, j :: 0 <= i < j < |files| ==> files[i].name != files[j].name)
  }

  ghost predicate SubDirsOK(dirs: Dirs, k: string, subDirs: seq<string>) {
    forall s :: s in subDirs ==> ValidEntryName(s) && JoinPath(k, s) in dirs
  }

  /** What ValidateStructure checks while it visits one directory. */
  ghost predicate DirValid(dirs: Dirs, k: string)
    requires k in dirs
  {
    ValidDirKey(k) && EntriesOK(dirs[k].files) && SubDirsOK(dirs, k, dirs[k].subDirs)
  }

  lemma ValidByDir(dirs: Dirs, fileCount: int, totalSize: int)
    ensures ValidStructure(dirs, fileCount, totalSize) <==>
      && (forall k :: k in dirs ==> DirValid(dirs, k))
      && fileCount == Total(dirs, CountIn)
      && totalSize == Total(dirs, SizeIn)
  {
    hide ValidDirKey, EntryOK, ValidEntryName, Total;
    if forall k :: k in dirs ==> DirValid(dirs, k) {
      assert forall k :: k in dirs ==> EntriesOK(dirs[k].files) && SubDirsOK(dirs, k, dirs[k].subDirs);
    }
  }
}
