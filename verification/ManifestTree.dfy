/**
 The directory tree of a manifest: how AddFile and AddEmptyDir grow it, what
 ValidateStructure demands of it, and the lookups over it.
 */
module ManifestTree {
  import opened ByteSeqs
  import opened Paths
  import opened ManifestTypes

  // ----- Growing the tree --------------------------------------------------

  function DirAt(dirs: Dirs, k: string): Dir {
    if k in dirs then dirs[k] else EmptyDir
  }

  function AddChild(dirs: Dirs, parent: string, child: string): Dirs {
    var d := DirAt(dirs, parent);
    dirs[parent := if child in d.subDirs then d else Dir(d.files, d.subDirs + [child])]
  }

  /** ensureParentDirs from the `i`-th segment on: each prefix exists and lists the next segment. */
  function EnsureFrom(dirs: Dirs, parts: seq<string>, i: nat): Dirs
    requires i <= |parts|
    decreases |parts| - i
  {
    if i == |parts| then dirs
    else EnsureFrom(AddChild(dirs, Join(parts[..i]), parts[i]), parts, i + 1)
  }

  function EnsureParentDirs(dirs: Dirs, dirPath: string): Dirs {
    EnsureFrom(dirs, Split(dirPath), 0)
  }

  function AppendFile(dirs: Dirs, dir: string, entry: FileEntry): Dirs {
    var d := DirAt(dirs, dir);
    dirs[dir := Dir(d.files + [entry], d.subDirs)]
  }

  /** A leading slash is dropped. */
  function Normalize(p: string): string {
    if p != "" && p[0] == '/' then p[1..] else p
  }

  /** The path under which an added file is found again. */
  function ManifestPath(name: string): string {
    JoinPath(DirOf(Normalize(name)), BaseOf(Normalize(name)))
  }

  function AddFileTo(dirs: Dirs, entry: FileEntry): Dirs {
    var p := Normalize(entry.name);
    var dirs' := AppendFile(dirs, DirOf(p), entry.(name := BaseOf(p)));
    if DirOf(p) == "" then dirs' else EnsureParentDirs(dirs', DirOf(p))
  }

  function AddEmptyDirTo(dirs: Dirs, relPath: string): Dirs {
    var p := Normalize(relPath);
    if p == "" || BaseOf(p) == "" then dirs
    else
      var dirs' := dirs[p := DirAt(dirs, p)];
      if DirOf(p) == "" then AddChild(dirs', "", BaseOf(p)) else EnsureParentDirs(dirs', p)
  }

  // ----- Shape -------------------------------------------------------------

  ghost predicate NoDups(names: seq<string>) {
    forall i, j :: 0 <= i < j < |names| ==> names[i] != names[j]
  }

  ghost predicate Listed(dirs: Dirs, k: string) {
    DirOf(k) in dirs && BaseOf(k) in dirs[DirOf(k)].subDirs
  }

  ghost predicate ValidNames(dirs: Dirs) {
    && (forall k :: k in dirs ==> ValidDirKey(k) && NoDups(dirs[k].subDirs))
    && (forall k, s {:trigger s in dirs[k].subDirs} :: k in dirs && s in dirs[k].subDirs ==> ValidEntryName(s))
  }

  /** Every directory but the root is listed by its parent, once, and nothing else is listed. */
  ghost predicate TreeShape(dirs: Dirs) {
    && ValidNames(dirs)
    && (forall k, s {:trigger s in dirs[k].subDirs} :: k in dirs && s in dirs[k].subDirs ==> JoinPath(k, s) in dirs)
    && (forall k {:trigger Listed(dirs, k)} :: k in dirs && k != "" ==> Listed(dirs, k))
  }

  ghost predicate NoDanglingBut(dirs: Dirs, missing: string) {
    forall k, s {:trigger s in dirs[k].subDirs} :: k in dirs && s in dirs[k].subDirs ==>
      JoinPath(k, s) in dirs || JoinPath(k, s) == missing
  }

  ghost predicate AllListedBut(dirs: Dirs, target: string) {
    forall k {:trigger Listed(dirs, k)} :: k in dirs && k != "" ==> Listed(dirs, k) || k == target
  }

  /** The shape inside ensureParentDirs: one child may still be missing, the target still unlisted. */
  ghost predicate ShapeUpTo(dirs: Dirs, parts: seq<string>, i: nat) {
    && i <= |parts|
    && Join(parts) in dirs
    && ValidNames(dirs)
    && NoDanglingBut(dirs, Join(parts[..i]))
    && AllListedBut(dirs, Join(parts))
    && (i > 0 ==> Join(parts[..i - 1]) in dirs && parts[i - 1] in dirs[Join(parts[..i - 1])].subDirs)
  }

  lemma NoDupsAppend(names: seq<string>, s: string)
    requires NoDups(names) && s !in names
    ensures NoDups(names + [s])
  {
  }

  lemma AddChildNames(dirs: Dirs, parent: string, child: string)
    requires ValidNames(dirs) && ValidDirKey(parent) && ValidEntryName(child)
    ensures ValidNames(AddChild(dirs, parent, child))
  {
    hide ValidDirKey, ValidEntryName;
    var d := DirAt(dirs, parent);
    if child !in d.subDirs { NoDupsAppend(d.subDirs, child); }
  }

  lemma AddChildDangling(dirs: Dirs, parent: string, child: string)
    requires NoDanglingBut(dirs, parent)
    ensures NoDanglingBut(AddChild(dirs, parent, child), JoinPath(parent, child))
  {
    var dirs' := AddChild(dirs, parent, child);
    forall k, s | k in dirs' && s in dirs'[k].subDirs
      ensures JoinPath(k, s) in dirs' || JoinPath(k, s) == JoinPath(parent, child)
    {
      if !(k == parent && s == child) {
        assert k in dirs && s in dirs[k].subDirs;
      }
    }
  }

  lemma AddChildListed(dirs: Dirs, parent: string, child: string, target: string)
    requires AllListedBut(dirs, target) && (parent == "" || Listed(dirs, parent))
    ensures AllListedBut(AddChild(dirs, parent, child), target)
  {
    hide DirOf, BaseOf;
    var dirs' := AddChild(dirs, parent, child);
    forall k | k in dirs' && k != ""
      ensures Listed(dirs', k) || k == target
    {
      assert Listed(dirs, k) || k == target;
    }
  }

  lemma ShapeStep(dirs: Dirs, target: string, i: nat)
    requires target != "" && ValidDirKey(target)
    requires ShapeUpTo(dirs, Split(target), i) && i < |Split(target)|
    ensures ShapeUpTo(AddChild(dirs, Join(Split(target)[..i]), Split(target)[i]), Split(target), i + 1)
  {
    hide DirOf, BaseOf, Join, ValidDirKey, ValidEntryName, ValidNames, NoDanglingBut, AllListedBut;
    var parts := Split(target);
    SegmentsProper(target);
    var parent, child := Join(parts[..i]), parts[i];
    ValidPrefix(target, i);
    PrefixChain(parts, i);
    if i > 0 {
      PrefixChain(parts, i - 1);
      assert Listed(dirs, parent);
    } else {
      JoinNothing(parts);
    }
    AddChildNames(dirs, parent, child);
    AddChildDangling(dirs, parent, child);
    AddChildListed(dirs, parent, child, Join(parts));
    assert parts[..i + 1 - 1] == parts[..i];
  }

  lemma JoinNothing(parts: seq<string>)
    ensures Join(parts[..0]) == ""
  {
  }

  lemma SegmentsProper(dir: string)
    requires dir != "" && ValidDirKey(dir)
    ensures forall j :: 0 <= j < |Split(dir)| ==> Split(dir)[j] != "" && '/' !in Split(dir)[j]
  {
    forall j | 0 <= j < |Split(dir)|
      ensures Split(dir)[j] != ""
    {
      assert Split(dir)[j] in Split(dir);
    }
  }

  lemma {:induction false} EnsureFromShape(dirs: Dirs, target: string, i: nat)
    requires target != "" && ValidDirKey(target)
    requires ShapeUpTo(dirs, Split(target), i)
    ensures TreeShape(EnsureFrom(dirs, Split(target), i))
    decreases |Split(target)| - i
  {
    hide AddChild, Join, DirOf, BaseOf, ValidNames;
    var parts := Split(target);
    if i == |parts| {
      assert parts[..i] == parts;
      SegmentsProper(target);
      PrefixChain(parts, i - 1);
      assert Listed(dirs, target) by { JoinOfSplit(target); }
      forall k | k in dirs && k != "" ensures Listed(dirs, k) {
        JoinOfSplit(target);
        assert Listed(dirs, k) || k == Join(parts);
      }
    } else {
      ShapeStep(dirs, target, i);
      EnsureFromShape(AddChild(dirs, Join(parts[..i]), parts[i]), target, i + 1);
    }
  }

  // ----- Files and totals --------------------------------------------------

  ghost function Pick(dirs: Dirs): (k: string)
    requires |dirs| > 0
    ensures k in dirs
  {
    assert dirs.Keys != {};
    var k :| k in dirs;
    k
  }

  /** The order-independent sum of `f` over all directories. */
  ghost function Total(dirs: Dirs, f: Dir -> int): int
    decreases |dirs|
  {
    if |dirs| == 0 then 0 else f(dirs[Pick(dirs)]) + Total(dirs - {Pick(dirs)}, f)
  }

  lemma {:induction false} TotalRemove(dirs: Dirs, f: Dir -> int, k: string)
    requires k in dirs
    ensures Total(dirs, f) == f(dirs[k]) + Total(dirs - {k}, f)
    decreases |dirs|
  {
    var j := Pick(dirs);
    if j != k {
      TotalRemove(dirs - {j}, f, k);
      TotalRemove(dirs - {k}, f, j);
      assert dirs - {j} - {k} == dirs - {k} - {j};
    }
  }

  lemma TotalUpdate(dirs: Dirs, f: Dir -> int, k: string, d: Dir)
    requires f(EmptyDir) == 0
    ensures Total(dirs[k := d], f) == Total(dirs, f) - f(DirAt(dirs, k)) + f(d)
  {
    hide Total;
    TotalRemove(dirs[k := d], f, k);
    assert dirs[k := d] - {k} == dirs - {k};
    if k in dirs {
      TotalRemove(dirs, f, k);
    } else {
      assert dirs - {k} == dirs;
    }
  }

  function FileSizes(files: seq<FileEntry>): int {
    if files == [] then 0 else FileSizes(files[..|files| - 1]) + files[|files| - 1].size
  }

  function CountIn(d: Dir): int { |d.files| }

  function SizeIn(d: Dir): int { FileSizes(d.files) }

  /** What ValidateStructure asks of one file entry. */
  predicate EntryOK(e: FileEntry) {
    && ValidEntryName(e.name)
    && e.size >= 0
    && (forall ch :: ch in e.chunks ==> ch.size >= 0)
    && (e.chunks != [] && e.IsRestorable() ==> ChunkSum(e.chunks) == e.size)
  }

  ghost predicate FilesOK(dirs: Dirs) {
    && (forall k, i :: k in dirs && 0 <= i < |dirs[k].files| ==> EntryOK(dirs[k].files[i]))
    && (forall k, i, j :: k in dirs && 0 <= i < j < |dirs[k].files| ==> dirs[k].files[i].name != dirs[k].files[j].name)
  }

  /** `fm` holds exactly the files of the tree, each under its full path. */
  ghost predicate IsFileMap(dirs: Dirs, fm: map<string, FileEntry>) {
    && (forall k, i :: k in dirs && 0 <= i < |dirs[k].files| ==> Holds(fm, k, dirs[k].files[i]))
    && (forall p :: p in fm ==> InTree(dirs, p))
  }

  predicate Holds(fm: map<string, FileEntry>, dir: string, e: FileEntry) {
    var p := JoinPath(dir, e.name);
    p in fm && fm[p] == e.(name := p)
  }

  ghost predicate InTree(dirs: Dirs, p: string) {
    && p == JoinPath(DirOf(p), BaseOf(p))
    && DirOf(p) in dirs
    && exists i :: 0 <= i < |dirs[DirOf(p)].files| && dirs[DirOf(p)].files[i].name == BaseOf(p)
  }

  function Full(dir: string, e: FileEntry): FileEntry {
    e.(name := JoinPath(dir, e.name))
  }

  /** Each file of the map once, in any order. */
  ghost predicate IsListing(fm: map<string, FileEntry>, files: seq<FileEntry>) {
    && (forall i :: 0 <= i < |files| ==> files[i].name in fm && fm[files[i].name] == files[i])
    && (forall i, j :: 0 <= i < j < |files| ==> files[i].name != files[j].name)
    && (forall p :: p in fm ==> fm[p] in files)
  }

  lemma FileMapUnique(dirs: Dirs, a: map<string, FileEntry>, b: map<string, FileEntry>)
    requires IsFileMap(dirs, a) && IsFileMap(dirs, b)
    ensures a == b
  {
    hide LastSlash;
    forall p | p in a
      ensures p in b && a[p] == b[p]
    {
      var i :| 0 <= i < |dirs[DirOf(p)].files| && dirs[DirOf(p)].files[i].name == BaseOf(p);
      assert Holds(a, DirOf(p), dirs[DirOf(p)].files[i]) && Holds(b, DirOf(p), dirs[DirOf(p)].files[i]);
    }
    forall p | p in b
      ensures p in a
    {
      var i :| 0 <= i < |dirs[DirOf(p)].files| && dirs[DirOf(p)].files[i].name == BaseOf(p);
      assert Holds(a, DirOf(p), dirs[DirOf(p)].files[i]);
    }
  }

  /** Only subdirectory lists changed, and only empty directories were added. */
  ghost predicate SameFiles(dirs: Dirs, dirs': Dirs) {
    && (forall k :: k in dirs ==> k in dirs' && dirs'[k].files == dirs[k].files)
    && (forall k :: k in dirs' && k !in dirs ==> dirs'[k].files == [])
    && Total(dirs', CountIn) == Total(dirs, CountIn)
    && Total(dirs', SizeIn) == Total(dirs, SizeIn)
  }

  lemma AddChildSameFiles(dirs: Dirs, parent: string, child: string)
    ensures SameFiles(dirs, AddChild(dirs, parent, child))
  {
    hide Total;
    var d := AddChild(dirs, parent, child)[parent];
    TotalUpdate(dirs, CountIn, parent, d);
    TotalUpdate(dirs, SizeIn, parent, d);
  }

  lemma {:induction false} EnsureFromSameFiles(dirs: Dirs, parts: seq<string>, i: nat)
    requires i <= |parts|
    ensures SameFiles(dirs, EnsureFrom(dirs, parts, i))
    decreases |parts| - i
  {
    hide AddChild, Join;
    if i < |parts| {
      var dirs' := AddChild(dirs, Join(parts[..i]), parts[i]);
      AddChildSameFiles(dirs, Join(parts[..i]), parts[i]);
      EnsureFromSameFiles(dirs', parts, i + 1);
    }
  }

  lemma SameFilesKeeps(dirs: Dirs, dirs': Dirs, fm: map<string, FileEntry>)
    requires SameFiles(dirs, dirs') && FilesOK(dirs) && IsFileMap(dirs, fm)
    ensures FilesOK(dirs') && IsFileMap(dirs', fm)
  {
    hide LastSlash, EntryOK;
    forall p | p in fm
      ensures InTree(dirs', p)
    {
      assert InTree(dirs, p);
    }
  }

  // ----- The tree of a manifest under construction ---------------------------

  datatype Tree = Tree(dirs: Dirs, fileCount: int, totalSize: int)

  const NewTree := Tree(map[], 0, 0)

  datatype Op = File(entry: FileEntry) | Empty(path: string)

  function Apply(t: Tree, op: Op): Tree {
    match op
    case File(e) => Tree(AddFileTo(t.dirs, e), t.fileCount + 1, t.totalSize + e.size)
    case Empty(p) => t.(dirs := AddEmptyDirTo(t.dirs, p))
  }

  function Build(ops: seq<Op>): Tree {
    if ops == [] then NewTree else Apply(Build(ops[..|ops| - 1]), ops[|ops| - 1])
  }

  /** The files added so far, by path, and what each op adds. */
  function Record(fm: map<string, FileEntry>, op: Op): map<string, FileEntry> {
    match op
    case File(e) => fm[ManifestPath(e.name) := e.(name := ManifestPath(e.name))]
    case Empty(_) => fm
  }

  function Added(ops: seq<Op>): map<string, FileEntry> {
    if ops == [] then map[] else Record(Added(ops[..|ops| - 1]), ops[|ops| - 1])
  }

  /** A file under a proper path that is not taken, or an empty directory with a proper key. */
  predicate GoodOp(fm: map<string, FileEntry>, op: Op) {
    match op
    case File(e) =>
      && ValidDirKey(DirOf(Normalize(e.name)))
      && EntryOK(e.(name := BaseOf(Normalize(e.name))))
      && ManifestPath(e.name) !in fm
    case Empty(p) => ValidDirKey(Normalize(p))
  }

  ghost predicate GoodOps(ops: seq<Op>) {
    forall i :: 0 <= i < |ops| ==> GoodOp(Added(ops[..i]), ops[i])
  }

  ghost predicate TreeInv(t: Tree, fm: map<string, FileEntry>) {
    && TreeShape(t.dirs) && FilesOK(t.dirs) && IsFileMap(t.dirs, fm)
    && t.fileCount == Total(t.dirs, CountIn) == |fm|
    && t.totalSize == Total(t.dirs, SizeIn)
  }

  lemma AppendFileTotals(dirs: Dirs, dir: string, e: FileEntry)
    ensures var dirs' := AppendFile(dirs, dir, e);
      && Total(dirs', CountIn) == Total(dirs, CountIn) + 1
      && Total(dirs', SizeIn) == Total(dirs, SizeIn) + e.size
  {
    hide Total;
    var d := DirAt(dirs, dir);
    var d' := Dir(d.files + [e], d.subDirs);
    assert d'.files[..|d'.files| - 1] == d.files;
    TotalUpdate(dirs, CountIn, dir, d');
    TotalUpdate(dirs, SizeIn, dir, d');
  }

  lemma AppendFileOK(dirs: Dirs, fm: map<string, FileEntry>, dir: string, e: FileEntry)
    requires FilesOK(dirs) && IsFileMap(dirs, fm) && EntryOK(e) && JoinPath(dir, e.name) !in fm
    ensures FilesOK(AppendFile(dirs, dir, e))
  {
    hide EntryOK;
    var d := DirAt(dirs, dir);
    forall i | 0 <= i < |d.files|
      ensures d.files[i].name != e.name
    {
      assert Holds(fm, dir, d.files[i]);
    }
  }

  lemma AppendFileMap(dirs: Dirs, fm: map<string, FileEntry>, dir: string, e: FileEntry)
    requires IsFileMap(dirs, fm) && '/' !in e.name && JoinPath(dir, e.name) !in fm
    ensures var p := JoinPath(dir, e.name); IsFileMap(AppendFile(dirs, dir, e), fm[p := e.(name := p)])
  {
    hide DirOf, BaseOf;
    var p := JoinPath(dir, e.name);
    var dirs', fm' := AppendFile(dirs, dir, e), fm[p := e.(name := p)];
    SplitJoined(dir, e.name);
    forall k, i | k in dirs' && 0 <= i < |dirs'[k].files|
      ensures Holds(fm', k, dirs'[k].files[i])
    {
      if k in dirs && i < |dirs[k].files| {
        assert Holds(fm, k, dirs[k].files[i]);
      }
    }
    forall q | q in fm'
      ensures InTree(dirs', q)
    {
      if q == p {
        assert dirs'[dir].files[|DirAt(dirs, dir).files|] == e;
      } else {
        assert InTree(dirs, q);
        var i :| 0 <= i < |dirs[DirOf(q)].files| && dirs[DirOf(q)].files[i].name == BaseOf(q);
        assert dirs'[DirOf(q)].files[i].name == BaseOf(q);
      }
    }
  }

  lemma EntryNameHasNoSlash(e: FileEntry)
    requires EntryOK(e)
    ensures '/' !in e.name && e.name != ""
  {
  }

  lemma AppendFileShape(dirs: Dirs, dir: string, e: FileEntry)
    requires TreeShape(dirs) && ValidDirKey(dir)
    ensures var dirs' := AppendFile(dirs, dir, e);
      if dir == "" then TreeShape(dirs') else ShapeUpTo(dirs', Split(dir), 0)
  {
    hide DirOf, BaseOf, Join, ValidDirKey, ValidEntryName;
    JoinOfSplit(dir);
    var dirs' := AppendFile(dirs, dir, e);
    forall k | k in dirs' && k != ""
      ensures Listed(dirs', k) || k == dir
    {
      assert Listed(dirs, k) || k == dir;
    }
  }

  lemma AddFileKeeps(t: Tree, fm: map<string, FileEntry>, e: FileEntry)
    requires TreeInv(t, fm) && GoodOp(fm, File(e))
    ensures TreeInv(Apply(t, File(e)), Record(fm, File(e)))
  {
    hide LastSlash, EntryOK, ValidDirKey, TreeShape, FilesOK, IsFileMap, ShapeUpTo, AppendFile, EnsureFrom;
    var p := Normalize(e.name);
    var dir, entry := DirOf(p), e.(name := BaseOf(p));
    AppendFileTotals(t.dirs, dir, entry);
    AppendFileOK(t.dirs, fm, dir, entry);
    EntryNameHasNoSlash(entry);
    AppendFileMap(t.dirs, fm, dir, entry);
    AppendFileShape(t.dirs, dir, entry);
    var dirs', fm' := AppendFile(t.dirs, dir, entry), Record(fm, File(e));
    assert |fm'| == |fm| + 1;
    if dir != "" {
      EnsureFromShape(dirs', dir, 0);
      EnsureFromSameFiles(dirs', Split(dir), 0);
      SameFilesKeeps(dirs', EnsureParentDirs(dirs', dir), fm');
    }
  }

  lemma AddEmptyDirKeeps(t: Tree, fm: map<string, FileEntry>, relPath: string)
    requires TreeInv(t, fm) && GoodOp(fm, Empty(relPath))
    ensures TreeInv(Apply(t, Empty(relPath)), fm)
  {
    hide LastSlash, EntryOK, ValidDirKey, FilesOK, IsFileMap, EnsureFrom, TreeShape, ShapeUpTo, Total, AddChild;
    var p := Normalize(relPath);
    if p != "" && BaseOf(p) != "" {
      var dirs' := t.dirs[p := DirAt(t.dirs, p)];
      TotalUpdate(t.dirs, CountIn, p, DirAt(t.dirs, p));
      TotalUpdate(t.dirs, SizeIn, p, DirAt(t.dirs, p));
      SameFilesKeeps(t.dirs, dirs', fm);
      NewDirShape(t.dirs, p);
      EnsureFromShape(dirs', p, 0);
      EnsureFromSameFiles(dirs', Split(p), 0);
      SameFilesKeeps(dirs', EnsureParentDirs(dirs', p), fm);
      if DirOf(p) == "" {
        SingleSegment(dirs', p);
      }
    }
  }

  lemma NewDirShape(dirs: Dirs, p: string)
    requires TreeShape(dirs) && ValidDirKey(p)
    ensures ShapeUpTo(dirs[p := DirAt(dirs, p)], Split(p), 0)
  {
    hide DirOf, BaseOf, Join, ValidDirKey, ValidEntryName;
    JoinOfSplit(p);
    var dirs' := dirs[p := DirAt(dirs, p)];
    forall k | k in dirs' && k != ""
      ensures Listed(dirs', k) || k == p
    {
      assert Listed(dirs, k) || k == p;
    }
  }

  /** For a path of one segment the two branches of AddEmptyDir do the same. */
  lemma SingleSegment(dirs: Dirs, p: string)
    requires p != "" && ValidDirKey(p) && DirOf(p) == ""
    ensures BaseOf(p) == p && EnsureParentDirs(dirs, p) == AddChild(dirs, "", p)
  {
    hide AddChild, ValidSegment;
    assert p[0] != '/';
    assert LastSlash(p) < 0;
    var parts := Split(p);
    assert parts == [p] && parts[..0] == [];
    assert Join(parts[..0]) == "";
    var dirs' := AddChild(dirs, "", p);
    assert EnsureFrom(dirs, parts, 0) == EnsureFrom(dirs', parts, 1) == dirs';
  }

  /**
   Every sequence of AddFile and AddEmptyDir with proper, distinct paths keeps
   the tree well shaped, its totals exact, and its file map equal to the files
   added.
   */
  lemma {:induction false} BuildKeepsInv(ops: seq<Op>)
    requires GoodOps(ops)
    ensures TreeInv(Build(ops), Added(ops))
  {
    hide TreeInv, GoodOp, Apply, Record;
    if ops == [] {
      NewTreeInv();
    } else {
      var init, op := ops[..|ops| - 1], ops[|ops| - 1];
      forall i | 0 <= i < |init|
        ensures GoodOp(Added(init[..i]), init[i])
      {
        assert init[..i] == ops[..i];
      }
      BuildKeepsInv(init);
      match op
      case File(e) => AddFileKeeps(Build(init), Added(init), e);
      case Empty(p) => AddEmptyDirKeeps(Build(init), Added(init), p); RecordEmpty(Added(init), p);
    }
  }

  lemma RecordEmpty(fm: map<string, FileEntry>, p: string)
    ensures Record(fm, Empty(p)) == fm
  {
  }

  lemma NewTreeInv()
    ensures TreeInv(NewTree, map[])
  {
  }

  lemma SameFilesMap(dirs: Dirs, dirs': Dirs, fm: map<string, FileEntry>)
    requires SameFiles(dirs, dirs') && IsFileMap(dirs, fm)
    ensures IsFileMap(dirs', fm)
  {
    hide LastSlash, Total;
    forall p | p in fm
      ensures InTree(dirs', p)
    {
      assert InTree(dirs, p);
    }
  }

  /** The same for one operation, whatever the sizes and chunk lists of the entry are. */
  lemma ApplyKeepsMap(t: Tree, fm: map<string, FileEntry>, op: Op)
    requires IsFileMap(t.dirs, fm) && (op.File? ==> ManifestPath(op.entry.name) !in fm)
    ensures IsFileMap(Apply(t, op).dirs, Record(fm, op))
  {
    hide LastSlash, SameFiles, IsFileMap, AppendFile, EnsureFrom, AddChild;
    match op
    case File(e) =>
      var p := Normalize(e.name);
      var dir, entry := DirOf(p), e.(name := BaseOf(p));
      AppendFileMap(t.dirs, fm, dir, entry);
      var dirs' := AppendFile(t.dirs, dir, entry);
      EnsureFromSameFiles(dirs', Split(dir), 0);
      SameFilesMap(dirs', EnsureParentDirs(dirs', dir), Record(fm, op));
    case Empty(path) =>
      var p := Normalize(path);
      var dirs' := t.dirs[p := DirAt(t.dirs, p)];
      TouchSameFiles(t.dirs, p);
      SameFilesMap(t.dirs, dirs', fm);
      EnsureFromSameFiles(dirs', Split(p), 0);
      SameFilesMap(dirs', EnsureParentDirs(dirs', p), fm);
      AddChildSameFiles(dirs', "", BaseOf(p));
      SameFilesMap(dirs', AddChild(dirs', "", BaseOf(p)), fm);
  }

  lemma TouchSameFiles(dirs: Dirs, p: string)
    ensures SameFiles(dirs, dirs[p := DirAt(dirs, p)])
  {
    hide Total;
    TotalUpdate(dirs, CountIn, p, DirAt(dirs, p));
    TotalUpdate(dirs, SizeIn, p, DirAt(dirs, p));
  }

  // ----- Validation and lookups --------------------------------------------

  /** ValidateStructure: no separator or traversal, no duplicates, no dangling entry, exact stats. */
  ghost predicate ValidStructure(dirs: Dirs, fileCount: int, totalSize: int) {
    && (forall k :: k in dirs ==> ValidDirKey(k))
    && FilesOK(dirs)
    && (forall k, s {:trigger s in dirs[k].subDirs} :: k in dirs && s in dirs[k].subDirs ==>
          ValidEntryName(s) && JoinPath(k, s) in dirs)
    && fileCount == Total(dirs, CountIn)
    && totalSize == Total(dirs, SizeIn)
  }

  /** A name that is not one plain path segment. */
  ghost predicate BadName(name: string) {
    name == "" || name == "." || name == ".." || '/' in name || '\\' in name
  }

  ghost predicate BadKey(k: string) {
    && k != ""
    && (|| k[0] == '/' || '\\' in k
        || exists seg :: seg in Split(k) && (seg == "" || seg == "." || seg == ".." || ':' in seg))
  }

  ghost predicate BadEntry(e: FileEntry) {
    || BadName(e.name) || e.size < 0 || (exists ch :: ch in e.chunks && ch.size < 0)
    || (&& e.chunks != [] && e.contentHash != "" && e.status != "error" && e.status != "locked"
        && ChunkSum(e.chunks) != e.size)
  }

  /** What can be wrong with a directory of the tree: its key, an entry, a repeated name, a dangling subdirectory. */
  ghost predicate BadDir(dirs: Dirs, k: string)
    requires k in dirs
  {
    var d := dirs[k];
    || BadKey(k)
    || (exists i :: 0 <= i < |d.files| && BadEntry(d.files[i]))
    || (exists i, j :: 0 <= i < j < |d.files| && d.files[i].name == d.files[j].name)
    || (exists s :: s in d.subDirs && (BadName(s) || (if k == "" then s else k + "/" + s) !in dirs))
  }

  /** Validation rejects a structure exactly if a directory of it is bad or its totals are wrong. */
  lemma RejectedIff(dirs: Dirs, fileCount: int, totalSize: int)
    ensures !ValidStructure(dirs, fileCount, totalSize) <==>
      || (exists k :: k in dirs && BadDir(dirs, k))
      || fileCount != Total(dirs, CountIn) || totalSize != Total(dirs, SizeIn)
  {
    hide EntryOK, BadEntry, ValidDirKey, BadKey, ValidEntryName, BadName, Total;
    forall e: FileEntry ensures EntryOK(e) <==> !BadEntry(e) { EntryNotBad(e); }
    forall k ensures ValidDirKey(k) <==> !BadKey(k) { KeyNotBad(k); }
    forall n ensures ValidEntryName(n) <==> !BadName(n) { NameNotBad(n); }
  }

  lemma NameNotBad(name: string)
    ensures ValidEntryName(name) <==> !BadName(name)
  {
  }

  lemma KeyNotBad(k: string)
    ensures ValidDirKey(k) <==> !BadKey(k)
  {
    hide Split;
  }

  lemma EntryNotBad(e: FileEntry)
    ensures EntryOK(e) <==> !BadEntry(e)
  {
    hide ChunkSum, ValidEntryName, BadName;
    NameNotBad(e.name);
  }

  /** Files added to, lost from or resized in a directory of a valid manifest are noticed. */
  lemma ChangedDirRejected(dirs: Dirs, fileCount: int, totalSize: int, k: string, d: Dir)
    requires ValidStructure(dirs, fileCount, totalSize) && k in dirs
    requires |d.files| != |dirs[k].files| || FileSizes(d.files) != FileSizes(dirs[k].files)
    ensures !ValidStructure(dirs[k := d], fileCount, totalSize)
  {
    hide Total, FilesOK, ValidDirKey;
    TotalUpdate(dirs, CountIn, k, d);
    TotalUpdate(dirs, SizeIn, k, d);
  }

  /** So is the loss of a directory that its parent lists. */
  lemma LostDirRejected(dirs: Dirs, fileCount: int, totalSize: int, k: string, s: string, count: int, size: int)
    requires ValidStructure(dirs, fileCount, totalSize) && k in dirs && s in dirs[k].subDirs
    ensures !ValidStructure(dirs - {JoinPath(k, s)}, count, size)
  {
    hide Total, FilesOK, ValidDirKey;
    var rest := dirs - {JoinPath(k, s)};
    assert JoinPath(k, s) != k;
    assert k in rest && s in rest[k].subDirs && JoinPath(k, s) !in rest;
  }

  /** A leading slash makes no difference to either operation. */
  lemma LeadingSlashIgnored(t: Tree, e: FileEntry, p: string)
    requires (e.name == "" || e.name[0] != '/') && (p == "" || p[0] != '/')
    ensures Apply(t, File(e.(name := "/" + e.name))) == Apply(t, File(e))
    ensures Apply(t, Empty("/" + p)) == Apply(t, Empty(p))
    ensures ManifestPath("/" + e.name) == ManifestPath(e.name)
  {
    hide EnsureParentDirs, LastSlash, DirOf, BaseOf;
    assert ("/" + e.name)[1..] == e.name && ("/" + p)[1..] == p;
  }

  /** Whatever is built from proper operations passes validation, and lists every directory once. */
  lemma BuiltTreeIsValid(ops: seq<Op>)
    requires GoodOps(ops)
    ensures var t := Build(ops);
      && ValidStructure(t.dirs, t.fileCount, t.totalSize)
      && (forall k :: k in t.dirs && k != "" ==> Listed(t.dirs, k) && NoDups(t.dirs[DirOf(k)].subDirs))
      && IsFileMap(t.dirs, Added(ops))
      && t.fileCount == |Added(ops)|
  {
    hide LastSlash, EntryOK, ValidDirKey;
    BuildKeepsInv(ops);
  }

  function FindIn(files: seq<FileEntry>, name: string): (r: Option<FileEntry>)
    ensures r.Some? <==> exists i :: 0 <= i < |files| && files[i].name == name
    ensures r.Some? ==> r.value in files && r.value.name == name
  {
    if files == [] then None
    else if files[0].name == name then Some(files[0])
    else FindIn(files[1..], name)
  }

  function FindFile(dirs: Dirs, p: string): Option<FileEntry> {
    if DirOf(p) !in dirs then None
    else
      var found := FindIn(dirs[DirOf(p)].files, BaseOf(p));
      if found.None? then None
      else Some(found.value.(name := JoinPath(DirOf(p), found.value.name)))
  }

  lemma InTreeFound(dirs: Dirs, fm: map<string, FileEntry>, p: string)
    requires IsFileMap(dirs, fm) && p in fm
    ensures FindFile(dirs, p).Some? && JoinPath(DirOf(p), BaseOf(p)) == p
  {
    hide DirOf, BaseOf;
    assert InTree(dirs, p);
  }

  /** Whatever FindFile finds is in the map, under the path put together again. */
  lemma FoundInMap(dirs: Dirs, fm: map<string, FileEntry>, p: string)
    requires IsFileMap(dirs, fm) && FindFile(dirs, p).Some?
    ensures var q := JoinPath(DirOf(p), BaseOf(p)); q in fm && FindFile(dirs, p) == Some(fm[q])
  {
    hide DirOf, BaseOf;
    var files := dirs[DirOf(p)].files;
    var i :| 0 <= i < |files| && files[i] == FindIn(files, BaseOf(p)).value;
    assert Holds(fm, DirOf(p), files[i]);
  }

  /** FindFile is the file map, for every path that does not start with a slash. */
  lemma FindFileAgrees(dirs: Dirs, fm: map<string, FileEntry>, p: string)
    requires IsFileMap(dirs, fm) && (p != "" ==> p[0] != '/')
    ensures FindFile(dirs, p) == if p in fm then Some(fm[p]) else None
  {
    hide DirOf, BaseOf, JoinPath, IsFileMap, FindFile;
    JoinSplit(p);
    if p in fm { InTreeFound(dirs, fm, p); }
    if FindFile(dirs, p).Some? { FoundInMap(dirs, fm, p); }
  }

  /** With a leading slash and no other, FindFile looks among the files of the root. */
  lemma LeadingSlashFinds(dirs: Dirs, name: string)
    requires '/' !in name
    ensures FindFile(dirs, "/" + name) == FindFile(dirs, name)
  {
    hide DirOf, BaseOf, FindIn;
    RootNames(name);
  }

  /** The map of a tree with valid directory keys never holds a path with a leading slash. */
  lemma NoLeadingSlash(dirs: Dirs, fm: map<string, FileEntry>, p: string)
    requires IsFileMap(dirs, fm) && (forall k :: k in dirs ==> ValidDirKey(k)) && p in fm
    ensures p == "" || p[0] != '/'
  {
    hide LastSlash;
    assert InTree(dirs, p);
    assert ValidDirKey(DirOf(p));
  }

  /** A directory key that starts with a slash is not valid, so FindFile finds nothing below one. */
  lemma DeepSlashFindsNothing(dirs: Dirs, p: string)
    requires (forall k :: k in dirs ==> ValidDirKey(k)) && p != "" && p[0] == '/' && '/' in p[1..]
    ensures FindFile(dirs, p) == None
  {
    var i := LastSlash(p);
    var j :| 0 <= j < |p[1..]| && p[1..][j] == '/';
    assert p[1 + j] == '/' && i >= 1 + j;
    assert DirOf(p) == p[..i] && DirOf(p)[0] == '/';
  }

  /**
   For every path: FindFile agrees with the file map exactly unless the path is a
   slash in front of the name of a root file, which FindFile then finds.
   */
  lemma FindFileAgreesIff(dirs: Dirs, fm: map<string, FileEntry>, p: string)
    requires IsFileMap(dirs, fm) && forall k :: k in dirs ==> ValidDirKey(k)
    ensures FindFile(dirs, p) == (if p in fm then Some(fm[p]) else None)
       <==> !(p != "" && p[0] == '/' && '/' !in p[1..] && p[1..] in fm)
  {
    hide FindFile, IsFileMap, ValidDirKey;
    if p != "" && p[0] == '/' {
      if p in fm { NoLeadingSlash(dirs, fm, p); }
      if '/' in p[1..] {
        DeepSlashFindsNothing(dirs, p);
      } else {
        assert p == "/" + p[1..];
        LeadingSlashFinds(dirs, p[1..]);
        FindFileAgrees(dirs, fm, p[1..]);
      }
    } else {
      FindFileAgrees(dirs, fm, p);
    }
  }

  // ----- Counting ------------------------------------------------------------

  /** The paths of one directory's files. */
  function PathsIn(k: string, files: seq<FileEntry>): set<string> {
    set i | 0 <= i < |files| :: JoinPath(k, files[i].name)
  }

  lemma {:induction false} PathsInCount(k: string, files: seq<FileEntry>)
    requires forall i :: 0 <= i < |files| ==> '/' !in files[i].name
    requires forall i, j :: 0 <= i < j < |files| ==> files[i].name != files[j].name
    ensures |PathsIn(k, files)| == |files|
  {
    hide JoinPath;
    if files != [] {
      var n := |files| - 1;
      var init, last := files[..n], JoinPath(k, files[n].name);
      PathsInCount(k, init);
      assert PathsIn(k, files) == PathsIn(k, init) + {last};
      if last in PathsIn(k, init) {
        var i :| 0 <= i < |init| && JoinPath(k, init[i].name) == last;
        SplitJoined(k, init[i].name);
        SplitJoined(k, files[n].name);
      }
    }
  }

  lemma InOwnDir(dirs: Dirs, p: string)
    requires InTree(dirs, p)
    ensures p in PathsIn(DirOf(p), dirs[DirOf(p)].files)
  {
    hide DirOf, BaseOf, JoinPath;
    var i :| 0 <= i < |dirs[DirOf(p)].files| && dirs[DirOf(p)].files[i].name == BaseOf(p);
  }

  /** Taking one directory out of the tree takes exactly its paths out of the map. */
  lemma MapWithout(dirs: Dirs, fm: map<string, FileEntry>, k: string)
    requires FilesOK(dirs) && IsFileMap(dirs, fm) && k in dirs
    ensures PathsIn(k, dirs[k].files) <= fm.Keys && FilesOK(dirs - {k})
    ensures IsFileMap(dirs - {k}, fm - PathsIn(k, dirs[k].files))
  {
    hide DirOf, BaseOf, EntryOK, JoinPath;
    var gone, dirs' := PathsIn(k, dirs[k].files), dirs - {k};
    var fm' := fm - gone;
    forall p | p in gone ensures p in fm && DirOf(p) == k {
      var i :| 0 <= i < |dirs[k].files| && p == JoinPath(k, dirs[k].files[i].name);
      EntryNameHasNoSlash(dirs[k].files[i]);
      SplitJoined(k, dirs[k].files[i].name);
      assert Holds(fm, k, dirs[k].files[i]);
    }
    forall d, i | d in dirs' && 0 <= i < |dirs'[d].files| ensures Holds(fm', d, dirs'[d].files[i]) {
      assert Holds(fm, d, dirs[d].files[i]);
      EntryNameHasNoSlash(dirs[d].files[i]);
      SplitJoined(d, dirs[d].files[i].name);
    }
    forall p | p in fm' ensures InTree(dirs', p) {
      assert InTree(dirs, p);
      InOwnDir(dirs, p);
      var i :| 0 <= i < |dirs[DirOf(p)].files| && dirs[DirOf(p)].files[i].name == BaseOf(p);
      assert dirs'[DirOf(p)].files[i].name == BaseOf(p);
    }
  }

  /** The file count of a valid tree is the size of its file map. */
  lemma {:induction false} MapCount(dirs: Dirs, fm: map<string, FileEntry>)
    requires FilesOK(dirs) && IsFileMap(dirs, fm)
    ensures |fm| == Total(dirs, CountIn)
    decreases |dirs|
  {
    hide IsFileMap, PathsIn, EntryOK;
    if |dirs| == 0 {
      NoDirsNoFiles(dirs, fm);
    } else {
      var k := Pick(dirs);
      var gone := PathsIn(k, dirs[k].files);
      MapWithout(dirs, fm, k);
      forall i | 0 <= i < |dirs[k].files| ensures '/' !in dirs[k].files[i].name {
        EntryNameHasNoSlash(dirs[k].files[i]);
      }
      PathsInCount(k, dirs[k].files);
      MapCount(dirs - {k}, fm - gone);
      assert |fm| == |fm - gone| + |gone| by {
        assert fm.Keys == (fm - gone).Keys + gone && (fm - gone).Keys !! gone;
      }
    }
  }

  lemma NoDirsNoFiles(dirs: Dirs, fm: map<string, FileEntry>)
    requires |dirs| == 0 && IsFileMap(dirs, fm)
    ensures fm == map[]
  {
    assert dirs == map[];
    assert forall p :: p in fm ==> InTree(dirs, p);
  }

  lemma {:induction false} NamesCount(files: seq<FileEntry>)
    requires forall i, j :: 0 <= i < j < |files| ==> files[i].name != files[j].name
    ensures |set i | 0 <= i < |files| :: files[i].name| == |files|
  {
    if files != [] {
      var n := |files| - 1;
      NamesCount(files[..n]);
      assert (set i | 0 <= i < |files| :: files[i].name)
          == (set i | 0 <= i < n :: files[..n][i].name) + {files[n].name};
    }
  }

  /** A listing has as many entries as the tree has files. */
  lemma ListingCount(dirs: Dirs, fm: map<string, FileEntry>, files: seq<FileEntry>)
    requires FilesOK(dirs) && IsFileMap(dirs, fm) && IsListing(fm, files) && forall p :: p in fm ==> fm[p].name == p
    ensures |files| == Total(dirs, CountIn)
  {
    hide FilesOK, IsFileMap, Total;
    MapCount(dirs, fm);
    NamesCount(files);
    assert fm.Keys == set i | 0 <= i < |files| :: files[i].name;
  }

  // ----- Completeness ------------------------------------------------------

  /** A snapshot is complete when nothing failed to scan, was locked, or failed. */
  ghost predicate Complete(dirs: Dirs, scanErrors: int) {
    && scanErrors <= 0
    && forall k, i :: k in dirs && 0 <= i < |dirs[k].files| ==>
         !Missed(dirs[k].files[i].status)
  }

  /** On a file map, completeness is a condition on the entries alone. */
  lemma CompleteByMap(dirs: Dirs, fm: map<string, FileEntry>, scanErrors: int)
    requires IsFileMap(dirs, fm)
    ensures Complete(dirs, scanErrors) <==>
      scanErrors <= 0 && forall p :: p in fm ==> !Missed(fm[p].status)
  {
    hide LastSlash, EntryOK;
    if Complete(dirs, scanErrors) {
      forall p | p in fm
        ensures !Missed(fm[p].status)
      {
        assert InTree(dirs, p);
        var i :| 0 <= i < |dirs[DirOf(p)].files| && dirs[DirOf(p)].files[i].name == BaseOf(p);
        assert Holds(fm, DirOf(p), dirs[DirOf(p)].files[i]);
      }
    }
    if scanErrors <= 0 && forall p :: p in fm ==> !Missed(fm[p].status) {
      forall k, i | k in dirs && 0 <= i < |dirs[k].files|
        ensures !Missed(dirs[k].files[i].status)
      {
        assert Holds(fm, k, dirs[k].files[i]);
      }
    }
  }
}
