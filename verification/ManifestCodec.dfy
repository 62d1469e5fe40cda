/**
 The on-disk form of a manifest: JSON, zstd, the GKM1 encryption layer and the
 GBR1 checksum envelope; the sniffing loader; migration of version 1 files; and
 the two collectors of alive hashes.
 */
module ManifestCodec {
  import opened ByteSeqs
  import opened Primitives
  import opened BlobFormat
  import opened BlobCodec
  import opened Paths
  import opened ManifestTypes
  import opened ManifestTree

  const MagicGBR1: Bytes := [0x47, 0x42, 0x52, 0x31]
  const EnvelopeHeaderSize: nat := 36

  datatype V1File = V1File(path: string, contentHash: string, size: int, mtime: string, mode: int, status: string,
                           chunks: seq<ChunkRef>)

  /** A parsed JSON document: the fields of a manifest and the flat fields of a version 1 file. */
  datatype Doc = Doc(manifest: Manifest, files: seq<V1File>, emptyDirs: seq<string>)

  datatype Json = Json(marshal: Manifest -> Bytes, unmarshal: Bytes -> Option<Doc>)

  /** Marshalling gives a JSON object that parses back to this manifest, with no version 1 fields. */
  predicate JsonFaithful(j: Json, m: Manifest) {
    && j.unmarshal(j.marshal(m)) == Some(Doc(m, [], []))
    && j.marshal(m) != [] && j.marshal(m)[0] == 0x7b
  }

  // ----- Layers ------------------------------------------------------------

  function EncryptManifest(c: Primitives, key: Bytes, iv: IV, plaintext: Bytes): Bytes {
    MagicGKM1 + iv + c.seal(c.deriveKey(key), iv, plaintext)
  }

  /** The derived key first, then the raw key that older manifests used. */
  function DecryptManifest(c: Primitives, key: Bytes, data: Bytes): Option<Bytes> {
    if !HasPrefix(data, MagicGKM1) then None
    else
      var derived := DecryptSmall(c, c.deriveKey(key), data[MagicSize..]);
      if derived.Some? then derived else DecryptSmall(c, key, data[MagicSize..])
  }

  function Envelope(c: Primitives, payload: Bytes): Bytes {
    MagicGBR1 + c.digest(payload) + payload
  }

  predicate IsEnvelope(data: Bytes) {
    |data| >= EnvelopeHeaderSize && data[..MagicSize] == MagicGBR1
  }

  function StripEnvelope(c: Primitives, data: Bytes): Option<Bytes>
    requires IsEnvelope(data)
  {
    var payload := data[EnvelopeHeaderSize..];
    if data[MagicSize..EnvelopeHeaderSize] == c.digest(payload) then Some(payload) else None
  }

  /** The bytes SaveManifestWithKey stages. */
  function Encode(c: Primitives, j: Json, m: Manifest, key: Bytes, iv: IV): Bytes {
    var compressed := c.compress(j.marshal(m));
    Envelope(c, if key == [] then compressed else EncryptManifest(c, key, iv, compressed))
  }

  /** Envelope, then encryption, then compression, each only if its magic is there. */
  function Unwrap(c: Primitives, hook: Option<Bytes -> Option<Bytes>>, data: Bytes): Option<Bytes> {
    var payload := if IsEnvelope(data) then StripEnvelope(c, data) else Some(data);
    if payload.None? then None else UnwrapPayload(c, hook, payload.value)
  }

  function UnwrapPayload(c: Primitives, hook: Option<Bytes -> Option<Bytes>>, payload: Bytes): Option<Bytes> {
    if HasPrefix(payload, MagicGKM1) then
      if hook.None? then None
      else
        var unsealed := hook.value(payload);
        if unsealed.None? then None else InflateManifest(c, unsealed.value)
    else InflateManifest(c, payload)
  }

  function InflateManifest(c: Primitives, data: Bytes): Option<Bytes> {
    if IsZstd(data) then c.decompress(data, MaxManifestDecompressedSize) else Some(data)
  }

  /** LoadManifestFromData. */
  ghost function Load(c: Primitives, j: Json, hook: Option<Bytes -> Option<Bytes>>, data: Bytes): Option<Manifest> {
    var text := Unwrap(c, hook, data);
    if text.None? then None else Parse(j, text.value)
  }

  ghost function Parse(j: Json, text: Bytes): Option<Manifest> {
    var doc := j.unmarshal(text);
    if doc.None? then None
    else
      var m := if doc.value.manifest.header.version < 2 then Migrate(doc.value) else doc.value.manifest;
      if ValidStructure(m.dirs, m.stats.fileCount, m.stats.totalSize) then Some(m) else None
  }

  /** The hook an application registers for a repository key. */
  function KeyHook(c: Primitives, key: Bytes): Option<Bytes -> Option<Bytes>> {
    Some((data: Bytes) => DecryptManifest(c, key, data))
  }

  lemma LayersDistinct(data: Bytes)
    ensures IsZstd(data) ==> !HasPrefix(data, MagicGKM1) && !IsEnvelope(data)
    ensures HasPrefix(data, MagicGKM1) ==> !IsZstd(data) && !IsEnvelope(data)
    ensures data != [] && data[0] == 0x7b ==> !IsZstd(data) && !HasPrefix(data, MagicGKM1) && !IsEnvelope(data)
  {
    if |data| >= 4 {
      assert data[..4][0] == data[0] && data[..4][1] == data[1];
      assert ZstdMagic[0] == 0x28 && MagicGKM1[0] == 0x47 && MagicGKM1[1] == 0x4b && MagicGBR1[1] == 0x42;
    }
  }

  lemma EnvelopeStrips(c: Primitives, payload: Bytes)
    ensures IsEnvelope(Envelope(c, payload)) && StripEnvelope(c, Envelope(c, payload)) == Some(payload)
  {
    var e := Envelope(c, payload);
    assert e[..4] == MagicGBR1 && e[4..36] == c.digest(payload) && e[36..] == payload;
  }

  lemma GKM1Layout(magic: Bytes, iv: IV, sealed: Bytes)
    requires |magic| == MagicSize
    ensures var data := magic + iv + sealed;
      data[..4] == magic && data[4..][..IVSize] == iv && data[4..][IVSize..] == sealed
  {
  }

  /** The current encryption layer is undone by the loader's decryption. */
  lemma DecryptManifestRoundTrip(c: Primitives, key: Bytes, iv: IV, plaintext: Bytes)
    ensures DecryptManifest(c, key, EncryptManifest(c, key, iv, plaintext)) == Some(plaintext)
  {
    GKM1Layout(MagicGKM1, iv, c.seal(c.deriveKey(key), iv, plaintext));
  }

  /** A manifest sealed under the raw key still loads, exactly unless the derived key opens it to something else. */
  lemma LegacyManifestRoundTripIff(c: Primitives, key: Bytes, iv: IV, plaintext: Bytes)
    requires ValidKey(key)
    ensures var sealed := c.seal(key, iv, plaintext);
      var accidental := c.open(c.deriveKey(key), iv, sealed);
      (DecryptManifest(c, key, MagicGKM1 + iv + sealed) == Some(plaintext)
       <==> accidental == None || accidental == Some(plaintext))
  {
    GKM1Layout(MagicGKM1, iv, c.seal(key, iv, plaintext));
  }

  /** A raw-key payload whose bytes the derived key does not open to anything else. */
  ghost predicate OpensAsLegacy(c: Primitives, key: Bytes, iv: IV, plaintext: Bytes) {
    var accidental := c.open(c.deriveKey(key), iv, c.seal(key, iv, plaintext));
    accidental == None || accidental == Some(plaintext)
  }

  /**
   Manifests sealed under the raw key load, bare and in an envelope, within the
   decompression cap and absent accidental authentication under the derived key.
   */
  lemma LegacyManifestsLoad(c: Primitives, j: Json, m: Manifest, key: Bytes, iv: IV)
    requires JsonFaithful(j, m) && m.header.version >= 2 && ValidKey(key)
    requires ValidStructure(m.dirs, m.stats.fileCount, m.stats.totalSize)
    requires OpensAsLegacy(c, key, iv, c.compress(j.marshal(m)))
    ensures var payload := MagicGKM1 + iv + c.seal(key, iv, c.compress(j.marshal(m)));
      var loaded := if |j.marshal(m)| <= 256 * 1024 * 1024 then Some(m) else None;
      Load(c, j, KeyHook(c, key), payload) == loaded && Load(c, j, KeyHook(c, key), Envelope(c, payload)) == loaded
  {
    hide ValidStructure, DecryptManifest, JsonFaithful;
    var compressed := c.compress(j.marshal(m));
    var payload := MagicGKM1 + iv + c.seal(key, iv, compressed);
    GKM1Layout(MagicGKM1, iv, c.seal(key, iv, compressed));
    LegacyManifestRoundTripIff(c, key, iv, compressed);
    LayersDistinct(payload);
    LayersDistinct(compressed);
    EnvelopeStrips(c, payload);
    ParsesBack(j, m);
  }

  lemma ParsesBack(j: Json, m: Manifest)
    requires JsonFaithful(j, m) && m.header.version >= 2
    requires ValidStructure(m.dirs, m.stats.fileCount, m.stats.totalSize)
    ensures Parse(j, j.marshal(m)) == Some(m)
  {
    hide ValidStructure;
  }

  /**
   Loading inverts saving, with a key (through its hook) or without one (through
   any hook), exactly for manifests whose JSON is within the decompression cap.
   */
  lemma SaveLoadIff(c: Primitives, j: Json, m: Manifest, key: Bytes, iv: IV, hook: Option<Bytes -> Option<Bytes>>)
    requires JsonFaithful(j, m) && m.header.version >= 2
    requires ValidStructure(m.dirs, m.stats.fileCount, m.stats.totalSize)
    requires key != [] ==> hook == KeyHook(c, key)
    ensures Load(c, j, hook, Encode(c, j, m, key, iv))
         == if |j.marshal(m)| <= 256 * 1024 * 1024 then Some(m) else None
  {
    hide ValidStructure, DecryptManifest, EncryptManifest;
    var text := j.marshal(m);
    var compressed := c.compress(text);
    LayersDistinct(compressed);
    if key == [] {
      EnvelopeStrips(c, compressed);
    } else {
      var sealed := EncryptManifest(c, key, iv, compressed);
      EnvelopeStrips(c, sealed);
      DecryptManifestRoundTrip(c, key, iv, compressed);
      GKM1Prefix(c, key, iv, compressed);
    }
  }

  lemma GKM1Prefix(c: Primitives, key: Bytes, iv: IV, plaintext: Bytes)
    ensures HasPrefix(EncryptManifest(c, key, iv, plaintext), MagicGKM1)
  {
    GKM1Layout(MagicGKM1, iv, c.seal(c.deriveKey(key), iv, plaintext));
  }

  /** Payloads without an envelope load too: plain JSON, and bare zstd within the cap. */
  lemma BarePayloadsLoad(c: Primitives, j: Json, m: Manifest, hook: Option<Bytes -> Option<Bytes>>)
    requires JsonFaithful(j, m) && m.header.version >= 2
    requires ValidStructure(m.dirs, m.stats.fileCount, m.stats.totalSize)
    ensures Load(c, j, hook, j.marshal(m)) == Some(m)
    ensures |j.marshal(m)| <= 256 * 1024 * 1024 ==> Load(c, j, hook, c.compress(j.marshal(m))) == Some(m)
  {
    hide ValidStructure;
    LayersDistinct(j.marshal(m));
    LayersDistinct(c.compress(j.marshal(m)));
  }

  /** Whatever the bytes, a manifest that loads is valid and of version 2 or later. */
  lemma LoadedIsValid(c: Primitives, j: Json, hook: Option<Bytes -> Option<Bytes>>, data: Bytes)
    requires Load(c, j, hook, data).Some?
    ensures var m := Load(c, j, hook, data).value;
      m.header.version >= 2 && ValidStructure(m.dirs, m.stats.fileCount, m.stats.totalSize)
  {
    hide ValidStructure, Unwrap, Build;
  }

  /** A manifest saved with a key does not load without one. */
  lemma SealedNeedsKey(c: Primitives, j: Json, m: Manifest, key: Bytes, iv: IV)
    requires key != []
    ensures Load(c, j, None, Encode(c, j, m, key, iv)) == None
  {
    hide ValidStructure;
    var sealed := EncryptManifest(c, key, iv, c.compress(j.marshal(m)));
    GKM1Layout(MagicGKM1, iv, c.seal(c.deriveKey(key), iv, c.compress(j.marshal(m))));
    EnvelopeStrips(c, sealed);
  }

  /** What is saved carries the checksum of its payload, with a key or without, and says nothing else. */
  lemma SavedIsChecksummed(c: Primitives, j: Json, m: Manifest, key: Bytes, iv: IV)
    ensures var data := Encode(c, j, m, key, iv);
      && |data| >= 36 && data[..4] == [0x47, 0x42, 0x52, 0x31] && data[4..36] == c.digest(data[36..])
      && data[36..] ==
           if key == [] then c.compress(j.marshal(m)) else EncryptManifest(c, key, iv, c.compress(j.marshal(m)))
  {
    var payload := Encode(c, j, m, key, iv)[36..];
    EnvelopeStrips(c, payload);
  }

  /** Any other payload under the same envelope header is rejected, unless it collides under SHA-256. */
  lemma TamperedPayloadRejected(c: Primitives, j: Json, hook: Option<Bytes -> Option<Bytes>>, payload: Bytes,
                                payload': Bytes)
    requires c.digest(payload) != c.digest(payload')
    ensures Load(c, j, hook, MagicGBR1 + c.digest(payload) + payload') == None
  {
    var data := MagicGBR1 + c.digest(payload) + payload';
    assert data[..4] == MagicGBR1 && data[4..36] == c.digest(payload) && data[36..] == payload';
  }

  // ----- Version 1 ---------------------------------------------------------

  function V1Entry(f: V1File): FileEntry {
    FileEntry(f.path, f.contentHash, f.size, f.mtime, f.mode, f.status, f.chunks)
  }

  function V1Files(files: seq<V1File>): seq<Op> {
    seq(|files|, i requires 0 <= i < |files| => File(V1Entry(files[i])))
  }

  function V1Dirs(dirs: seq<string>): seq<Op> {
    seq(|dirs|, i requires 0 <= i < |dirs| => Empty(dirs[i]))
  }

  /** migrateV1Manifest: the tree is rebuilt from the flat lists, the stats from the tree. */
  function Migrate(doc: Doc): Manifest {
    var t := Build(V1Files(doc.files) + V1Dirs(doc.emptyDirs));
    Manifest(doc.manifest.header.(version := 2), t.dirs,
             ZeroStats.(fileCount := t.fileCount, totalSize := t.totalSize), doc.manifest.completeness)
  }

  function V1Sizes(files: seq<V1File>): int {
    if files == [] then 0 else V1Sizes(files[..|files| - 1]) + files[|files| - 1].size
  }

  lemma {:induction false} BuildFileStats(files: seq<V1File>)
    ensures Build(V1Files(files)).fileCount == |files| && Build(V1Files(files)).totalSize == V1Sizes(files)
  {
    hide AddFileTo;
    if files != [] {
      var init := files[..|files| - 1];
      BuildFileStats(init);
      assert V1Files(files)[..|files| - 1] == V1Files(init);
    }
  }

  lemma {:induction false} BuildDirStats(ops: seq<Op>, dirs: seq<string>)
    ensures var t, t' := Build(ops), Build(ops + V1Dirs(dirs));
      t'.fileCount == t.fileCount && t'.totalSize == t.totalSize
  {
    hide AddFileTo, AddEmptyDirTo;
    if dirs == [] {
      assert ops + V1Dirs(dirs) == ops;
    } else {
      var init := dirs[..|dirs| - 1];
      BuildDirStats(ops, init);
      var all := ops + V1Dirs(dirs);
      assert all[..|all| - 1] == ops + V1Dirs(init);
    }
  }

  /** No two files are added under the same path. */
  ghost predicate DistinctFiles(ops: seq<Op>) {
    forall i :: 0 <= i < |ops| && ops[i].File? ==> ManifestPath(ops[i].entry.name) !in Added(ops[..i])
  }

  lemma {:induction false} BuildFollowsMap(ops: seq<Op>)
    requires DistinctFiles(ops)
    ensures IsFileMap(Build(ops).dirs, Added(ops))
  {
    hide IsFileMap, Apply, Record, ManifestPath;
    if ops == [] {
      NewTreeInv();
    } else {
      var init, op := ops[..|ops| - 1], ops[|ops| - 1];
      forall i | 0 <= i < |init| && init[i].File? ensures ManifestPath(init[i].entry.name) !in Added(init[..i]) {
        assert init[..i] == ops[..i] && init[i] == ops[i];
      }
      BuildFollowsMap(init);
      ApplyKeepsMap(Build(init), Added(init), op);
    }
  }

  lemma {:induction false} AddedKeeps(ops: seq<Op>, i: nat)
    requires DistinctFiles(ops) && i < |ops| && ops[i].File?
    ensures var p := ManifestPath(ops[i].entry.name);
      p in Added(ops) && Added(ops)[p] == ops[i].entry.(name := p)
    decreases |ops|
  {
    hide ManifestPath;
    var init := ops[..|ops| - 1];
    if i < |init| {
      forall j | 0 <= j < |init| && init[j].File? ensures ManifestPath(init[j].entry.name) !in Added(init[..j]) {
        assert init[..j] == ops[..j] && init[j] == ops[j];
      }
      assert init[i] == ops[i];
      AddedKeeps(init, i);
      if ops[|init|].File? { assert ManifestPath(ops[|init|].entry.name) !in Added(ops[..|init|]); }
    }
  }

  /** An entry of the file map is this file of a version 1 document. */
  predicate KeepsFile(fm: map<string, FileEntry>, f: V1File) {
    var p := ManifestPath(f.path);
    && p in fm && fm[p].contentHash == f.contentHash && fm[p].size == f.size && fm[p].mtime == f.mtime
    && fm[p].mode == f.mode && fm[p].status == f.status && fm[p].chunks == f.chunks
  }

  lemma MigratedFiles(doc: Doc)
    requires DistinctFiles(V1Files(doc.files) + V1Dirs(doc.emptyDirs))
    ensures forall i :: 0 <= i < |doc.files| ==>
      KeepsFile(Added(V1Files(doc.files) + V1Dirs(doc.emptyDirs)), doc.files[i])
  {
    hide ManifestPath, DistinctFiles, Added;
    var ops := V1Files(doc.files) + V1Dirs(doc.emptyDirs);
    forall i | 0 <= i < |doc.files| ensures KeepsFile(Added(ops), doc.files[i]) {
      assert ops[i] == File(V1Entry(doc.files[i]));
      AddedKeeps(ops, i);
    }
  }

  /**
   Migration recounts the stats from the files for every document and keeps the header;
   it keeps every file, with all its fields, under its path when no path occurs twice, and gives a valid structure when
   the paths and entries are proper.
   */
  lemma MigrationPreserves(doc: Doc)
    ensures var m, ops := Migrate(doc), V1Files(doc.files) + V1Dirs(doc.emptyDirs);
      && m.stats.fileCount == |doc.files| && m.stats.totalSize == V1Sizes(doc.files) && m.header.version == 2
      && m.header.(version := doc.manifest.header.version) == doc.manifest.header
      && m.completeness == doc.manifest.completeness
      && (DistinctFiles(ops) ==>
            IsFileMap(m.dirs, Added(ops)) && forall i :: 0 <= i < |doc.files| ==> KeepsFile(Added(ops), doc.files[i]))
      && (GoodOps(ops) ==>
            && IsFileMap(m.dirs, Added(ops)) && |Added(ops)| == |doc.files|
            && ValidStructure(m.dirs, m.stats.fileCount, m.stats.totalSize))
  {
    hide ValidStructure, IsFileMap, GoodOps, Build, DistinctFiles, Added, KeepsFile;
    var ops := V1Files(doc.files) + V1Dirs(doc.emptyDirs);
    BuildFileStats(doc.files);
    BuildDirStats(V1Files(doc.files), doc.emptyDirs);
    if DistinctFiles(ops) {
      BuildFollowsMap(ops);
      MigratedFiles(doc);
    }
    if GoodOps(ops) { BuiltTreeIsValid(ops); }
  }

  // ----- Alive hashes ------------------------------------------------------

  /** The hashes an entry keeps alive: its chunks, or its content when it has none. */
  function EntryAlive(contentHash: string, chunks: seq<ChunkRef>): set<string> {
    if chunks != [] then set i | 0 <= i < |chunks| :: chunks[i].hash
    else if contentHash != "" then {contentHash} else {}
  }

  function FilesAlive(files: seq<FileEntry>): set<string> {
    set i, h | 0 <= i < |files| && h in EntryAlive(files[i].contentHash, files[i].chunks) :: h
  }

  /** CollectAliveHashes over one loaded manifest. */
  function Alive(dirs: Dirs): set<string> {
    set k, h | k in dirs && h in FilesAlive(dirs[k].files) :: h
  }

  /** The same over some of its directories. */
  function AliveIn(dirs: Dirs, seen: set<string>): set<string> {
    set k, h | k in dirs && k in seen && h in FilesAlive(dirs[k].files) :: h
  }

  function FlatAlive(files: seq<V1File>): set<string> {
    set i, h | 0 <= i < |files| && h in EntryAlive(files[i].contentHash, files[i].chunks) :: h
  }

  /** extractHashesFromJSON: both the tree and the flat list, empty hashes dropped. */
  function StreamedAlive(doc: Doc): set<string> {
    (Alive(doc.manifest.dirs) + FlatAlive(doc.files)) - {""}
  }

  /** What collecting from the loaded manifest gives. */
  function LoadedAlive(doc: Doc): set<string> {
    Alive(if doc.manifest.header.version < 2 then Migrate(doc).dirs else doc.manifest.dirs)
  }

  lemma SameFilesAlive(dirs: Dirs, dirs': Dirs)
    requires SameFiles(dirs, dirs')
    ensures Alive(dirs') == Alive(dirs)
  {
    hide Total;
  }

  lemma AppendFileAlive(dirs: Dirs, dir: string, e: FileEntry)
    ensures Alive(AppendFile(dirs, dir, e)) == Alive(dirs) + EntryAlive(e.contentHash, e.chunks)
  {
    hide EntryAlive;
    var d := DirAt(dirs, dir);
    FilesAliveAppend(d.files, e);
    var dirs' := AppendFile(dirs, dir, e);
    assert dirs'[dir].files == d.files + [e];
    forall h | h in Alive(dirs) + EntryAlive(e.contentHash, e.chunks)
      ensures h in Alive(dirs')
    {
      if h in Alive(dirs) {
        var k :| k in dirs && h in FilesAlive(dirs[k].files);
        assert h in FilesAlive(dirs'[k].files);
      } else {
        assert h in FilesAlive(dirs'[dir].files);
      }
    }
  }

  lemma FilesAliveAppend(files: seq<FileEntry>, e: FileEntry)
    ensures FilesAlive(files + [e]) == FilesAlive(files) + EntryAlive(e.contentHash, e.chunks)
  {
    hide EntryAlive;
    var all := files + [e];
    forall h | h in FilesAlive(files) + EntryAlive(e.contentHash, e.chunks)
      ensures h in FilesAlive(all)
    {
      if h in FilesAlive(files) {
        var i :| 0 <= i < |files| && h in EntryAlive(files[i].contentHash, files[i].chunks);
        assert all[i] == files[i];
      } else {
        assert all[|files|] == e;
      }
    }
  }

  lemma OpAlive(t: Tree, op: Op)
    ensures Alive(Apply(t, op).dirs)
         == Alive(t.dirs) + if op.File? then EntryAlive(op.entry.contentHash, op.entry.chunks) else {}
  {
    hide Alive, EnsureFrom, LastSlash, SameFiles, EntryAlive, AppendFile;
    match op
    case File(e) =>
      var p := Normalize(e.name);
      var dirs' := AppendFile(t.dirs, DirOf(p), e.(name := BaseOf(p)));
      AppendFileAlive(t.dirs, DirOf(p), e.(name := BaseOf(p)));
      EnsureFromSameFiles(dirs', Split(DirOf(p)), 0);
      if DirOf(p) != "" {
        SameFilesAlive(dirs', EnsureParentDirs(dirs', DirOf(p)));
      }
    case Empty(path) =>
      var p := Normalize(path);
      var dirs' := t.dirs[p := DirAt(t.dirs, p)];
      TouchSameFiles(t.dirs, p);
      SameFilesAlive(t.dirs, dirs');
      EnsureFromSameFiles(dirs', Split(p), 0);
      SameFilesAlive(dirs', EnsureParentDirs(dirs', p));
      AddChildSameFiles(dirs', "", BaseOf(p));
      SameFilesAlive(dirs', AddChild(dirs', "", BaseOf(p)));
  }

  lemma {:induction false} BuildFilesAlive(files: seq<V1File>)
    ensures Alive(Build(V1Files(files)).dirs) == FlatAlive(files)
  {
    hide Alive, Apply, EntryAlive;
    if files == [] {
      NothingAlive();
    } else {
      var init, last := files[..|files| - 1], files[|files| - 1];
      BuildFilesAlive(init);
      assert V1Files(files)[..|files| - 1] == V1Files(init);
      OpAlive(Build(V1Files(init)), File(V1Entry(last)));
      FlatAliveAppend(init, last);
      assert files == init + [last];
    }
  }

  lemma NothingAlive()
    ensures Alive(NewTree.dirs) == {}
  {
  }

  lemma FlatAliveAppend(files: seq<V1File>, f: V1File)
    ensures FlatAlive(files + [f]) == FlatAlive(files) + EntryAlive(f.contentHash, f.chunks)
  {
    hide EntryAlive;
    var all := files + [f];
    forall h | h in FlatAlive(files) + EntryAlive(f.contentHash, f.chunks)
      ensures h in FlatAlive(all)
    {
      if h in FlatAlive(files) {
        var i :| 0 <= i < |files| && h in EntryAlive(files[i].contentHash, files[i].chunks);
        assert all[i] == files[i];
      } else {
        assert all[|files|] == f;
      }
    }
  }

  lemma {:induction false} BuildDirsAlive(ops: seq<Op>, dirs: seq<string>)
    ensures Alive(Build(ops + V1Dirs(dirs)).dirs) == Alive(Build(ops).dirs)
  {
    hide Alive, Apply;
    if dirs == [] {
      assert ops + V1Dirs(dirs) == ops;
    } else {
      var init := dirs[..|dirs| - 1];
      BuildDirsAlive(ops, init);
      var all := ops + V1Dirs(dirs);
      assert all[..|all| - 1] == ops + V1Dirs(init);
      OpAlive(Build(ops + V1Dirs(init)), Empty(dirs[|dirs| - 1]));
    }
  }

  /**
   Streaming extraction covers every non-empty hash of the loaded manifest, for
   every document; the two agree on tree-form version 2 files and on flat
   version 1 files.
   */
  lemma StreamedCoversLoaded(doc: Doc)
    ensures LoadedAlive(doc) - {""} <= StreamedAlive(doc)
    ensures doc.manifest.header.version >= 2 && doc.files == [] ==> StreamedAlive(doc) == LoadedAlive(doc) - {""}
    ensures doc.manifest.header.version < 2 && doc.manifest.dirs == map[] ==>
        StreamedAlive(doc) == LoadedAlive(doc) - {""}
  {
    hide Build;
    BuildFilesAlive(doc.files);
    BuildDirsAlive(V1Files(doc.files), doc.emptyDirs);
  }

  // ----- The collectors as they run ----------------------------------------

  /** extractHashesFromJSON's two passes over the parsed document. */
  method ExtractHashes(doc: Doc) returns (hashes: seq<string>)
    ensures (set h | h in hashes) == StreamedAlive(doc)
  {
    hide FilesAlive, FlatAlive;
    hashes := [];
    var rest := doc.manifest.dirs.Keys;
    while rest != {}
      invariant rest <= doc.manifest.dirs.Keys
      invariant (set h | h in hashes) == AliveIn(doc.manifest.dirs, doc.manifest.dirs.Keys - rest) - {""}
    {
      var k :| k in rest;
      var more := HashesOfFiles(doc.manifest.dirs[k].files);
      assert (set h | h in hashes + more) == (set h | h in hashes) + (set h | h in more);
      hashes := hashes + more;
      rest := rest - {k};
    }
    var flat := HashesOfFlat(doc.files);
    assert (set h | h in hashes + flat) == (set h | h in hashes) + (set h | h in flat);
    hashes := hashes + flat;
  }

  method HashesOfFiles(files: seq<FileEntry>) returns (hashes: seq<string>)
    ensures (set h | h in hashes) == FilesAlive(files) - {""}
  {
    hide EntryAlive;
    hashes := [];
    for i := 0 to |files|
      invariant (set h | h in hashes) == FilesAlive(files[..i]) - {""}
    {
      var more := HashesOfEntry(files[i].contentHash, files[i].chunks);
      FilesAliveAppend(files[..i], files[i]);
      assert files[..i] + [files[i]] == files[..i + 1];
      assert (set h | h in hashes + more) == (set h | h in hashes) + (set h | h in more);
      hashes := hashes + more;
    }
    assert files[..|files|] == files;
  }

  method HashesOfFlat(files: seq<V1File>) returns (hashes: seq<string>)
    ensures (set h | h in hashes) == FlatAlive(files) - {""}
  {
    hide EntryAlive;
    hashes := [];
    for i := 0 to |files|
      invariant (set h | h in hashes) == FlatAlive(files[..i]) - {""}
    {
      var more := HashesOfEntry(files[i].contentHash, files[i].chunks);
      FlatAliveAppend(files[..i], files[i]);
      assert files[..i] + [files[i]] == files[..i + 1];
      assert (set h | h in hashes + more) == (set h | h in hashes) + (set h | h in more);
      hashes := hashes + more;
    }
    assert files[..|files|] == files;
  }

  method HashesOfEntry(contentHash: string, chunks: seq<ChunkRef>) returns (hashes: seq<string>)
    ensures (set h | h in hashes) == EntryAlive(contentHash, chunks) - {""}
  {
    hashes := [];
    if |chunks| > 0 {
      for i := 0 to |chunks|
        invariant (set h | h in hashes) == (set j | 0 <= j < i :: chunks[j].hash) - {""}
      {
        ghost var h := chunks[i].hash;
        assert (set j | 0 <= j < i + 1 :: chunks[j].hash) == (set j | 0 <= j < i :: chunks[j].hash) + {h};
        assert (set g | g in hashes + [h]) == (set g | g in hashes) + {h};
        if chunks[i].hash != "" {
          hashes := hashes + [chunks[i].hash];
        }
      }
    } else if contentHash != "" {
      hashes := [contentHash];
    }
  }
}
