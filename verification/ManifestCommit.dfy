/**
 Committing manifests without replacement (simple/manifest.go and fsutil): any
 number of saving processes share one manifest directory. Each writes and syncs
 a staging file under its own unique name, links it onto a final name that must
 be free, unlinks the staging name and syncs the directory. Steps interleave
 freely, calls may fail, processes may crash at any point, manifests may be
 deleted, and power may be lost.
 */
module ManifestCommit {
  import opened ByteSeqs
  import opened Primitives
  import opened ManifestCodec

  type Pid = nat
  type Inode = nat

  const FinalSuffix := ".json.zst"
  const MaxAttempts := 8

  predicate HasSuffix(s: string, suffix: string) {
    |suffix| <= |s| && s[|s| - |suffix|..] == suffix
  }

  predicate Contains(s: string, part: string) {
    |part| <= |s| && (s[..|part|] == part || (s != "" && Contains(s[1..], part)))
  }

  /** isManifestFile: the names readers open. */
  predicate IsManifestFile(name: string) {
    !Contains(name, ".alive.") && (HasSuffix(name, ".json.zst") || HasSuffix(name, ".json"))
  }

  lemma {:induction false} ContainsIff(s: string, part: string)
    ensures Contains(s, part) <==> exists pre, post :: s == pre + part + post
  {
    if Contains(s, part) {
      var pre, post := PartOf(s, part);
    }
    if pre, post :| s == pre + part + post { PartContained(pre, part, post); }
  }

  lemma {:induction false} PartOf(s: string, part: string) returns (pre: string, post: string)
    requires Contains(s, part)
    ensures s == pre + part + post
  {
    if s[..|part|] == part {
      pre, post := "", s[|part|..];
    } else {
      pre, post := PartOf(s[1..], part);
      pre := [s[0]] + pre;
    }
  }

  lemma {:induction false} PartContained(pre: string, part: string, post: string)
    ensures Contains(pre + part + post, part)
  {
    var s := pre + part + post;
    if pre == "" {
      assert s[..|part|] == part;
    } else {
      assert s[1..] == pre[1..] + part + post;
      PartContained(pre[1..], part, post);
    }
  }

  lemma HasSuffixIff(s: string, suffix: string)
    ensures HasSuffix(s, suffix) <==> exists pre :: s == pre + suffix
  {
    if HasSuffix(s, suffix) { assert s == s[..|s| - |suffix|] + suffix; }
    if pre :| s == pre + suffix { assert s[|s| - |suffix|..] == suffix; }
  }

  /** Readers open the names with one of the two endings, alive lists excepted. */
  lemma ManifestFileIff(name: string)
    ensures IsManifestFile(name) <==>
      && ((exists pre :: name == pre + ".json.zst") || (exists pre :: name == pre + ".json"))
      && !exists pre, post :: name == pre + ".alive." + post
  {
    hide Contains, HasSuffix;
    ContainsIff(name, ".alive.");
    HasSuffixIff(name, ".json.zst");
    HasSuffixIff(name, ".json");
  }

  datatype Pc =
    | Idle
    | Writing(ino: Inode, written: nat)
    | Staged(ino: Inode, attempt: nat)
    | Linked(ino: Inode, path: string)
    | Unlinked(ino: Inode, path: string)
    | Returned(ino: Inode, path: string)
    | Failed
    | Crashed

  /** One call of SaveManifestWithKey: its envelope, its name for this second, its staging name. */
  datatype Saver = Saver(envelope: Bytes, stem: string, uuid: string, pc: Pc) {
    function Candidate(attempt: nat, suffix: string): string {
      CandidateName(stem, attempt, suffix)
    }

    function Staging(): string {
      StagingName(stem, uuid)
    }
  }

  function CandidateName(stem: string, attempt: nat, suffix: string): string {
    if attempt == 0 then stem + FinalSuffix else stem + "_" + suffix + FinalSuffix
  }

  function StagingName(stem: string, uuid: string): string {
    stem + FinalSuffix + "." + uuid + ".tmp"
  }

  /**
   `names` is the directory, `inodes` the file contents, `synced` the files and
   `durable` the names that survive a power loss; `gone` remembers whose
   committed manifest has been deleted.
   */
  datatype State = State(
    names: map<string, Inode>, inodes: map<Inode, Bytes>, synced: set<Inode>,
    durable: set<string>, savers: map<Pid, Saver>, gone: set<Pid>)

  datatype Action =
    | Create(p: Pid, ino: Inode)
    | Write(p: Pid, n: nat)
    | SyncFile(p: Pid)
    | Abort(p: Pid, removed: bool)
    | TryLink(p: Pid, suffix: string)
    | Unlink(p: Pid)
    | UnlinkFails(p: Pid, removed: bool)
    | SyncDir(p: Pid)
    | SyncDirFails(p: Pid)
    | Crash(p: Pid)
    | Delete(name: string)
    | PowerLoss(kept: map<string, Inode>, disk: map<Inode, Bytes>)

  function PcOf(s: State, p: Pid): Pc {
    if p in s.savers then s.savers[p].pc else Crashed
  }

  function At(s: State, p: Pid, pc: Pc): State
    requires p in s.savers
  {
    s.(savers := s.savers[p := s.savers[p].(pc := pc)])
  }

  ghost predicate IsStaging(s: State, name: string) {
    exists p :: p in s.savers && name == s.savers[p].Staging()
  }

  ghost predicate Enabled(s: State, a: Action) {
    match a
    case Create(p, ino) => p in s.savers && PcOf(s, p).Idle? && ino !in s.inodes
    case Write(p, n) => p in s.savers && PcOf(s, p).Writing? && PcOf(s, p).written + n <= |s.savers[p].envelope|
    case SyncFile(p) => p in s.savers && PcOf(s, p).Writing? && PcOf(s, p).written == |s.savers[p].envelope|
    case Abort(p, _) => p in s.savers && (PcOf(s, p).Idle? || PcOf(s, p).Writing? || PcOf(s, p).Staged?)
    case TryLink(p, suffix) => p in s.savers && PcOf(s, p).Staged? && PcOf(s, p).attempt < MaxAttempts
    case Unlink(p) => p in s.savers && PcOf(s, p).Linked?
    case UnlinkFails(p, _) => p in s.savers && PcOf(s, p).Linked?
    case SyncDir(p) => p in s.savers && PcOf(s, p).Unlinked?
    case SyncDirFails(p) => p in s.savers && PcOf(s, p).Unlinked?
    case Crash(p) => p in s.savers && !PcOf(s, p).Returned? && !PcOf(s, p).Failed?
    case Delete(name) => IsManifestFile(name)
    case PowerLoss(kept, disk) =>
      && kept.Keys <= s.names.Keys && (forall n :: n in kept ==> kept[n] == s.names[n])
      && (forall n :: n in s.durable && n in s.names ==> n in kept)
      && disk.Keys == s.inodes.Keys && (forall i :: i in s.synced && i in disk ==> disk[i] == s.inodes[i])
  }

  function Stop(sv: Saver): Saver {
    if sv.pc.Idle? || sv.pc.Returned? || sv.pc.Failed? then sv else sv.(pc := Crashed)
  }

  ghost function Do(s: State, a: Action): State
    requires Enabled(s, a)
  {
    match a
    case Create(p, ino) =>
      At(s, p, Writing(ino, 0)).(names := s.names[s.savers[p].Staging() := ino], inodes := s.inodes[ino := []])
    case Write(p, n) =>
      var Writing(ino, w) := PcOf(s, p);
      At(s, p, Writing(ino, w + n)).(inodes := s.inodes[ino := s.savers[p].envelope[..w + n]])
    case SyncFile(p) =>
      var ino := PcOf(s, p).ino;
      At(s, p, Staged(ino, 0)).(synced := s.synced + {ino})
    case Abort(p, removed) =>
      // A failed create, write, sync or commit, or no free name left; the staging file is removed if possible.
      At(s, p, Failed).(names := if removed then s.names - {s.savers[p].Staging()} else s.names)
    case TryLink(p, suffix) =>
      var Staged(ino, attempt) := PcOf(s, p);
      var path := s.savers[p].Candidate(attempt, suffix);
      if path in s.names then At(s, p, Staged(ino, attempt + 1))
      else At(s, p, Linked(ino, path)).(names := s.names[path := ino])
    case Unlink(p) =>
      At(s, p, Unlinked(PcOf(s, p).ino, PcOf(s, p).path)).(names := s.names - {s.savers[p].Staging()})
    case UnlinkFails(p, removed) =>
      At(s, p, Failed).(names := if removed then s.names - {s.savers[p].Staging()} else s.names)
    case SyncDir(p) =>
      At(s, p, Returned(PcOf(s, p).ino, PcOf(s, p).path)).(durable := s.durable + {PcOf(s, p).path})
    case SyncDirFails(p) => At(s, p, Failed)
    case Crash(p) => At(s, p, Crashed)
    case Delete(name) =>
      s.(names := s.names - {name}, durable := s.durable - {name},
         gone := s.gone + set p | p in s.savers && Committed(s.savers[p].pc, name))
    case PowerLoss(kept, disk) =>
      s.(names := kept, inodes := disk, savers := map p | p in s.savers :: Stop(s.savers[p]))
  }

  predicate Committed(pc: Pc, name: string) {
    (pc.Linked? || pc.Unlinked? || pc.Returned?) && pc.path == name
  }

  // ----- The invariant -----------------------------------------------------

  /** A complete envelope whose checksum verifies. */
  predicate Verifies(c: Primitives, data: Bytes) {
    IsEnvelope(data) && StripEnvelope(c, data).Some?
  }

  predicate HasInode(pc: Pc) {
    !(pc.Idle? || pc.Failed? || pc.Crashed?)
  }

  /** What a saver's program counter says about the disk. */
  ghost predicate SaverOK(c: Primitives, s: State, p: Pid)
    requires p in s.savers
  {
    var sv := s.savers[p];
    && Verifies(c, sv.envelope)
    && (HasInode(sv.pc) ==> sv.pc.ino in s.inodes)
    && (sv.pc.Writing? ==>
          && sv.pc.written <= |sv.envelope|
          && s.inodes[sv.pc.ino] == sv.envelope[..sv.pc.written]
          && sv.pc.ino !in s.synced
          && forall n :: n in s.names && s.names[n] == sv.pc.ino ==> n == sv.Staging())
    && (HasInode(sv.pc) && !sv.pc.Writing? ==> s.inodes[sv.pc.ino] == sv.envelope && sv.pc.ino in s.synced)
    && ((sv.pc.Linked? || sv.pc.Unlinked? || sv.pc.Returned?) && p !in s.gone ==>
          sv.pc.path in s.names && s.names[sv.pc.path] == sv.pc.ino)
    && (sv.pc.Returned? && p !in s.gone ==> sv.pc.path in s.durable)
    && (sv.pc.Linked? || sv.pc.Unlinked? || sv.pc.Returned? ==> HasSuffix(sv.pc.path, FinalSuffix))
  }

  ghost predicate OwnInodes(s: State) {
    forall p, q :: p in s.savers && q in s.savers && p != q && HasInode(s.savers[p].pc) && HasInode(s.savers[q].pc) ==>
      s.savers[p].pc.ino != s.savers[q].pc.ino
  }

  ghost predicate UniqueStaging(s: State) {
    forall p, q :: p in s.savers && q in s.savers && p != q ==> s.savers[p].Staging() != s.savers[q].Staging()
  }

  /** Every name that is not a staging name holds a synced, complete, verifying envelope. */
  ghost predicate FinalOK(c: Primitives, s: State, name: string)
    requires name in s.names
  {
    s.names[name] in s.inodes && s.names[name] in s.synced && Verifies(c, s.inodes[s.names[name]])
  }

  ghost predicate SaversOK(c: Primitives, s: State) {
    forall p :: p in s.savers ==> SaverOK(c, s, p)
  }

  ghost predicate KnownInodes(s: State) {
    (forall n :: n in s.names ==> s.names[n] in s.inodes) && s.synced <= s.inodes.Keys
  }

  ghost predicate FinalsOK(c: Primitives, s: State) {
    forall n :: n in s.names && !IsStaging(s, n) ==> FinalOK(c, s, n)
  }

  ghost predicate Inv(c: Primitives, s: State) {
    SaversOK(c, s) && OwnInodes(s) && UniqueStaging(s) && KnownInodes(s) && FinalsOK(c, s)
  }

  /** Before any save: complete manifests only, fresh unique staging names, every envelope well made. */
  ghost predicate Init(c: Primitives, s: State) {
    && (forall p :: p in s.savers ==>
          s.savers[p].pc.Idle? && Verifies(c, s.savers[p].envelope) && s.savers[p].Staging() !in s.names)
    && UniqueStaging(s)
    && s.synced <= s.inodes.Keys
    && (forall n :: n in s.names ==> FinalOK(c, s, n))
    && s.gone == {}
  }

  lemma SuffixLast(s: string, suffix: string)
    requires HasSuffix(s, suffix) && suffix != ""
    ensures s != "" && s[|s| - 1] == suffix[|suffix| - 1]
  {
    assert s[|s| - |suffix|..][|suffix| - 1] == s[|s| - 1];
  }

  /** A staging name ends like neither a final name nor a manifest. */
  lemma StagingSuffix(sv: Saver)
    ensures !HasSuffix(sv.Staging(), FinalSuffix) && !IsManifestFile(sv.Staging())
  {
    var t := sv.Staging();
    assert t[|t| - 1] == 'p';
    if HasSuffix(t, FinalSuffix) { SuffixLast(t, FinalSuffix); }
    if HasSuffix(t, ".json") { SuffixLast(t, ".json"); }
  }

  lemma CandidateSuffix(sv: Saver, attempt: nat, suffix: string)
    ensures HasSuffix(sv.Candidate(attempt, suffix), FinalSuffix)
  {
    var q := sv.Candidate(attempt, suffix);
    assert q[|q| - |FinalSuffix|..] == FinalSuffix;
  }

  /** So names that readers open, and names that savers commit to, are never staging names. */
  lemma StagingIsInvisible(s: State, name: string)
    ensures IsManifestFile(name) || HasSuffix(name, FinalSuffix) ==> !IsStaging(s, name)
  {
    hide IsManifestFile, HasSuffix;
    if p :| p in s.savers && name == s.savers[p].Staging() {
      StagingSuffix(s.savers[p]);
    }
  }

  lemma InitInv(c: Primitives, s: State)
    requires Init(c, s)
    ensures Inv(c, s)
  {
    hide Verifies;
  }

  // ----- Every step keeps it -----------------------------------------------

  /** The saver a step belongs to, if it belongs to one. */
  predicate ByOne(a: Action) {
    !a.Delete? && !a.PowerLoss?
  }

  /** A step of one saver leaves the program counters of the others alone. */
  lemma OthersUntouched(s: State, a: Action, q: Pid)
    requires Enabled(s, a) && ByOne(a) && q in s.savers && q != a.p
    ensures Do(s, a).savers[q] == s.savers[q] && Do(s, a).gone == s.gone
  {
    hide StagingName, CandidateName;
  }

  /** What a step does to one saver: at most its program counter changes, and a new inode is a created one. */
  lemma SaverAfter(s: State, a: Action, p: Pid)
    requires Enabled(s, a) && p in s.savers
    ensures p in Do(s, a).savers && Do(s, a).savers[p] == s.savers[p].(pc := Do(s, a).savers[p].pc)
    ensures var was, now := s.savers[p].pc, Do(s, a).savers[p].pc;
      HasInode(now) ==>
        (HasInode(was) && now.ino == was.ino) || (a.Create? && a.p == p && now.ino == a.ino && a.ino !in s.inodes)
  {
    hide StagingName, CandidateName;
  }

  lemma SameKeys(s: State, a: Action)
    requires Enabled(s, a)
    ensures Do(s, a).savers.Keys == s.savers.Keys
  {
    hide StagingName, CandidateName;
  }

  /** Names and envelopes are fixed when a saver starts. */
  lemma SameSavers(s: State, a: Action)
    requires Enabled(s, a)
    ensures var s' := Do(s, a);
      && s'.savers.Keys == s.savers.Keys
      && forall p :: p in s.savers ==> s'.savers[p] == s.savers[p].(pc := s'.savers[p].pc)
  {
    hide Enabled, Do, HasInode;
    SameKeys(s, a);
    forall p | p in s.savers ensures Do(s, a).savers[p] == s.savers[p].(pc := Do(s, a).savers[p].pc) {
      SaverAfter(s, a, p);
    }
  }

  lemma SameStaging(s: State, a: Action)
    requires Enabled(s, a)
    ensures forall n :: IsStaging(Do(s, a), n) <==> IsStaging(s, n)
    ensures UniqueStaging(s) ==> UniqueStaging(Do(s, a))
  {
    hide Do, Enabled;
    SameSavers(s, a);
    var s' := Do(s, a);
    assert forall p :: p in s.savers ==> s'.savers[p].Staging() == s.savers[p].Staging();
  }

  lemma OwnInodesKept(s: State, a: Action)
    requires Enabled(s, a) && OwnInodes(s)
    requires forall q :: q in s.savers && HasInode(s.savers[q].pc) ==> s.savers[q].pc.ino in s.inodes
    ensures OwnInodes(Do(s, a))
  {
    hide Enabled, Do;
    SameKeys(s, a);
    var s' := Do(s, a);
    forall p, q | p in s'.savers && q in s'.savers && p != q && HasInode(s'.savers[p].pc) && HasInode(s'.savers[q].pc)
      ensures s'.savers[p].pc.ino != s'.savers[q].pc.ino
    {
      SaverAfter(s, a, p);
      SaverAfter(s, a, q);
    }
  }

  lemma KnownInodesKept(s: State, a: Action)
    requires Enabled(s, a) && KnownInodes(s)
    requires ByOne(a) && HasInode(s.savers[a.p].pc) ==> s.savers[a.p].pc.ino in s.inodes
    ensures KnownInodes(Do(s, a))
  {
    hide StagingName, CandidateName;
  }

  /** The step's own saver ends up with a true program counter. */
  lemma ActorOK(c: Primitives, s: State, a: Action)
    requires Enabled(s, a) && ByOne(a) && SaverOK(c, s, a.p) && KnownInodes(s)
    ensures SaverOK(c, Do(s, a), a.p)
  {
    hide Verifies, HasSuffix, StagingName, CandidateName;
    StagingSuffix(s.savers[a.p]);
    if a.TryLink? {
      CandidateSuffix(s.savers[a.p], PcOf(s, a.p).attempt, a.suffix);
    }
  }

  /** The program counters of the others stay true. */
  lemma OtherOK(c: Primitives, s: State, a: Action, q: Pid)
    requires Enabled(s, a) && ByOne(a) && SaverOK(c, s, a.p) && KnownInodes(s)
    requires q in s.savers && q != a.p && SaverOK(c, s, q)
    requires HasInode(s.savers[a.p].pc) && HasInode(s.savers[q].pc) ==> s.savers[a.p].pc.ino != s.savers[q].pc.ino
    ensures SaverOK(c, Do(s, a), q)
  {
    hide Verifies, HasSuffix, StagingName, CandidateName;
    StagingSuffix(s.savers[a.p]);
    OthersUntouched(s, a, q);
  }

  lemma DeleteOK(c: Primitives, s: State, name: string, q: Pid)
    requires Enabled(s, Delete(name)) && q in s.savers && SaverOK(c, s, q)
    ensures SaverOK(c, Do(s, Delete(name)), q)
  {
    hide Verifies, HasSuffix, IsManifestFile, StagingName;
  }

  lemma PowerLossOK(c: Primitives, s: State, kept: map<string, Inode>, disk: map<Inode, Bytes>, q: Pid)
    requires Enabled(s, PowerLoss(kept, disk)) && q in s.savers && SaverOK(c, s, q)
    ensures SaverOK(c, Do(s, PowerLoss(kept, disk)), q)
  {
    hide Verifies, HasSuffix, StagingName;
  }

  lemma SaverKept(c: Primitives, s: State, a: Action, q: Pid)
    requires Inv(c, s) && Enabled(s, a) && q in s.savers && q in Do(s, a).savers
    ensures SaverOK(c, Do(s, a), q)
  {
    assert SaverOK(c, s, q);
    if ByOne(a) {
      ActorExists(s, a);
      assert SaverOK(c, s, a.p);
      var own := q != a.p && HasInode(s.savers[a.p].pc) && HasInode(s.savers[q].pc) ==>
        s.savers[a.p].pc.ino != s.savers[q].pc.ino;
      assert own;
      hide Do, Enabled, SaverOK, Inv;
      if q == a.p { ActorOK(c, s, a); } else { OtherOK(c, s, a, q); }
    } else {
      hide Do, Enabled, SaverOK, Inv;
      if a.Delete? { DeleteOK(c, s, a.name, q); } else { PowerLossOK(c, s, a.kept, a.disk, q); }
    }
  }

  lemma SaversKept(c: Primitives, s: State, a: Action)
    requires Inv(c, s) && Enabled(s, a)
    ensures SaversOK(c, Do(s, a))
  {
    SameSavers(s, a);
    hide Do, Enabled, SaverOK, Inv;
    forall q | q in Do(s, a).savers
      ensures SaverOK(c, Do(s, a), q)
    {
      SaverKept(c, s, a, q);
    }
  }

  lemma ActorExists(s: State, a: Action)
    requires Enabled(s, a) && ByOne(a)
    ensures a.p in s.savers
  {
  }

  /** A final name is untouched by every step that does not remove it. */
  lemma FinalUntouched(c: Primitives, s: State, a: Action, name: string)
    requires Enabled(s, a) && name in s.names && FinalOK(c, s, name) && !IsStaging(s, name) && !MayRemove(a, name)
    requires ByOne(a) ==> SaverOK(c, s, a.p)
    ensures var s' := Do(s, a);
      && name in s'.names && s'.names[name] == s.names[name]
      && FinalOK(c, s', name) && s'.inodes[s'.names[name]] == s.inodes[s.names[name]]
  {
    hide Verifies, HasSuffix, IsManifestFile, StagingName, CandidateName;
    if ByOne(a) {
      assert IsStaging(s, s.savers[a.p].Staging());
    }
  }

  /** The step can make this name disappear. */
  predicate MayRemove(a: Action, name: string) {
    (a.Delete? && a.name == name) || a.PowerLoss?
  }

  /** A name that is new after a step is a staging name or links a synced, complete file. */
  lemma NewNameOK(c: Primitives, s: State, a: Action, name: string)
    requires Enabled(s, a) && name in Do(s, a).names && name !in s.names && !IsStaging(s, name)
    requires ByOne(a) ==> SaverOK(c, s, a.p)
    ensures FinalOK(c, Do(s, a), name)
  {
    hide Verifies, HasSuffix, IsManifestFile, StagingName, CandidateName;
    if ByOne(a) {
      assert IsStaging(s, s.savers[a.p].Staging());
    }
  }

  lemma PowerLossFinal(c: Primitives, s: State, kept: map<string, Inode>, disk: map<Inode, Bytes>, name: string)
    requires Enabled(s, PowerLoss(kept, disk)) && name in kept && name in s.names && FinalOK(c, s, name)
    ensures FinalOK(c, Do(s, PowerLoss(kept, disk)), name)
  {
    hide Verifies;
  }

  lemma DeletedName(s: State, name: string)
    requires Enabled(s, Delete(name))
    ensures name !in Do(s, Delete(name)).names
  {
    hide IsManifestFile;
  }

  lemma FinalsKept(c: Primitives, s: State, a: Action)
    requires Inv(c, s) && Enabled(s, a)
    ensures FinalsOK(c, Do(s, a))
  {
    hide SaverOK, OwnInodes, KnownInodes, FinalOK;
    SameStaging(s, a);
    forall n | n in Do(s, a).names && !IsStaging(Do(s, a), n)
      ensures FinalOK(c, Do(s, a), n)
    {
      assert ByOne(a) ==> SaverOK(c, s, a.p) by { if ByOne(a) { ActorExists(s, a); } }
      if a.PowerLoss? {
        PowerLossFinal(c, s, a.kept, a.disk, n);
      } else if n !in s.names {
        NewNameOK(c, s, a, n);
      } else {
        if a.Delete? { DeletedName(s, a.name); }
        FinalUntouched(c, s, a, n);
      }
    }
  }

  lemma StepKeeps(c: Primitives, s: State, a: Action)
    requires Inv(c, s) && Enabled(s, a)
    ensures Inv(c, Do(s, a))
  {
    SaversKept(c, s, a);
    FinalsKept(c, s, a);
    SameStaging(s, a);
    assert forall q :: q in s.savers ==> SaverOK(c, s, q);
    OwnInodesKept(s, a);
    assert ByOne(a) ==> a.p in s.savers;
    KnownInodesKept(s, a);
  }

  // ----- Whole runs --------------------------------------------------------

  ghost predicate Reaches(s: State, actions: seq<Action>, t: State)
    decreases |actions|
  {
    if actions == [] then s == t
    else Enabled(s, actions[0]) && Reaches(Do(s, actions[0]), actions[1..], t)
  }

  lemma {:induction false} RunKeeps(c: Primitives, s: State, actions: seq<Action>, t: State)
    requires Inv(c, s) && Reaches(s, actions, t)
    ensures Inv(c, t)
    decreases |actions|
  {
    hide Inv, Enabled, Do;
    if actions != [] {
      StepKeeps(c, s, actions[0]);
      RunKeeps(c, Do(s, actions[0]), actions[1..], t);
    }
  }

  // ----- Where a saver's file appears ----------------------------------------

  predicate HasPath(pc: Pc) {
    pc.Linked? || pc.Unlinked? || pc.Returned?
  }

  /**
   A saver's file has no name but its staging name and, from the link until a
   deletion, the name the saver committed to.
   */
  ghost predicate NamesOK(s: State, p: Pid)
    requires p in s.savers
  {
    var sv := s.savers[p];
    && (p in s.gone ==> !sv.pc.Idle? && !sv.pc.Writing? && !sv.pc.Staged?)
    && (HasInode(sv.pc) ==> forall n :: n in s.names && s.names[n] == sv.pc.ino ==>
          n == sv.Staging() || (HasPath(sv.pc) && p !in s.gone && n == sv.pc.path))
  }

  ghost predicate AllNamesOK(s: State) {
    forall p :: p in s.savers ==> NamesOK(s, p)
  }

  lemma ActorNames(s: State, a: Action)
    requires Enabled(s, a) && ByOne(a) && a.p in s.savers && NamesOK(s, a.p) && KnownInodes(s)
    ensures a.p in Do(s, a).savers && NamesOK(Do(s, a), a.p)
  {
    hide StagingName, CandidateName;
  }

  lemma OtherNames(s: State, a: Action, q: Pid)
    requires Enabled(s, a) && ByOne(a) && a.p in s.savers && q in s.savers && q != a.p && NamesOK(s, q)
    requires HasInode(s.savers[q].pc) ==> s.savers[q].pc.ino in s.inodes
    requires HasInode(s.savers[a.p].pc) && HasInode(s.savers[q].pc) ==> s.savers[a.p].pc.ino != s.savers[q].pc.ino
    ensures q in Do(s, a).savers && NamesOK(Do(s, a), q)
  {
    hide StagingName, CandidateName;
    OthersUntouched(s, a, q);
  }

  lemma DeletionNames(s: State, a: Action, q: Pid)
    requires Enabled(s, a) && !ByOne(a) && q in s.savers && NamesOK(s, q)
    ensures q in Do(s, a).savers && NamesOK(Do(s, a), q)
  {
    hide StagingName, IsManifestFile;
  }

  lemma StepKeepsNames(c: Primitives, s: State, a: Action)
    requires Inv(c, s) && AllNamesOK(s) && Enabled(s, a)
    ensures AllNamesOK(Do(s, a))
  {
    hide Enabled, Do, NamesOK, KnownInodes, FinalsOK;
    SameKeys(s, a);
    if ByOne(a) { ActorExists(s, a); }
    forall q | q in Do(s, a).savers ensures NamesOK(Do(s, a), q) {
      assert SaverOK(c, s, q);
      if !ByOne(a) {
        DeletionNames(s, a, q);
      } else if q == a.p {
        ActorNames(s, a);
      } else {
        OtherNames(s, a, q);
      }
    }
  }

  lemma {:induction false} RunKeepsNames(c: Primitives, s: State, actions: seq<Action>, t: State)
    requires Inv(c, s) && AllNamesOK(s) && Reaches(s, actions, t)
    ensures Inv(c, t) && AllNamesOK(t)
    decreases |actions|
  {
    hide Inv, AllNamesOK, Enabled, Do;
    if actions != [] {
      StepKeeps(c, s, actions[0]);
      StepKeepsNames(c, s, actions[0]);
      RunKeepsNames(c, Do(s, actions[0]), actions[1..], t);
    }
  }

  lemma InitNames(c: Primitives, s: State)
    requires Init(c, s)
    ensures AllNamesOK(s)
  {
    hide Verifies;
  }

  /** The file is under a name that is not a staging name. */
  ghost predicate Published(s: State, ino: Inode) {
    exists n :: n in s.names && s.names[n] == ino && !IsStaging(s, n)
  }

  /** The step ends a save without success. */
  ghost predicate EndsBadly(s: State, a: Action)
    requires Enabled(s, a)
  {
    && ByOne(a) && a.p in s.savers && a.p in Do(s, a).savers
    && !s.savers[a.p].pc.Failed? && !s.savers[a.p].pc.Crashed?
    && (Do(s, a).savers[a.p].pc.Failed? || Do(s, a).savers[a.p].pc.Crashed?)
  }

  /** An unsuccessful end removes at most the staging name. */
  lemma BadEndNames(s: State, a: Action)
    requires Enabled(s, a) && EndsBadly(s, a)
    ensures Do(s, a).names == s.names || Do(s, a).names == s.names - {s.savers[a.p].Staging()}
    ensures Do(s, a).inodes == s.inodes && !s.savers[a.p].pc.Returned?
  {
    hide StagingName, CandidateName;
  }

  lemma BadEndIff(c: Primitives, s: State, a: Action)
    requires Inv(c, s) && AllNamesOK(s) && Enabled(s, a) && EndsBadly(s, a) && HasInode(s.savers[a.p].pc)
    ensures var pc, s' := s.savers[a.p].pc, Do(s, a);
      && (Published(s', pc.ino) <==> (pc.Linked? || pc.Unlinked?) && a.p !in s.gone)
      && (Published(s', pc.ino) ==>
            && pc.path in s'.names && s'.names[pc.path] == pc.ino && pc.ino in s'.inodes
            && s'.inodes[pc.ino] == s.savers[a.p].envelope)
  {
    hide Verifies, Enabled, Do, IsStaging, HasSuffix, StagingName, KnownInodes, FinalsOK, OwnInodes;
    var sv, s' := s.savers[a.p], Do(s, a);
    BadEndNames(s, a);
    SameStaging(s, a);
    assert SaverOK(c, s, a.p) && NamesOK(s, a.p);
    OwnStaging(s, a.p);
    if HasPath(sv.pc) {
      StagingIsInvisible(s, sv.pc.path);
      if a.p !in s.gone {
        assert sv.pc.path in s'.names && s'.names[sv.pc.path] == sv.pc.ino;
      }
    }
  }

  lemma OwnStaging(s: State, p: Pid)
    requires p in s.savers
    ensures IsStaging(s, s.savers[p].Staging())
  {
  }

  /**
   Over every run of any number of savers: a save that ends with an error, or crashes,
   has committed its manifest exactly if its link had succeeded and nobody has deleted
   the manifest since. The committed path then holds the complete envelope.
   */
  lemma {:induction false} FailedSaveCommittedIff(c: Primitives, s: State, actions: seq<Action>, t: State, a: Action)
    requires Init(c, s) && Reaches(s, actions, t) && Enabled(t, a) && EndsBadly(t, a)
    ensures var pc, t' := t.savers[a.p].pc, Do(t, a);
      && (pc.Idle? ==> t'.names.Keys <= t.names.Keys && t'.inodes == t.inodes)
      && (HasInode(pc) ==> (Published(t', pc.ino) <==> (pc.Linked? || pc.Unlinked?) && a.p !in t.gone))
      && (HasInode(pc) && Published(t', pc.ino) ==>
            && pc.path in t'.names && t'.names[pc.path] in t'.inodes
            && t'.inodes[t'.names[pc.path]] == t.savers[a.p].envelope)
  {
    hide Reaches, Init, Inv, AllNamesOK, Enabled, Do, Published;
    InitInv(c, s);
    InitNames(c, s);
    RunKeepsNames(c, s, actions, t);
    BadEndNames(t, a);
    if HasInode(t.savers[a.p].pc) { BadEndIff(c, t, a); }
  }

  /** In every reachable state, whatever a reader opens is a complete envelope that verifies. */
  lemma {:induction false} ReadersSeeCompleteEnvelopes(c: Primitives, s: State, actions: seq<Action>, t: State,
                                                       name: string)
    requires Init(c, s) && Reaches(s, actions, t)
    requires name in t.names && IsManifestFile(name)
    ensures t.names[name] in t.inodes && Verifies(c, t.inodes[t.names[name]])
  {
    hide Verifies, Reaches, IsManifestFile;
    InitInv(c, s);
    RunKeeps(c, s, actions, t);
    StagingIsInvisible(t, name);
    assert FinalOK(c, t, name);
  }

  /** A successful save's path holds its envelope until it is deleted, power losses included. */
  lemma {:induction false} ReturnedPathHolds(c: Primitives, s: State, actions: seq<Action>, t: State, p: Pid)
    requires Init(c, s) && Reaches(s, actions, t)
    requires p in t.savers && t.savers[p].pc.Returned? && p !in t.gone
    ensures var path := t.savers[p].pc.path;
      && path in t.names && t.names[path] in t.inodes
      && t.inodes[t.names[path]] == t.savers[p].envelope
      && path in t.durable
  {
    hide Verifies, Reaches;
    InitInv(c, s);
    RunKeeps(c, s, actions, t);
    assert SaverOK(c, t, p);
  }

  /** Two successful saves whose manifests are still there returned different paths. */
  lemma {:induction false} ReturnedPathsDiffer(c: Primitives, s: State, actions: seq<Action>, t: State, p: Pid, q: Pid)
    requires Init(c, s) && Reaches(s, actions, t)
    requires p in t.savers && q in t.savers && p != q && p !in t.gone && q !in t.gone
    requires t.savers[p].pc.Returned? && t.savers[q].pc.Returned?
    ensures t.savers[p].pc.path != t.savers[q].pc.path
  {
    hide Verifies, Reaches;
    InitInv(c, s);
    RunKeeps(c, s, actions, t);
    assert SaverOK(c, t, p) && SaverOK(c, t, q);
  }

  /** An existing final name never changes content, over any run that does not remove it. */
  lemma {:induction false} RunNeverReplaces(c: Primitives, s: State, actions: seq<Action>, t: State, name: string)
    requires Inv(c, s) && Reaches(s, actions, t) && name in s.names && !IsStaging(s, name)
    requires forall i :: 0 <= i < |actions| ==> !MayRemove(actions[i], name)
    ensures name in t.names && t.names[name] == s.names[name]
    ensures t.names[name] in t.inodes && s.names[name] in s.inodes && t.inodes[t.names[name]] == s.inodes[s.names[name]]
    decreases |actions|
  {
    hide Enabled, Do, SaverOK, IsStaging;
    assert FinalOK(c, s, name);
    if actions != [] {
      var a := actions[0];
      assert !MayRemove(a, name);
      if ByOne(a) { ActorExists(s, a); }
      FinalUntouched(c, s, a, name);
      SameStaging(s, a);
      StepKeeps(c, s, a);
      RunNeverReplaces(c, Do(s, actions[0]), actions[1..], t, name);
    }
  }

  lemma DurableUntouched(c: Primitives, s: State, a: Action, name: string)
    requires Inv(c, s) && Enabled(s, a) && name in s.names && name in s.durable && !IsStaging(s, name)
    requires a != Delete(name)
    ensures var s' := Do(s, a);
      && name in s'.names && name in s'.durable && s'.names[name] == s.names[name]
      && s.names[name] in s.inodes && s.names[name] in s'.inodes
      && s'.inodes[s.names[name]] == s.inodes[s.names[name]]
  {
    hide Verifies, SaverOK, IsStaging, StagingName, CandidateName, IsManifestFile, OwnInodes, KnownInodes;
    assert FinalOK(c, s, name);
    if ByOne(a) { ActorExists(s, a); }
    if !a.PowerLoss? { FinalUntouched(c, s, a, name); }
  }

  /** A durable name keeps its content over every run that does not delete it, power losses included. */
  lemma {:induction false} DurableNeverReplaced(c: Primitives, s: State, actions: seq<Action>, t: State, name: string)
    requires Inv(c, s) && Reaches(s, actions, t) && name in s.names && name in s.durable && !IsStaging(s, name)
    requires forall i :: 0 <= i < |actions| ==> actions[i] != Delete(name)
    ensures name in t.names && name in t.durable && t.names[name] == s.names[name]
    ensures t.names[name] in t.inodes && s.names[name] in s.inodes
    ensures t.inodes[t.names[name]] == s.inodes[s.names[name]]
    decreases |actions|
  {
    hide Inv, Enabled, Do, IsStaging;
    if actions == [] {
      DurableKnown(c, s, name);
    } else {
      assert actions[0] != Delete(name);
      DurableUntouched(c, s, actions[0], name);
      SameStaging(s, actions[0]);
      StepKeeps(c, s, actions[0]);
      DurableNeverReplaced(c, Do(s, actions[0]), actions[1..], t, name);
    }
  }

  lemma DurableKnown(c: Primitives, s: State, name: string)
    requires Inv(c, s) && name in s.names
    ensures s.names[name] in s.inodes
  {
    hide SaversOK, OwnInodes, UniqueStaging, FinalsOK;
  }

  lemma {:induction false} ReachesTrans(s: State, xs: seq<Action>, t: State, ys: seq<Action>, u: State)
    requires Reaches(s, xs, t) && Reaches(t, ys, u)
    ensures Reaches(s, xs + ys, u)
    decreases |xs|
  {
    hide Enabled, Do;
    if xs == [] {
      assert xs + ys == ys;
    } else {
      assert (xs + ys)[1..] == xs[1..] + ys;
      ReachesTrans(Do(s, xs[0]), xs[1..], t, ys, u);
    }
  }

  lemma {:induction false} ReachesCons(s: State, a: Action, mid: State, rest: seq<Action>, t: State)
    requires Enabled(s, a) && Do(s, a) == mid && Reaches(mid, rest, t)
    ensures Reaches(s, [a] + rest, t)
  {
    hide Enabled, Do;
    assert ([a] + rest)[1..] == rest;
  }

  lemma Stays(s: State)
    ensures Reaches(s, [], s)
  {
  }

  // ----- Saves that are over ------------------------------------------------

  /** A save that has returned or failed stays as it is over every run, power losses included. */
  lemma {:induction false} OverForGood(s: State, actions: seq<Action>, t: State, p: Pid)
    requires Reaches(s, actions, t) && p in s.savers && (s.savers[p].pc.Returned? || s.savers[p].pc.Failed?)
    ensures p in t.savers && t.savers[p] == s.savers[p]
    decreases |actions|
  {
    hide Enabled, Do;
    if actions != [] {
      OverStays(s, actions[0], p);
      OverForGood(Do(s, actions[0]), actions[1..], t, p);
    }
  }

  lemma OverStays(s: State, a: Action, p: Pid)
    requires Enabled(s, a) && p in s.savers && (s.savers[p].pc.Returned? || s.savers[p].pc.Failed?)
    ensures p in Do(s, a).savers && Do(s, a).savers[p] == s.savers[p]
  {
    hide StagingName, CandidateName;
    if ByOne(a) {
      assert a.p != p;
      OthersUntouched(s, a, p);
      SameKeys(s, a);
    }
  }

  /** A save that has not begun survives a power loss; one under way does not. */
  lemma PowerLossStops(s: State, a: Action, p: Pid)
    requires a.PowerLoss? && Enabled(s, a) && p in s.savers
    ensures p in Do(s, a).savers
    ensures var pc := s.savers[p].pc;
      Do(s, a).savers[p].pc.Crashed? <==> !(pc.Idle? || pc.Returned? || pc.Failed?)
  {
  }

  // ----- A save that nothing stops ------------------------------------------

  /** Create, write everything, sync. */
  lemma StagingRun(s: State, p: Pid, ino: Inode, t: State)
    requires p in s.savers && s.savers[p].pc.Idle? && ino !in s.inodes
    requires var sv := s.savers[p];
      t == s.(names := s.names[sv.Staging() := ino], inodes := s.inodes[ino := sv.envelope],
              synced := s.synced + {ino}, savers := s.savers[p := sv.(pc := Staged(ino, 0))])
    ensures Reaches(s, [Create(p, ino)] + ([Write(p, |s.savers[p].envelope|)] + ([SyncFile(p)] + [])), t)
  {
    hide StagingName, Reaches;
    var sv := s.savers[p];
    var names, n := s.names[sv.Staging() := ino], |sv.envelope|;
    var s1 := s.(names := names, inodes := s.inodes[ino := []], savers := s.savers[p := sv.(pc := Writing(ino, 0))]);
    var s2 := s.(names := names, inodes := s.inodes[ino := sv.envelope],
                 savers := s.savers[p := sv.(pc := Writing(ino, n))]);
    assert sv.envelope[..n] == sv.envelope;
    assert s1.inodes[ino := sv.envelope] == s2.inodes;
    assert s1.savers[p := sv.(pc := Writing(ino, n))] == s2.savers;
    Stays(t);
    ReachesCons(s2, SyncFile(p), t, [], t);
    ReachesCons(s1, Write(p, n), s2, [SyncFile(p)] + [], t);
    ReachesCons(s, Create(p, ino), s1, [Write(p, n)] + ([SyncFile(p)] + []), t);
  }

  /** The name a save tries on its n-th attempt. */
  function NameTried(stem: string, suffixes: seq<string>, n: nat): string
    requires n < |suffixes|
  {
    if n == 0 then stem + ".json.zst" else stem + "_" + suffixes[n] + ".json.zst"
  }

  ghost predicate OnlyBy(p: Pid, actions: seq<Action>) {
    forall i :: 0 <= i < |actions| ==> ByOne(actions[i]) && actions[i].p == p
  }

  /** Unlink the staging name and sync the directory. */
  lemma EndRun(s: State, p: Pid) returns (t: State)
    requires p in s.savers && s.savers[p].pc.Linked?
    ensures Reaches(s, [Unlink(p)] + ([SyncDir(p)] + []), t) && t.inodes == s.inodes && p in t.savers
    ensures var Linked(ino, path) := s.savers[p].pc;
      && t.savers[p].pc == Returned(ino, path) && path in t.durable && t.names == s.names - {s.savers[p].Staging()}
  {
    hide Reaches, StagingName;
    var mid := Do(s, Unlink(p));
    t := Do(mid, SyncDir(p));
    Stays(t);
    ReachesCons(mid, SyncDir(p), t, [], t);
    ReachesCons(s, Unlink(p), mid, [SyncDir(p)] + [], t);
  }

  /** Failed attempts up to the first free name, which is then linked, made durable and returned. */
  lemma {:induction false} LinkRun(s: State, p: Pid, ino: Inode, suffixes: seq<string>, n: nat, k: nat)
    returns (actions: seq<Action>, t: State)
    requires p in s.savers && s.savers[p].pc == Staged(ino, n) && n <= k < 8 == |suffixes|
    requires forall j :: n <= j < k ==> NameTried(s.savers[p].stem, suffixes, j) in s.names
    requires NameTried(s.savers[p].stem, suffixes, k) !in s.names
    ensures Reaches(s, actions, t) && OnlyBy(p, actions) && t.inodes == s.inodes && p in t.savers
    ensures var path := NameTried(s.savers[p].stem, suffixes, k);
      t.savers[p].pc == Returned(ino, path) && path in t.names && t.names[path] == ino && path in t.durable
    ensures s.savers[p].Staging() !in t.names
    decreases k - n
  {
    hide Reaches, StagingName, HasSuffix;
    var a, sv := TryLink(p, suffixes[n]), s.savers[p];
    var mid := Do(s, a);
    var rest;
    if n < k {
      assert NameTried(sv.stem, suffixes, n) in s.names;
      rest, t := LinkRun(mid, p, ino, suffixes, n + 1, k);
    } else {
      rest := [Unlink(p)] + ([SyncDir(p)] + []);
      t := EndRun(mid, p);
      TriedIsNotStaging(sv, suffixes, k);
    }
    ReachesCons(s, a, mid, rest, t);
    actions := [a] + rest;
  }

  /**
   In any state of the directory, whoever else is saving: a save that nothing stops
   returns the first of its up to eight names that is free, durable and with its whole
   envelope. A name taken by another save in the same second costs it an attempt only.
   */
  lemma SaveReturns(s: State, p: Pid, ino: Inode, suffixes: seq<string>, k: nat)
    requires p in s.savers && s.savers[p].pc.Idle? && ino !in s.inodes && k < 8 == |suffixes|
    requires forall j :: 0 <= j < k ==> NameTried(s.savers[p].stem, suffixes, j) in s.names
    requires NameTried(s.savers[p].stem, suffixes, k) !in s.names
    ensures exists actions, t ::
      && Reaches(s, actions, t) && OnlyBy(p, actions) && p in t.savers
      && var path := NameTried(s.savers[p].stem, suffixes, k);
      && t.savers[p].pc == Returned(ino, path) && path in t.names && t.names[path] == ino && path in t.durable
      && ino in t.inodes && t.inodes[ino] == s.savers[p].envelope && s.savers[p].Staging() !in t.names
  {
    hide Reaches, StagingName, NameTried, HasSuffix;
    var sv := s.savers[p];
    var mid := s.(names := s.names[sv.Staging() := ino], inodes := s.inodes[ino := sv.envelope],
                  synced := s.synced + {ino}, savers := s.savers[p := sv.(pc := Staged(ino, 0))]);
    StagingRun(s, p, ino, mid);
    TriedIsNotStaging(sv, suffixes, k);
    var rest, t := LinkRun(mid, p, ino, suffixes, 0, k);
    var head := [Create(p, ino)] + ([Write(p, |sv.envelope|)] + ([SyncFile(p)] + []));
    ReachesTrans(s, head, mid, rest, t);
    assert OnlyBy(p, head + rest);
  }

  lemma TriedIsNotStaging(sv: Saver, suffixes: seq<string>, k: nat)
    requires k < |suffixes|
    ensures NameTried(sv.stem, suffixes, k) != sv.Staging()
  {
    hide HasSuffix, StagingName;
    StagingSuffix(sv);
    CandidateSuffix(sv, k, suffixes[k]);
  }

  /** A save whose eight names were all taken can only give up. */
  lemma NoNamesLeft(s: State, p: Pid, a: Action)
    requires p in s.savers && s.savers[p].pc.Staged? && s.savers[p].pc.attempt == 8
    requires Enabled(s, a) && ByOne(a) && a.p == p
    ensures a.Abort? || a.Crash?
  {
  }

  /** Link, then fail to remove the staging name (which the caller then removes). */
  lemma CommitRun(s3: State, sv: Saver) returns (s5: State)
    requires s3 == State(map[sv.Staging() := 7], map[7 := sv.envelope], {7}, {}, map[0 := sv.(pc := Staged(7, 0))], {})
    ensures Reaches(s3, [TryLink(0, ""), UnlinkFails(0, true)], s5)
    ensures 0 in s5.savers && s5.savers[0].pc.Failed? && s5.inodes == s3.inodes
    ensures sv.stem + FinalSuffix in s5.names && s5.names[sv.stem + FinalSuffix] == 7
  {
    hide HasSuffix, StagingName;
    var path := sv.stem + FinalSuffix;
    StagingSuffix(sv);
    CandidateSuffix(sv, 0, "");
    var s4 := Do(s3, TryLink(0, ""));
    assert s4.savers[0].pc == Linked(7, path) && path in s4.names && s4.names[path] == 7;
    s5 := Do(s4, UnlinkFails(0, true));
    var run := [TryLink(0, ""), UnlinkFails(0, true)];
    assert run[1..] == [run[1]] && [run[1]][1..] == [];
    assert Reaches(s5, [], s5);
    assert Reaches(s4, [run[1]], s5);
  }

  /**
   A save that reports an error may still have committed: after link succeeds
   and unlink fails, the final name holds the full envelope although the saver
   failed.
   */
  lemma FailedSaveMayHaveCommitted(c: Primitives, envelope: Bytes, stem: string, uuid: string)
    requires Verifies(c, envelope)
    ensures var sv := Saver(envelope, stem, uuid, Idle);
      var s := State(map[], map[], {}, {}, map[0 := sv], {});
      var run := [Create(0, 7), Write(0, |envelope|), SyncFile(0), TryLink(0, ""), UnlinkFails(0, true)];
      && Init(c, s)
      && exists t :: Reaches(s, run, t) && 0 in t.savers && t.savers[0].pc.Failed?
           && stem + FinalSuffix in t.names && t.names[stem + FinalSuffix] in t.inodes
           && t.inodes[t.names[stem + FinalSuffix]] == envelope
  {
    hide Verifies, HasSuffix, Reaches, StagingName;
    var sv := Saver(envelope, stem, uuid, Idle);
    var s0 := State(map[], map[], {}, {}, map[0 := sv], {});
    var s3 := State(map[sv.Staging() := 7], map[7 := envelope], {7}, {}, map[0 := sv.(pc := Staged(7, 0))], {});
    StagingRun(s0, 0, 7, s3);
    var s5 := CommitRun(s3, sv);
    var head := [Create(0, 7)] + ([Write(0, |envelope|)] + ([SyncFile(0)] + []));
    var tail := [TryLink(0, ""), UnlinkFails(0, true)];
    ReachesTrans(s0, head, s3, tail, s5);
    assert head + tail == [Create(0, 7), Write(0, |envelope|), SyncFile(0), TryLink(0, ""), UnlinkFails(0, true)];
  }
}
