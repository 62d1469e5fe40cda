/**
 Concurrent calls on one local blob store: every thread advances in the atomic
 steps of simple/local_store.go and the steps interleave freely. A put takes the
 per-hash lock, looks at the cache, stats, writes and renames, and updates the
 cache; a reader looks at the disk and later merges what it found; a delete removes
 the file and later drops the hash from the cache, without taking the lock.
 */
module StoreThreads {
  import opened ByteSeqs
  import opened Hashing

  type Tid = nat

  /**
   Reading stands for Exists, ExistsBatch and WarmExistsCache between looking at
   the disk and merging what they found, Deleting for Delete between removing the
   file and dropping the hash. The Put states from Locked to Caching hold the lock of
   their hash; `clean` records that stat did not fail.
   */
  datatype Pc =
    | Ready
    | Reading(found: set<Hash>)
    | Waiting(h: Hash, data: Bytes)
    | Locked(h: Hash, data: Bytes)
    | Missed(h: Hash, data: Bytes)
    | Absent(h: Hash, data: Bytes, clean: bool)
    | Caching(h: Hash)
    | PutDone(h: Hash, ok: bool)
    | Deleting(h: Hash)

  datatype State = State(disk: map<Hash, Bytes>, cache: set<Hash>, threads: map<Tid, Pc>)

  datatype Action =
    | Observe(t: Tid, hashes: set<Hash>)
    | Merge(t: Tid)
    | StartPut(t: Tid, h: Hash, data: Bytes)
    | Lock(t: Tid)
    | CheckCache(t: Tid)
    | Stat(t: Tid, fails: bool)
    | Rename(t: Tid)
    | RenameFails(t: Tid)
    | PutFails(t: Tid)
    | AddToCache(t: Tid)
    | Remove(t: Tid, h: Hash)
    | Evict(t: Tid)

  predicate Holds(pc: Pc, h: Hash) {
    (pc.Locked? || pc.Missed? || pc.Absent? || pc.Caching?) && pc.h == h
  }

  ghost predicate Enabled(s: State, a: Action) {
    && a.t in s.threads
    && var pc := s.threads[a.t];
    match a
    case Observe(_, hashes) => (pc.Ready? || pc.Reading? || pc.PutDone?) && hashes <= s.disk.Keys
    case Merge(_) => pc.Reading?
    case StartPut(_, h, _) => (pc.Ready? || pc.PutDone?) && ValidateHash(h)
    case Lock(_) => pc.Waiting? && forall u :: u in s.threads ==> !Holds(s.threads[u], pc.h)
    case CheckCache(_) => pc.Locked?
    case Stat(_, _) => pc.Missed?
    case Rename(_) => pc.Absent?
    case RenameFails(_) => pc.Absent?
    case PutFails(_) => pc.Absent? || pc.Caching?
    case AddToCache(_) => pc.Caching?
    case Remove(_, h) => (pc.Ready? || pc.PutDone?) && ValidateHash(h)
    case Evict(_) => pc.Deleting?
  }

  function Move(s: State, t: Tid, pc: Pc): State {
    s.(threads := s.threads[t := pc])
  }

  ghost function Do(s: State, a: Action): State
    requires Enabled(s, a)
  {
    match a
    case Observe(t, hashes) =>
      var seen := if s.threads[t].Reading? then s.threads[t].found else {};
      Move(s, t, Reading(seen + hashes))
    case Merge(t) => Move(s, t, Ready).(cache := s.cache + s.threads[t].found)
    case StartPut(t, h, data) => Move(s, t, Waiting(h, data))
    case Lock(t) => Move(s, t, Locked(s.threads[t].h, s.threads[t].data))
    case CheckCache(t) =>
      var Locked(h, data) := s.threads[t];
      Move(s, t, if h in s.cache then PutDone(h, true) else Missed(h, data))
    case Stat(t, fails) =>
      var Missed(h, data) := s.threads[t];
      Move(s, t, if !fails && h in s.disk then Caching(h) else Absent(h, data, !fails))
    case Rename(t) =>
      var Absent(h, data, _) := s.threads[t];
      Move(s, t, Caching(h)).(disk := s.disk[h := data])
    case RenameFails(t) =>
      // Another put may have committed the hash meanwhile, which then counts as success.
      var h := s.threads[t].h;
      Move(s, t, if h in s.disk then Caching(h) else PutDone(h, false))
    case PutFails(t) => Move(s, t, PutDone(s.threads[t].h, false))
    case AddToCache(t) =>
      var h := s.threads[t].h;
      Move(s, t, PutDone(h, true)).(cache := s.cache + {h})
    case Remove(t, h) => Move(s, t, Deleting(h)).(disk := s.disk - {h})
    case Evict(t) => Move(s, t, Ready).(cache := s.cache - {s.threads[t].h})
  }

  ghost predicate Reaches(s: State, actions: seq<Action>, t: State)
    decreases |actions|
  {
    if actions == [] then s == t
    else Enabled(s, actions[0]) && Reaches(Do(s, actions[0]), actions[1..], t)
  }

  ghost predicate Init(s: State) {
    s.cache == {} && forall t :: t in s.threads ==> s.threads[t].Ready?
  }

  // ----- Locks: every interleaving, deletes included ---------------------------

  /** One holder for each lock, and a put that saw no blob without a failure still has none in its way. */
  ghost predicate LocksOK(s: State) {
    && (forall t :: t in s.threads && s.threads[t].Absent? && s.threads[t].clean ==> s.threads[t].h !in s.disk)
    && (forall t, u, h :: t in s.threads && u in s.threads && t != u && Holds(s.threads[t], h) ==>
          !Holds(s.threads[u], h))
  }

  lemma LocksKept(s: State, a: Action)
    requires LocksOK(s) && Enabled(s, a)
    ensures LocksOK(Do(s, a))
  {
    hide ValidateHash;
    var s' := Do(s, a);
    forall t | t in s'.threads && s'.threads[t].Absent? && s'.threads[t].clean ensures s'.threads[t].h !in s'.disk {
      if t != a.t && a.Rename? {
        assert Holds(s.threads[a.t], s.threads[a.t].h) && Holds(s.threads[t], s.threads[t].h);
      }
    }
  }

  // ----- Without deletes -------------------------------------------------------

  /** What a thread knows about the disk. */
  predicate ThreadOK(disk: map<Hash, Bytes>, pc: Pc) {
    match pc
    case Reading(found) => found <= disk.Keys
    case Caching(h) => h in disk
    case PutDone(h, ok) => ok ==> h in disk
    case _ => true
  }

  ghost predicate Inv(s: State) {
    s.cache <= s.disk.Keys && forall t :: t in s.threads ==> ThreadOK(s.disk, s.threads[t])
  }

  /** Every step but the removal of a file keeps the cache inside the disk. */
  lemma StepKeeps(s: State, a: Action)
    requires Inv(s) && Enabled(s, a) && !a.Remove?
    ensures Inv(Do(s, a))
    ensures s.disk.Keys <= Do(s, a).disk.Keys
  {
    hide ValidateHash;
    assert ThreadOK(s.disk, s.threads[a.t]);
  }

  ghost predicate NoDelete(actions: seq<Action>) {
    forall i :: 0 <= i < |actions| ==> !actions[i].Remove?
  }

  lemma {:induction false} RunKeeps(s: State, actions: seq<Action>, t: State)
    requires Inv(s) && Reaches(s, actions, t) && NoDelete(actions)
    ensures Inv(t) && s.disk.Keys <= t.disk.Keys
    decreases |actions|
  {
    hide Inv, Enabled, Do;
    if actions != [] {
      StepKeeps(s, actions[0]);
      RunKeeps(Do(s, actions[0]), actions[1..], t);
    }
  }

  /** In every interleaving without Delete the cache is a subset of the disk, and a successful Put is present. */
  lemma {:induction false} CacheIsSubset(s: State, actions: seq<Action>, t: State)
    requires Init(s) && Reaches(s, actions, t) && NoDelete(actions)
    ensures t.cache <= t.disk.Keys
    ensures forall u :: u in t.threads && t.threads[u].PutDone? && t.threads[u].ok ==> t.threads[u].h in t.disk
  {
    hide Reaches;
    RunKeeps(s, actions, t);
    assert forall u :: u in t.threads ==> ThreadOK(t.disk, t.threads[u]);
  }

  // ----- Replaced bytes ----------------------------------------------------------

  /** A rename of other bytes by a put whose stat had failed. */
  predicate Replaces(s: State, a: Action, h: Hash) {
    && h in s.disk && a.Rename? && a.t in s.threads && s.threads[a.t].Absent?
    && s.threads[a.t].h == h && !s.threads[a.t].clean && s.threads[a.t].data != s.disk[h]
  }

  predicate Removes(a: Action, h: Hash) {
    a.Remove? && a.h == h
  }

  /** A step that does not remove a blob changes its bytes exactly if it is such a rename. */
  lemma StepReplacesIff(s: State, a: Action, h: Hash)
    requires LocksOK(s) && Enabled(s, a) && !Removes(a, h) && h in s.disk
    ensures h in Do(s, a).disk && (Do(s, a).disk[h] != s.disk[h] <==> Replaces(s, a, h))
  {
    hide ValidateHash;
  }

  /** Some step of this run replaces the bytes of a hash. */
  ghost predicate SomeReplaces(s: State, actions: seq<Action>, h: Hash)
    decreases |actions|
  {
    actions != [] && Enabled(s, actions[0]) &&
    (Replaces(s, actions[0], h) || SomeReplaces(Do(s, actions[0]), actions[1..], h))
  }

  /** The bytes of a hash are these in every state of the run. */
  ghost predicate AlwaysHolds(s: State, actions: seq<Action>, h: Hash, data: Bytes)
    decreases |actions|
  {
    && h in s.disk && s.disk[h] == data
    && (actions != [] && Enabled(s, actions[0]) ==> AlwaysHolds(Do(s, actions[0]), actions[1..], h, data))
  }

  /**
   In every interleaving that does not delete a hash, whatever else it deletes, the
   first bytes committed under the hash stay throughout the run exactly if no put of
   other bytes gets past a failed stat to its rename; they are then there at the end.
   */
  lemma {:induction false} FirstBytesStayIff(s: State, actions: seq<Action>, t: State, h: Hash)
    requires LocksOK(s) && Reaches(s, actions, t) && h in s.disk
    requires forall i :: 0 <= i < |actions| ==> !Removes(actions[i], h)
    ensures AlwaysHolds(s, actions, h, s.disk[h]) <==> !SomeReplaces(s, actions, h)
    ensures !SomeReplaces(s, actions, h) ==> h in t.disk && t.disk[h] == s.disk[h]
    decreases |actions|
  {
    hide LocksOK, Enabled, Do, Replaces, Removes;
    if actions != [] {
      var a := actions[0];
      assert !Removes(a, h);
      LocksKept(s, a);
      StepReplacesIff(s, a, h);
      FirstBytesStayIff(Do(s, a), actions[1..], t, h);
      if Replaces(s, a, h) {
        NotHeld(Do(s, a), actions[1..], h, s.disk[h]);
      }
    }
  }

  lemma {:induction false} NotHeld(s: State, actions: seq<Action>, h: Hash, data: Bytes)
    requires h in s.disk && s.disk[h] != data
    ensures !AlwaysHolds(s, actions, h, data)
  {
  }

  /** In particular they stay when no stat fails. */
  lemma {:induction false} CleanStatsReplaceNothing(s: State, actions: seq<Action>, t: State, h: Hash)
    requires Reaches(s, actions, t)
    requires forall i :: 0 <= i < |actions| ==> !(actions[i].Stat? && actions[i].fails)
    requires forall u :: u in s.threads && s.threads[u].Absent? ==> s.threads[u].clean
    ensures !SomeReplaces(s, actions, h)
    decreases |actions|
  {
    hide ValidateHash;
    if actions != [] {
      assert !(actions[0].Stat? && actions[0].fails);
      CleanStatsReplaceNothing(Do(s, actions[0]), actions[1..], t, h);
    }
  }

  // ----- Deletes and the cache ---------------------------------------------------

  /** A delete of this hash has removed the file and not yet dropped the hash. */
  ghost predicate Pending(s: State, h: Hash) {
    exists t :: t in s.threads && s.threads[t] == Deleting(h)
  }

  /** Every cached hash is on disk, or about to be dropped. */
  ghost predicate Covered(s: State) {
    forall h :: h in s.cache ==> h in s.disk || Pending(s, h)
  }

  /** The hash a step puts into the cache. */
  ghost predicate Caches(s: State, a: Action, h: Hash)
    requires Enabled(s, a)
  {
    (a.Merge? && h in s.threads[a.t].found) || (a.AddToCache? && h == s.threads[a.t].h)
  }

  /** The step puts a hash into the cache that is neither on disk nor about to be dropped. */
  ghost predicate Strays(s: State, a: Action)
    requires Enabled(s, a)
  {
    exists h :: Caches(s, a, h) && h !in s.disk && !Pending(s, h)
  }

  /** A pending delete stays pending until it drops its hash. */
  lemma PendingAfter(s: State, a: Action, h: Hash)
    requires Enabled(s, a)
    ensures Pending(s, h) ==> Pending(Do(s, a), h) || (a.Evict? && s.threads[a.t].h == h)
    ensures Pending(Do(s, a), h) ==> Pending(s, h) || Removes(a, h)
  {
    hide ValidateHash;
    var s' := Do(s, a);
    if t :| t in s.threads && s.threads[t] == Deleting(h) {
      assert t == a.t || s'.threads[t] == Deleting(h);
    }
    if t :| t in s'.threads && s'.threads[t] == Deleting(h) {
      assert t == a.t || s.threads[t] == Deleting(h);
    }
  }

  lemma CacheAfter(s: State, a: Action, h: Hash)
    requires Enabled(s, a)
    ensures h in Do(s, a).cache <==> (h in s.cache || Caches(s, a, h)) && !(a.Evict? && s.threads[a.t].h == h)
    ensures h in s.disk && !Removes(a, h) ==> h in Do(s, a).disk
    ensures h in Do(s, a).disk && h !in s.disk ==> a.Rename?
    ensures Removes(a, h) ==> Pending(Do(s, a), h) && h !in Do(s, a).disk
  {
    hide ValidateHash;
    if Removes(a, h) { assert Do(s, a).threads[a.t] == Deleting(h); }
  }

  /** A step leaves the cache covered exactly if it does not stray. */
  lemma CoveredStepIff(s: State, a: Action)
    requires Covered(s) && Enabled(s, a)
    ensures Covered(Do(s, a)) <==> !Strays(s, a)
  {
    hide Enabled, Do, Pending, ValidateHash, Removes, Caches;
    forall h
      ensures h in Do(s, a).cache && h !in Do(s, a).disk && !Pending(Do(s, a), h)
         <==> Caches(s, a, h) && h !in s.disk && !Pending(s, h)
    {
      CacheAfter(s, a, h);
      PendingAfter(s, a, h);
      CachesOnly(s, a, h);
    }
  }

  lemma CachesOnly(s: State, a: Action, h: Hash)
    requires Enabled(s, a)
    ensures Caches(s, a, h) ==> !a.Rename? && !a.Evict? && !Removes(a, h)
  {
  }

  ghost predicate SomeStrays(s: State, actions: seq<Action>)
    decreases |actions|
  {
    actions != [] && Enabled(s, actions[0]) && (Strays(s, actions[0]) || SomeStrays(Do(s, actions[0]), actions[1..]))
  }

  ghost predicate AlwaysCovered(s: State, actions: seq<Action>)
    decreases |actions|
  {
    Covered(s) && (actions != [] && Enabled(s, actions[0]) ==> AlwaysCovered(Do(s, actions[0]), actions[1..]))
  }

  /**
   In every interleaving, deletes included: each cached hash is on disk or about to be
   dropped throughout the run, exactly if no reader merges and no put caches a hash
   whose delete has come and gone since.
   */
  lemma {:induction false} CacheCoveredIff(s: State, actions: seq<Action>, t: State)
    requires Covered(s) && Reaches(s, actions, t)
    ensures AlwaysCovered(s, actions) <==> !SomeStrays(s, actions)
    ensures !SomeStrays(s, actions) ==> Covered(t)
    decreases |actions|
  {
    hide Covered, Enabled, Do, Strays;
    if actions != [] {
      var a := actions[0];
      CoveredStepIff(s, a);
      if !Strays(s, a) {
        CacheCoveredIff(Do(s, a), actions[1..], t);
      } else {
        NotCovered(Do(s, a), actions[1..]);
      }
    }
  }

  lemma {:induction false} NotCovered(s: State, actions: seq<Action>)
    requires !Covered(s)
    ensures !AlwaysCovered(s, actions)
  {
  }

  /** Between deletes, covered means that the cache is a subset of the disk. */
  lemma CoveredAtRest(s: State)
    requires Covered(s) && forall t :: t in s.threads ==> !s.threads[t].Deleting?
    ensures s.cache <= s.disk.Keys
  {
    forall h | h in s.cache ensures h in s.disk.Keys {
      assert h in s.disk || Pending(s, h);
    }
  }

  // ----- Which deletes are harmless ------------------------------------------------

  /** A thread is about to put this hash into the cache. */
  predicate InHand(pc: Pc, h: Hash) {
    (pc.Reading? && h in pc.found) || (pc.Caching? && pc.h == h)
  }

  ghost predicate SomeoneHas(s: State, h: Hash) {
    exists t :: t in s.threads && InHand(s.threads[t], h)
  }

  /** The cache is covered, and whatever a thread is about to cache is on disk. */
  ghost predicate Safe(s: State) {
    Covered(s) && forall h :: SomeoneHas(s, h) ==> h in s.disk
  }

  /** The removal of a hash some thread is about to cache. */
  ghost predicate RemovesInHand(s: State, a: Action) {
    a.Remove? && SomeoneHas(s, a.h)
  }

  lemma HandAfter(s: State, a: Action, h: Hash)
    requires Enabled(s, a)
    ensures SomeoneHas(Do(s, a), h) ==> SomeoneHas(s, h) || h in Do(s, a).disk
    ensures a.Remove? && SomeoneHas(s, h) ==> SomeoneHas(Do(s, a), h)
    ensures Caches(s, a, h) ==> SomeoneHas(s, h)
  {
    hide ValidateHash;
    var s' := Do(s, a);
    if t :| t in s'.threads && InHand(s'.threads[t], h) {
      assert t != a.t ==> InHand(s.threads[t], h);
      assert s.threads[a.t].Reading? && h in s.threads[a.t].found ==> InHand(s.threads[a.t], h);
    }
    if t :| a.Remove? && t in s.threads && InHand(s.threads[t], h) {
      assert InHand(s'.threads[t], h);
    }
    if Caches(s, a, h) { assert InHand(s.threads[a.t], h); }
  }

  /** A step keeps the store safe exactly if it does not remove a hash that a thread is about to cache. */
  lemma SafeStepIff(s: State, a: Action)
    requires Safe(s) && Enabled(s, a)
    ensures Safe(Do(s, a)) <==> !RemovesInHand(s, a)
  {
    hide Enabled, Do, Covered, SomeoneHas, Caches, ValidateHash;
    CoveredStepIff(s, a);
    forall h
      ensures Caches(s, a, h) ==> h in s.disk
      ensures SomeoneHas(Do(s, a), h) && h !in Do(s, a).disk ==> Removes(a, h) && SomeoneHas(s, h)
      ensures Removes(a, h) && SomeoneHas(s, h) ==> SomeoneHas(Do(s, a), h) && h !in Do(s, a).disk
    {
      HandAfter(s, a, h);
      CacheAfter(s, a, h);
    }
  }

  ghost predicate SomeRemovesInHand(s: State, actions: seq<Action>)
    decreases |actions|
  {
    actions != [] && Enabled(s, actions[0]) &&
    (RemovesInHand(s, actions[0]) || SomeRemovesInHand(Do(s, actions[0]), actions[1..]))
  }

  ghost predicate AlwaysSafe(s: State, actions: seq<Action>)
    decreases |actions|
  {
    Safe(s) && (actions != [] && Enabled(s, actions[0]) ==> AlwaysSafe(Do(s, actions[0]), actions[1..]))
  }

  /** Over whole runs: the store is safe throughout exactly if no delete hits a hash that a thread is about to cache. */
  lemma {:induction false} SafeIff(s: State, actions: seq<Action>, t: State)
    requires Safe(s) && Reaches(s, actions, t)
    ensures AlwaysSafe(s, actions) <==> !SomeRemovesInHand(s, actions)
    ensures !SomeRemovesInHand(s, actions) ==> Safe(t)
    decreases |actions|
  {
    hide Safe, Enabled, Do, RemovesInHand;
    if actions != [] {
      var a := actions[0];
      SafeStepIff(s, a);
      if !RemovesInHand(s, a) {
        SafeIff(Do(s, a), actions[1..], t);
      } else {
        NotSafe(Do(s, a), actions[1..]);
      }
    }
  }

  lemma {:induction false} NotSafe(s: State, actions: seq<Action>)
    requires !Safe(s)
    ensures !AlwaysSafe(s, actions)
  {
  }

  lemma InitSafe(s: State)
    requires Init(s)
    ensures Safe(s) && LocksOK(s) && Inv(s)
  {
  }

  // ----- Deletes and puts ----------------------------------------------------------

  /** The step makes a put of a hash return success although the blob is not there. */
  ghost predicate FalseSuccess(s: State, a: Action)
    requires Enabled(s, a)
  {
    var pc := Do(s, a).threads[a.t];
    pc != s.threads[a.t] && pc.PutDone? && pc.ok && pc.h !in Do(s, a).disk
  }

  /** A put finds its hash cached between the two steps of a delete of that hash. */
  ghost predicate TrustsDyingEntry(s: State, a: Action) {
    && a.CheckCache? && a.t in s.threads && s.threads[a.t].Locked?
    && var h := s.threads[a.t].h; h in s.cache && h !in s.disk && Pending(s, h)
  }

  /** In a safe store a put's success is false exactly if the put looked at the cache in the middle of a delete. */
  lemma FalseSuccessIff(s: State, a: Action)
    requires Safe(s) && Enabled(s, a)
    ensures FalseSuccess(s, a) <==> TrustsDyingEntry(s, a)
  {
    hide ValidateHash, Pending;
    if a.AddToCache? {
      assert InHand(s.threads[a.t], s.threads[a.t].h);
      assert SomeoneHas(s, s.threads[a.t].h);
    }
  }

  ghost predicate SomeFalseSuccess(s: State, actions: seq<Action>)
    decreases |actions|
  {
    actions != [] && Enabled(s, actions[0]) &&
    (FalseSuccess(s, actions[0]) || SomeFalseSuccess(Do(s, actions[0]), actions[1..]))
  }

  ghost predicate SomeTrusts(s: State, actions: seq<Action>)
    decreases |actions|
  {
    actions != [] && Enabled(s, actions[0]) &&
    (TrustsDyingEntry(s, actions[0]) || SomeTrusts(Do(s, actions[0]), actions[1..]))
  }

  /**
   In every run from a safe store whose deletes hit no hash a thread is about to
   cache: every put that returns success has its blob on disk at that moment, exactly
   if no put looks at the cache in the middle of a delete of its hash.
   */
  lemma {:induction false} PutsTruthfulIff(s: State, actions: seq<Action>, t: State)
    requires Safe(s) && Reaches(s, actions, t) && !SomeRemovesInHand(s, actions)
    ensures SomeFalseSuccess(s, actions) <==> SomeTrusts(s, actions)
    decreases |actions|
  {
    hide Safe, Enabled, Do, RemovesInHand, FalseSuccess, TrustsDyingEntry;
    if actions != [] {
      FalseSuccessIff(s, actions[0]);
      SafeStepIff(s, actions[0]);
      PutsTruthfulIff(Do(s, actions[0]), actions[1..], t);
    }
  }

  /**
   In every run from a safe store, whatever it deletes, a false success has one of two
   causes: a put looked at the cache in the middle of a delete of its hash, or a delete
   hit a hash that a thread was about to cache.
   */
  lemma {:induction false} FalseSuccessHasCause(s: State, actions: seq<Action>, t: State)
    requires Safe(s) && Reaches(s, actions, t)
    ensures SomeFalseSuccess(s, actions) ==> SomeTrusts(s, actions) || SomeRemovesInHand(s, actions)
    decreases |actions|
  {
    hide Safe, Enabled, Do, RemovesInHand, FalseSuccess, TrustsDyingEntry;
    if actions != [] && !RemovesInHand(s, actions[0]) {
      FalseSuccessIff(s, actions[0]);
      SafeStepIff(s, actions[0]);
      FalseSuccessHasCause(Do(s, actions[0]), actions[1..], t);
    }
  }

  /** A put whose rename failed goes on as a success exactly if the blob is there all the same. */
  lemma FailedRenameForgiven(s: State, t: Tid)
    requires Enabled(s, RenameFails(t))
    ensures var h, s' := s.threads[t].h, Do(s, RenameFails(t));
      s'.threads[t] == (if h in s.disk then Caching(h) else PutDone(h, false)) && s'.disk == s.disk
  {
  }

  // ----- Runs that fail ------------------------------------------------------------

  lemma {:induction false} ReachesCons(s: State, a: Action, mid: State, rest: seq<Action>, t: State)
    requires Enabled(s, a) && Do(s, a) == mid && Reaches(mid, rest, t)
    ensures Reaches(s, [a] + rest, t)
  {
    hide Enabled, Do;
    assert ([a] + rest)[1..] == rest;
  }

  lemma Stays(s: State)
    ensures Reaches(s, [], s)
  {
  }

  /** Two threads on a store that holds this hash, or does not. */
  function Pair(h: Hash, data: Option<Bytes>, cached: bool, first: Pc, second: Pc): State {
    State(if data.Some? then map[h := data.value] else map[], if cached then {h} else {}, map[0 := first, 1 := second])
  }

  /** The second thread removes the file, whatever the first is doing. */
  lemma {:induction false} RemoveRun(h: Hash, data: Bytes, cached: bool, pc: Pc, rest: seq<Action>, t: State)
    requires ValidateHash(h) && Reaches(Pair(h, None, cached, pc, Deleting(h)), rest, t)
    ensures Reaches(Pair(h, Some(data), cached, pc, Ready), [Remove(1, h)] + rest, t)
  {
    hide ValidateHash, Reaches;
    assert map[h := data] - {h} == map[];
    ReachesCons(Pair(h, Some(data), cached, pc, Ready), Remove(1, h), Pair(h, None, cached, pc, Deleting(h)), rest, t);
  }

  /** It then drops the hash from the cache. */
  lemma {:induction false} EvictRun(h: Hash, cached: bool, pc: Pc, rest: seq<Action>, t: State)
    requires Reaches(Pair(h, None, false, pc, Ready), rest, t)
    ensures Reaches(Pair(h, None, cached, pc, Deleting(h)), [Evict(1)] + rest, t)
  {
    hide ValidateHash, Reaches;
    assert {h} - {h} == {} && {} - {h} == {};
    ReachesCons(Pair(h, None, cached, pc, Deleting(h)), Evict(1), Pair(h, None, false, pc, Ready), rest, t);
  }

  /** The first thread looks at the disk and finds the hash. */
  lemma {:induction false} LookRun(h: Hash, data: Bytes, rest: seq<Action>, t: State)
    requires Reaches(Pair(h, Some(data), false, Reading({h}), Ready), rest, t)
    ensures Reaches(Pair(h, Some(data), false, Ready, Ready), [Observe(0, {h})] + rest, t)
  {
    hide ValidateHash, Reaches;
    var s, mid := Pair(h, Some(data), false, Ready, Ready), Pair(h, Some(data), false, Reading({h}), Ready);
    assert {} + {h} == {h};
    ReachesCons(s, Observe(0, {h}), mid, rest, t);
  }

  /** It merges what it found into the cache. */
  lemma {:induction false} MergeRun(h: Hash, data: Option<Bytes>, rest: seq<Action>, t: State)
    requires Reaches(Pair(h, data, true, Ready, Ready), rest, t)
    ensures Reaches(Pair(h, data, false, Reading({h}), Ready), [Merge(0)] + rest, t)
  {
    hide ValidateHash, Reaches;
    assert {} + {h} == {h};
    ReachesCons(Pair(h, data, false, Reading({h}), Ready), Merge(0), Pair(h, data, true, Ready, Ready), rest, t);
  }

  /** A whole delete between a reader's look and its merge leaves a deleted hash in the cache, for good. */
  lemma DeleteBreaksTheCache(h: Hash, data: Bytes)
    requires ValidateHash(h)
    ensures exists s, actions, t ::
      && Init(s) && Reaches(s, actions, t) && h in t.cache && h !in t.disk
      && forall u :: u in t.threads ==> t.threads[u].Ready?
  {
    hide ValidateHash, Reaches;
    var s, t := Pair(h, Some(data), false, Ready, Ready), Pair(h, None, true, Ready, Ready);
    Stays(t);
    MergeRun(h, None, [], t);
    EvictRun(h, false, Reading({h}), [Merge(0)] + [], t);
    RemoveRun(h, data, false, Reading({h}), [Evict(1)] + ([Merge(0)] + []), t);
    LookRun(h, data, [Remove(1, h)] + ([Evict(1)] + ([Merge(0)] + [])), t);
    assert Init(s);
  }

  /** The first thread takes the lock in the middle of a delete and trusts the cache. */
  lemma {:induction false} TrustingCheck(h: Hash, data: Bytes, rest: seq<Action>, t: State)
    requires Reaches(Pair(h, None, true, PutDone(h, true), Deleting(h)), rest, t)
    ensures Reaches(Pair(h, None, true, Waiting(h, data), Deleting(h)), [Lock(0)] + ([CheckCache(0)] + rest), t)
  {
    hide ValidateHash, Reaches;
    var s1, s2 := Pair(h, None, true, Waiting(h, data), Deleting(h)), Pair(h, None, true, Locked(h, data), Deleting(h));
    ReachesCons(s2, CheckCache(0), Pair(h, None, true, PutDone(h, true), Deleting(h)), rest, t);
    assert forall u :: u in s1.threads ==> !Holds(s1.threads[u], h);
    ReachesCons(s1, Lock(0), s2, [CheckCache(0)] + rest, t);
  }

  lemma {:induction false} TrustingPut(h: Hash, data: Bytes, rest: seq<Action>, t: State)
    requires ValidateHash(h) && Reaches(Pair(h, None, true, PutDone(h, true), Deleting(h)), rest, t)
    ensures var put := [StartPut(0, h, data)] + ([Lock(0)] + ([CheckCache(0)] + rest));
      Reaches(Pair(h, None, true, Ready, Deleting(h)), put, t)
  {
    hide ValidateHash, Reaches;
    TrustingCheck(h, data, rest, t);
    var s, s1 := Pair(h, None, true, Ready, Deleting(h)), Pair(h, None, true, Waiting(h, data), Deleting(h));
    ReachesCons(s, StartPut(0, h, data), s1, [Lock(0)] + ([CheckCache(0)] + rest), t);
  }

  /** A put that runs between the two steps of a delete reports success for a blob that is gone. */
  lemma DeleteMisleadsPut(h: Hash, data: Bytes)
    requires ValidateHash(h)
    ensures exists s, actions, t ::
      && Init(s) && Reaches(s, actions, t) && h !in t.disk && h !in t.cache
      && 0 in t.threads && t.threads[0] == PutDone(h, true)
  {
    hide ValidateHash, Reaches;
    var s, t := Pair(h, Some(data), false, Ready, Ready), Pair(h, None, false, PutDone(h, true), Ready);
    Stays(t);
    EvictRun(h, true, PutDone(h, true), [], t);
    TrustingPut(h, data, [Evict(1)] + [], t);
    var put := [StartPut(0, h, data)] + ([Lock(0)] + ([CheckCache(0)] + ([Evict(1)] + [])));
    RemoveRun(h, data, true, Ready, put, t);
    MergeRun(h, Some(data), [Remove(1, h)] + put, t);
    LookRun(h, data, [Merge(0)] + ([Remove(1, h)] + put), t);
    assert Init(s);
  }

  /** The states of a put of other bytes whose stat fails. */
  function PutStage(h: Hash, was: Bytes, pc: Pc): State {
    State(map[h := was], {}, map[0 := pc])
  }

  lemma FailedStatRun(h: Hash, was: Bytes, data: Bytes)
    ensures var s, t := PutStage(h, was, Missed(h, data)), PutStage(h, data, Caching(h));
      Reaches(s, [Stat(0, true)] + ([Rename(0)] + []), t)
  {
    hide ValidateHash, Reaches;
    var s4, t := PutStage(h, was, Absent(h, data, false)), PutStage(h, data, Caching(h));
    assert Do(s4, Rename(0)) == t;
    Stays(t);
    ReachesCons(s4, Rename(0), t, [], t);
    ReachesCons(PutStage(h, was, Missed(h, data)), Stat(0, true), s4, [Rename(0)] + [], t);
  }

  lemma {:induction false} PutRun(h: Hash, was: Bytes, data: Bytes, rest: seq<Action>, t: State)
    requires ValidateHash(h) && Reaches(PutStage(h, was, Missed(h, data)), rest, t)
    ensures Reaches(PutStage(h, was, Ready), [StartPut(0, h, data)] + ([Lock(0)] + ([CheckCache(0)] + rest)), t)
  {
    hide ValidateHash, Reaches;
    var s1, s2 := PutStage(h, was, Waiting(h, data)), PutStage(h, was, Locked(h, data));
    ReachesCons(s2, CheckCache(0), PutStage(h, was, Missed(h, data)), rest, t);
    assert forall u :: u in s1.threads ==> !Holds(s1.threads[u], h);
    ReachesCons(s1, Lock(0), s2, [CheckCache(0)] + rest, t);
    ReachesCons(PutStage(h, was, Ready), StartPut(0, h, data), s1, [Lock(0)] + ([CheckCache(0)] + rest), t);
  }

  /** From the start of a store over an existing blob: a put whose stat fails replaces the blob's bytes. */
  lemma FailedStatReplaces(h: Hash, was: Bytes, data: Bytes)
    requires ValidateHash(h)
    ensures exists s, actions, t ::
      && Init(s) && h in s.disk && s.disk[h] == was && NoDelete(actions) && Reaches(s, actions, t)
      && h in t.disk && t.disk[h] == data
  {
    hide ValidateHash, Reaches;
    var rest := [Stat(0, true)] + ([Rename(0)] + []);
    FailedStatRun(h, was, data);
    PutRun(h, was, data, rest, PutStage(h, data, Caching(h)));
    assert NoDelete([StartPut(0, h, data)] + ([Lock(0)] + ([CheckCache(0)] + rest)));
    assert Init(PutStage(h, was, Ready));
  }
}
