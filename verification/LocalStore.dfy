/**
 The local blob store of simple/local_store.go: blobs on disk, an in-memory set
 of hashes known to exist, and the operations on both, one call at a time. The
 interleavings of concurrent calls are in StoreThreads.
 */
module LocalStore {
  import opened ByteSeqs
  import opened Hashing

  /** How os.Stat answers for a blob path: truthfully, or with one of two kinds of failure. */
  datatype StatFault = Truthful | PermissionFault | OtherFault

  /** Which steps of one put succeed: writing and syncing the staging file, the rename, the sync of the directory. */
  datatype PutSteps = PutSteps(written: bool, renamed: bool, synced: bool) {
    predicate Places() { written && renamed }

    predicate Works() { Places() && synced }
  }

  datatype StoreError = NoError | InvalidHash | PermissionDenied | OtherError

  /** A store at one moment: what is on disk, what is cached, and how stat behaves. */
  datatype View = View(disk: map<Hash, Bytes>, cache: set<Hash>, faults: Hash -> StatFault) {
    /** What a caller can learn about a hash: cached, or seen by a truthful stat. */
    predicate Present(h: Hash) {
      ValidateHash(h) && (h in cache || (faults(h).Truthful? && h in disk))
    }

    predicate Denied(h: Hash) {
      ValidateHash(h) && h !in cache && faults(h).PermissionFault?
    }

    /** The answer both paths of blobsExist give: a permission failure, or the presence of each hash. */
    predicate Answers(hashes: seq<Hash>, r: Option<map<Hash, bool>>) {
      if exists h :: h in hashes && Denied(h) then r.None?
      else
        && r.Some? && (forall h :: h in r.value ==> h in hashes)
        && (forall h :: h in hashes ==> h in r.value && r.value[h] == Present(h))
    }
  }

  /** The answer is determined by the store alone, so the two paths cannot differ. */
  lemma AnswerIsUnique(v: View, hashes: seq<Hash>, r: Option<map<Hash, bool>>, r': Option<map<Hash, bool>>)
    requires v.Answers(hashes, r) && v.Answers(hashes, r')
    ensures r == r'
  {
    hide ValidateHash;
    if !exists h :: h in hashes && v.Denied(h) {
      assert r.value.Keys == r'.value.Keys;
      assert r.value == r'.value;
    }
  }

  datatype Batch = Known(present: map<Hash, bool>) | BatchError(error: StoreError)

  class LocalBlobStore {
    var disk: map<Hash, Bytes>
    var existsSet: set<Hash>
    const faults: Hash -> StatFault
    const steps: nat -> PutSteps   // how the n-th put fares
    const removable: Hash -> bool  // whether os.Remove works on a blob
    var puts: nat
    ghost var failedPuts: nat  // how many puts have returned an error

    /** The cache agrees with the disk, and every blob has a proper name. */
    ghost predicate Valid()
      reads this
    {
      existsSet <= disk.Keys && forall h :: h in disk ==> ValidateHash(h)
    }

    constructor (disk: map<Hash, Bytes>, faults: Hash -> StatFault, steps: nat -> PutSteps, removable: Hash -> bool)
      requires forall h :: h in disk ==> ValidateHash(h)
      ensures Valid() && this.disk == disk && existsSet == {}
      ensures this.faults == faults && this.steps == steps && this.removable == removable
    {
      this.disk, existsSet := disk, {};
      this.faults, this.steps, this.removable := faults, steps, removable;
      puts, failedPuts := 0, 0;
    }

    ghost function Now(): View
      reads this
    {
      View(disk, existsSet, faults)
    }

    /** os.Stat on the blob path of a valid hash. */
    method Stat(h: Hash) returns (found: bool, err: StoreError)
      ensures err.NoError? <==> faults(h).Truthful?
      ensures err.PermissionDenied? <==> faults(h).PermissionFault?
      ensures !err.InvalidHash? && (found <==> err.NoError? && h in disk)
    {
      match faults(h)
      case Truthful => found, err := h in disk, NoError;
      case PermissionFault => found, err := false, PermissionDenied;
      case OtherFault => found, err := false, OtherError;
    }

    /**
     putBlob. It succeeds exactly if the hash is valid and it is known or seen to be
     there, or all steps of the put work; then the hash is present. A blob that is
     known or seen to be there is never replaced; otherwise the rename decides.
     */
    method Put(hash: Hash, data: Bytes) returns (err: StoreError)
      requires Valid()
      modifies this
      ensures Valid()
      ensures !ValidateHash(hash) <==> err.InvalidHash?
      ensures err.NoError? <==>
        && ValidateHash(hash)
        && (old(Now()).Present(hash) || steps(old(puts)).Works())
      ensures err.NoError? ==> hash in disk
      ensures disk == if ValidateHash(hash) && !old(Now()).Present(hash) && steps(old(puts)).Places()
        then old(disk)[hash := data] else old(disk)
      ensures existsSet == old(existsSet) + if err.NoError? then {hash} else {}
      ensures puts == old(puts) + 1 && failedPuts == old(failedPuts) + if err.NoError? then 0 else 1
    {
      err := TryPut(hash, data, steps(puts));
      puts := puts + 1;
      if err != NoError { failedPuts := failedPuts + 1; }
    }

    method TryPut(hash: Hash, data: Bytes, how: PutSteps) returns (err: StoreError)
      requires Valid()
      modifies this`disk, this`existsSet
      ensures Valid()
      ensures !ValidateHash(hash) <==> err.InvalidHash?
      ensures err.NoError? <==>
        && ValidateHash(hash)
        && (old(Now()).Present(hash) || how.Works())
      ensures err.NoError? ==> hash in disk
      ensures disk == if ValidateHash(hash) && !old(Now()).Present(hash) && how.Places()
        then old(disk)[hash := data] else old(disk)
      ensures existsSet == old(existsSet) + if err.NoError? then {hash} else {}
    {
      if !ValidateHash(hash) { return InvalidHash; }
      if hash in existsSet { return NoError; }
      var found, statErr := Stat(hash);
      if statErr.NoError? && found {
        existsSet := existsSet + {hash};
        return NoError;
      }
      if !how.written { return OtherError; }
      if !how.renamed {
        // The source looks once more for a blob another process may have renamed meanwhile;
        // between calls of one store there is none.
        return OtherError;
      }
      disk := disk[hash := data];
      if !how.synced { return OtherError; }
      existsSet := existsSet + {hash};
      return NoError;
    }

    method Exists(hash: Hash) returns (present: bool, err: StoreError)
      requires Valid()
      modifies this`existsSet
      ensures Valid() && existsSet == old(existsSet) + if present then {hash} else {}
      ensures present <==> ValidateHash(hash) && (hash in old(existsSet) || (faults(hash).Truthful? && hash in disk))
      ensures !ValidateHash(hash) <==> err.InvalidHash?
      ensures err.PermissionDenied? <==>
        ValidateHash(hash) && hash !in old(existsSet) && faults(hash).PermissionFault?
      ensures err != NoError ==> !present
      ensures existsSet == old(existsSet) || faults(hash).Truthful?
    {
      if !ValidateHash(hash) { return false, InvalidHash; }
      if hash in existsSet { return true, NoError; }
      var found, statErr := Stat(hash);
      if statErr.NoError? && found {
        existsSet := existsSet + {hash};
        return true, NoError;
      }
      return false, statErr;
    }

    /** One pass over the cache, stats for the misses, one merge of what was found. */
    method ExistsBatch(hashes: seq<Hash>) returns (r: Batch)
      requires Valid()
      modifies this`existsSet
      ensures Valid() && old(existsSet) <= existsSet
      ensures forall h :: h in existsSet ==> h in old(existsSet) || (h in hashes && faults(h).Truthful? && h in disk)
      ensures r.Known? ==> forall h :: h in r.present ==> h in hashes && r.present[h]
      ensures r.Known? ==> forall h :: h in hashes ==>
                (h in r.present <==> old(Now()).Present(h)) && ValidateHash(h) && !old(Now()).Denied(h)
      ensures r.BatchError? && r.error.PermissionDenied? ==> exists h :: h in hashes && old(Now()).Denied(h)
    {
      var result: map<Hash, bool> := map[];
      var missing: seq<Hash> := [];
      for i := 0 to |hashes|
        invariant forall h :: h in result ==> h in hashes[..i] && h in existsSet && result[h]
        invariant forall j :: 0 <= j < i ==> ValidateHash(hashes[j]) && (hashes[j] in existsSet ==> hashes[j] in result)
        invariant forall j :: 0 <= j < i && hashes[j] !in existsSet ==> hashes[j] in missing
        invariant forall h :: h in missing ==> h in hashes[..i] && h !in existsSet
      {
        var h := hashes[i];
        if !ValidateHash(h) { return BatchError(InvalidHash); }
        if h in existsSet {
          result := result[h := true];
        } else {
          missing := missing + [h];
        }
      }
      var found: set<Hash>;
      var err: StoreError;
      result, found, err := StatMissing(hashes, missing, result);
      if err != NoError { return BatchError(err); }
      existsSet := existsSet + found;
      return Known(result);
    }

    method StatMissing(ghost hashes: seq<Hash>, missing: seq<Hash>, cached: map<Hash, bool>)
      returns (result: map<Hash, bool>, found: set<Hash>, err: StoreError)
      requires Valid()
      requires forall h :: h in cached ==> h in hashes && h in existsSet && cached[h]
      requires forall h :: h in missing ==> h in hashes && h !in existsSet && ValidateHash(h)
      ensures forall h :: h in found ==> h in missing && faults(h).Truthful? && h in disk
      ensures forall h :: h in result ==> result[h] && (h in cached || h in found)
      ensures forall h :: h in cached || h in found ==> h in result
      ensures err.NoError? ==> forall h :: h in missing ==> faults(h).Truthful? && (h in found <==> h in disk)
      ensures err.PermissionDenied? ==> exists h :: h in missing && Now().Denied(h)
      ensures !err.InvalidHash?
    {
      result, found := cached, {};
      for i := 0 to |missing|
        invariant forall h :: h in found ==> h in missing && faults(h).Truthful? && h in disk
        invariant forall h :: h in result ==> result[h] && (h in cached || h in found)
        invariant forall h :: h in cached || h in found ==> h in result
        invariant forall j :: 0 <= j < i ==>
            faults(missing[j]).Truthful? && (missing[j] in found <==> missing[j] in disk)
      {
        var h := missing[i];
        var seen, statErr := Stat(h);
        if statErr != NoError {
          assert h in missing;
          return result, found, statErr;
        }
        if seen {
          result, found := result[h := true], found + {h};
        }
      }
      err := NoError;
    }

    /** Directory listings: the blobs in readable directories are cached. */
    method WarmExistsCache(readable: Hash -> bool)
      requires Valid()
      modifies this`existsSet
      ensures Valid() && existsSet == old(existsSet) + set h | h in disk && readable(h)
    {
      var newEntries: set<Hash> := {};
      var rest := disk.Keys;
      while rest != {}
        invariant rest <= disk.Keys && newEntries == set h | h in disk && h !in rest && readable(h)
      {
        var h :| h in rest;
        if readable(h) { newEntries := newEntries + {h}; }
        rest := rest - {h};
      }
      existsSet := existsSet + newEntries;
    }

    method Delete(hash: Hash) returns (err: StoreError)
      requires Valid()
      modifies this`disk, this`existsSet
      ensures Valid()
      ensures !ValidateHash(hash) <==> err.InvalidHash?
      ensures err.NoError? <==> ValidateHash(hash) && (removable(hash) || hash !in old(disk))
      ensures err.NoError? ==> disk == old(disk) - {hash} && existsSet == old(existsSet) - {hash}
      ensures !err.NoError? ==> disk == old(disk) && existsSet == old(existsSet)
    {
      if !ValidateHash(hash) { return InvalidHash; }
      if !removable(hash) && hash in disk { return OtherError; }
      disk := disk - {hash};
      existsSet := existsSet - {hash};
      return NoError;
    }

    // ----- blobsExist (simple/pipeline.go) ----------------------------------

    /** Deduplicate, then ask for the batch or hash by hash. */
    method BlobsExist(hashes: seq<Hash>, batching: bool) returns (r: Option<map<Hash, bool>>)
      requires Valid()
      modifies this`existsSet
      ensures Valid() && old(existsSet) <= existsSet
      ensures old(Now()).Answers(hashes, r)
    {
      var result: map<Hash, bool> := map[];
      var uniq: seq<Hash> := [];
      for i := 0 to |hashes|
        invariant forall h :: h in result <==> h in hashes[..i]
        invariant forall h :: h in uniq <==> h in hashes[..i]
        invariant forall h :: h in result ==> !result[h]
      {
        var h := hashes[i];
        if h !in result {
          result := result[h := false];
          uniq := uniq + [h];
        }
      }
      assert hashes[..|hashes|] == hashes;
      if batching {
        var batch := ExistsBatch(uniq);
        if batch.Known? {
          return Some(map h | h in result :: h in batch.present);
        }
        if batch.error.PermissionDenied? { return None; }
      }
      r := ExistsEach(uniq, result);
    }

    /** The per-hash path: permission failures abort, every other failure counts as missing. */
    method ExistsEach(uniq: seq<Hash>, start: map<Hash, bool>) returns (r: Option<map<Hash, bool>>)
      requires Valid() && (forall h :: h in start <==> h in uniq) && forall h :: h in start ==> !start[h]
      modifies this`existsSet
      ensures Valid() && old(existsSet) <= existsSet
      ensures old(Now()).Answers(uniq, r)
    {
      var result := start;
      for i := 0 to |uniq|
        invariant Valid() && old(existsSet) <= existsSet
        invariant forall h :: h in existsSet ==> h in old(existsSet) || faults(h).Truthful?
        invariant forall h :: h in result <==> h in uniq
        invariant forall j :: 0 <= j < i ==>
            result[uniq[j]] == old(Now()).Present(uniq[j]) && !old(Now()).Denied(uniq[j])
        invariant forall h :: h in uniq && result[h] ==> old(Now()).Present(h)
      {
        var h := uniq[i];
        var present, err := Exists(h);
        if err.PermissionDenied? {
          assert old(Now()).Denied(h);
          return None;
        }
        if err.NoError? && present {
          result := result[h := true];
        }
      }
      return Some(result);
    }
  }
}
