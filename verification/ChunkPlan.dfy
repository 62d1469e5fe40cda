/**
 Chunk lists and the plan of an upload: which bytes uploadChangedChunks puts
 under which hash, as a function of what the second read of the file returns.
 */
module ChunkPlan {
  import opened ByteSeqs
  import opened Primitives
  import opened Hashing
  import opened ManifestTypes

  // ----- Chunk lists ---------------------------------------------------------

  /** The chunk list of a file read as these pieces. */
  function Refs(c: Primitives, pieces: seq<Bytes>): (refs: seq<ChunkRef>)
    ensures |refs| == |pieces|
    ensures forall i :: 0 <= i < |refs| ==> refs[i] == ChunkRef(SHA256Bytes(c, pieces[i]), |pieces[i]|)
  {
    seq(|pieces|, i requires 0 <= i < |pieces| => ChunkRef(SHA256Bytes(c, pieces[i]), |pieces[i]|))
  }

  predicate NonEmpty(pieces: seq<Bytes>) {
    forall i :: 0 <= i < |pieces| ==> pieces[i] != []
  }

  lemma {:induction false} RefsSum(c: Primitives, pieces: seq<Bytes>)
    ensures ChunkSum(Refs(c, pieces)) == |Flatten(pieces)|
  {
    hide SHA256Bytes;
    if pieces != [] {
      RefsSum(c, pieces[1..]);
      assert Refs(c, pieces)[1..] == Refs(c, pieces[1..]);
    }
  }

  /** Fixed-size pieces of at most `cs` bytes. */
  function Pieces(cs: int, data: Bytes): (pieces: seq<Bytes>)
    requires cs > 0
    ensures NonEmpty(pieces) && Flatten(pieces) == data
    ensures forall i :: 0 <= i < |pieces| ==> |pieces[i]| <= cs
    decreases |data|
  {
    if data == [] then []
    else
      var n := Min(cs, |data|);
      assert data == data[..n] + data[n..];
      var rest := Pieces(cs, data[n..]);
      assert ([data[..n]] + rest)[1..] == rest;
      [data[..n]] + rest
  }

  // ----- The plan ------------------------------------------------------------

  /** The puts of an upload in order, and whether it ends without an error. */
  datatype Plan = Plan(puts: seq<(Hash, Bytes)>, ok: bool)

  function Put(h: Hash, data: Bytes, rest: Plan): Plan {
    Plan([(h, data)] + rest.puts, rest.ok)
  }

  /** Uploading retained bytes: chunks known to be present are passed over. */
  function MemPlan(chunks: seq<ChunkRef>, data: seq<Bytes>, present: Hash -> bool): Plan
    requires |data| == |chunks|
  {
    if chunks == [] then Plan([], true)
    else
      var rest := MemPlan(chunks[1..], data[1..], present);
      if present(chunks[0].hash) then rest else Put(chunks[0].hash, data[0], rest)
  }

  /**
   Uploading from a second read: a read cut short inside a chunk or bytes that do
   not match the chunk's hash end it with an error, a read that ends between two
   chunks ends it silently.
   */
  function ReadPlan(c: Primitives, bufSize: nat, chunks: seq<ChunkRef>, file: Bytes, present: Hash -> bool): Plan
    requires forall i :: 0 <= i < |chunks| ==> chunks[i].size >= 0
  {
    if chunks == [] then Plan([], true)
    else
      var h, want := chunks[0].hash, Min(chunks[0].size, bufSize);
      var n := Min(want, |file|);
      if 0 < n < want then Plan([], false)
      else if n == 0 then Plan([], true)
      else if present(h) then ReadPlan(c, bufSize, chunks[1..], file[n..], present)
      else if SHA256Bytes(c, file[..n]) != h then Plan([], false)
      else Put(h, file[..n], ReadPlan(c, bufSize, chunks[1..], file[n..], present))
  }

  lemma MemPlanNil(present: Hash -> bool)
    ensures MemPlan([], [], present) == Plan([], true)
  {
  }

  lemma MemPlanUnfold(chunks: seq<ChunkRef>, data: seq<Bytes>, present: Hash -> bool)
    requires |data| == |chunks| > 0
    ensures var rest := MemPlan(chunks[1..], data[1..], present);
      MemPlan(chunks, data, present) == if present(chunks[0].hash) then rest else Put(chunks[0].hash, data[0], rest)
  {
  }

  lemma ReadPlanNil(c: Primitives, bufSize: nat, file: Bytes, present: Hash -> bool)
    ensures ReadPlan(c, bufSize, [], file, present) == Plan([], true)
  {
  }

  lemma ReadPlanUnfold(c: Primitives, bufSize: nat, chunks: seq<ChunkRef>, file: Bytes, present: Hash -> bool)
    requires chunks != [] && forall i :: 0 <= i < |chunks| ==> chunks[i].size >= 0
    ensures var h, want := chunks[0].hash, Min(chunks[0].size, bufSize);
      var n := Min(want, |file|);
      ReadPlan(c, bufSize, chunks, file, present) ==
        if 0 < n < want then Plan([], false)
        else if n == 0 then Plan([], true)
        else if present(h) then ReadPlan(c, bufSize, chunks[1..], file[n..], present)
        else if SHA256Bytes(c, file[..n]) != h then Plan([], false)
        else Put(h, file[..n], ReadPlan(c, bufSize, chunks[1..], file[n..], present))
  {
    hide SHA256Bytes;
  }

  /** The retained bytes are used when there is one buffer for each chunk. */
  predicate InMemory(chunks: seq<ChunkRef>, data: seq<Bytes>) {
    |chunks| > 0 && |data| == |chunks|
  }

  predicate UsableKey(key: Bytes) {
    key == [] || ValidKey(key)
  }

  function UploadPlan(c: Primitives, key: Bytes, bufSize: nat, chunks: seq<ChunkRef>, data: seq<Bytes>, file: Bytes,
                      present: Hash -> bool): Plan
    requires forall i :: 0 <= i < |chunks| ==> chunks[i].size >= 0
  {
    if forall i :: 0 <= i < |chunks| ==> present(chunks[i].hash) then Plan([], true)
    else if !UsableKey(key) then Plan([], false)
    else if InMemory(chunks, data) then MemPlan(chunks, data, present)
    else ReadPlan(c, bufSize, chunks, file, present)
  }

  /** Every put stores bytes under their own hash. */
  ghost predicate HonestPuts(c: Primitives, puts: seq<(Hash, Bytes)>) {
    forall i :: 0 <= i < |puts| ==> SHA256Bytes(c, puts[i].1) == puts[i].0
  }

  /** The pieces not known to be present, under their hashes. */
  function Missing(c: Primitives, pieces: seq<Bytes>, present: Hash -> bool): seq<(Hash, Bytes)> {
    if pieces == [] then []
    else
      var h, rest := SHA256Bytes(c, pieces[0]), Missing(c, pieces[1..], present);
      if present(h) then rest else [(h, pieces[0])] + rest
  }

  lemma {:induction false} MemPlanExact(c: Primitives, pieces: seq<Bytes>, present: Hash -> bool)
    ensures MemPlan(Refs(c, pieces), pieces, present) == Plan(Missing(c, pieces, present), true)
  {
    hide SHA256Bytes;
    if pieces != [] {
      MemPlanExact(c, pieces[1..], present);
      assert Refs(c, pieces)[1..] == Refs(c, pieces[1..]);
    }
  }

  lemma {:induction false} ReadPlanHonest(c: Primitives, bufSize: nat, chunks: seq<ChunkRef>, file: Bytes,
                                          present: Hash -> bool)
    requires forall i :: 0 <= i < |chunks| ==> chunks[i].size >= 0
    ensures HonestPuts(c, ReadPlan(c, bufSize, chunks, file, present).puts)
    decreases |chunks|
  {
    hide SHA256Bytes;
    if chunks != [] {
      var n := Min(Min(chunks[0].size, bufSize), |file|);
      if n > 0 {
        ReadPlanHonest(c, bufSize, chunks[1..], file[n..], present);
      }
    }
  }

  lemma {:induction false} MissingHonest(c: Primitives, pieces: seq<Bytes>, present: Hash -> bool)
    ensures HonestPuts(c, Missing(c, pieces, present))
  {
    hide SHA256Bytes;
    if pieces != [] { MissingHonest(c, pieces[1..], present); }
  }

  /** Whatever the second read returns, no bytes are stored under a hash that is not theirs. */
  lemma UploadIsHonest(c: Primitives, key: Bytes, bufSize: nat, pieces: seq<Bytes>, data: seq<Bytes>, file: Bytes,
                       present: Hash -> bool)
    requires |data| == |pieces| ==> data == pieces
    ensures HonestPuts(c, UploadPlan(c, key, bufSize, Refs(c, pieces), data, file, present).puts)
  {
    hide SHA256Bytes, MemPlan, ReadPlan, Missing;
    MemPlanExact(c, pieces, present);
    MissingHonest(c, pieces, present);
    ReadPlanHonest(c, bufSize, Refs(c, pieces), file, present);
  }

  lemma FlattenFront(pieces: seq<Bytes>, k: nat)
    requires 0 < k <= |pieces|
    ensures Flatten(pieces[..k]) == pieces[0] + Flatten(pieces[1..][..k - 1])
  {
    assert pieces[..k][0] == pieces[0] && pieces[..k][1..] == pieces[1..][..k - 1];
  }

  lemma PrefixRest(head: Bytes, tail: Bytes, file: Bytes)
    requires head + tail <= file
    ensures file[..|head|] == head && tail <= file[|head|..]
    ensures head + tail == file ==> file[|head|..] == tail
  {
    assert file[..|head| + |tail|] == head + tail;
    assert file[|head|..][..|tail|] == file[|head|..|head| + |tail|] == tail;
  }

  lemma RefsTail(c: Primitives, pieces: seq<Bytes>)
    requires pieces != []
    ensures Refs(c, pieces)[1..] == Refs(c, pieces[1..])
  {
    hide SHA256Bytes;
  }

  lemma MissingUnfold(c: Primitives, pieces: seq<Bytes>, k: nat, present: Hash -> bool)
    requires 0 < k <= |pieces|
    ensures var h, rest := SHA256Bytes(c, pieces[0]), Missing(c, pieces[1..][..k - 1], present);
      Missing(c, pieces[..k], present) == if present(h) then rest else [(h, pieces[0])] + rest
  {
    hide SHA256Bytes;
    assert pieces[..k][0] == pieces[0] && pieces[..k][1..] == pieces[1..][..k - 1];
  }

  /** The second read repeats the first `k` pieces and stops there, or goes on with anything. */
  lemma {:induction false} ReadPlanRepeats(c: Primitives, bufSize: nat, pieces: seq<Bytes>, k: nat, file: Bytes,
                                           present: Hash -> bool)
    requires NonEmpty(pieces) && k <= |pieces| && forall i :: 0 <= i < |pieces| ==> |pieces[i]| <= bufSize
    requires Flatten(pieces[..k]) <= file && (k < |pieces| ==> Flatten(pieces[..k]) == file)
    ensures ReadPlan(c, bufSize, Refs(c, pieces), file, present) == Plan(Missing(c, pieces[..k], present), true)
    decreases |pieces|
  {
    hide SHA256Bytes, ReadPlan, Missing, Flatten;
    if k == 0 {
      assert pieces[..0] == [];
      NothingLeft(c, bufSize, [], [], present);
      NothingLeft(c, bufSize, pieces, file, present);
    } else {
      var head, rest := pieces[0], pieces[1..];
      FlattenFront(pieces, k);
      PrefixRest(head, Flatten(rest[..k - 1]), file);
      RefsTail(c, pieces);
      MissingUnfold(c, pieces, k, present);
      ReadPlanUnfold(c, bufSize, Refs(c, pieces), file, present);
      ReadPlanRepeats(c, bufSize, rest, k - 1, file[|head|..], present);
    }
  }

  /** No chunk to read, or nothing to read it from. */
  lemma NothingLeft(c: Primitives, bufSize: nat, pieces: seq<Bytes>, file: Bytes, present: Hash -> bool)
    requires pieces != [] ==> file == []
    ensures ReadPlan(c, bufSize, Refs(c, pieces), file, present) == Plan([], true) && Missing(c, [], present) == []
    ensures Flatten([]) == []
  {
  }

  /** A second read that stops inside a chunk is an error. */
  lemma {:induction false} ReadPlanCut(c: Primitives, bufSize: nat, pieces: seq<Bytes>, k: nat, part: Bytes,
                                       present: Hash -> bool)
    requires NonEmpty(pieces) && k < |pieces| && forall i :: 0 <= i < |pieces| ==> |pieces[i]| <= bufSize
    requires part != [] && |part| < |pieces[k]|
    ensures !ReadPlan(c, bufSize, Refs(c, pieces), Flatten(pieces[..k]) + part, present).ok
    decreases |pieces|
  {
    hide SHA256Bytes, ReadPlan, Flatten;
    var file := Flatten(pieces[..k]) + part;
    ReadPlanUnfold(c, bufSize, Refs(c, pieces), file, present);
    if k == 0 {
      NothingLeft(c, bufSize, [], [], present);
      assert pieces[..0] == [] && file == part;
    } else {
      var head, tail := pieces[0], Flatten(pieces[1..][..k - 1]);
      FlattenFront(pieces, k);
      ConcatAssoc(head, tail, part);
      PrefixRest(head, tail + part, file);
      RefsTail(c, pieces);
      ReadPlanCut(c, bufSize, pieces[1..], k - 1, part, present);
    }
  }

  // ----- Completeness --------------------------------------------------------

  ghost predicate IsPut(puts: seq<(Hash, Bytes)>, h: Hash) {
    exists j :: 0 <= j < |puts| && puts[j].0 == h
  }

  /** Each chunk is known to be present or is put. */
  ghost predicate Covers(chunks: seq<ChunkRef>, puts: seq<(Hash, Bytes)>, present: Hash -> bool) {
    forall i :: 0 <= i < |chunks| ==> present(chunks[i].hash) || IsPut(puts, chunks[i].hash)
  }

  lemma {:induction false} MemPlanPutsAbsent(chunks: seq<ChunkRef>, data: seq<Bytes>, present: Hash -> bool)
    requires |data| == |chunks|
    ensures forall put :: put in MemPlan(chunks, data, present).puts ==> !present(put.0)
  {
    if chunks != [] { MemPlanPutsAbsent(chunks[1..], data[1..], present); }
  }

  lemma {:induction false} ReadPlanPutsAbsent(c: Primitives, bufSize: nat, chunks: seq<ChunkRef>, file: Bytes,
                                              present: Hash -> bool)
    requires forall i :: 0 <= i < |chunks| ==> chunks[i].size >= 0
    ensures forall put :: put in ReadPlan(c, bufSize, chunks, file, present).puts ==> !present(put.0)
    decreases |chunks|
  {
    hide SHA256Bytes;
    if chunks != [] {
      ReadPlanPutsAbsent(c, bufSize, chunks[1..], file[Min(Min(chunks[0].size, bufSize), |file|)..], present);
    }
  }

  /** Whatever the second read returns: nothing that is present is put, and without a usable key nothing is. */
  lemma UploadPutsAbsent(c: Primitives, key: Bytes, bufSize: nat, chunks: seq<ChunkRef>, data: seq<Bytes>, file: Bytes,
                         present: Hash -> bool)
    requires forall i :: 0 <= i < |chunks| ==> chunks[i].size >= 0
    ensures var plan := UploadPlan(c, key, bufSize, chunks, data, file, present);
      && (forall put :: put in plan.puts ==> !present(put.0))
      && (key != [] && !ValidKey(key) ==> plan.puts == [])
  {
    hide MemPlan, ReadPlan;
    if InMemory(chunks, data) { MemPlanPutsAbsent(chunks, data, present); }
    ReadPlanPutsAbsent(c, bufSize, chunks, file, present);
  }

  function PutBytes(puts: seq<(Hash, Bytes)>): nat {
    if puts == [] then 0 else PutBytes(puts[..|puts| - 1]) + |puts[|puts| - 1].1|
  }

  lemma {:induction false} PutBytesFront(put: (Hash, Bytes), puts: seq<(Hash, Bytes)>)
    ensures PutBytes([put] + puts) == |put.1| + PutBytes(puts)
  {
    if puts == [] {
      assert [put] + puts == [put] && [put][..0] == [];
      assert PutBytes([put]) == PutBytes([]) + |put.1|;
    } else {
      var init := puts[..|puts| - 1];
      PutBytesFront(put, init);
      var all := [put] + puts;
      assert all[..|all| - 1] == [put] + init;
    }
  }

  /** The sizes of the chunks not known to be present. */
  function MissingSize(chunks: seq<ChunkRef>, present: Hash -> bool): int {
    if chunks == [] then 0
    else (if present(chunks[0].hash) then 0 else chunks[0].size) + MissingSize(chunks[1..], present)
  }

  lemma {:induction false} MissingCovers(c: Primitives, pieces: seq<Bytes>, present: Hash -> bool)
    ensures Covers(Refs(c, pieces), Missing(c, pieces, present), present)
    ensures PutBytes(Missing(c, pieces, present)) == MissingSize(Refs(c, pieces), present)
  {
    hide SHA256Bytes;
    if pieces != [] {
      var refs, puts, rest := Refs(c, pieces), Missing(c, pieces, present), Missing(c, pieces[1..], present);
      MissingCovers(c, pieces[1..], present);
      assert refs[1..] == Refs(c, pieces[1..]);
      if !present(refs[0].hash) {
        PutBytesFront((refs[0].hash, pieces[0]), rest);
        assert puts[0].0 == refs[0].hash;
      }
      forall i | 0 <= i < |refs| && !present(refs[i].hash)
        ensures exists j :: 0 <= j < |puts| && puts[j].0 == refs[i].hash
      {
        if i > 0 {
          assert refs[1..][i - 1].hash == refs[i].hash;
          var j :| 0 <= j < |rest| && rest[j].0 == refs[i].hash;
          assert puts[if present(refs[0].hash) then j else j + 1] == rest[j];
        }
      }
    }
  }

  predicate Fits(chunks: seq<ChunkRef>, bufSize: nat) {
    forall i :: 0 <= i < |chunks| ==> 0 < chunks[i].size <= bufSize
  }

  lemma CoversFront(chunks: seq<ChunkRef>, puts: seq<(Hash, Bytes)>, present: Hash -> bool, data: Bytes)
    requires chunks != [] && Covers(chunks[1..], puts, present)
    ensures present(chunks[0].hash) ==> Covers(chunks, puts, present)
    ensures Covers(chunks, [(chunks[0].hash, data)] + puts, present)
  {
    var more := [(chunks[0].hash, data)] + puts;
    forall i | 0 <= i < |chunks| && !present(chunks[i].hash)
      ensures exists j :: 0 <= j < |more| && more[j].0 == chunks[i].hash
      ensures i > 0 ==> exists j :: 0 <= j < |puts| && puts[j].0 == chunks[i].hash
    {
      if i == 0 {
        assert more[0].0 == chunks[0].hash;
      } else {
        assert chunks[1..][i - 1] == chunks[i];
        var j :| 0 <= j < |puts| && puts[j].0 == chunks[i].hash;
        assert more[j + 1] == puts[j];
      }
    }
  }

  /**
   Whatever the second read returns, if it is not short: a plan without an error
   covers every chunk, and puts exactly the sizes of the chunks not present before.
   */
  lemma {:induction false} ReadPlanCovers(c: Primitives, bufSize: nat, chunks: seq<ChunkRef>, file: Bytes,
                                          present: Hash -> bool)
    requires Fits(chunks, bufSize) && ChunkSum(chunks) <= |file|
    ensures var plan := ReadPlan(c, bufSize, chunks, file, present);
      plan.ok ==> Covers(chunks, plan.puts, present) && PutBytes(plan.puts) == MissingSize(chunks, present)
    decreases |chunks|
  {
    hide SHA256Bytes, Covers, PutBytes;
    if chunks == [] {
      NothingToCover(present);
    } else {
      var n := chunks[0].size;
      SumOfRest(chunks, bufSize);
      ReadPlanCovers(c, bufSize, chunks[1..], file[n..], present);
      var rest := ReadPlan(c, bufSize, chunks[1..], file[n..], present);
      if rest.ok {
        CoversFront(chunks, rest.puts, present, file[..n]);
        PutBytesFront((chunks[0].hash, file[..n]), rest.puts);
      }
    }
  }

  lemma NothingToCover(present: Hash -> bool)
    ensures Covers([], [], present) && PutBytes([]) == 0
  {
  }

  lemma {:induction false} SumOfRest(chunks: seq<ChunkRef>, bufSize: nat)
    requires chunks != [] && Fits(chunks, bufSize)
    ensures Fits(chunks[1..], bufSize) && ChunkSum(chunks) == chunks[0].size + ChunkSum(chunks[1..])
    ensures ChunkSum(chunks[1..]) >= 0
    decreases |chunks|
  {
    if |chunks| > 1 { SumOfRest(chunks[1..], bufSize); }
  }

  lemma {:induction false} NothingMissingSize(chunks: seq<ChunkRef>, present: Hash -> bool)
    requires forall i :: 0 <= i < |chunks| ==> present(chunks[i].hash)
    ensures MissingSize(chunks, present) == 0
  {
    if chunks != [] { NothingMissingSize(chunks[1..], present); }
  }

  /**
   A successful upload covers every chunk, and the bytes it counts are the sizes of
   the chunks not present before, when the chunks were retained or the second read,
   whatever its bytes, is not short.
   */
  lemma UploadCovers(c: Primitives, key: Bytes, bufSize: nat, pieces: seq<Bytes>, data: seq<Bytes>, file: Bytes,
                     present: Hash -> bool)
    requires NonEmpty(pieces) && (|data| == |pieces| ==> data == pieces)
    requires forall i :: 0 <= i < |pieces| ==> |pieces[i]| <= bufSize
    requires InMemory(Refs(c, pieces), data) || |Flatten(pieces)| <= |file|
    ensures var refs := Refs(c, pieces);
      var plan := UploadPlan(c, key, bufSize, refs, data, file, present);
      plan.ok ==> Covers(refs, plan.puts, present) && PutBytes(plan.puts) == MissingSize(refs, present)
  {
    hide SHA256Bytes, MemPlan, ReadPlan, Missing, PutBytes, MissingSize;
    var refs := Refs(c, pieces);
    if forall i :: 0 <= i < |pieces| ==> present(refs[i].hash) {
      NothingMissingSize(refs, present);
      NothingToCover(present);
    } else if InMemory(refs, data) {
      MemPlanExact(c, pieces, present);
      MissingCovers(c, pieces, present);
    } else {
      RefsSum(c, pieces);
      ReadPlanCovers(c, bufSize, refs, file, present);
    }
  }

  /** Every put stores one of these pieces under its hash. */
  ghost predicate PutsFrom(c: Primitives, puts: seq<(Hash, Bytes)>, pieces: seq<Bytes>) {
    forall j :: 0 <= j < |puts| ==> puts[j].1 in pieces && puts[j].0 == SHA256Bytes(c, puts[j].1)
  }

  /** When the second read repeats the first, only missing pieces are put. */
  lemma UploadPutsPieces(c: Primitives, key: Bytes, bufSize: nat, pieces: seq<Bytes>, data: seq<Bytes>, file: Bytes,
                         present: Hash -> bool)
    requires NonEmpty(pieces) && (|data| == |pieces| ==> data == pieces)
    requires forall i :: 0 <= i < |pieces| ==> |pieces[i]| <= bufSize
    requires Flatten(pieces) <= file
    ensures PutsFrom(c, UploadPlan(c, key, bufSize, Refs(c, pieces), data, file, present).puts, pieces)
  {
    hide SHA256Bytes, MemPlan, ReadPlan, Missing;
    MemPlanExact(c, pieces, present);
    assert pieces[..|pieces|] == pieces;
    ReadPlanRepeats(c, bufSize, pieces, |pieces|, file, present);
    MissingFrom(c, pieces, present);
  }

  /**
   With a usable key, an upload whose chunks were retained, or whose second read
   repeats the first, succeeds and puts exactly the pieces that are not present, in
   order; retained chunks make the second read irrelevant. Without one it succeeds
   exactly if nothing is to be put.
   */
  lemma UploadPlanExact(c: Primitives, key: Bytes, bufSize: nat, pieces: seq<Bytes>, data: seq<Bytes>, file: Bytes,
                        present: Hash -> bool)
    requires NonEmpty(pieces) && forall i :: 0 <= i < |pieces| ==> |pieces[i]| <= bufSize
    requires data == pieces || (|data| != |pieces| && Flatten(pieces) <= file)
    ensures var plan, missing := UploadPlan(c, key, bufSize, Refs(c, pieces), data, file, present),
                                 Missing(c, pieces, present);
      plan == if key == [] || ValidKey(key) then Plan(missing, true) else Plan([], missing == [])
  {
    hide SHA256Bytes, MemPlan, ReadPlan, Missing;
    MissingNone(c, pieces, present);
    MemPlanExact(c, pieces, present);
    assert pieces[..|pieces|] == pieces;
    if Flatten(pieces) <= file { ReadPlanRepeats(c, bufSize, pieces, |pieces|, file, present); }
  }

  lemma {:induction false} MissingNone(c: Primitives, pieces: seq<Bytes>, present: Hash -> bool)
    ensures Missing(c, pieces, present) == [] <==>
      forall i :: 0 <= i < |Refs(c, pieces)| ==> present(Refs(c, pieces)[i].hash)
  {
    hide SHA256Bytes;
    if pieces != [] {
      MissingNone(c, pieces[1..], present);
      var refs, rest := Refs(c, pieces), Refs(c, pieces[1..]);
      assert forall i :: 0 <= i < |rest| ==> rest[i] == refs[i + 1];
      assert forall i :: 1 <= i < |refs| ==> refs[i] == rest[i - 1];
    }
  }

  lemma {:induction false} MissingFrom(c: Primitives, pieces: seq<Bytes>, present: Hash -> bool)
    ensures PutsFrom(c, Missing(c, pieces, present), pieces)
  {
    hide SHA256Bytes;
    if pieces != [] {
      var h, rest := SHA256Bytes(c, pieces[0]), Missing(c, pieces[1..], present);
      MissingFrom(c, pieces[1..], present);
      assert PutsFrom(c, rest, pieces) by {
        assert forall x :: x in pieces[1..] ==> x in pieces;
      }
      assert PutsFrom(c, [(h, pieces[0])] + rest, pieces);
    }
  }

  /** The chunks of a file cut after its first `k` pieces that nothing before the cut stands in for. */
  ghost predicate LostAfter(c: Primitives, pieces: seq<Bytes>, k: nat, present: Hash -> bool, i: nat)
    requires k <= i < |pieces|
  {
    var h := SHA256Bytes(c, pieces[i]);
    !present(h) && forall j :: 0 <= j < k ==> SHA256Bytes(c, pieces[j]) != h
  }

  /**
   A file truncated between the two reads: the upload reports success exactly when
   the cut falls between two chunks. Then only the missing pieces before the cut are
   put, and the success is incomplete exactly when some chunk after the cut is
   neither present nor a repetition of one before it.
   */
  lemma TruncatedReadIff(c: Primitives, key: Bytes, bufSize: nat, pieces: seq<Bytes>, k: nat, part: Bytes,
                         present: Hash -> bool)
    requires NonEmpty(pieces) && UsableKey(key) && k < |pieces| && |part| < |pieces[k]|
    requires forall i :: 0 <= i < |pieces| ==> |pieces[i]| <= bufSize
    requires exists i :: 0 <= i < |pieces| && !present(SHA256Bytes(c, pieces[i]))
    ensures var plan := UploadPlan(c, key, bufSize, Refs(c, pieces), [], Flatten(pieces[..k]) + part, present);
      && (plan.ok <==> part == [])
      && (plan.ok ==> plan.puts == Missing(c, pieces[..k], present))
      && (plan.ok ==> (!Covers(Refs(c, pieces), plan.puts, present)
                       <==> exists i :: k <= i < |pieces| && LostAfter(c, pieces, k, present, i)))
  {
    hide SHA256Bytes, ReadPlan, Missing, Covers, LostAfter;
    var i :| 0 <= i < |pieces| && !present(SHA256Bytes(c, pieces[i]));
    assert !present(Refs(c, pieces)[i].hash);
    if part == [] {
      assert Flatten(pieces[..k]) + part == Flatten(pieces[..k]);
      ReadPlanRepeats(c, bufSize, pieces, k, Flatten(pieces[..k]), present);
      LostIff(c, pieces, k, present);
    } else {
      ReadPlanCut(c, bufSize, pieces, k, part, present);
    }
  }

  lemma LostIff(c: Primitives, pieces: seq<Bytes>, k: nat, present: Hash -> bool)
    requires k <= |pieces|
    ensures !Covers(Refs(c, pieces), Missing(c, pieces[..k], present), present)
       <==> exists i :: k <= i < |pieces| && LostAfter(c, pieces, k, present, i)
  {
    hide SHA256Bytes, Missing;
    var refs, puts := Refs(c, pieces), Missing(c, pieces[..k], present);
    MissingFrom(c, pieces[..k], present);
    MissingCovers(c, pieces[..k], present);
    var before := Refs(c, pieces[..k]);
    forall i | 0 <= i < |pieces|
      ensures (present(refs[i].hash) || exists j :: 0 <= j < |puts| && puts[j].0 == refs[i].hash)
         <==> (i < k || !LostAfter(c, pieces, k, present, i))
    {
      if j :| 0 <= j < |puts| && puts[j].0 == refs[i].hash {
        var m :| 0 <= m < k && pieces[..k][m] == puts[j].1;
        assert SHA256Bytes(c, pieces[m]) == refs[i].hash;
      }
      if m :| 0 <= m < k && SHA256Bytes(c, pieces[m]) == refs[i].hash {
        assert before[m].hash == refs[i].hash;
      }
    }
  }
}
