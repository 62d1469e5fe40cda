# gbf-core: a verified model of the backup engine

This project models gbf-core, a content-addressed encrypted backup engine, in
Dafny and proves its central promises. `dafny verify dfyconfig.toml` checks all
of it.

The story the modules tell, in order:

- **Blob formats.** `BlobFormat`, `BlobCodec` and `Crypto` hold the GB1 small, GB1
  large, GB2 and GB3 layouts with the whole-buffer encoder and decoder;
  `StreamCodec` and `Stream` hold the streaming writer and readers. Functions give
  the layouts, methods run the loops and are proved against them.
- **Content addressing.** `Hashing` names blobs by SHA-256 and says when a store is
  sound. `LocalStore` is the local blob store with its cache of known hashes, one
  call at a time; `StoreThreads` interleaves the steps of concurrent calls.
- **Backup.** `ChunkPlan` and `Pipeline` cover chunk lists, the two hash passes and
  the chunk upload. `Pool` is the upload worker pool as a state machine whose runs
  are all schedules; `PoolContent` is about what those runs store and record,
  `PoolStatus` about what they report and what they do not store again.
- **Manifests.** `ManifestTree` and `ManifestBuilder` cover the directory tree, its
  validator and lookups; `ManifestCodec` the layered file format, version 1
  migration and alive hashes; `ManifestCommit` the no-replace commit by any number
  of processes with crashes, deletions and power loss.
- **Restore.** `RestorePaths`, `ChunkBuffers` and `Restore`; `RestoreExact` for empty
  targets, `RestoreOverwrite` for targets that hold something.
- **The whole.** `Repository` runs backups, abandoned runs, manifest deletions and
  garbage collection in any order and restores any snapshot.
- **Rate limiting.** `Limiter` is the token bucket under interleaved waiters.

## Assumptions

The primitives are functions in a record; their laws are the predicate
`Primitives.Lawful`, and a degenerate instance shows the laws to be consistent.
Opening inverts sealing and the tag adds 16 bytes (sections 7.1 and 7.2 of NIST SP
800-38D); zstd output starts with the frame magic (section 3.1.1 of RFC 8878) and
decompresses to its input up to the output cap. SHA-256 is not assumed to be
injective: theorems that need it name a universe of byte strings without
collisions. JSON is a pair of functions that is faithful on the manifests at hand.
IVs, UUIDs, suffixes, read sizes, faults and schedules are inputs.

`Repository` assumes of each backup what its promise depends on: a usable key,
sources that do not change while they are backed up, an equal mtime and size
meaning an equal content, no chunk stored raw that starts with the zstd magic
(unless it decompresses to itself), proper and distinct scanned paths none of which
is also a directory of the scan, and a manifest whose JSON is at most 256 MiB.
Backups and garbage collections do not overlap. `FirstBackupIsGood` shows that these
can be met together.

## Where the code falls short of a promise

Each of these is proved, and where a promise fails on some inputs only, the condition
under which it holds is too:

- the chunk count of a GB3 header wraps although a source comment says it cannot
  (`WrappedHeaderAccepted`, `ChunkCountExactIff`);
- `Encrypt` writes GB3 blobs with chunk sizes above 64 MiB that `Decrypt` refuses
  (`EncryptRoundTripIff`), and the streaming writer GB2 blobs that no reader accepts when
  a chunk above 4 MiB + 1 KiB does not compress (`WrittenIsRead`, `OversizeChunkUnread`);
- one fallback of the GB1 decoder is dead code (`LargeFallbackIsDead`);
- an empty source streams to a blob that no reader accepts (`EmptySourceUnreadable`);
- raw content that starts with the zstd magic is lost (`RawZstdPrefixLost`), and
  repositories without a key cannot be restored (`NoKeyNoDecode`);
- without a key a small file that changes between its two reads is stored under the
  wrong hash (`KeylessSmallFileMisstored`);
- a large file truncated between two chunks after it was hashed is recorded as backed
  up although chunks are missing (`TruncatedReadIff`, `TruncatedFileRecorded`);
- a put replaces a blob exactly if it gets past a failing stat (`FirstBytesStayIff`,
  `FailedStatReplaces`);
- a concurrent delete leaves a stale cache entry exactly if a reader or a put caches
  the hash after the delete is over and the blob is not back (`CacheCoveredIff`, `DeleteBreaksTheCache`), and a
  put that looks at the cache in the middle of a delete reports success for a blob that
  is gone (`PutsTruthfulIff`, `DeleteMisleadsPut`);
- a manifest with more than 256 MiB of JSON can be saved but not loaded
  (`SaveLoadIff`), and a save that fails has committed exactly if its link had
  succeeded and nobody has deleted the manifest since (`FailedSaveCommittedIff`, `FailedSaveMayHaveCommitted`);
- `FindFile` accepts a leading slash, for root files only (`FindFileAgreesIff`);
- one file in the root whose name starts like a drive ("C:...") makes the restore of
  its whole snapshot fail, and a manifest may hold a file and a directory of the same
  path, which validation accepts: restore then silently passes the file over, or fails
  when overwriting (`RestoreIsExactIff`, `DriveNameStopsRestore`, `ClashExists`).

The repository's own documentation describes GKM1 manifests as sealed under the
master key; the code derives a key from it first, and the model follows the code.

## Model

| member | source | states |
|---|---|---|
| `BlobFormat.CeilingIsDivision` | simple/crypto.go:154-160 | the chunk count the encoder computes by rounding division is the number of chunks the data occupies, counted chunk by chunk |
| `BlobFormat.ChunkCountExactIff` | simple/crypto.go:463-469 | the 64-bit chunk count of a header is the exact ceiling if and only if plaintext size + chunk size - 1 stays below 2^64 |
| `BlobFormat.ParseGB3Header` | simple/crypto.go:490-533 | an accepted header has the magic, a chunk size in 1..64 MiB and a (64-bit) chunk count within 32 bits |
| `BlobFormat.HeaderRoundTrip` | simple/crypto.go:471-533 | parsing inverts encoding on exactly the headers within the reader's limits, whatever follows them, and rejects all others |
| `BlobFormat.HeaderAcceptedIff` | simple/crypto.go:490-533 | exactly which bytes are a header: magic, version, hash, encryption and chunking bytes 1, compression 0 or 1, chunk size in 1..64 MiB, chunk count within 32 bits |
| `BlobFormat.WrappedHeaderAccepted` | simple/crypto.go:463-533 | an accepted header whose chunk count has wrapped to zero |
| `BlobCodec.ChunksGB1RoundTrip` | simple/crypto.go:154-199 | the GB1 chunk sequence of any data decodes to it under its own chunk count and to nothing under any other count |
| `BlobCodec.ReadFrameRoundTrip` | simple/crypto.go:374-440 | a frame is read back, whatever follows, exactly when its stored size is within the reader's bound and, if compressed, its content within the decompression cap |
| `BlobCodec.FramesRoundTrip` | simple/crypto.go:374-440 | a frame sequence decodes to its data exactly when the count is right and every frame fits bound and cap |
| `BlobCodec.FlagsDecide` | simple/crypto.go:374-613 | frames of other writers: for GB2 any flag means compressed, for GB3 the lowest bit does |
| `BlobCodec.StoredFormShortest` | simple/pipeline.go:1309-1320 | compression is tried from 64 KiB on and used exactly if it saves space |
| `BlobCodec.SmallRoundTrip` | simple/crypto.go:121-152 | a small blob under an IV of newSmallBlobIV decrypts by its primary reading |
| `BlobCodec.LegacySmallRoundTripIff` | simple/crypto.go:253-325 | a small blob under any IV still decrypts, exactly unless its bytes also authenticate as a large blob with another plaintext |
| `BlobCodec.LargeFallbackIsDead` | simple/crypto.go:265-292 | the second large attempt of the GB1 branch can never succeed |
| `BlobCodec.EncryptRoundTripIff` | simple/crypto.go:107-296 | Encrypt writes a blob exactly if the key is usable and the chunk count fits 32 bits; Decrypt inverts it for every plaintext and chunk size over the small, GB1 large and GB3 choices, except that a GB3 blob is readable exactly when its chunk size is at most 64 MiB |
| `BlobCodec.LargeRoundTrip` | simple/crypto.go:154-372 | the same for GB1 large |
| `BlobCodec.GB3RoundTrip` | simple/crypto.go:201-613 | the same for GB3, with or without compression, for every size field implying the right chunk count |
| `Crypto.Encryptor.Encrypt` | simple/crypto.go:107-152 | the encoder computes the layout functions |
| `Crypto.Encryptor.EncryptLarge` | simple/crypto.go:154-199 | the choice between GB1 large and GB3, and its key and count errors |
| `Crypto.Encryptor.SealChunks` | simple/crypto.go:170-199 | the chunk loop with computed offsets writes the GB1 chunk sequence |
| `Crypto.Encryptor.EncryptLargeV3` | simple/crypto.go:201-239 | the GB3 encoder, including the 32-bit count limit |
| `Crypto.Decryptor.Decrypt` | simple/crypto.go:253-296 | the decoder computes the decoding functions, fallbacks included |
| `Crypto.Decryptor.DecryptLarge` | simple/crypto.go:327-372 | the GB1 chunk loop |
| `Crypto.Decryptor.DecryptLargeV2` | simple/crypto.go:374-440 | the GB2 frame loop |
| `Crypto.Decryptor.DecryptLargeV3` | simple/crypto.go:555-613 | the GB3 frame loop |
| `StreamCodec.FramesAgree` | simple/stream.go:473-603 | for any bytes and count, the whole-buffer frame decoder succeeds exactly when the stream consumes everything; a stream success is the whole-buffer result on the consumed prefix |
| `StreamCodec.ChunksAgree` | simple/stream.go:428-470 | the same equivalence for GB1 chunks |
| `StreamCodec.ChunksPrefix` | simple/stream.go:428-470 | a GB1 chunk stream success is the whole-buffer result on the consumed prefix |
| `StreamCodec.ChunkedAgree` | simple/stream.go:390-603 | streaming refines Decrypt on every chunked layout, and every streaming success is Decrypt of the prefix it consumed |
| `StreamCodec.SmallAgree` | simple/stream.go:390-470 | on small blobs the stream writes the decompressed plaintext, exactly up to 5 MiB; under a legacy IV that looks like a chunk count, absent accidental authentication, Decrypt always gives the plaintext and the stream does so exactly if the blob ends inside the first chunk it reads |
| `StreamCodec.WriterReadersInverse` | simple/stream.go:185-291 | what the streaming writer writes for a non-empty source is read back by both readers exactly when the chosen layout is within their limits |
| `StreamCodec.WrittenIsRead` | simple/stream.go:185-291 | with chunks of at most 4 MiB + 1 KiB and fewer than 100000 of them, every non-empty content is read back by both readers, compressed or not |
| `StreamCodec.OversizeChunkUnread` | simple/crypto.go:404-408 | the bound is sharp: with larger chunks, a first chunk that is full and does not compress makes a blob that neither reader accepts |
| `StreamCodec.EmptySourceUnreadable` | simple/stream.go:185-291 | an empty source is written as a blob neither reader accepts |
| `Stream.VerifyingWriter.Write` | simple/stream.go:300-314 | hash state and count follow exactly the bytes that reached the destination, short writes included |
| `Stream.DecryptStreamToFile` | simple/stream.go:390-470 | the streaming reader writes what the stream function says and stops where it says; it fails otherwise only through a failed read or write |
| `Stream.DecryptGB1StreamToFile` | simple/stream.go:398-470 | the small/large decision on the stream and its fallbacks |
| `Stream.DecryptGB2StreamToFile` | simple/stream.go:473-539 | the GB2 reader |
| `Stream.DecryptGB3StreamToFile` | simple/stream.go:541-603 | the GB3 reader |
| `Stream.WriteSmallPlaintext` | simple/stream.go:628-638 | a small plaintext is written decompressed when it looks like a zstd frame |
| `Stream.EncryptFileToWriter` | simple/stream.go:185-291 | the streaming writer writes the layout chosen from the stat size over the bytes it then reads, and succeeds exactly when the key is usable and no read or write fails |
| `Hashing.HexInjective` | simple/hash.go:39-42 | the hexadecimal form of a digest determines the digest |
| `Hashing.DownloadBlob` | simple/hash.go:65-86 | whatever is downloaded has the hash it was asked for under |
| `Hashing.ChunkBlobDecodesIff` | simple/pipeline.go:1302-1333 | with a key, a stored chunk decodes to itself exactly when it was stored compressed, does not start with the zstd magic, or is a zstd frame that decompresses to itself |
| `Hashing.RawZstdPrefixLost` | simple/hash.go:74-80 | raw content that starts with the zstd magic but is no zstd frame cannot be read back |
| `Hashing.NoKeyNoDecode` | simple/crypto.go:253-296 | without a usable key no blob decodes, bare ones included |
| `Hashing.DownloadFinds` | simple/hash.go:65-86 | in a sound store, content whose name is present is what its name downloads to |
| `Hashing.PutKeepsSound` | simple/hash.go:44-63 | adding a blob that decodes to the bytes it is named after keeps a store sound |
| `Hashing.UploadThenDownloadIff` | simple/hash.go:44-86 | from any sound store, downloading after uploading gives the bytes back exactly if the name was there before or the content survives being stored uncompressed, and no earlier blob changes |
| `ChunkPlan.RefsSum` | simple/manifest_validate.go:173-182 | the chunk sizes of a hashed file add up to its length |
| `ChunkPlan.Pieces` | simple/pipeline.go:1114-1184 | fixed-size chunking: non-empty pieces of bounded size whose concatenation is the data |
| `ChunkPlan.UploadIsHonest` | simple/pipeline.go:1194-1338 | whatever the second read returns, no bytes are planned under a hash that is not theirs |
| `ChunkPlan.ReadPlanCovers` | simple/pipeline.go:1247-1338 | whatever bytes the second read returns, if it is not short: an upload without an error covers every listed chunk and puts exactly the sizes of the chunks not present before |
| `ChunkPlan.UploadCovers` | simple/pipeline.go:1194-1338 | the same for the whole upload, when chunks were retained or the second read is not short |
| `ChunkPlan.UploadPutsPieces` | simple/pipeline.go:1194-1338 | when the second read repeats the first, exactly pieces of the file are put, each under its hash |
| `ChunkPlan.UploadPutsAbsent` | simple/pipeline.go:1194-1338 | whatever the second read returns, nothing that is present is put, and nothing at all under a key of a wrong size |
| `ChunkPlan.UploadPlanExact` | simple/pipeline.go:1194-1338 | an upload with retained chunks, whatever the second read returns, or with a second read that repeats the first, succeeds and puts exactly the pieces not present, in order; under a key of a wrong size it succeeds exactly if there is nothing to put |
| `ChunkPlan.TruncatedReadIff` | simple/pipeline.go:1275-1292 | a file truncated between the reads is reported as an error exactly when the cut falls inside a chunk; otherwise only the missing chunks before the cut are put, and the success is incomplete exactly when a chunk after the cut is neither present nor a repetition of one before it |
| `Pipeline.HashFileWithChunks` | simple/pipeline.go:1114-1184 | content hash, chunk list and retained buffers are those of the bytes up to the scanned size, unless a read fails; equal counts of buffers and chunks mean that each buffer is the preimage of its chunk's hash |
| `Pipeline.HashFileWithCDC` | simple/chunk_cdc.go:111-174 | unless the chunker fails, content hash and chunk list describe the pieces read; the pieces are retained all or not at all, so equal counts of buffers and chunks mean that each buffer is the preimage of its chunk's hash, also after retention was given up |
| `Pipeline.Uploader.UploadChangedChunks` | simple/pipeline.go:1194-1340 | the upload over the local store: only honest blobs appear; what counts as present is what the store knows of the previous chunk list; it succeeds exactly when the plan for that does, no presence query is denied and no put or read fails, and then every planned put is present and the count is the planned bytes |
| `Pipeline.Uploader.UploadReread` | simple/pipeline.go:1247-1338 | the same for the loop that reads the file again |
| `Pipeline.Uploader.UploadRetained` | simple/pipeline.go:1247-1338 | the same for the loop over retained bytes |
| `Pipeline.Uploader.PutChunk` | simple/pipeline.go:1309-1336 | one chunk, compressed if that is smaller, sealed and put under its hash |
| `Pipeline.CountDeletedFiles` | simple/pipeline.go:623-638 | deleted plus surviving previous paths are the previous count |
| `Pool.CommitConserves` | simple/pipeline.go:529-587 | a commit under the mutex keeps counters, totals and file map in step with the files that are done |
| `Pool.OtherConserves` | simple/pipeline.go:895-1035 | no other step of any file touches them |
| `Pool.RunConserves` | simple/pipeline.go:501-621 | the same over every schedule |
| `Pool.PoolConserves` | simple/pipeline.go:501-638 | for every schedule that ends: each scanned path is in the manifest exactly once, new+changed+unchanged+failed+locked is the scan count and the file count, the total size is the scanned size, and the snapshot is complete exactly when scan errors, failed and locked are all zero |
| `Pool.FastPathIff` | simple/pipeline.go:895-924 | a file is passed as unchanged without a read exactly if its previous entry has its mtime, its size and a hash of at least two characters, the query is not denied and every blob of the entry is found; when it is denied the file fails, when a blob is missing it is read |
| `Pool.KeptChunksAreUploaded` | simple/pipeline.go:939-989 | a large file whose chunks the hash pass kept uploads exactly the hashed pieces its previous chunks do not cover, whatever the file holds by then |
| `Pool.DeniedFails` | simple/pipeline.go:869-893 | a denied query fails the file wherever it asks |
| `Pool.FailReports` | simple/pipeline.go:529-560 | a file given up is recorded without content, as locked exactly if it was locked |
| `Pool.EveryPhaseGoesOn` | simple/pipeline.go:895-1035 | no file gets stuck: in every phase a step other than giving up is possible |
| `PoolContent.PoolStoresHonestly` | simple/pipeline.go:895-1112 | for every schedule and whatever the reads return, only blobs of bytes with that hash appear, if there is a key or no small file changes between its two reads |
| `PoolContent.KeylessSmallFileMisstored` | simple/pipeline.go:1082-1112 | without a key, a small new file that changes between hash and second read is stored under the wrong hash |
| `PoolContent.TruncatedFileRecorded` | simple/pipeline.go:939-989 | a new large file truncated between two chunks after it was hashed is recorded as new with its full chunk list, although a chunk after the cut is not in the store |
| `PoolContent.PreviousDescribes` | simple/pipeline.go:869-893 | a previous entry with the hash of the content is an entry for the content |
| `PoolContent.StepTruthful` | simple/pipeline.go:895-1035 | every step of a run over an unchanging source keeps the store healthy and what each phase knows about its file true |
| `PoolContent.RunTruthful` | simple/pipeline.go:501-621 | the same over every schedule, and blobs only appear |
| `PoolContent.PoolBacksUp` | simple/pipeline.go:501-1035 | a run over an unchanging source, from any healthy store: every file that did not fail and was not locked is recorded as it is, with all its blobs stored |
| `PoolStatus.PoolReports` | simple/pipeline.go:501-621 | for every schedule that ends, whatever the reads return: each entry carries the scanned metadata, its status tells how the recorded hash compares with the previous one, and the five counters are the numbers of entries with the five statuses |
| `PoolStatus.PoolClassifies` | simple/pipeline.go:722-734 | for every schedule over an unchanging source that ends: of the files backed up, exactly those without a previous entry are new, those whose previous hash is not that of their bytes changed, the others unchanged, and the counters count them |
| `PoolStatus.PoolCountsUploads` | simple/pipeline.go:573-575 | over every schedule the uploaded bytes are the bytes put for the files that are done and did not fail |
| `PoolStatus.NothingPutAgain` | simple/pipeline.go:1000-1035 | in every schedule whose queries find what was in the store, no small file and no chunk the previous entry lists is put if it was there |
| `PoolStatus.UnchangedContentPutsNothing` | simple/pipeline.go:939-1013 | in every such schedule over an unchanging source, a file whose previous entry has its hash and all its blobs puts nothing, whatever its mtime, and keeps its chunk list |
| `PoolStatus.BadKeyStoresNothing` | simple/pipeline.go:1194-1246 | with a key of a wrong size no schedule stores anything |
| `PoolStatus.NextRunReadsNothing` | simple/pipeline.go:895-911 | after a run over an unchanging source, the next run passes every file that was backed up without reading it and records the same content |
| `ManifestTree.AddFileKeeps` | simple/manifest.go:220-267 | AddFile with a proper free path keeps shape, totals and file map |
| `ManifestTree.AddEmptyDirKeeps` | simple/manifest.go:269-306 | AddEmptyDir keeps shape and totals and leaves the file map alone |
| `ManifestTree.ApplyKeepsMap` | simple/manifest.go:220-306 | the file map follows every operation on a free path, whatever sizes and chunk lists the entry has |
| `ManifestTree.BuildKeepsInv` | simple/manifest.go:220-306 | the same for every sequence of operations |
| `ManifestTree.BuiltTreeIsValid` | simple/manifest_validate.go:145-206 | whatever is built from proper operations passes validation, every directory but the root is listed exactly once by its parent, and the file map is exactly the files added |
| `ManifestTree.RejectedIff` | simple/manifest_validate.go:145-206 | validation rejects exactly the structures with a bad key, a bad or repeated name, a negative size, chunk sizes that do not add up for a restorable entry, a dangling subdirectory, or wrong totals |
| `ManifestTree.ChangedDirRejected` | simple/manifest_validate.go:199-204 | files added to, lost from or resized in a directory of a valid manifest are noticed |
| `ManifestTree.LostDirRejected` | simple/manifest_validate.go:185-196 | so is the loss of a directory its parent lists, whatever the stats say |
| `ManifestTree.LeadingSlashIgnored` | simple/manifest.go:220-306 | a leading slash makes no difference to AddFile and AddEmptyDir |
| `ManifestTree.FileMapUnique` | simple/manifest.go:308-325 | a tree has one file map |
| `ManifestTree.FindFileAgrees` | simple/manifest.go:327-355 | FindFile is the file map for every path without a leading slash |
| `ManifestTree.FindFileAgreesIff` | simple/manifest.go:327-355 | for every path FindFile agrees with the file map exactly unless the path is a slash in front of the name of a root file |
| `ManifestTree.CompleteByMap` | simple/manifest_validate.go:54-70 | completeness is a condition on scan errors and the statuses in the file map |
| `ManifestBuilder.Builder.AddFile` | simple/manifest.go:220-244 | the object changes as the tree function says |
| `ManifestBuilder.Builder.EnsureParentDirs` | simple/manifest.go:246-267 | the parent loop |
| `ManifestBuilder.Builder.AddEmptyDir` | simple/manifest.go:269-306 | the object changes as the tree function says |
| `ManifestBuilder.Builder.ValidateStructure` | simple/manifest_validate.go:145-206 | the validator accepts exactly the valid structures |
| `ManifestBuilder.Builder.BuildFileMap` | simple/manifest.go:308-325 | for any tree every path is indexed and every indexed entry is a file of the tree under its path; on a valid tree that is the file map |
| `ManifestBuilder.Builder.AllFiles` | simple/manifest.go:408-420 | for any tree all its files under their full paths, as many as there are; on a valid tree every file once |
| `ManifestBuilder.Builder.DeriveCompleteness` | simple/manifest_validate.go:54-70 | complete exactly without scan errors and missed files |
| `ManifestCodec.DecryptManifestRoundTrip` | simple/crypto.go:648-685 | the encryption layer is undone |
| `ManifestCodec.LegacyManifestRoundTripIff` | simple/crypto.go:672-685 | a payload sealed under the raw key decrypts, exactly unless the derived key opens it to something else |
| `ManifestCodec.LegacyManifestsLoad` | simple/manifest.go:841-878 | manifests sealed under the raw key load, bare and in an envelope, within the decompression cap and absent accidental authentication |
| `ManifestCodec.SaveLoadIff` | simple/manifest.go:691-878 | loading inverts saving, with or without a key, exactly for manifests whose JSON is at most 256 MiB |
| `ManifestCodec.BarePayloadsLoad` | simple/manifest.go:841-878 | plain JSON and bare zstd payloads load too |
| `ManifestCodec.LoadedIsValid` | simple/manifest.go:841-878 | whatever the bytes, a manifest that loads is valid and of version 2 or later |
| `ManifestCodec.SealedNeedsKey` | simple/manifest.go:841-878 | a manifest saved with a key does not load without one |
| `ManifestCodec.SavedIsChecksummed` | simple/manifest.go:691-720 | a saved manifest is the envelope magic, the checksum of the payload and the compressed, possibly sealed payload |
| `ManifestCodec.TamperedPayloadRejected` | simple/manifest.go:830-839 | any other payload under the same envelope header is rejected, unless it collides under SHA-256 |
| `ManifestCodec.MigrationPreserves` | simple/manifest.go:880-921 | migration recounts the stats and keeps header and completeness for every document, keeps every file with all its fields under its path when no path occurs twice, and gives a valid structure when paths and entries are proper |
| `ManifestCodec.StreamedCoversLoaded` | simple/manifest.go:1563-1691 | streaming extraction covers every non-empty hash of the loaded manifest for every document, with equality on tree-form version 2 and flat version 1 files |
| `ManifestCodec.ExtractHashes` | simple/manifest.go:1644-1691 | the two extraction passes collect exactly that set |
| `ManifestCommit.StagingIsInvisible` | simple/manifest.go:923-932 | a staging name is never a manifest file name |
| `ManifestCommit.ManifestFileIff` | simple/manifest.go:923-928 | readers open exactly the names that end in .json.zst or .json and do not contain .alive. |
| `ManifestCommit.StepKeeps` | simple/manifest.go:721-771 | every step of every process, crash, deletion and power loss keeps the invariant of directory and inodes |
| `ManifestCommit.RunKeeps` | fsutil/fileio.go:50-79 | the same over every run |
| `ManifestCommit.ReadersSeeCompleteEnvelopes` | simple/manifest.go:923-928 | in every reachable state, every name readers accept is a complete envelope that verifies |
| `ManifestCommit.ReturnedPathHolds` | simple/manifest.go:664-771 | a returned path holds its saver's envelope until deleted, power loss included |
| `ManifestCommit.ReturnedPathsDiffer` | simple/manifest.go:735-762 | two successful saves still there returned different paths |
| `ManifestCommit.RunNeverReplaces` | fsutil/commit_noreplace_other.go:27-36 | an existing final name never changes content over runs without power loss that do not delete it |
| `ManifestCommit.DurableNeverReplaced` | fsutil/commit_noreplace_other.go:27-36 | a durable name keeps inode and content over every run that does not delete it, power losses included |
| `ManifestCommit.StepKeepsNames` | simple/manifest.go:721-771 | every step keeps that a saver's file has no name but its staging name and, from the link until a deletion, the committed name |
| `ManifestCommit.FailedSaveCommittedIff` | simple/manifest.go:735-771 | over every run of any number of savers, a save that ends with an error or crashes has committed exactly if its link had succeeded and nobody has deleted the manifest since; the path then holds the complete envelope |
| `ManifestCommit.FailedSaveMayHaveCommitted` | fsutil/commit_noreplace_other.go:27-36 | a run in which a save reports an error and has committed its manifest |
| `ManifestCommit.SaveReturns` | simple/manifest.go:721-771 | in any state of the directory, whoever else is saving, a save that nothing stops returns the first free one of its eight names, durable and with its whole envelope, and leaves no staging file |
| `ManifestCommit.NoNamesLeft` | simple/manifest.go:745-749 | a save whose eight names were all taken can only give up |
| `ManifestCommit.OverForGood` | simple/manifest.go:721-771 | a save that has returned or failed stays so over every run, power losses included |
| `ManifestCommit.PowerLossStops` | simple/manifest.go:721-771 | a power loss stops exactly the saves under way |
| `LocalStore.AnswerIsUnique` | simple/pipeline.go:813-856 | the answer to a presence query is determined by the store, so batch and per-hash path cannot differ |
| `LocalStore.LocalBlobStore.Put` | simple/local_store.go:104-188 | it succeeds exactly if the hash is valid and known or seen to be there, or write, rename and directory sync all work; the bytes are placed exactly if the hash was neither known nor seen and the rename worked, and a success means presence |
| `LocalStore.LocalBlobStore.Exists` | simple/local_store.go:249-276 | present exactly if cached or seen by a truthful stat, with the error classes |
| `LocalStore.LocalBlobStore.ExistsBatch` | simple/local_store.go:278-319 | the batch answers as the single queries would |
| `LocalStore.LocalBlobStore.WarmExistsCache` | simple/local_store.go:321-359 | exactly the blobs in readable directories are added to the cache |
| `LocalStore.LocalBlobStore.Delete` | simple/local_store.go:440-452 | it succeeds exactly if the hash is valid and the file can be removed or is not there; disk and cache then lose the hash together, otherwise nothing changes |
| `LocalStore.LocalBlobStore.BlobsExist` | simple/pipeline.go:813-856 | for any list with duplicates, invalid hashes and mixed faults, both paths give the one answer: a permission failure or the presence map |
| `StoreThreads.LocksKept` | simple/local_store.go:92-172 | every step, deletes included, keeps one holder per lock and no blob in the way of a put that saw none |
| `StoreThreads.StepKeeps` | simple/local_store.go:104-172 | every interleaved step but the removal of a file keeps the cache inside the disk |
| `StoreThreads.CacheIsSubset` | simple/local_store.go:104-359 | in every interleaving without Delete the cache is a subset of the disk, and a successful put is present |
| `StoreThreads.StepReplacesIff` | simple/local_store.go:104-172 | a step that does not remove a blob changes its bytes exactly if it is the rename of other bytes by a put whose stat had failed |
| `StoreThreads.FirstBytesStayIff` | simple/local_store.go:104-172 | in every interleaving that does not delete a hash, whatever else it deletes, the first bytes of the hash stay throughout exactly if no put of other bytes gets past a failed stat to its rename, and are then there at the end |
| `StoreThreads.CleanStatsReplaceNothing` | simple/local_store.go:118-124 | there is no such rename when no stat fails |
| `StoreThreads.CoveredStepIff` | simple/local_store.go:440-452 | with deletes in two steps: a step leaves every cached hash on disk or about to be dropped exactly if it does not cache a hash that is neither |
| `StoreThreads.CacheCoveredIff` | simple/local_store.go:249-359 | the same over every interleaving, deletes included |
| `StoreThreads.CoveredAtRest` | simple/local_store.go:440-452 | between deletes, covered means that the cache is a subset of the disk |
| `StoreThreads.SafeStepIff` | simple/local_store.go:440-452 | a step keeps the cache covered, and whatever threads are about to cache on disk, exactly if it does not remove a hash that a thread is about to cache |
| `StoreThreads.SafeIff` | simple/local_store.go:440-452 | the same over every interleaving |
| `StoreThreads.InitSafe` | simple/local_store.go:30-36 | a fresh store is safe, its locks free, its cache inside the disk |
| `StoreThreads.FalseSuccessIff` | simple/local_store.go:111-116 | in a safe store a put's success is false exactly if the put looked at the cache between the two steps of a delete of its hash |
| `StoreThreads.PutsTruthfulIff` | simple/local_store.go:104-172 | over every run whose deletes hit nothing a thread is about to cache, some put returns a false success exactly if some put looks at the cache in the middle of a delete of its hash |
| `StoreThreads.FailedRenameForgiven` | simple/local_store.go:153-164 | a put whose rename failed goes on as a success exactly if the blob is there all the same |
| `StoreThreads.FalseSuccessHasCause` | simple/local_store.go:104-172 | over every run from a safe store, whatever it deletes, a false success needs a put that looks at the cache in the middle of a delete of its hash, or a delete of a hash a thread is about to cache |
| `StoreThreads.DeleteBreaksTheCache` | simple/local_store.go:440-452 | a delete between a reader's look and its merge leaves a deleted hash in the cache with all calls done |
| `StoreThreads.DeleteMisleadsPut` | simple/local_store.go:111-116 | a put between the two steps of a delete reports success for a blob that is gone |
| `StoreThreads.FailedStatReplaces` | simple/local_store.go:118-160 | from a fresh store over an existing blob, a put whose stat fails replaces its bytes |
| `RestorePaths.SafeComponentsStayBelow` | simple/restore.go:30-99 | an accepted path has plain components only |
| `RestorePaths.RefusedIff` | simple/restore.go:30-66 | a path is refused exactly if it is empty, absolute, starts like a drive, or leads above the target on its way |
| `RestorePaths.ProperPathKept` | simple/restore.go:30-99 | a manifest path is restored to itself, unless it looks like a drive, and then it is refused |
| `RestorePaths.KeyKept` | simple/restore.go:30-99 | a directory key of a valid manifest is restored to itself |
| `ChunkBuffers.ReadAllBounded` | simple/restore.go:427-455 | whatever the read sizes and the buffer handed in, the buffer ends up with the whole blob, or the read fails exactly when the blob exceeds the limit or the stream breaks |
| `ChunkBuffers.DirectOpenAgrees` | simple/restore.go:472-495 | opening a single-blob layout directly is what Decrypt does |
| `ChunkBuffers.DecryptChunkBlobStream` | simple/restore.go:466-524 | with carried-over buffers that are different arrays, exactly what a fresh DownloadBlob gives is appended; the buffers handed on are different arrays again |
| `Restore.FetchEntryGenuine` | simple/restore.go:364-375 | whatever the store holds, an entry restores only to the in-order concatenation of preimages of its chunk hashes, or to a preimage of its content hash with the recorded size when large |
| `Restore.RestoreIsSound` | simple/restore.go:287-407 | for arbitrary stores and targets, finished and failed runs: every changed file is genuine for some entry, nothing is removed, and a finished run restored or skipped each entry |
| `Restore.ExistingFilesKept` | simple/restore.go:347-362 | without overwriting, no run changes a file that was in the target, for any store and target, finished or failed |
| `RestoreOverwrite.FinishedRunDelivers` | simple/restore.go:318-407 | for any store and target, a finished run over entries with different paths has skipped exactly the entries that are not restorable and, when not overwriting, those whose path a file or directory had; every other entry is in place with the bytes it is fetched as, and the three counters say so |
| `RestoreOverwrite.FinishedRunMakesDirs` | simple/restore.go:287-306 | a finished run has accepted and made every directory of the manifest |
| `RestoreExact.RestoredPlusSkipped` | simple/restore.go:287-407 | on a valid manifest, for arbitrary stores and targets, restored plus skipped of a finished run is the file count of its stats |
| `Restore.SimpleRestore.Run` | simple/restore.go:287-407 | the directory and file loops compute the run function; whatever fails, the files of the target are what a prefix of the entries restores to, and without overwriting every file that was there keeps its bytes |
| `Restore.SimpleRestore.EnsureSkeleton` | simple/restore.go:287-306 | the directories of the manifest are made before any file, and no file changes |
| `Restore.SimpleRestore.OpenSecurePath` | simple/restore_secure_posix.go:55-78 | each component is opened or created, and one that is a file stops the walk |
| `Restore.SimpleRestore.RestoreFile` | simple/restore.go:318-405 | one entry, which an existing file or directory makes it skip unless overwriting; a failure leaves the files as they were, unless only making the rename durable failed |
| `Restore.SimpleRestore.Commit` | simple/restore_secure_posix.go:142-153 | all bytes appear under the name or none; a rename onto a directory fails |
| `Restore.SimpleRestore.RestoreChunkedFile` | simple/restore.go:531-574 | the staging file is committed only after its last chunk verified |
| `Restore.SimpleRestore.DownloadLargeBlob` | simple/restore.go:584-627 | the staging file is committed only after hash and size were checked |
| `Restore.SimpleRestore.RestoreChunkStream` | simple/restore.go:633-650 | streamed or buffered, the same chunk is appended |
| `RestoreExact.FetchEntryFinds` | simple/restore.go:364-375 | an entry whose content is described and stored is fetched as that content |
| `RestoreExact.RestoreIsExactIff` | simple/restore.go:287-407 | restoring a valid manifest with all entries backed into an empty target finishes exactly when no restorable name looks like a drive and, if overwriting, no file is in the way of a directory; the target is then the manifest's directories and the described contents of the files not in the way, so everything comes back exactly when there is neither |
| `Repository.EntryHashesAlive` | simple/manifest.go:1563-1579 | the hashes a restore of an entry reads are among the alive hashes |
| `Repository.AliveIff` | simple/manifest.go:1563-1579 | the alive hashes are exactly those that a restore of some entry with content reads |
| `Repository.CollectGarbageKeeps` | simple/manifest.go:1563-1579 | deleting blobs that no saved manifest keeps alive keeps the repository invariant |
| `Repository.StreamedCollectionKeeps` | simple/manifest.go:1581-1691 | deleting blobs that the streaming extraction of no manifest file reports is such a deletion |
| `Repository.DeleteManifestKeeps` | simple/manifest.go:1171-1244 | so does deleting a manifest |
| `Repository.DeletionsWork` | simple/manifest.go:1171-1244 | a deleted manifest is gone, a collected blob is gone, and nothing else is |
| `Repository.BaselineIsHonest` | simple/pipeline.go:353-378 | a baseline loaded from the repository, with honest mtime and size, gives the pool what it needs of previous entries |
| `Repository.NewSnapshotOK` | simple/pipeline.go:205-317 | the manifest of a finished run is valid, loads as itself, and has all its restorable entries backed |
| `Repository.BackupKeeps` | simple/pipeline.go:205-317 | a backup keeps the repository invariant, for all earlier snapshots too |
| `Repository.AbandonKeeps` | simple/pipeline.go:256-292 | a run given up at any point, by a crash, a cancellation or a failed save, keeps the repository invariant |
| `Repository.LifetimeKeeps` | simple/pipeline.go:205-317 | the invariant over every sequence of backups, abandoned runs, manifest deletions and garbage collections: each blob decodes to bytes with its hash, each manifest loads, each restorable entry's blobs are there |
| `Repository.ScanHasNoClash` | simple/pipeline.go:384-455 | in the manifest of a proper scan no scanned path is in the way of a directory |
| `Repository.RestoreGivesBack` | simple/restore.go:233-413 | at any time, restoring any snapshot into an empty target finishes exactly when no restorable name looks like a drive, and gives back its directories and the files its source held, in any order, overwriting or not, however the store streams |
| `Repository.BackedUpFiles` | simple/pipeline.go:501-621 | the restorable entries are the scanned files that did not fail and were not locked |
| `Repository.BackedUpDirs` | simple/manifest.go:220-306 | the directories of a backup are exactly those of its scan, empty ones included, with those above them |
| `Repository.BackupReports` | simple/pipeline.go:256-288 | the stats of a saved manifest count every scanned file and byte, the new, changed and unchanged files by how their bytes compare with the baseline, and the bytes put; deleted and scanned previous paths add up; it is marked complete exactly if nothing failed to scan and every scanned file was backed up |
| `Repository.BackupThenRestore` | simple/restore.go:233-413 | restoring the manifest a run has just saved writes exactly the scanned bytes of every file not marked locked or error and makes exactly the directories of the scan |
| `Repository.FirstBackupIsGood` | simple/pipeline.go:205-317 | the assumptions can be met: in a new repository any storable small file under a proper name is backed up by a run that ends |
| `Repository.DriveNameIsProper` | simple/restore.go:40-43 | a root file name such as C:x is proper and looks like a drive |
| `Repository.DriveNameStopsRestore` | simple/restore.go:327-330 | backing up one file under a proper name that looks like a drive succeeds, and no restore of that backup does |
| `Repository.FileAndDirectoryClash` | simple/manifest_validate.go:145-206 | a file and a file in a directory of the same path make a manifest that passes validation and has a clash |
| `Repository.ClashExists` | simple/manifest_validate.go:145-206 | such as a and a/b |
| `Limiter.RefillExact` | ratelimit/ratelimit.go:55-76 | one tick adds exactly a tenth of the rate, counting the carried digit and what the cap dropped |
| `Limiter.RateLimiter.Tick` | ratelimit/ratelimit.go:55-76 | the refill |
| `Limiter.RateLimiter.Take` | ratelimit/ratelimit.go:78-120 | one poll takes what was asked for or, if that is less, all the bucket holds; nothing from an empty bucket; the bucket loses what is taken |
| `Limiter.RateLimiter.SetRate` | ratelimit/ratelimit.go:122-153 | a rate change, and its effect on bucket and cap |
| `Limiter.RateLimiter.Stop` | ratelimit/ratelimit.go:155-165 | stopping changes nothing but the flag |
| `Limiter.StoppedForGood` | ratelimit/ratelimit.go:55-165 | once stopped and its refill loop ended, nothing is ever put into the bucket again and SetRate changes nothing |
| `Limiter.RunConserves` | ratelimit/ratelimit.go:37-165 | over every interleaving of ticks, waiters, SetRate and Stop, bounds hold and every tenth of a token is accounted for |
| `Limiter.GrantsBounded` | ratelimit/ratelimit.go:37-165 | 10*granted + 10*bucket + digit is at most 10*fills + ticked rates, with equality when nothing was dropped; 0 <= bucket <= cap, 0 <= digit <= 9 |
| `Limiter.WaiterAccounting` | ratelimit/ratelimit.go:78-120 | a served caller took exactly what it asked for |
| `Limiter.TakeServesIff` | ratelimit/ratelimit.go:88-105 | in any state of any run, a caller at the bucket is served exactly if it needs no more than the bucket holds, and otherwise empties it |
| `Limiter.PollReleasesIff` | ratelimit/ratelimit.go:80-86 | a poll releases the caller exactly if the rate is not positive |
| `Limiter.SetRateWorks` | ratelimit/ratelimit.go:122-153 | a rate change counts from the next poll on, unless the limiter is stopped |
| `Limiter.StopIsFinal` | ratelimit/ratelimit.go:122-165 | after Stop, over every run, no rate change works and no bucket is filled |
| `Limiter.FreshLimiterServes` | ratelimit/ratelimit.go:37-53 | a new limiter serves a request up to its rate at the first poll |
| `Limiter.LoneWaiterServed` | ratelimit/ratelimit.go:55-120 | after any run, a caller that polls once after each tick, alone and at a constant positive rate, is served within k ticks, for any k with k times the rate at least ten times what it needs |
| `Limiter.WindowBound` | ratelimit/ratelimit.go:55-120 | a window of k ticks at rate r grants at most 2r + (k*r + 9)/10 |

## Left out

- AES, GCM, HKDF, Argon2, SHA-256, zstd, JSON and the content-defined chunker: kept abstract with the laws above.
- Keys, configuration, repository initialisation, the vault and the compressor wrappers: thin wrappers or file I/O.
- Symbolic links, directory handles and the Windows variants of restore and commit: operating-system behaviour; only "staging is invisible until commit" is kept.
- Ignore patterns, size filters and the source walk: a scan is an input of the pool.
- addEmptyDirs: which scanned directories are empty is an input of the pool; adding them is modelled.
- Choice of the latest manifest, timestamps, cloud identifiers, trash and source registries: a baseline is some saved manifest.
- Progress, logging, timing and the retries on locked files: a file may become locked or fail at any step.
- Cancellation inside the worker pool: a cancelled run is a run abandoned at some point; its counters are not looked at.
- File modes and mtimes of restored files, and staging files left behind by a crash.
- Readers that recover: once a read has failed the stream stays failed; in the pool any file may fail at any step.
- int64 wrap-around of counters, totals and rates: unbounded integers are used; the 64-bit arithmetic of the GB3 header and the 32-bit fields of the formats are modelled.
- Names that are not valid UTF-8, which JSON would change: a manifest is assumed to survive marshalling.
- Buffer pooling in the pipeline: only the buffers carried across chunks in restore are arrays here.
- Pool: a batch existence query is one step, which the growing store makes equivalent to its parts.
- StoreThreads.FalseSuccessHasCause: one direction only, because a delete of a hash in hand misleads no put if none asks for the hash before it is stored again; PutsTruthfulIff is exact where no such delete happens.
- PoolStoresHonestly: for keyless runs the condition on small files is about what the two reads return, because no caller can check it beforehand.
- BlobCodec.EncryptRoundTripIff: silent on chunk sizes of 4 GiB and more with 100000 chunks and more (over 400 TB), where the header holds the chunk size cut to 32 bits and reading back depends on what accidentally authenticates.
- BlobCodec.GB3RoundTrip: the same chunk sizes.
- BlobCodec.ReadFrameRoundTrip: silent on stored chunks of 4 GiB and more, whose size field wraps.
- BlobCodec.FramesRoundTrip: the same chunk sizes.
- StreamCodec.WriterReadersInverse: the same chunk sizes.
