/** The records of a snapshot manifest (simple/manifest.go). */
module ManifestTypes {
  datatype ChunkRef = ChunkRef(hash: string, size: int)

  /** The status of a file that was found but not backed up. */
  predicate Missed(status: string) {
    status == "locked" || status == "error"
  }

  datatype FileEntry = FileEntry(
    name: string, contentHash: string, size: int, mtime: string, mode: int,
    status: string, chunks: seq<ChunkRef>)
  {
    /** Locked and failed files have no content in the repository. */
    predicate IsRestorable() {
      !Missed(status) && contentHash != ""
    }

    /** The hashes a restore of this entry reads. */
    function Hashes(): seq<string> {
      if chunks != [] then seq(|chunks|, i requires 0 <= i < |chunks| => chunks[i].hash)
      else [contentHash]
    }
  }

  function ChunkSum(chunks: seq<ChunkRef>): int {
    if chunks == [] then 0 else chunks[0].size + ChunkSum(chunks[1..])
  }

  datatype Dir = Dir(files: seq<FileEntry>, subDirs: seq<string>)

  const EmptyDir := Dir([], [])

  type Dirs = map<string, Dir>

  datatype Stats = Stats(
    fileCount: int, totalSize: int, newFiles: int, changedFiles: int,
    unchangedFiles: int, deletedFiles: int, newBytes: int, scanErrors: int)

  const ZeroStats := Stats(0, 0, 0, 0, 0, 0, 0, 0)

  datatype Header = Header(
    version: int, sourceId: int, cloudId: string, sourceName: string,
    sourcePath: string, timestamp: string, deviceId: string)

  datatype Manifest = Manifest(header: Header, dirs: Dirs, stats: Stats, completeness: string)
}
