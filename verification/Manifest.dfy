/** The data of the externalized state (cache/manifest.rs). */
module Manifest {

  import opened Wrappers

  /** Where a debug file was located. */
  datatype Origin =
    | DirOrigin(path: string)
    | GlobOrigin(matchedPath: string)
    | Debuginfod(url: string)
    | S3(bucket: string, key: string)
    | Http(url: string)
    | Inline
  {
    function Label(): string {
      match this
      case DirOrigin(path) => "dir:" + path
      case GlobOrigin(matchedPath) => "glob:" + matchedPath
      case Debuginfod(url) => "debuginfod:" + url
      case S3(bucket, key) => "s3:" + bucket + "/" + key
      case Http(url) => "http:" + url
      case Inline => "inline"
    }
  }

  /** A registered symbol source. */
  datatype SourceSpec = SourceSpec(
    sourceId: string, kind: string, path: Option<string>, url: Option<string>, bucket: Option<string>,
    enabled: bool, egress: bool, secret: Option<string>)

  /** One debug-id ever resolved, or proven missing. */
  datatype ManifestEntry = ManifestEntry(
    debugId: string, origin: Option<Origin>, format: Option<string>, arch: Option<string>, name: Option<string>,
    fetchedBytes: nat, rowsResolved: nat, lastUsed: nat, miss: bool)

  datatype CacheManifest = CacheManifest(sources: seq<SourceSpec>, entries: seq<ManifestEntry>)

  function EntryKey(e: ManifestEntry): string { e.debugId }
}
