/**
 * The file system as the checks and the locator see it. Every path is relative to the scanned
 * directory and is used as written: joining is plain concatenation with "/", without the
 * lexical clean-up `filepath.Join` performs.
 */
module FileSystem {
  import Compose
  import opened ArtifactModel

  datatype Workspace = Workspace(
    /** The text of every file that can be read. */
    contents: map<string, string>,
    /** Paths that `os.Stat` reports as existing non-directories. */
    regular: set<string>,
    /** Paths that `os.Stat` reports as existing directories. */
    dirs: set<string>,
    /** The names directly inside the scanned directory, in lexical order (what `filepath.Glob` lists). */
    listing: seq<string>,
    /** For each compose file whose text decodes as YAML, its `services` mapping. */
    services: map<string, map<string, Compose.Service>>,
    /** The base name of the scanned directory, which `filepath.Walk` visits first. */
    rootName: string,
    /** The non-directory entries below the scanned directory, relative, in the order `filepath.Walk` visits them. */
    tree: seq<string>)

  /** The locator's `fileExists`: `os.Stat` succeeds and the path is not a directory. */
  predicate FileExists(ws: Workspace, path: string) {
    path in ws.regular
  }

  /** Neither a file nor a directory is at `path`. */
  predicate Missing(ws: Workspace, path: string) {
    path !in ws.regular && path !in ws.dirs
  }

  /**
   * `os.IsNotExist(err)` for `os.Stat(path)`: nothing is at `path` (ENOENT). When a leading
   * component of the path is an existing non-directory the error is ENOTDIR instead, for which
   * `os.IsNotExist` is false.
   */
  predicate NotExist(ws: Workspace, path: string) {
    Missing(ws, path) && forall i | 0 <= i < |path| && path[i] == '/' :: path[..i] !in ws.regular
  }

  /** `filepath.Join(a, b)`: empty elements are dropped. */
  function JoinPath(a: string, b: string): (r: string)
    ensures a == "" ==> r == b
    ensures b == "" ==> r == a
    ensures a != "" && b != "" ==> r == a + "/" + b
  {
    if a == "" then b else if b == "" then a else a + "/" + b
  }

  /** The services of a compose artifact as the compose checks see them: those of a found, readable file that decodes, or none. */
  function Decoded(ws: Workspace, c: Artifact): map<string, Compose.Service> {
    if c.found && c.path in ws.contents && c.path in ws.services then ws.services[c.path] else map[]
  }

  /** As on a real file system, a path below `dir/` exists only if `dir` is an existing directory. */
  ghost predicate ParentsExist(ws: Workspace) {
    forall dir, rest :: !Missing(ws, dir + "/" + rest) ==> dir in ws.dirs
  }
}
