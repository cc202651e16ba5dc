/**
 * The artifact locator (internal/detector/detector.go): which compose files, env files, env
 * examples, language manifests, README and Makefile a project directory holds. Each `Detect...`
 * method appends to or sets fields of the shared `Artifacts` object, as the Go code does, and is
 * proved against a function that says what it leaves there.
 */
module Detector {
  import opened Options
  import opened Text
  import opened Seqs
  import opened FileSystem
  import opened ArtifactModel

  /** The standard compose file names, in the order they are tried. */
  const ComposeCandidates: seq<string> := [
    "compose.yaml", "compose.yml", "docker-compose.yaml", "docker-compose.yml",
    "docker-compose.override.yaml", "docker-compose.override.yml"]

  /** The standard env file names. */
  const EnvCandidates: seq<string> := [".env", ".env.local", ".env.development", ".env.dev"]

  /** The standard env example names. */
  const ExampleCandidates: seq<string> := [".env.example", ".env.sample", ".env.template", "example.env"]

  /** The README names, in order of preference. */
  const ReadmeCandidates: seq<string> := ["README.md", "README.MD", "readme.md", "README.txt", "README"]

  /** The Makefile names, in order of preference. */
  const MakefileCandidates: seq<string> := ["Makefile", "makefile", "GNUmakefile"]

  /** An artifact with only a kind, a path and a found flag, as every locator step but the manifest one records. */
  function Located(kind: ArtifactType, path: string, found: bool): Artifact {
    Artifact(kind, path, "", "", found)
  }

  /** The paths of a list of artifacts, in order. */
  function Paths(artifacts: seq<Artifact>): (r: seq<string>)
    ensures |r| == |artifacts|
  {
    if artifacts == [] then [] else Paths(artifacts[..|artifacts| - 1]) + [artifacts[|artifacts| - 1].path]
  }

  // ---------------------------------------------------------------------------------------------
  // Candidate lists

  /** The candidates that exist, as found artifacts of `kind`, in candidate order. */
  function Existing(ws: Workspace, names: seq<string>, kind: ArtifactType): seq<Artifact> {
    if names == [] then []
    else
      var name := names[|names| - 1];
      Existing(ws, names[..|names| - 1], kind) + (if FileExists(ws, name) then [Located(kind, name, true)] else [])
  }

  /** Every candidate, as an artifact of `kind` that records whether it exists. */
  function Probed(ws: Workspace, names: seq<string>, kind: ArtifactType): seq<Artifact> {
    if names == [] then []
    else
      var name := names[|names| - 1];
      Probed(ws, names[..|names| - 1], kind) + [Located(kind, name, FileExists(ws, name))]
  }

  /** The existing candidates are kept, in order, and only they: their paths are the candidates filtered by existence. */
  lemma {:induction false} ExistingMeaning(ws: Workspace, names: seq<string>, kind: ArtifactType)
    ensures Paths(Existing(ws, names, kind)) == Filter(names, (n: string) => FileExists(ws, n))
    ensures forall a | a in Existing(ws, names, kind) :: a == Located(kind, a.path, true) && a.path in names && FileExists(ws, a.path)
    ensures forall n | n in names && FileExists(ws, n) :: Located(kind, n, true) in Existing(ws, names, kind)
  {
    if names != [] {
      var init, name := names[..|names| - 1], names[|names| - 1];
      ExistingMeaning(ws, init, kind);
      assert names == init + [name];
      var extra := if FileExists(ws, name) then [Located(kind, name, true)] else [];
      assert Existing(ws, names, kind) == Existing(ws, init, kind) + extra;
      PathsSnoc(Existing(ws, init, kind), extra);
      assert Paths(extra) == if FileExists(ws, name) then [name] else [];
    }
  }

  /** Every candidate is recorded, in order, with whether it exists. */
  lemma {:induction false} ProbedMeaning(ws: Workspace, names: seq<string>, kind: ArtifactType)
    ensures |Probed(ws, names, kind)| == |names|
    ensures forall i | 0 <= i < |names| :: Probed(ws, names, kind)[i] == Located(kind, names[i], FileExists(ws, names[i]))
  {
    if names != [] {
      ProbedMeaning(ws, names[..|names| - 1], kind);
    }
  }

  /** The first existing candidate, as a found artifact of `kind`, if any exists. */
  function FirstExisting(ws: Workspace, names: seq<string>, kind: ArtifactType): Option<Artifact> {
    if names == [] then None
    else if FileExists(ws, names[0]) then Some(Located(kind, names[0], true))
    else FirstExisting(ws, names[1..], kind)
  }

  /** There is no first existing candidate exactly when no candidate exists. */
  lemma {:induction false} FirstExistingNone(ws: Workspace, names: seq<string>, kind: ArtifactType)
    ensures FirstExisting(ws, names, kind).None? <==> forall i | 0 <= i < |names| :: !FileExists(ws, names[i])
  {
    if names != [] && !FileExists(ws, names[0]) {
      var rest := names[1..];
      FirstExistingNone(ws, rest, kind);
      assert forall i | 1 <= i < |names| :: names[i] == rest[i - 1];
    }
  }

  /** The first existing candidate wins. */
  lemma {:induction false} FirstExistingWins(ws: Workspace, names: seq<string>, kind: ArtifactType, i: nat)
    requires i < |names| && FileExists(ws, names[i])
    requires forall j | 0 <= j < i :: !FileExists(ws, names[j])
    ensures FirstExisting(ws, names, kind) == Some(Located(kind, names[i], true))
  {
    if i > 0 {
      var rest := names[1..];
      assert !FileExists(ws, names[0]);
      assert rest[i - 1] == names[i];
      assert forall j | 0 <= j < i - 1 :: rest[j] == names[j + 1];
      FirstExistingWins(ws, rest, kind, i - 1);
    }
  }

  // ---------------------------------------------------------------------------------------------
  // Compose files

  /** What `detectComposeFiles` appends: the override alone when it exists; otherwise the override (marked missing) and the existing standard names. */
  function ComposeDetected(ws: Workspace, override: string): seq<Artifact> {
    if override != "" && FileExists(ws, override) then [Located(Compose, override, true)]
    else (if override != "" then [Located(Compose, override, false)] else []) + Existing(ws, ComposeCandidates, Compose)
  }

  /** `detectComposeFiles`. */
  method DetectComposeFiles(ws: Workspace, override: string, artifacts: Artifacts)
    modifies artifacts`composeFiles
    ensures artifacts.composeFiles == old(artifacts.composeFiles) + ComposeDetected(ws, override)
  {
    if override != "" {
      var found := FileExists(ws, override);
      artifacts.composeFiles := artifacts.composeFiles + [Located(Compose, override, found)];
      if found {
        return;
      }
    }
    ghost var start := artifacts.composeFiles;
    for i := 0 to |ComposeCandidates|
      invariant artifacts.composeFiles == start + Existing(ws, ComposeCandidates[..i], Compose)
    {
      var name := ComposeCandidates[i];
      if FileExists(ws, name) {
        artifacts.composeFiles := artifacts.composeFiles + [Located(Compose, name, true)];
      }
      assert ComposeCandidates[..i + 1][..i] == ComposeCandidates[..i];
    }
    assert ComposeCandidates[..|ComposeCandidates|] == ComposeCandidates;
  }

  /**
   * A given override comes first; when it exists it is the only compose file. Some compose file is
   * found exactly when the override or one of the standard names exists.
   */
  lemma ComposeDetectedMeaning(ws: Workspace, override: string)
    ensures override != "" ==> ComposeDetected(ws, override)[0] == Located(Compose, override, FileExists(ws, override))
    ensures override != "" && FileExists(ws, override) ==> ComposeDetected(ws, override) == [Located(Compose, override, true)]
    ensures (exists i | 0 <= i < |ComposeDetected(ws, override)| :: ComposeDetected(ws, override)[i].found) <==>
              (override != "" && FileExists(ws, override)) || exists j | 0 <= j < |ComposeCandidates| :: FileExists(ws, ComposeCandidates[j])
  {
    var detected := ComposeDetected(ws, override);
    var standard := Existing(ws, ComposeCandidates, Compose);
    ExistingMeaning(ws, ComposeCandidates, Compose);
    if !(override != "" && FileExists(ws, override)) {
      var head := if override != "" then [Located(Compose, override, false)] else [];
      assert detected == head + standard;
      if exists j | 0 <= j < |ComposeCandidates| :: FileExists(ws, ComposeCandidates[j]) {
        var j :| 0 <= j < |ComposeCandidates| && FileExists(ws, ComposeCandidates[j]);
        var a := Located(Compose, ComposeCandidates[j], true);
        assert a in standard;
        var k :| 0 <= k < |standard| && standard[k] == a;
        assert detected[|head| + k] == a;
      }
      if exists i | 0 <= i < |detected| :: detected[i].found {
        var i :| 0 <= i < |detected| && detected[i].found;
        assert i >= |head|;
        assert standard[i - |head|] in standard;
        var j :| 0 <= j < |ComposeCandidates| && ComposeCandidates[j] == standard[i - |head|].path;
      }
    }
  }

  // ---------------------------------------------------------------------------------------------
  // Env files and examples

  /** An override whose name mentions "example" is taken for an env example. */
  predicate NamesExample(name: string) {
    Contains(name, "example")
  }

  predicate NamesEnvFile(name: string) {
    !NamesExample(name)
  }

  /** The overrides taken for env files, each recording whether it exists. */
  function OverrideEnvFiles(ws: Workspace, overrides: seq<string>): seq<Artifact> {
    if overrides == [] then []
    else
      var o := overrides[|overrides| - 1];
      OverrideEnvFiles(ws, overrides[..|overrides| - 1]) + (if NamesExample(o) then [] else [Located(Env, o, FileExists(ws, o))])
  }

  /** The overrides taken for env examples, each recording whether it exists. */
  function OverrideExamples(ws: Workspace, overrides: seq<string>): seq<Artifact> {
    if overrides == [] then []
    else
      var o := overrides[|overrides| - 1];
      OverrideExamples(ws, overrides[..|overrides| - 1]) + (if NamesExample(o) then [Located(EnvExample, o, FileExists(ws, o))] else [])
  }

  /** What `detectEnvFiles` appends to the env files: the overrides that are not examples, or else all four standard names. */
  function EnvFilesDetected(ws: Workspace, overrides: seq<string>): seq<Artifact> {
    if |overrides| > 0 then OverrideEnvFiles(ws, overrides) else Probed(ws, EnvCandidates, Env)
  }

  /** What `detectEnvFiles` appends to the env examples: the overrides that are examples, or else the existing standard example names. */
  function EnvExamplesDetected(ws: Workspace, overrides: seq<string>): seq<Artifact> {
    if |overrides| > 0 then OverrideExamples(ws, overrides) else Existing(ws, ExampleCandidates, EnvExample)
  }

  /** `detectEnvFiles`. */
  method DetectEnvFiles(ws: Workspace, overrides: seq<string>, artifacts: Artifacts)
    modifies artifacts`envFiles, artifacts`envExamples
    ensures artifacts.envFiles == old(artifacts.envFiles) + EnvFilesDetected(ws, overrides)
    ensures artifacts.envExamples == old(artifacts.envExamples) + EnvExamplesDetected(ws, overrides)
  {
    if |overrides| > 0 {
      SortOverrides(ws, overrides, artifacts);
      return;
    }
    ProbeEnvCandidates(ws, artifacts);
    ProbeExampleCandidates(ws, artifacts);
  }

  /** The loop over the overrides of `detectEnvFiles`: names mentioning "example" go to the examples, the rest to the env files. */
  method SortOverrides(ws: Workspace, overrides: seq<string>, artifacts: Artifacts)
    modifies artifacts`envFiles, artifacts`envExamples
    ensures artifacts.envFiles == old(artifacts.envFiles) + OverrideEnvFiles(ws, overrides)
    ensures artifacts.envExamples == old(artifacts.envExamples) + OverrideExamples(ws, overrides)
  {
    for i := 0 to |overrides|
      invariant artifacts.envFiles == old(artifacts.envFiles) + OverrideEnvFiles(ws, overrides[..i])
      invariant artifacts.envExamples == old(artifacts.envExamples) + OverrideExamples(ws, overrides[..i])
    {
      var override := overrides[i];
      var found := FileExists(ws, override);
      if Contains(override, "example") {
        artifacts.envExamples := artifacts.envExamples + [Located(EnvExample, override, found)];
      } else {
        artifacts.envFiles := artifacts.envFiles + [Located(Env, override, found)];
      }
      assert overrides[..i + 1][..i] == overrides[..i];
    }
    assert overrides[..|overrides|] == overrides;
  }

  /** Without overrides, every standard env file name is recorded with whether it exists. */
  method ProbeEnvCandidates(ws: Workspace, artifacts: Artifacts)
    modifies artifacts`envFiles
    ensures artifacts.envFiles == old(artifacts.envFiles) + Probed(ws, EnvCandidates, Env)
  {
    for i := 0 to |EnvCandidates|
      invariant artifacts.envFiles == old(artifacts.envFiles) + Probed(ws, EnvCandidates[..i], Env)
    {
      var name := EnvCandidates[i];
      artifacts.envFiles := artifacts.envFiles + [Located(Env, name, FileExists(ws, name))];
      assert EnvCandidates[..i + 1][..i] == EnvCandidates[..i];
    }
    assert EnvCandidates[..|EnvCandidates|] == EnvCandidates;
  }

  /** Without overrides, the standard example names that exist are recorded. */
  method ProbeExampleCandidates(ws: Workspace, artifacts: Artifacts)
    modifies artifacts`envExamples
    ensures artifacts.envExamples == old(artifacts.envExamples) + Existing(ws, ExampleCandidates, EnvExample)
  {
    for i := 0 to |ExampleCandidates|
      invariant artifacts.envExamples == old(artifacts.envExamples) + Existing(ws, ExampleCandidates[..i], EnvExample)
    {
      var name := ExampleCandidates[i];
      if FileExists(ws, name) {
        artifacts.envExamples := artifacts.envExamples + [Located(EnvExample, name, true)];
      }
      assert ExampleCandidates[..i + 1][..i] == ExampleCandidates[..i];
    }
    assert ExampleCandidates[..|ExampleCandidates|] == ExampleCandidates;
  }

  /** Appending an artifact appends its path. */
  lemma PathsSnoc(artifacts: seq<Artifact>, extra: seq<Artifact>)
    requires |extra| <= 1
    ensures Paths(artifacts + extra) == Paths(artifacts) + Paths(extra)
  {
    if extra != [] {
      assert (artifacts + extra)[..|artifacts|] == artifacts;
      assert extra[..0] == [];
      assert Paths(extra) == [extra[0].path];
    } else {
      assert artifacts + extra == artifacts;
    }
  }

  /** A path of the list is the path of one of its artifacts. */
  lemma {:induction false} PathsMembers(artifacts: seq<Artifact>, path: string)
    requires path in Paths(artifacts)
    ensures exists a | a in artifacts :: a.path == path
  {
    var init := artifacts[..|artifacts| - 1];
    if path in Paths(init) {
      PathsMembers(init, path);
      var a :| a in init && a.path == path;
      assert a in artifacts;
    } else {
      assert artifacts[|artifacts| - 1] in artifacts;
    }
  }

  /** The overrides not mentioning "example" are the env files, in order, each recording whether it exists. */
  lemma {:induction false} OverrideEnvFilesMeaning(ws: Workspace, overrides: seq<string>)
    ensures Paths(OverrideEnvFiles(ws, overrides)) == Filter(overrides, NamesEnvFile)
    ensures forall a | a in OverrideEnvFiles(ws, overrides) :: a == Located(Env, a.path, FileExists(ws, a.path))
  {
    if overrides != [] {
      var init, o := overrides[..|overrides| - 1], overrides[|overrides| - 1];
      OverrideEnvFilesMeaning(ws, init);
      var extra := if NamesExample(o) then [] else [Located(Env, o, FileExists(ws, o))];
      assert OverrideEnvFiles(ws, overrides) == OverrideEnvFiles(ws, init) + extra;
      PathsSnoc(OverrideEnvFiles(ws, init), extra);
      assert Paths(extra) == if NamesEnvFile(o) then [o] else [];
    }
  }

  /** The overrides mentioning "example" are the env examples, in order, each recording whether it exists. */
  lemma {:induction false} OverrideExamplesMeaning(ws: Workspace, overrides: seq<string>)
    ensures Paths(OverrideExamples(ws, overrides)) == Filter(overrides, NamesExample)
    ensures forall a | a in OverrideExamples(ws, overrides) :: a == Located(EnvExample, a.path, FileExists(ws, a.path))
  {
    if overrides != [] {
      var init, o := overrides[..|overrides| - 1], overrides[|overrides| - 1];
      OverrideExamplesMeaning(ws, init);
      var extra := if NamesExample(o) then [Located(EnvExample, o, FileExists(ws, o))] else [];
      assert OverrideExamples(ws, overrides) == OverrideExamples(ws, init) + extra;
      PathsSnoc(OverrideExamples(ws, init), extra);
      assert Paths(extra) == if NamesExample(o) then [o] else [];
    }
  }

  /** Each override lands in exactly one of the two lists. */
  lemma {:induction false} OverridesPartitioned(ws: Workspace, overrides: seq<string>)
    ensures |OverrideEnvFiles(ws, overrides)| + |OverrideExamples(ws, overrides)| == |overrides|
  {
    if overrides != [] {
      OverridesPartitioned(ws, overrides[..|overrides| - 1]);
    }
  }

  /** Every override is recorded with whether it exists: among the examples when it mentions "example", among the env files otherwise. */
  lemma OverridesRecorded(ws: Workspace, overrides: seq<string>)
    ensures forall o | o in overrides && !NamesExample(o) :: Located(Env, o, FileExists(ws, o)) in EnvFilesDetected(ws, overrides)
    ensures forall o | o in overrides && NamesExample(o) :: Located(EnvExample, o, FileExists(ws, o)) in EnvExamplesDetected(ws, overrides)
  {
    OverrideEnvFilesMeaning(ws, overrides);
    OverrideExamplesMeaning(ws, overrides);
    forall o | o in overrides && !NamesExample(o)
      ensures Located(Env, o, FileExists(ws, o)) in EnvFilesDetected(ws, overrides)
    {
      FilterMembers(overrides, NamesEnvFile, o);
      PathsMembers(OverrideEnvFiles(ws, overrides), o);
    }
    forall o | o in overrides && NamesExample(o)
      ensures Located(EnvExample, o, FileExists(ws, o)) in EnvExamplesDetected(ws, overrides)
    {
      FilterMembers(overrides, NamesExample, o);
      PathsMembers(OverrideExamples(ws, overrides), o);
    }
  }

  /** Two existing custom env files (such as ".env.custom" and ".env.prod") given as overrides are both recorded as found env files. */
  lemma CustomEnvFilesFound(ws: Workspace, a: string, b: string)
    requires FileExists(ws, a) && FileExists(ws, b) && 'x' !in a && 'x' !in b
    ensures Located(Env, a, true) in EnvFilesDetected(ws, [a, b])
    ensures Located(Env, b, true) in EnvFilesDetected(ws, [a, b])
  {
    OverridesRecorded(ws, [a, b]);
    NotContainsMissingChar(a, "example", 1);
    NotContainsMissingChar(b, "example", 1);
  }

  /** Without overrides all four standard env names are recorded, in order, each with whether it exists. */
  lemma StandardEnvFiles(ws: Workspace)
    ensures |EnvFilesDetected(ws, [])| == 4
    ensures forall i | 0 <= i < 4 :: EnvFilesDetected(ws, [])[i] == Located(Env, EnvCandidates[i], FileExists(ws, EnvCandidates[i]))
  {
    ProbedMeaning(ws, EnvCandidates, Env);
  }

  // ---------------------------------------------------------------------------------------------
  // Language manifests

  /** A row of the manifest table: the file (or `*`-pattern), its language, package manager and description. */
  datatype ManifestSpec = ManifestSpec(file: string, lang: Language, pkgMgr: string, details: string)

  function LangOf(m: ManifestSpec): string {
    m.lang
  }

  function PkgMgrOf(m: ManifestSpec): string {
    m.pkgMgr
  }

  /** The manifests the locator knows, in the order they are tried. */
  const ManifestTable: seq<ManifestSpec> := [
    ManifestSpec("package.json", LangNodeJS, "", "Node.js project"),
    ManifestSpec("pnpm-lock.yaml", LangNodeJS, "pnpm", "pnpm lockfile"),
    ManifestSpec("yarn.lock", LangNodeJS, "yarn", "Yarn lockfile"),
    ManifestSpec("package-lock.json", LangNodeJS, "npm", "npm lockfile"),
    ManifestSpec("go.mod", LangGo, "go mod", "Go module"),
    ManifestSpec("pyproject.toml", LangPython, "", "Python project"),
    ManifestSpec("requirements.txt", LangPython, "pip", "pip requirements"),
    ManifestSpec("Pipfile", LangPython, "pipenv", "Pipenv project"),
    ManifestSpec("poetry.lock", LangPython, "poetry", "Poetry project"),
    ManifestSpec("Cargo.toml", LangRust, "cargo", "Rust project"),
    ManifestSpec("pom.xml", LangJava, "maven", "Maven project"),
    ManifestSpec("build.gradle", LangJava, "gradle", "Gradle project"),
    ManifestSpec("build.gradle.kts", LangJava, "gradle", "Gradle Kotlin project"),
    ManifestSpec("*.csproj", LangCSharp, "dotnet", "C# project"),
    ManifestSpec("*.sln", LangCSharp, "dotnet", "C# solution")]

  /** `filepath.Match` for a pattern `*` followed by a literal: the name ends with the literal. */
  predicate GlobMatch(pattern: string, name: string) {
    |pattern| > 0 && pattern[0] == '*' && HasSuffix(name, pattern[1..])
  }

  /** `filepath.Glob` in the scanned directory, first match only: the first listed name the pattern matches. */
  function FirstGlob(listing: seq<string>, pattern: string): Option<string> {
    if listing == [] then None
    else if GlobMatch(pattern, listing[0]) then Some(listing[0])
    else FirstGlob(listing[1..], pattern)
  }

  /** The first match is a listed name the pattern matches, with no match listed before it; there is none exactly when nothing matches. */
  lemma {:induction false} FirstGlobMeaning(listing: seq<string>, pattern: string)
    ensures FirstGlob(listing, pattern).None? <==> forall i | 0 <= i < |listing| :: !GlobMatch(pattern, listing[i])
    ensures FirstGlob(listing, pattern).Some? ==>
              exists i | 0 <= i < |listing| :: listing[i] == FirstGlob(listing, pattern).value && GlobMatch(pattern, listing[i]) &&
                forall j | 0 <= j < i :: !GlobMatch(pattern, listing[j])
  {
    if listing != [] && !GlobMatch(pattern, listing[0]) {
      var rest := listing[1..];
      FirstGlobMeaning(rest, pattern);
      assert forall i | 1 <= i < |listing| :: listing[i] == rest[i - 1];
      if FirstGlob(rest, pattern).Some? {
        var i :| 0 <= i < |rest| && rest[i] == FirstGlob(rest, pattern).value && GlobMatch(pattern, rest[i]) &&
          forall j | 0 <= j < i :: !GlobMatch(pattern, rest[j]);
        assert listing[i + 1] == rest[i];
        assert forall j | 1 <= j < i + 1 :: listing[j] == rest[j - 1];
      }
    }
  }

  /** The path recorded for a manifest row, if it is present: the first listed name a pattern matches, or the file itself when it exists. */
  function ManifestHit(ws: Workspace, m: ManifestSpec): Option<string> {
    if Contains(m.file, "*") then FirstGlob(ws.listing, m.file)
    else if FileExists(ws, m.file) then Some(m.file)
    else None
  }

  /** The manifest artifacts of the rows that are present, in table order. */
  function Manifests(ws: Workspace, ms: seq<ManifestSpec>): seq<Artifact> {
    if ms == [] then []
    else
      var m := ms[|ms| - 1];
      Manifests(ws, ms[..|ms| - 1]) + RowManifest(ws, m)
  }

  /** The artifact one row contributes: none when it is absent. */
  function RowManifest(ws: Workspace, m: ManifestSpec): seq<Artifact> {
    match ManifestHit(ws, m)
    case None => []
    case Some(p) => [Artifact(Manifest, p, m.lang, m.details, true)]
  }

  /** A row that is present and would set the value `field` selects. */
  predicate Sets(ws: Workspace, m: ManifestSpec, field: ManifestSpec -> string) {
    ManifestHit(ws, m).Some? && field(m) != ""
  }

  /** A first-wins value after the rows `ms`, starting from `v0`: each present row sets it while it is still empty. */
  function Settled(ws: Workspace, ms: seq<ManifestSpec>, field: ManifestSpec -> string, v0: string): string {
    if ms == [] then v0
    else
      var v := Settled(ws, ms[..|ms| - 1], field, v0);
      if v == "" && Sets(ws, ms[|ms| - 1], field) then field(ms[|ms| - 1]) else v
  }

  /** The lookup of one row: glob patterns through the listing, plain names through `fileExists`. */
  method LookupManifest(ws: Workspace, m: ManifestSpec) returns (found: bool, actualPath: string)
    ensures found <==> ManifestHit(ws, m).Some?
    ensures found ==> actualPath == ManifestHit(ws, m).value
  {
    if Contains(m.file, "*") {
      var matches := FirstGlob(ws.listing, m.file);
      found := matches.Some?;
      actualPath := if found then matches.value else "";
    } else {
      found := FileExists(ws, m.file);
      actualPath := m.file;
    }
  }

  /** One iteration of the loop of `detectManifests`: a present row is recorded and settles the still-empty values it names. */
  method DetectRow(ws: Workspace, m: ManifestSpec, artifacts: Artifacts)
    modifies artifacts`manifests, artifacts`detectedLang, artifacts`packageManager
    ensures artifacts.manifests == old(artifacts.manifests) + RowManifest(ws, m)
    ensures artifacts.detectedLang == if old(artifacts.detectedLang) == "" && Sets(ws, m, LangOf) then m.lang else old(artifacts.detectedLang)
    ensures artifacts.packageManager == if old(artifacts.packageManager) == "" && Sets(ws, m, PkgMgrOf) then m.pkgMgr else old(artifacts.packageManager)
  {
    var found, actualPath := LookupManifest(ws, m);
    if found {
      artifacts.manifests := artifacts.manifests + [Artifact(Manifest, actualPath, m.lang, m.details, true)];
      if artifacts.detectedLang == "" {
        artifacts.detectedLang := m.lang;
      }
      if m.pkgMgr != "" && artifacts.packageManager == "" {
        artifacts.packageManager := m.pkgMgr;
      }
    }
  }

  /** The loop of `detectManifests` over the rows `ms`. */
  method DetectRows(ws: Workspace, ms: seq<ManifestSpec>, artifacts: Artifacts)
    modifies artifacts`manifests, artifacts`detectedLang, artifacts`packageManager
    ensures artifacts.manifests == old(artifacts.manifests) + Manifests(ws, ms)
    ensures artifacts.detectedLang == Settled(ws, ms, LangOf, old(artifacts.detectedLang))
    ensures artifacts.packageManager == Settled(ws, ms, PkgMgrOf, old(artifacts.packageManager))
  {
    ghost var manifests0, lang0, pm0 := artifacts.manifests, artifacts.detectedLang, artifacts.packageManager;
    for i := 0 to |ms|
      invariant artifacts.manifests == manifests0 + Manifests(ws, ms[..i])
      invariant artifacts.detectedLang == Settled(ws, ms[..i], LangOf, lang0)
      invariant artifacts.packageManager == Settled(ws, ms[..i], PkgMgrOf, pm0)
    {
      DetectRow(ws, ms[i], artifacts);
      RowsPrefix(ws, ms, i, manifests0, lang0, pm0);
    }
    assert ms[..|ms|] == ms;
  }

  /** The specification functions after one more row of the loop of `detectManifests`. */
  lemma RowsPrefix(ws: Workspace, ms: seq<ManifestSpec>, i: nat, manifests0: seq<Artifact>, lang0: string, pm0: string)
    requires i < |ms|
    ensures manifests0 + Manifests(ws, ms[..i + 1]) == manifests0 + Manifests(ws, ms[..i]) + RowManifest(ws, ms[i])
    ensures Settled(ws, ms[..i + 1], LangOf, lang0) ==
      var v := Settled(ws, ms[..i], LangOf, lang0); if v == "" && Sets(ws, ms[i], LangOf) then ms[i].lang else v
    ensures Settled(ws, ms[..i + 1], PkgMgrOf, pm0) ==
      var v := Settled(ws, ms[..i], PkgMgrOf, pm0); if v == "" && Sets(ws, ms[i], PkgMgrOf) then ms[i].pkgMgr else v
  {
    assert ms[..i + 1][..i] == ms[..i] && ms[..i + 1][i] == ms[i];
  }

  /** `detectManifests`: the rows of the manifest table, in order. */
  method DetectManifests(ws: Workspace, artifacts: Artifacts)
    modifies artifacts`manifests, artifacts`detectedLang, artifacts`packageManager
    ensures artifacts.manifests == old(artifacts.manifests) + Manifests(ws, ManifestTable)
    ensures artifacts.detectedLang == Settled(ws, ManifestTable, LangOf, old(artifacts.detectedLang))
    ensures artifacts.packageManager == Settled(ws, ManifestTable, PkgMgrOf, old(artifacts.packageManager))
  {
    DetectRows(ws, ManifestTable, artifacts);
  }

  /** At most one artifact per row of the table. */
  lemma {:induction false} ManifestsBound(ws: Workspace, ms: seq<ManifestSpec>)
    ensures |Manifests(ws, ms)| <= |ms|
  {
    if ms != [] {
      ManifestsBound(ws, ms[..|ms| - 1]);
    }
  }

  /** Every recorded manifest is a found artifact that comes from a present row, carrying that row's language and description. */
  lemma {:induction false} ManifestsProvenance(ws: Workspace, ms: seq<ManifestSpec>)
    ensures forall a | a in Manifests(ws, ms) :: a.kind == Manifest && a.found &&
              exists i | 0 <= i < |ms| :: ManifestHit(ws, ms[i]) == Some(a.path) && a.language == ms[i].lang && a.details == ms[i].details
  {
    if ms != [] {
      var init := ms[..|ms| - 1];
      ManifestsProvenance(ws, init);
      forall a | a in Manifests(ws, ms)
        ensures a.kind == Manifest && a.found &&
          exists i | 0 <= i < |ms| :: ManifestHit(ws, ms[i]) == Some(a.path) && a.language == ms[i].lang && a.details == ms[i].details
      {
        if a in Manifests(ws, init) {
          var i :| 0 <= i < |init| && ManifestHit(ws, init[i]) == Some(a.path) && a.language == init[i].lang && a.details == init[i].details;
          assert ms[i] == init[i];
        } else {
          assert ManifestHit(ws, ms[|ms| - 1]) == Some(a.path);
        }
      }
    }
  }

  /** Every present row contributes its artifact. */
  lemma {:induction false} ManifestsPresent(ws: Workspace, ms: seq<ManifestSpec>)
    ensures forall i | 0 <= i < |ms| && ManifestHit(ws, ms[i]).Some? ::
              Artifact(Manifest, ManifestHit(ws, ms[i]).value, ms[i].lang, ms[i].details, true) in Manifests(ws, ms)
  {
    if ms != [] {
      var init := ms[..|ms| - 1];
      ManifestsPresent(ws, init);
      forall i | 0 <= i < |ms| && ManifestHit(ws, ms[i]).Some?
        ensures Artifact(Manifest, ManifestHit(ws, ms[i]).value, ms[i].lang, ms[i].details, true) in Manifests(ws, ms)
      {
        if i < |init| {
          assert ms[i] == init[i];
        }
      }
    }
  }

  /**
   * First present row wins: a value already set is kept; from empty, the value is that of the
   * first present row with a non-empty value, and stays empty exactly when there is none.
   */
  lemma {:induction false} SettledMeaning(ws: Workspace, ms: seq<ManifestSpec>, field: ManifestSpec -> string, v0: string)
    ensures v0 != "" ==> Settled(ws, ms, field, v0) == v0
    ensures v0 == "" ==>
              (Settled(ws, ms, field, v0) == "" <==> forall i | 0 <= i < |ms| :: !Sets(ws, ms[i], field))
    ensures v0 == "" && Settled(ws, ms, field, v0) != "" ==>
              exists i | 0 <= i < |ms| :: Sets(ws, ms[i], field) && Settled(ws, ms, field, v0) == field(ms[i]) &&
                forall j | 0 <= j < i :: !Sets(ws, ms[j], field)
  {
    if ms != [] {
      var init := ms[..|ms| - 1];
      SettledMeaning(ws, init, field, v0);
      if v0 == "" {
        var v := Settled(ws, init, field, v0);
        if v == "" {
          assert forall j | 0 <= j < |init| :: ms[j] == init[j];
          if Sets(ws, ms[|ms| - 1], field) {
            assert Settled(ws, ms, field, v0) == field(ms[|ms| - 1]);
          }
        } else {
          var i :| 0 <= i < |init| && Sets(ws, init[i], field) && v == field(init[i]) && forall j | 0 <= j < i :: !Sets(ws, init[j], field);
          assert ms[i] == init[i];
          assert forall j | 0 <= j < i :: ms[j] == init[j];
        }
      }
    }
  }

  /** When every row names a language, the detected language is that of the first manifest artifact. */
  lemma {:induction false} LanguageOfFirstManifest(ws: Workspace, ms: seq<ManifestSpec>)
    requires forall i | 0 <= i < |ms| :: ms[i].lang != ""
    ensures Settled(ws, ms, LangOf, "") == if Manifests(ws, ms) == [] then "" else Manifests(ws, ms)[0].language
    ensures Settled(ws, ms, LangOf, "") == "" <==> Manifests(ws, ms) == []
  {
    if ms != [] {
      var init, m := ms[..|ms| - 1], ms[|ms| - 1];
      assert forall i | 0 <= i < |init| :: init[i] == ms[i];
      LanguageOfFirstManifest(ws, init);
      var extra := RowManifest(ws, m);
      assert Manifests(ws, ms) == Manifests(ws, init) + extra;
      if Manifests(ws, init) != [] {
        assert Manifests(ws, ms)[0] == Manifests(ws, init)[0];
      } else if ManifestHit(ws, m).Some? {
        assert Sets(ws, m, LangOf);
        assert Manifests(ws, ms) == extra;
      }
    }
  }

  /** Every row of the table names a language, so the detected language is always that of the first manifest found. */
  lemma TableLanguageOfFirstManifest(ws: Workspace)
    ensures Settled(ws, ManifestTable, LangOf, "") == if Manifests(ws, ManifestTable) == [] then "" else Manifests(ws, ManifestTable)[0].language
  {
    LanguageOfFirstManifest(ws, ManifestTable);
  }

  /** When exactly one row is present, the language and the package manager are that row's. */
  lemma OnlyRowPresent(ws: Workspace, ms: seq<ManifestSpec>, k: nat)
    requires k < |ms| && ManifestHit(ws, ms[k]).Some?
    requires forall j | 0 <= j < |ms| && j != k :: ManifestHit(ws, ms[j]).None?
    ensures Settled(ws, ms, LangOf, "") == ms[k].lang
    ensures Settled(ws, ms, PkgMgrOf, "") == ms[k].pkgMgr
  {
    SettledMeaning(ws, ms, LangOf, "");
    SettledMeaning(ws, ms, PkgMgrOf, "");
    if ms[k].lang != "" {
      assert Sets(ws, ms[k], LangOf);
    }
    if ms[k].pkgMgr != "" {
      assert Sets(ws, ms[k], PkgMgrOf);
    }
  }

  // ---------------------------------------------------------------------------------------------
  // README and Makefile

  /** `detectReadme`: the first existing README name, or the README left as it was. */
  method DetectReadme(ws: Workspace, artifacts: Artifacts)
    modifies artifacts`readme
    ensures artifacts.readme == if FirstExisting(ws, ReadmeCandidates, Readme).Some? then FirstExisting(ws, ReadmeCandidates, Readme) else old(artifacts.readme)
  {
    for i := 0 to |ReadmeCandidates|
      invariant FirstExisting(ws, ReadmeCandidates[i..], Readme) == FirstExisting(ws, ReadmeCandidates, Readme)
    {
      var name := ReadmeCandidates[i];
      if FileExists(ws, name) {
        artifacts.readme := Some(Located(Readme, name, true));
        return;
      }
      assert ReadmeCandidates[i..][1..] == ReadmeCandidates[i + 1..];
    }
  }

  /** `detectMakefile`: the first existing Makefile name, or the Makefile left as it was. */
  method DetectMakefile(ws: Workspace, artifacts: Artifacts)
    modifies artifacts`makefile
    ensures artifacts.makefile == if FirstExisting(ws, MakefileCandidates, Makefile).Some? then FirstExisting(ws, MakefileCandidates, Makefile) else old(artifacts.makefile)
  {
    for i := 0 to |MakefileCandidates|
      invariant FirstExisting(ws, MakefileCandidates[i..], Makefile) == FirstExisting(ws, MakefileCandidates, Makefile)
    {
      var name := MakefileCandidates[i];
      if FileExists(ws, name) {
        artifacts.makefile := Some(Located(Makefile, name, true));
        return;
      }
      assert MakefileCandidates[i..][1..] == MakefileCandidates[i + 1..];
    }
  }

  // ---------------------------------------------------------------------------------------------
  // The whole locator

  /** `Detect`: a fresh collection filled by the five steps in turn. */
  method Detect(ws: Workspace, composeOverride: string, envOverrides: seq<string>) returns (artifacts: Artifacts)
    ensures fresh(artifacts)
    ensures artifacts.composeFiles == ComposeDetected(ws, composeOverride)
    ensures artifacts.envFiles == EnvFilesDetected(ws, envOverrides)
    ensures artifacts.envExamples == EnvExamplesDetected(ws, envOverrides)
    ensures artifacts.manifests == Manifests(ws, ManifestTable)
    ensures artifacts.detectedLang == Settled(ws, ManifestTable, LangOf, "")
    ensures artifacts.packageManager == Settled(ws, ManifestTable, PkgMgrOf, "")
    ensures artifacts.readme == FirstExisting(ws, ReadmeCandidates, Readme)
    ensures artifacts.makefile == FirstExisting(ws, MakefileCandidates, Makefile)
  {
    artifacts := new Artifacts.NewArtifacts();
    DetectFiles(ws, composeOverride, envOverrides, artifacts);
    DetectProject(ws, artifacts);
  }

  /** The first two steps: compose files, then env files and examples. */
  method DetectFiles(ws: Workspace, composeOverride: string, envOverrides: seq<string>, artifacts: Artifacts)
    modifies artifacts`composeFiles, artifacts`envFiles, artifacts`envExamples
    ensures artifacts.composeFiles == old(artifacts.composeFiles) + ComposeDetected(ws, composeOverride)
    ensures artifacts.envFiles == old(artifacts.envFiles) + EnvFilesDetected(ws, envOverrides)
    ensures artifacts.envExamples == old(artifacts.envExamples) + EnvExamplesDetected(ws, envOverrides)
  {
    DetectComposeFiles(ws, composeOverride, artifacts);
    DetectEnvFiles(ws, envOverrides, artifacts);
  }

  /** The last three steps: manifests, README, Makefile. */
  method DetectProject(ws: Workspace, artifacts: Artifacts)
    modifies artifacts`manifests, artifacts`detectedLang, artifacts`packageManager, artifacts`readme, artifacts`makefile
    ensures artifacts.manifests == old(artifacts.manifests) + Manifests(ws, ManifestTable)
    ensures artifacts.detectedLang == Settled(ws, ManifestTable, LangOf, old(artifacts.detectedLang))
    ensures artifacts.packageManager == Settled(ws, ManifestTable, PkgMgrOf, old(artifacts.packageManager))
    ensures artifacts.readme == if FirstExisting(ws, ReadmeCandidates, Readme).Some? then FirstExisting(ws, ReadmeCandidates, Readme) else old(artifacts.readme)
    ensures artifacts.makefile == if FirstExisting(ws, MakefileCandidates, Makefile).Some? then FirstExisting(ws, MakefileCandidates, Makefile) else old(artifacts.makefile)
  {
    DetectManifests(ws, artifacts);
    DetectReadme(ws, artifacts);
    DetectMakefile(ws, artifacts);
  }
}
