/**
 * `checkEnvExample`: an env example without any env file gives ENV003; an example next to a
 * `.env` or `.env.local` gives one ENV002 per example key the env file lacks.
 */
module EnvExample {
  import opened Options
  import opened Seqs
  import opened FileSystem
  import opened ArtifactModel
  import opened FindingModel
  import opened EnvFiles

  predicate IsFound(a: Artifact) {
    a.found
  }

  /** The env files ENV002 compares against: found, and named `.env` or `.env.local`. */
  predicate IsPrimaryEnv(a: Artifact) {
    a.found && (a.path == ".env" || a.path == ".env.local")
  }

  function Env003(examplePath: string): Finding {
    Finding(
      "ENV003", Warning,
      ".env.example exists but .env is missing",
      examplePath + " exists but no .env file found",
      [SourceLocation(examplePath, 0, 0)],
      "Copy .env.example to .env and fill in values")
  }

  function Env002(key: string, examplePath: string, envPath: string): Finding {
    Finding(
      "ENV002", Warning,
      examplePath + " has " + key + " but " + envPath + " does not",
      "Variable " + key + " is defined in " + examplePath + " but missing from " + envPath,
      [],
      "Add " + key + "=<value> to " + envPath)
  }

  /** One ENV002 per key, in order. */
  function Env002s(keys: seq<string>, examplePath: string, envPath: string): (fs: seq<Finding>)
    ensures |fs| == |keys|
  {
    if keys == [] then [] else Env002s(keys[..|keys| - 1], examplePath, envPath) + [Env002(keys[|keys| - 1], examplePath, envPath)]
  }

  /** The keys of `order` the env file does not assign, in visiting order. */
  function MissingKeys(order: seq<string>, env: map<string, string>): seq<string> {
    Filter(order, k => k !in env)
  }

  /** The variables of the first found example, when the ENV002 comparison runs (an example and a primary env file exist). */
  function Compared(envFiles: seq<Artifact>, envExamples: seq<Artifact>): Option<(Artifact, Artifact)> {
    match First(envExamples, IsFound)
    case None => None
    case Some(x) =>
      match First(envFiles, IsPrimaryEnv)
      case None => None
      case Some(e) => Some((envExamples[x], envFiles[e]))
  }

  /** The example keys the key loop visits: those of the compared example, or none. */
  function ComparedKeys(ws: Workspace, envFiles: seq<Artifact>, envExamples: seq<Artifact>): set<string> {
    match Compared(envFiles, envExamples)
    case None => {}
    case Some((example, _)) => EnvFileVars(ws, example.path).Keys
  }

  /** The findings of `checkEnvExample` when the example keys are visited in `order`. */
  function ExampleFindings(ws: Workspace, envFiles: seq<Artifact>, envExamples: seq<Artifact>, order: seq<string>): seq<Finding> {
    match First(envExamples, IsFound)
    case None => []
    case Some(x) =>
      if !AnyFound(envFiles) then [Env003(envExamples[x].path)]
      else ComparedFindings(ws, envFiles, envExamples, order)
  }

  /** The ENV002 findings of the comparison, when it runs. */
  function ComparedFindings(ws: Workspace, envFiles: seq<Artifact>, envExamples: seq<Artifact>, order: seq<string>): seq<Finding> {
    match Compared(envFiles, envExamples)
    case None => []
    case Some((example, env)) => Env002s(MissingKeys(order, EnvFileVars(ws, env.path)), example.path, env.path)
  }

  /** The key loop of `checkEnvExample`: one ENV002 per example key the env file lacks, visited in `order`. */
  method CompareKeys(example: map<string, string>, env: map<string, string>, examplePath: string, envPath: string)
    returns (findings: seq<Finding>, ghost order: seq<string>)
    ensures Enumerates(order, example.Keys)
    ensures findings == Env002s(MissingKeys(order, env), examplePath, envPath)
  {
    findings := [];
    order := [];
    var pending := example.Keys;
    while pending != {}
      invariant pending !! (set k | k in order)
      invariant forall k | k in order :: k in example
      invariant forall i, j | 0 <= i < j < |order| :: order[i] != order[j]
      invariant forall k | k in example :: k in pending || k in order
      invariant pending <= example.Keys
      invariant findings == Env002s(MissingKeys(order, env), examplePath, envPath)
      decreases pending
    {
      var key :| key in pending;
      ghost var visited := order;
      order := order + [key];
      pending := pending - {key};
      assert order[..|order| - 1] == visited;
      if key !in env {
        ghost var missing := MissingKeys(visited, env);
        assert MissingKeys(order, env) == missing + [key];
        assert (missing + [key])[..|missing|] == missing;
        findings := findings + [Env002(key, examplePath, envPath)];
      } else {
        assert MissingKeys(order, env) == MissingKeys(visited, env);
      }
    }
  }

  /** The branch of `checkEnvExample` where both an example and an env file exist. */
  method CompareExample(ws: Workspace, envFiles: seq<Artifact>, envExamples: seq<Artifact>)
    returns (findings: seq<Finding>, ghost order: seq<string>)
    ensures Enumerates(order, ComparedKeys(ws, envFiles, envExamples))
    ensures findings == ComparedFindings(ws, envFiles, envExamples, order)
  {
    findings := [];
    order := [];
    var exampleVars: Option<map<string, string>> := None;
    var envVars: Option<map<string, string>> := None;
    var examplePath, envPath := "", "";
    var x := FindFirst(envExamples, IsFound);
    if x.Some? {
      examplePath := envExamples[x.value].path;
      var vars := ParseEnvFile(ws, examplePath);
      exampleVars := Some(vars);
    }
    var e := FindFirst(envFiles, IsPrimaryEnv);
    if e.Some? {
      envPath := envFiles[e.value].path;
      var vars := ParseEnvFile(ws, envPath);
      envVars := Some(vars);
    }
    if exampleVars.Some? && envVars.Some? {
      findings, order := CompareKeys(exampleVars.value, envVars.value, examplePath, envPath);
    }
  }

  /** `checkEnvExample`; `order` is the iteration order of the example's keys (empty when no comparison runs). */
  method CheckEnvExample(ws: Workspace, artifacts: Artifacts) returns (findings: seq<Finding>, ghost order: seq<string>)
    ensures Enumerates(order, ComparedKeys(ws, artifacts.envFiles, artifacts.envExamples))
    ensures findings == ExampleFindings(ws, artifacts.envFiles, artifacts.envExamples, order)
  {
    findings := [];
    order := [];
    var envFiles, envExamples := artifacts.envFiles, artifacts.envExamples;
    var hasExample := artifacts.HasEnvExample();
    var hasEnv := artifacts.HasEnv();

    if hasExample && !hasEnv {
      var examplePath := "";
      var x := FindFirst(envExamples, IsFound);
      if x.Some? {
        examplePath := envExamples[x.value].path;
      }
      findings := findings + [Env003(examplePath)];
    }

    if hasExample && hasEnv {
      findings, order := CompareExample(ws, envFiles, envExamples);
    } else {
      assert Compared(envFiles, envExamples).None?;
    }
  }

  /** The ENV002 list holds one finding per listed key and nothing else. */
  lemma {:induction false} Env002sMembers(keys: seq<string>, examplePath: string, envPath: string, f: Finding)
    ensures f in Env002s(keys, examplePath, envPath) <==> exists k | k in keys :: f == Env002(k, examplePath, envPath)
  {
    if keys != [] {
      var init := keys[..|keys| - 1];
      Env002sMembers(init, examplePath, envPath, f);
      assert keys == init + [keys[|keys| - 1]];
    }
  }

  /** Visiting every example key once visits every missing key once. */
  lemma MissingKeysEnumerate(order: seq<string>, example: map<string, string>, env: map<string, string>)
    requires Enumerates(order, example.Keys)
    ensures Enumerates(MissingKeys(order, env), example.Keys - env.Keys)
  {
    FilterEnumerates(order, example.Keys, k => k !in env);
    assert (set k | k in example.Keys && k !in env) == example.Keys - env.Keys;
  }

  /**
   * When an example and a primary env file exist, there is exactly one ENV002 per key of the first found
   * example that the first primary env file does not assign, whatever order the keys are visited in.
   */
  lemma ComparedFindingsMeaning(ws: Workspace, envFiles: seq<Artifact>, envExamples: seq<Artifact>, order: seq<string>, f: Finding)
    requires Enumerates(order, ComparedKeys(ws, envFiles, envExamples))
    requires Compared(envFiles, envExamples).Some?
    ensures var (example, env) := Compared(envFiles, envExamples).value;
      var missing := EnvFileVars(ws, example.path).Keys - EnvFileVars(ws, env.path).Keys;
      && |ComparedFindings(ws, envFiles, envExamples, order)| == |missing|
      && (f in ComparedFindings(ws, envFiles, envExamples, order) <==>
            exists k | k in missing :: f == Env002(k, example.path, env.path))
  {
    var (example, env) := Compared(envFiles, envExamples).value;
    var keys := MissingKeys(order, EnvFileVars(ws, env.path));
    MissingKeysEnumerate(order, EnvFileVars(ws, example.path), EnvFileVars(ws, env.path));
    EnumeratesSize(keys, EnvFileVars(ws, example.path).Keys - EnvFileVars(ws, env.path).Keys);
    Env002sMembers(keys, example.path, env.path, f);
  }

  /**
   * The three outcomes of `checkEnvExample`: nothing without a found example; exactly one ENV003, naming the
   * first found example, when no env file was found; otherwise only the comparison's ENV002 findings.
   */
  lemma ExampleFindingsCases(ws: Workspace, envFiles: seq<Artifact>, envExamples: seq<Artifact>, order: seq<string>)
    ensures !AnyFound(envExamples) ==> ExampleFindings(ws, envFiles, envExamples, order) == []
    ensures AnyFound(envExamples) && !AnyFound(envFiles) ==>
              exists x | 0 <= x < |envExamples| ::
                && envExamples[x].found && (forall j | 0 <= j < x :: !envExamples[j].found)
                && ExampleFindings(ws, envFiles, envExamples, order) == [Env003(envExamples[x].path)]
    ensures AnyFound(envFiles) ==> ExampleFindings(ws, envFiles, envExamples, order) == ComparedFindings(ws, envFiles, envExamples, order)
    ensures AnyFound(envFiles) && (forall i | 0 <= i < |envFiles| :: !IsPrimaryEnv(envFiles[i])) ==>
              ExampleFindings(ws, envFiles, envExamples, order) == []
  {
    if AnyFound(envExamples) && !AnyFound(envFiles) {
      var x := First(envExamples, IsFound).value;
      assert ExampleFindings(ws, envFiles, envExamples, order) == [Env003(envExamples[x].path)];
    }
    if !AnyFound(envExamples) {
      assert First(envExamples, IsFound).None?;
    }
  }
}
