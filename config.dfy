/** The `.devcheck.yaml` configuration (internal/config/config.go). */
module ConfigModel {
  import opened Options

  datatype CustomRule = CustomRule(id: string, pattern: string, required: bool, description: string, severity: string)

  /** Minimum versions; an empty string means "no requirement". */
  datatype ToolVersions = ToolVersions(docker: string, dockerCompose: string, go: string, node: string, python: string)

  /**
   * The configuration. A nil Go slice or map is the empty `seq`/`map` (they behave the same under `range`
   * and `len`); the `ToolVersions` pointer is an `Option`, because the checker tests it for nil.
   */
  datatype Config = Config(
    customRules: seq<CustomRule>,
    toolVersions: Option<ToolVersions>,
    ignorePatterns: seq<string>,
    ignoreCodes: seq<string>,
    requiredEnvVars: seq<string>,
    buildContexts: map<string, string>)
  {
    /** Exact, case-sensitive membership of `code` in the ignore list; no prefix matching. */
    predicate ShouldIgnoreCode(code: string)
      ensures ShouldIgnoreCode(code) <==> exists i | 0 <= i < |ignoreCodes| :: ignoreCodes[i] == code
    {
      IgnoredFrom(ignoreCodes, code)
    }
  }

  /** The membership scan behind `ShouldIgnoreCode`, stopping at the first equal entry. */
  predicate IgnoredFrom(codes: seq<string>, code: string)
    ensures IgnoredFrom(codes, code) <==> code in codes
  {
    if codes == [] then false
    else if codes[0] == code then true
    else IgnoredFrom(codes[1..], code)
  }

  /** No rules, no tool versions, nothing ignored, nothing required. */
  function DefaultConfig(): Config {
    Config([], None, [], [], [], map[])
  }

  /** The default configuration ignores no code. */
  lemma DefaultIgnoresNothing(code: string)
    ensures !DefaultConfig().ShouldIgnoreCode(code)
  {
    assert DefaultConfig().ignoreCodes == [];
  }

  /** The file names `Load` tries, in priority order. */
  const ConfigCandidates: seq<string> := [".devcheck.yaml", ".devcheck.yml", "devcheck.yaml", "devcheck.yml"]

  /** The first candidate, from `candidates[i..]`, that is in `existing`. */
  function FirstExisting(candidates: seq<string>, existing: set<string>, i: nat): (r: Option<string>)
    requires i <= |candidates|
    ensures r.Some? ==> exists k | i <= k < |candidates| :: (candidates[k] == r.value && candidates[k] in existing
                           && forall j | i <= j < k :: candidates[j] !in existing)
    ensures r.None? <==> forall j | i <= j < |candidates| :: candidates[j] !in existing
    decreases |candidates| - i
  {
    if i == |candidates| then None
    else if candidates[i] in existing then Some(candidates[i])
    else FirstExisting(candidates, existing, i + 1)
  }

  /**
   * `Load`: the configuration read from the first existing candidate (a directory counts, as with `os.Stat`),
   * or the default one. Reading and YAML decoding are the parameter `loadFromFile`; its error is returned as is.
   */
  function Load(existing: set<string>, loadFromFile: string -> Result<Config, string>): (r: Result<Config, string>)
    ensures (forall j | 0 <= j < |ConfigCandidates| :: ConfigCandidates[j] !in existing) ==> r == Ok(DefaultConfig())
    ensures forall k | 0 <= k < |ConfigCandidates| ::
              (ConfigCandidates[k] in existing && forall j | 0 <= j < k :: ConfigCandidates[j] !in existing)
              ==> r == loadFromFile(ConfigCandidates[k])
  {
    match FirstExisting(ConfigCandidates, existing, 0)
    case None => Ok(DefaultConfig())
    case Some(path) => loadFromFile(path)
  }
}
