/**
 * The configuration-driven checks: tool versions (TOOL001/TOOL002), custom rules (CUSTOM-<id>), required
 * variables (REQ001) and the ignore-code filter. Regular expressions are not modelled:
 * `compiles(pattern)` stands for `regexp.Compile` succeeding and `matches(pattern, name)` for `MatchString`.
 */
module ConfigChecks {
  import opened Options
  import opened Seqs
  import opened FileSystem
  import opened ArtifactModel
  import opened FindingModel
  import opened EnvFiles
  import opened ConfigModel
  import opened Tools

  /** The requirements map `checkToolVersions` builds: one entry per non-empty minimum. */
  function ToolRequirements(v: ToolVersions): (m: map<string, string>)
    ensures forall k | k in m :: m[k] != ""
  {
    var m0: map<string, string> := map[];
    var m1 := if v.docker != "" then m0["docker" := v.docker] else m0;
    var m2 := if v.dockerCompose != "" then m1["docker-compose" := v.dockerCompose] else m1;
    var m3 := if v.go != "" then m2["go" := v.go] else m2;
    var m4 := if v.node != "" then m3["node" := v.node] else m3;
    if v.python != "" then m4["python" := v.python] else m4
  }

  /** The five configurable tools each give an entry exactly when their minimum is set, and nothing else does. */
  lemma ToolRequirementsMeaning(v: ToolVersions)
    ensures var m := ToolRequirements(v);
      && m.Keys <= {"docker", "docker-compose", "go", "node", "python"}
      && ("docker" in m <==> v.docker != "") && ("docker" in m ==> m["docker"] == v.docker)
      && ("docker-compose" in m <==> v.dockerCompose != "") && ("docker-compose" in m ==> m["docker-compose"] == v.dockerCompose)
      && ("go" in m <==> v.go != "") && ("go" in m ==> m["go"] == v.go)
      && ("node" in m <==> v.node != "") && ("node" in m ==> m["node"] == v.node)
      && ("python" in m <==> v.python != "") && ("python" in m ==> m["python"] == v.python)
  {
  }

  function Tool001(c: VersionCheck): Finding {
    Finding(
      "TOOL001", Blocking,
      "Required tool '" + c.tool + "' not found",
      "Tool " + c.tool + " is required but not installed or not in PATH",
      [],
      "Install " + c.tool + " version " + c.required + " or higher")
  }

  function Tool002(c: VersionCheck): Finding {
    Finding(
      "TOOL002", Warning,
      "Tool '" + c.tool + "' version too old: " + c.current + " < " + c.required,
      "Tool " + c.tool + " version " + c.current + " is installed but minimum " + c.required + " is required",
      [],
      "Upgrade " + c.tool + " to version " + c.required + " or higher")
  }

  /** What one version check contributes: TOOL001 when unavailable, else TOOL002 when unsatisfied. */
  function ToolFinding(c: VersionCheck): seq<Finding> {
    if !c.available then [Tool001(c)] else if !c.satisfied then [Tool002(c)] else []
  }

  function ToolFindings(checks: seq<VersionCheck>): seq<Finding> {
    Flatten(checks, ToolFinding)
  }

  /** The first half of `checkToolVersions`: the requirements map, filled field by field. */
  method BuildRequirements(versions: ToolVersions) returns (requirements: map<string, string>)
    ensures requirements == ToolRequirements(versions)
  {
    requirements := map[];
    if versions.docker != "" {
      requirements := requirements["docker" := versions.docker];
    }
    if versions.dockerCompose != "" {
      requirements := requirements["docker-compose" := versions.dockerCompose];
    }
    if versions.go != "" {
      requirements := requirements["go" := versions.go];
    }
    if versions.node != "" {
      requirements := requirements["node" := versions.node];
    }
    if versions.python != "" {
      requirements := requirements["python" := versions.python];
    }
  }

  /** `checkToolVersions`, with the probed tools as a parameter; `order` is the requirements map's iteration order. */
  method CheckToolVersions(versions: ToolVersions, tools: map<string, ToolInfo>) returns (findings: seq<Finding>, ghost order: seq<string>)
    ensures Enumerates(order, ToolRequirements(versions).Keys)
    ensures findings == ToolFindings(Checks(order, ToolRequirements(versions), tools))
  {
    var requirements := BuildRequirements(versions);
    var checks;
    checks, order := CheckVersions(requirements, tools);
    findings := ReportChecks(checks);
  }

  /** The second half of `checkToolVersions`: the loop over the version checks. */
  method ReportChecks(checks: seq<VersionCheck>) returns (findings: seq<Finding>)
    ensures findings == ToolFindings(checks)
  {
    findings := [];
    for i := 0 to |checks|
      invariant findings == ToolFindings(checks[..i])
    {
      var check := checks[i];
      assert ToolFindings(checks[..i + 1]) == ToolFindings(checks[..i]) + ToolFinding(check) by {
        assert checks[..i + 1][..i] == checks[..i];
      }
      if !check.available {
        findings := findings + [Tool001(check)];
      } else if !check.satisfied {
        findings := findings + [Tool002(check)];
      }
    }
    assert checks[..|checks|] == checks;
  }

  /** Every visited requirement with a non-empty minimum has its check among the results. */
  lemma {:induction false} ChecksComplete(order: seq<string>, requirements: map<string, string>, tools: map<string, ToolInfo>, t: string)
    requires forall k | k in order :: k in requirements
    requires t in order && requirements[t] != ""
    ensures CheckTool(t, requirements[t], tools) in Checks(order, requirements, tools)
  {
    var init, k := order[..|order| - 1], order[|order| - 1];
    assert order == init + [k];
    if k != t {
      assert t in init;
      ChecksComplete(init, requirements, tools, t);
    }
  }

  /** The finding for one required tool: TOOL001 when it is absent or unavailable, TOOL002 when it is older than the minimum. */
  lemma ToolFindingCases(t: string, minVersion: string, tools: map<string, ToolInfo>)
    ensures var c := CheckTool(t, minVersion, tools);
      ToolFinding(c) ==
        if !(t in tools && tools[t].available) then [Tool001(c)]
        else if VersionOrder(tools[t].version, minVersion) < 0 then [Tool002(c)]
        else []
  {
    CheckToolMeaning(t, minVersion, tools);
  }

  /** Visiting every requirement once checks each one with a non-empty minimum, and nothing else. */
  lemma ChecksMembers(order: seq<string>, reqs: map<string, string>, tools: map<string, ToolInfo>, f: Finding)
    requires Enumerates(order, reqs.Keys)
    ensures f in ToolFindings(Checks(order, reqs, tools)) <==>
              exists t | t in reqs && reqs[t] != "" :: f in ToolFinding(CheckTool(t, reqs[t], tools))
  {
    var checks := Checks(order, reqs, tools);
    FlattenMembers(checks, ToolFinding, f);
    if f in ToolFindings(checks) {
      var i :| 0 <= i < |checks| && f in ToolFinding(checks[i]);
      ChecksFromRequirements(order, reqs, tools, checks[i]);
    }
    if exists t | t in reqs && reqs[t] != "" :: f in ToolFinding(CheckTool(t, reqs[t], tools)) {
      var t :| t in reqs && reqs[t] != "" && f in ToolFinding(CheckTool(t, reqs[t], tools));
      ChecksComplete(order, reqs, tools, t);
      var i :| 0 <= i < |checks| && checks[i] == CheckTool(t, reqs[t], tools);
    }
  }

  /** The tool findings are those of the configured tools, one check each, whatever order the map is visited in. */
  lemma ToolFindingsMembers(versions: ToolVersions, tools: map<string, ToolInfo>, order: seq<string>, f: Finding)
    requires Enumerates(order, ToolRequirements(versions).Keys)
    ensures var reqs := ToolRequirements(versions);
      f in ToolFindings(Checks(order, reqs, tools)) <==>
        exists t | t in reqs :: f in ToolFinding(CheckTool(t, reqs[t], tools))
  {
    ChecksMembers(order, ToolRequirements(versions), tools, f);
  }

  /** The severity a custom rule asks for: "blocking" and "info" as spelled, anything else a warning. */
  function RuleSeverity(s: string): (r: Severity)
    ensures Recognized(r)
    ensures r == Blocking <==> s == "blocking"
    ensures r == Info <==> s == "info"
  {
    if s == "blocking" then Blocking else if s == "info" then Info else Warning
  }

  function Custom(rule: CustomRule): Finding {
    Finding(
      "CUSTOM-" + rule.id, RuleSeverity(rule.severity),
      "Custom rule '" + rule.id + "' not satisfied",
      rule.description,
      [],
      "Define a variable matching pattern: " + rule.pattern)
  }

  /** Some defined name matches the pattern. */
  predicate Satisfied(pattern: string, defined: set<string>, matches: (string, string) -> bool) {
    exists n | n in defined :: matches(pattern, n)
  }

  /** A rule fires when it is required, its pattern compiles, and no defined name matches it. */
  predicate Fires(rule: CustomRule, defined: set<string>, compiles: string -> bool, matches: (string, string) -> bool) {
    rule.required && compiles(rule.pattern) && !Satisfied(rule.pattern, defined, matches)
  }

  function RuleFinding(rule: CustomRule, defined: set<string>, compiles: string -> bool, matches: (string, string) -> bool): seq<Finding> {
    if Fires(rule, defined, compiles, matches) then [Custom(rule)] else []
  }

  function RuleFindings(rules: seq<CustomRule>, defined: set<string>, compiles: string -> bool, matches: (string, string) -> bool): seq<Finding> {
    Flatten(rules, rule => RuleFinding(rule, defined, compiles, matches))
  }

  /** The `found` loop: the defined names are visited in map order until one matches. */
  method AnyMatch(pattern: string, defined: set<string>, matches: (string, string) -> bool) returns (found: bool)
    ensures found <==> Satisfied(pattern, defined, matches)
  {
    found := false;
    var pending := defined;
    while pending != {}
      invariant pending <= defined
      invariant forall n | n in defined - pending :: !matches(pattern, n)
      decreases pending
    {
      var name :| name in pending;
      if matches(pattern, name) {
        found := true;
        return;
      }
      pending := pending - {name};
    }
  }

  /** `checkCustomRules`. */
  method CheckCustomRules(ws: Workspace, artifacts: Artifacts, cfg: Config, compiles: string -> bool, matches: (string, string) -> bool)
    returns (findings: seq<Finding>)
    ensures findings == RuleFindings(cfg.customRules, DefinedNames(ws, artifacts.envFiles), compiles, matches)
  {
    findings := [];
    if |cfg.customRules| == 0 {
      return;
    }
    var definedVars := CollectDefinedVars(ws, artifacts.envFiles);
    var rules := cfg.customRules;
    for i := 0 to |rules|
      invariant findings == RuleFindings(rules[..i], definedVars, compiles, matches)
    {
      var rule := rules[i];
      assert RuleFindings(rules[..i + 1], definedVars, compiles, matches)
             == RuleFindings(rules[..i], definedVars, compiles, matches) + RuleFinding(rule, definedVars, compiles, matches) by {
        assert rules[..i + 1][..i] == rules[..i];
      }
      if !rule.required {
        continue;
      }
      if !compiles(rule.pattern) {
        continue;
      }
      var found := AnyMatch(rule.pattern, definedVars, matches);
      if !found {
        var severity := Warning;
        if rule.severity == "blocking" {
          severity := Blocking;
        } else if rule.severity == "info" {
          severity := Info;
        }
        findings := findings + [Finding(
          "CUSTOM-" + rule.id, severity,
          "Custom rule '" + rule.id + "' not satisfied",
          rule.description,
          [],
          "Define a variable matching pattern: " + rule.pattern)];
      }
    }
    assert rules[..|rules|] == rules;
  }

  /**
   * A custom-rule finding is exactly the finding of a listed rule that is required, compiles, and matches no
   * defined name; non-required rules and patterns that do not compile never fire.
   */
  lemma CustomRulesMeaning(rules: seq<CustomRule>, defined: set<string>, compiles: string -> bool, matches: (string, string) -> bool, f: Finding)
    ensures f in RuleFindings(rules, defined, compiles, matches) <==>
              exists i | 0 <= i < |rules| :: Fires(rules[i], defined, compiles, matches) && f == Custom(rules[i])
  {
    FlattenMembers(rules, rule => RuleFinding(rule, defined, compiles, matches), f);
  }

  /** A custom rule's finding names the rule and has one of the three recognised severities. */
  lemma CustomFindingShape(rules: seq<CustomRule>, defined: set<string>, compiles: string -> bool, matches: (string, string) -> bool, f: Finding)
    requires f in RuleFindings(rules, defined, compiles, matches)
    ensures exists i | 0 <= i < |rules| :: rules[i].required && f.code == "CUSTOM-" + rules[i].id
    ensures Recognized(f.severity)
  {
    CustomRulesMeaning(rules, defined, compiles, matches, f);
  }

  function Req001(name: string): Finding {
    Finding(
      "REQ001", Blocking,
      "Required variable '" + name + "' not defined",
      "Variable " + name + " is configured as required in .devcheck.yaml but is not defined",
      [],
      "Add " + name + "=<value> to .env file")
  }

  /** Different names give different REQ001 findings. */
  lemma Req001Injective(a: string, b: string)
    requires Req001(a) == Req001(b)
    ensures a == b
  {
    var t := Req001(a).title;
    var head := "Required variable '";
    assert |a| == |b|;
    assert a == t[|head|..|head| + |a|];
    assert b == Req001(b).title[|head|..|head| + |b|];
  }

  function RequiredFindings(required: seq<string>, defined: set<string>): seq<Finding> {
    Flatten(required, name => if name in defined then [] else [Req001(name)])
  }

  /** `checkRequiredEnvVars`. */
  method CheckRequiredEnvVars(ws: Workspace, artifacts: Artifacts, cfg: Config) returns (findings: seq<Finding>)
    ensures findings == RequiredFindings(cfg.requiredEnvVars, DefinedNames(ws, artifacts.envFiles))
  {
    findings := [];
    if |cfg.requiredEnvVars| == 0 {
      return;
    }
    var definedVars := CollectDefinedVars(ws, artifacts.envFiles);
    findings := ReportRequired(cfg.requiredEnvVars, definedVars);
  }

  /** The loop of `checkRequiredEnvVars` over the listed names. */
  method ReportRequired(required: seq<string>, definedVars: set<string>) returns (findings: seq<Finding>)
    ensures findings == RequiredFindings(required, definedVars)
  {
    findings := [];
    for i := 0 to |required|
      invariant findings == RequiredFindings(required[..i], definedVars)
    {
      var name := required[i];
      assert RequiredFindings(required[..i + 1], definedVars)
             == RequiredFindings(required[..i], definedVars) + (if name in definedVars then [] else [Req001(name)]) by {
        assert required[..i + 1][..i] == required[..i];
      }
      if name !in definedVars {
        findings := findings + [Req001(name)];
      }
    }
    assert required[..|required|] == required;
  }

  /** Each listed name that is not defined gives one REQ001 per listing; a defined name gives none. */
  lemma {:induction false} RequiredCount(required: seq<string>, defined: set<string>, name: string)
    ensures Count(RequiredFindings(required, defined), Req001(name)) == if name in defined then 0 else Count(required, name)
  {
    if required != [] {
      var init, last := required[..|required| - 1], required[|required| - 1];
      var g := n => if n in defined then [] else [Req001(n)];
      RequiredCount(init, defined, name);
      CountAppend(RequiredFindings(init, defined), g(last), Req001(name));
      if last !in defined && Req001(last) == Req001(name) {
        Req001Injective(last, name);
      }
    }
  }

  /** Every finding of the check is a REQ001 for a listed name that is not defined. */
  lemma RequiredMembers(required: seq<string>, defined: set<string>, f: Finding)
    ensures f in RequiredFindings(required, defined) <==> exists n | n in required :: n !in defined && f == Req001(n)
  {
    FlattenMembers(required, name => if name in defined then [] else [Req001(name)], f);
  }

  /** The findings after `filterIgnoredFindings`. */
  function FilterIgnored(findings: seq<Finding>, cfg: Config): seq<Finding> {
    if |cfg.ignoreCodes| == 0 then findings else Filter(findings, (f: Finding) => !cfg.ShouldIgnoreCode(f.code))
  }

  /** `filterIgnoredFindings`. */
  method FilterIgnoredFindings(findings: seq<Finding>, cfg: Config) returns (filtered: seq<Finding>)
    ensures filtered == FilterIgnored(findings, cfg)
  {
    if |cfg.ignoreCodes| == 0 {
      return findings;
    }
    filtered := [];
    for i := 0 to |findings|
      invariant filtered == Filter(findings[..i], (f: Finding) => !cfg.ShouldIgnoreCode(f.code))
    {
      var f := findings[i];
      assert findings[..i + 1][..i] == findings[..i];
      if !cfg.ShouldIgnoreCode(f.code) {
        filtered := filtered + [f];
      }
    }
    assert findings[..|findings|] == findings;
  }

  /**
   * The filter is order-preserving, keeps exactly the findings whose code is not ignored, changes nothing
   * without an ignore list, and filtering twice is filtering once.
   */
  lemma FilterIgnoredMeaning(findings: seq<Finding>, cfg: Config, f: Finding)
    ensures IsSubsequence(FilterIgnored(findings, cfg), findings)
    ensures f in FilterIgnored(findings, cfg) <==> f in findings && !cfg.ShouldIgnoreCode(f.code)
    ensures cfg.ignoreCodes == [] ==> FilterIgnored(findings, cfg) == findings
    ensures FilterIgnored(FilterIgnored(findings, cfg), cfg) == FilterIgnored(findings, cfg)
  {
    var keep := (g: Finding) => !cfg.ShouldIgnoreCode(g.code);
    if |cfg.ignoreCodes| == 0 {
      SubsequenceReflexive(findings);
    } else {
      FilterSubsequence(findings, keep);
      FilterMembers(findings, keep, f);
      FilterIdempotent(findings, keep);
    }
  }
}
