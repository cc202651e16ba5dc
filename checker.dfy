/**
 * `CheckWithOptions` and `Check` (internal/checker/checker.go): the checks run in a fixed order, each
 * appending its findings, and the ignore-code filter runs last when a configuration is given.
 */
module Checker {
  import opened Options
  import opened Seqs
  import opened FileSystem
  import opened ArtifactModel
  import opened FindingModel
  import opened EnvFiles
  import opened ComposeRefs
  import opened EnvExample
  import opened DependsOn
  import opened BuildContexts
  import opened InfoChecks
  import opened SourceScan
  import opened ConfigModel
  import opened ConfigChecks
  import opened Tools

  /** The checker's options; the config pointer is an `Option`. */
  datatype CheckOptions = CheckOptions(enableSourceScanning: bool, config: Option<Config>, checkToolVersions: bool)

  /** `Options{}`: no source scan, no configuration, no tool checks. */
  const NoOptions := CheckOptions(false, None, false)

  /**
   * What the checks consult outside the file model: the source-pattern captures, the custom-rule regular
   * expressions, and the tools `DetectTools` would probe.
   */
  datatype Oracles = Oracles(
    capture: (string, string) -> seq<string>,
    compiles: string -> bool,
    matches: (string, string) -> bool,
    tools: map<string, ToolInfo>)

  /** The iteration orders of the Go maps the checks range over. */
  datatype Orders = Orders(example: seq<string>, depends: seq<seq<string>>, build: seq<seq<string>>, tools: seq<string>)

  /** The tool check runs only when asked for and a configuration with tool versions is given. */
  predicate ToolsRun(opts: CheckOptions) {
    opts.checkToolVersions && opts.config.Some? && opts.config.value.toolVersions.Some?
  }

  /** `orders` is one possible run: every map is visited in some order that lists each key once. */
  ghost predicate OrdersFit(ws: Workspace, artifacts: Artifacts, opts: CheckOptions, orders: Orders)
    reads artifacts
  {
    && |orders.depends| == |artifacts.composeFiles| && |orders.build| == |artifacts.composeFiles|
    && Enumerates(orders.example, ComparedKeys(ws, artifacts.envFiles, artifacts.envExamples))
    && (forall c | 0 <= c < |orders.depends| :: Enumerates(orders.depends[c], Decoded(ws, artifacts.composeFiles[c]).Keys))
    && (forall c | 0 <= c < |orders.build| :: Enumerates(orders.build[c], Decoded(ws, artifacts.composeFiles[c]).Keys))
    && (ToolsRun(opts) ==> Enumerates(orders.tools, ToolRequirements(opts.config.value.toolVersions.value).Keys))
  }

  /** The six checks that always run, in order. */
  function CoreFindings(ws: Workspace, artifacts: Artifacts, orders: Orders): seq<Finding>
    reads artifacts
    requires |orders.depends| == |artifacts.composeFiles| && |orders.build| == |artifacts.composeFiles|
  {
    RefFindings(ws, artifacts.composeFiles, DefinedNames(ws, artifacts.envFiles))
    + ExampleFindings(ws, artifacts.envFiles, artifacts.envExamples, orders.example)
    + DependsFindings(ws, artifacts.composeFiles, orders.depends)
    + BuildFindings(ws, artifacts.composeFiles, orders.build)
    + LanguageInfo(artifacts.detectedLang, artifacts.packageManager)
    + ReadmeHints(ws, artifacts.readme)
  }

  /** The source scan's findings, when it is enabled. */
  function SourcePart(ws: Workspace, artifacts: Artifacts, opts: CheckOptions, oracles: Oracles): seq<Finding>
    reads artifacts
  {
    if opts.enableSourceScanning then Src001s(SourceReports(ws, oracles.capture, DefinedNames(ws, artifacts.envFiles))) else []
  }

  /** The tool findings, when the tool check runs; `order` is the requirements map's iteration order. */
  function ToolPart(opts: CheckOptions, oracles: Oracles, order: seq<string>): seq<Finding> {
    if ToolsRun(opts) then ToolFindings(Checks(order, ToolRequirements(opts.config.value.toolVersions.value), oracles.tools)) else []
  }

  /** The custom-rule and required-variable findings, when a configuration is given. */
  function ConfigPart(ws: Workspace, artifacts: Artifacts, opts: CheckOptions, oracles: Oracles): seq<Finding>
    reads artifacts
  {
    if opts.config.Some? then
      var defined := DefinedNames(ws, artifacts.envFiles);
      RuleFindings(opts.config.value.customRules, defined, oracles.compiles, oracles.matches)
      + RequiredFindings(opts.config.value.requiredEnvVars, defined)
    else []
  }

  /** The optional checks, in order: source scan, tool versions, then custom rules and required variables. */
  function OptionalFindings(ws: Workspace, artifacts: Artifacts, opts: CheckOptions, oracles: Oracles, orders: Orders): seq<Finding>
    reads artifacts
  {
    SourcePart(ws, artifacts, opts, oracles) + ToolPart(opts, oracles, orders.tools) + ConfigPart(ws, artifacts, opts, oracles)
  }

  /** Every check's findings, concatenated in the fixed order, before the ignore filter. */
  function Unfiltered(ws: Workspace, artifacts: Artifacts, opts: CheckOptions, oracles: Oracles, orders: Orders): seq<Finding>
    reads artifacts
    requires |orders.depends| == |artifacts.composeFiles| && |orders.build| == |artifacts.composeFiles|
  {
    CoreFindings(ws, artifacts, orders) + OptionalFindings(ws, artifacts, opts, oracles, orders)
  }

  /** The result of `CheckWithOptions`. */
  function Checked(ws: Workspace, artifacts: Artifacts, opts: CheckOptions, oracles: Oracles, orders: Orders): seq<Finding>
    reads artifacts
    requires |orders.depends| == |artifacts.composeFiles| && |orders.build| == |artifacts.composeFiles|
  {
    var all := Unfiltered(ws, artifacts, opts, oracles, orders);
    if opts.config.Some? then FilterIgnored(all, opts.config.value) else all
  }

  /** The six checks that always run. */
  method RunCoreChecks(ws: Workspace, artifacts: Artifacts) returns (findings: seq<Finding>, ghost orders: Orders)
    ensures |orders.depends| == |artifacts.composeFiles| && |orders.build| == |artifacts.composeFiles|
    ensures Enumerates(orders.example, ComparedKeys(ws, artifacts.envFiles, artifacts.envExamples))
    ensures forall c | 0 <= c < |orders.depends| :: Enumerates(orders.depends[c], Decoded(ws, artifacts.composeFiles[c]).Keys)
    ensures forall c | 0 <= c < |orders.build| :: Enumerates(orders.build[c], Decoded(ws, artifacts.composeFiles[c]).Keys)
    ensures orders.tools == []
    ensures findings == CoreFindings(ws, artifacts, orders)
  {
    var refs := CheckComposeEnvRefs(ws, artifacts);
    var example; ghost var exampleOrder;
    example, exampleOrder := CheckEnvExample(ws, artifacts);
    var depends; ghost var dependsOrders;
    depends, dependsOrders := CheckComposeDependsOn(ws, artifacts);
    var build; ghost var buildOrders;
    build, buildOrders := CheckBuildContexts(ws, artifacts);
    var lang := LanguageInfo(artifacts.detectedLang, artifacts.packageManager);
    var hints := CheckReadmeHints(ws, artifacts);
    findings := refs + example + depends + build + lang + hints;
    orders := Orders(exampleOrder, dependsOrders, buildOrders, []);
  }

  /** The optional checks; `toolOrder` is the requirements map's iteration order when the tool check runs. */
  method RunOptionalChecks(ws: Workspace, artifacts: Artifacts, opts: CheckOptions, oracles: Oracles)
    returns (findings: seq<Finding>, ghost toolOrder: seq<string>)
    ensures ToolsRun(opts) ==> Enumerates(toolOrder, ToolRequirements(opts.config.value.toolVersions.value).Keys)
    ensures findings == SourcePart(ws, artifacts, opts, oracles) + ToolPart(opts, oracles, toolOrder) + ConfigPart(ws, artifacts, opts, oracles)
  {
    var src: seq<Finding> := [];
    if opts.enableSourceScanning {
      src := CheckSourceCodeEnvRefs(ws, artifacts, oracles.capture);
    }
    var toolFindings: seq<Finding> := [];
    toolOrder := [];
    if opts.checkToolVersions && opts.config.Some? && opts.config.value.toolVersions.Some? {
      toolFindings, toolOrder := CheckToolVersions(opts.config.value.toolVersions.value, oracles.tools);
    }
    var configFindings: seq<Finding> := [];
    if opts.config.Some? {
      var custom := CheckCustomRules(ws, artifacts, opts.config.value, oracles.compiles, oracles.matches);
      var required := CheckRequiredEnvVars(ws, artifacts, opts.config.value);
      configFindings := custom + required;
    }
    findings := src + toolFindings + configFindings;
  }

  /** `CheckWithOptions`. */
  method CheckWithOptions(ws: Workspace, artifacts: Artifacts, opts: CheckOptions, oracles: Oracles)
    returns (findings: seq<Finding>, ghost orders: Orders)
    ensures OrdersFit(ws, artifacts, opts, orders)
    ensures findings == Checked(ws, artifacts, opts, oracles, orders)
  {
    var core; ghost var coreOrders;
    core, coreOrders := RunCoreChecks(ws, artifacts);
    var optional; ghost var toolOrder;
    optional, toolOrder := RunOptionalChecks(ws, artifacts, opts, oracles);
    orders := coreOrders.(tools := toolOrder);
    findings := core + optional;
    if opts.config.Some? {
      findings := FilterIgnoredFindings(findings, opts.config.value);
    }
  }

  /** `Check`: the default options. */
  method Check(ws: Workspace, artifacts: Artifacts, oracles: Oracles) returns (findings: seq<Finding>, ghost orders: Orders)
    ensures OrdersFit(ws, artifacts, NoOptions, orders)
    ensures findings == CoreFindings(ws, artifacts, orders)
  {
    findings, orders := CheckWithOptions(ws, artifacts, NoOptions, oracles);
  }

  /** A finding list all of whose severities are one of the three recognised values. */
  predicate AllRecognized(fs: seq<Finding>) {
    forall f | f in fs :: Recognized(f.severity)
  }

  lemma RefsRecognized(ws: Workspace, composeFiles: seq<Artifact>, defined: set<string>)
    ensures AllRecognized(RefFindings(ws, composeFiles, defined))
  {
    forall f | f in RefFindings(ws, composeFiles, defined)
      ensures Recognized(f.severity)
    {
      RefFindingsMembers(ws, composeFiles, defined, f);
      var c :| 0 <= c < |composeFiles| && composeFiles[c].found && composeFiles[c].path in ws.contents
               && f in LineFindings(ScanLines(ws.contents[composeFiles[c].path]), composeFiles[c].path, defined);
      LineFindingsMeaning(ScanLines(ws.contents[composeFiles[c].path]), composeFiles[c].path, defined, f);
    }
  }

  lemma ExampleRecognized(ws: Workspace, envFiles: seq<Artifact>, envExamples: seq<Artifact>, order: seq<string>)
    ensures AllRecognized(ExampleFindings(ws, envFiles, envExamples, order))
  {
    forall f | f in ComparedFindings(ws, envFiles, envExamples, order)
      ensures Recognized(f.severity)
    {
      var (example, env) := Compared(envFiles, envExamples).value;
      Env002sMembers(MissingKeys(order, EnvFileVars(ws, env.path)), example.path, env.path, f);
    }
  }

  lemma DependsRecognized(ws: Workspace, composeFiles: seq<Artifact>, orders: seq<seq<string>>)
    requires |orders| == |composeFiles|
    ensures AllRecognized(DependsFindings(ws, composeFiles, orders))
  {
    forall f | f in DependsFindings(ws, composeFiles, orders)
      ensures Recognized(f.severity)
    {
      DependsFindingsMembers(ws, composeFiles, orders, f);
      var c :| 0 <= c < |composeFiles| && f in ServicesFindings(Decoded(ws, composeFiles[c]), orders[c], composeFiles[c].path);
      var services, path := Decoded(ws, composeFiles[c]), composeFiles[c].path;
      FlattenMembers(orders[c], s => ServiceFindings(services, s, path), f);
      var i :| 0 <= i < |orders[c]| && f in ServiceFindings(services, orders[c][i], path);
      ServiceFindingsMembers(services, orders[c][i], path, f);
    }
  }

  lemma BuildRecognized(ws: Workspace, composeFiles: seq<Artifact>, orders: seq<seq<string>>)
    requires |orders| == |composeFiles|
    ensures AllRecognized(BuildFindings(ws, composeFiles, orders))
  {
    forall f | f in BuildFindings(ws, composeFiles, orders)
      ensures Recognized(f.severity)
    {
      BuildFindingsMembers(ws, composeFiles, orders, f);
      var c :| 0 <= c < |composeFiles| && f in ServicesBuildFindings(ws, Decoded(ws, composeFiles[c]), orders[c], composeFiles[c].path);
      var services, path := Decoded(ws, composeFiles[c]), composeFiles[c].path;
      FlattenMembers(orders[c], s => ServiceBuildFindings(ws, services, s, path), f);
      var i :| 0 <= i < |orders[c]| && f in ServiceBuildFindings(ws, services, orders[c][i], path);
      ServiceBuildRecognized(ws, services, orders[c][i], path);
    }
  }

  lemma ServiceBuildRecognized(ws: Workspace, services: map<string, Compose.Service>, svcName: string, path: string)
    ensures AllRecognized(ServiceBuildFindings(ws, services, svcName, path))
  {
    if svcName in services {
      var (context, dockerfile) := BuildTarget(services[svcName].build);
      if context != "" {
        assert Build001(svcName, context, dockerfile, path).severity == Blocking;
        assert Build002(svcName, context, path).severity == Blocking;
      }
    }
  }

  lemma SourceRecognized(ws: Workspace, artifacts: Artifacts, opts: CheckOptions, oracles: Oracles)
    ensures AllRecognized(SourcePart(ws, artifacts, opts, oracles))
  {
    var reports := SourceReports(ws, oracles.capture, DefinedNames(ws, artifacts.envFiles));
    forall f | f in Src001s(reports)
      ensures Recognized(f.severity)
    {
      Src001sMembers(reports, f);
    }
  }

  lemma ToolRecognized(opts: CheckOptions, oracles: Oracles, order: seq<string>)
    ensures AllRecognized(ToolPart(opts, oracles, order))
  {
    if ToolsRun(opts) {
      var checks := Checks(order, ToolRequirements(opts.config.value.toolVersions.value), oracles.tools);
      forall f | f in ToolFindings(checks)
        ensures Recognized(f.severity)
      {
        FlattenMembers(checks, ToolFinding, f);
      }
    }
  }

  lemma ConfigRecognized(ws: Workspace, artifacts: Artifacts, opts: CheckOptions, oracles: Oracles)
    ensures AllRecognized(ConfigPart(ws, artifacts, opts, oracles))
  {
    if opts.config.Some? {
      var cfg, defined := opts.config.value, DefinedNames(ws, artifacts.envFiles);
      forall f | f in RuleFindings(cfg.customRules, defined, oracles.compiles, oracles.matches)
        ensures Recognized(f.severity)
      {
        CustomFindingShape(cfg.customRules, defined, oracles.compiles, oracles.matches, f);
      }
      forall f | f in RequiredFindings(cfg.requiredEnvVars, defined)
        ensures Recognized(f.severity)
      {
        RequiredMembers(cfg.requiredEnvVars, defined, f);
      }
    }
  }

  /** Every finding the checker returns has one of the three recognised severities. */
  lemma CheckedRecognized(ws: Workspace, artifacts: Artifacts, opts: CheckOptions, oracles: Oracles, orders: Orders)
    requires |orders.depends| == |artifacts.composeFiles| && |orders.build| == |artifacts.composeFiles|
    ensures AllRecognized(Checked(ws, artifacts, opts, oracles, orders))
  {
    RefsRecognized(ws, artifacts.composeFiles, DefinedNames(ws, artifacts.envFiles));
    ExampleRecognized(ws, artifacts.envFiles, artifacts.envExamples, orders.example);
    DependsRecognized(ws, artifacts.composeFiles, orders.depends);
    BuildRecognized(ws, artifacts.composeFiles, orders.build);
    SourceRecognized(ws, artifacts, opts, oracles);
    ToolRecognized(opts, oracles, orders.tools);
    ConfigRecognized(ws, artifacts, opts, oracles);
    var all := Unfiltered(ws, artifacts, opts, oracles, orders);
    assert AllRecognized(all);
    if opts.config.Some? {
      forall f | f in FilterIgnored(all, opts.config.value)
        ensures Recognized(f.severity)
      {
        FilterIgnoredMeaning(all, opts.config.value, f);
      }
    }
  }

  /**
   * With a configuration, the result is the order-preserving subsequence of all findings whose code is not
   * ignored; without one, it is all findings.
   */
  lemma CheckedFiltered(ws: Workspace, artifacts: Artifacts, opts: CheckOptions, oracles: Oracles, orders: Orders, f: Finding)
    requires |orders.depends| == |artifacts.composeFiles| && |orders.build| == |artifacts.composeFiles|
    ensures IsSubsequence(Checked(ws, artifacts, opts, oracles, orders), Unfiltered(ws, artifacts, opts, oracles, orders))
    ensures opts.config.Some? ==>
              (f in Checked(ws, artifacts, opts, oracles, orders) <==>
                 f in Unfiltered(ws, artifacts, opts, oracles, orders) && !opts.config.value.ShouldIgnoreCode(f.code))
    ensures opts.config.None? ==> Checked(ws, artifacts, opts, oracles, orders) == Unfiltered(ws, artifacts, opts, oracles, orders)
  {
    var all := Unfiltered(ws, artifacts, opts, oracles, orders);
    if opts.config.Some? {
      FilterIgnoredMeaning(all, opts.config.value, f);
    } else {
      SubsequenceReflexive(all);
    }
  }

  /** Without a configuration, only the six core checks and an enabled source scan contribute, unfiltered. */
  lemma NoConfigNoOptionalChecks(ws: Workspace, artifacts: Artifacts, opts: CheckOptions, oracles: Oracles, orders: Orders)
    requires |orders.depends| == |artifacts.composeFiles| && |orders.build| == |artifacts.composeFiles|
    requires opts.config.None?
    ensures Checked(ws, artifacts, opts, oracles, orders) == CoreFindings(ws, artifacts, orders) + SourcePart(ws, artifacts, opts, oracles)
  {
    assert OptionalFindings(ws, artifacts, opts, oracles, orders) == SourcePart(ws, artifacts, opts, oracles) + [] + [];
  }
}
