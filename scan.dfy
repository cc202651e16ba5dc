/**
 * The scan command's pipeline (cmd/scan.go): load the configuration, locate the artifacts, run the
 * checks with the profile's options, keep what the profile keeps, and count the result into the report.
 */
module ScanCommand {
  import opened Options
  import opened Seqs
  import opened FileSystem
  import opened ArtifactModel
  import opened FindingModel
  import opened ReportModel
  import opened ConfigModel
  import Profiles
  import Detector
  import Checker

  /** Without a `--config` file, a configuration that fails to load is replaced by the default one. */
  function ScanConfig(loaded: Result<Config, string>): Config {
    if loaded.Ok? then loaded.value else DefaultConfig()
  }

  /** The checker options of a scan: the profile decides on source scanning, and a configuration is always given. */
  function ScanOptions(profile: Profiles.Profile, cfg: Config, checkToolVersions: bool): Checker.CheckOptions {
    Checker.CheckOptions(profile.enableSourceScanning, Some(cfg), checkToolVersions)
  }

  /** The findings of a scan: what the checks report, then what the profile keeps of it. */
  function ScanFindings(ws: Workspace, artifacts: Artifacts, profile: Profiles.Profile, cfg: Config, checkToolVersions: bool,
                        oracles: Checker.Oracles, orders: Checker.Orders): seq<Finding>
    reads artifacts
    requires |orders.depends| == |artifacts.composeFiles| && |orders.build| == |artifacts.composeFiles|
  {
    Profiles.Kept(profile, Checker.Checked(ws, artifacts, ScanOptions(profile, cfg, checkToolVersions), oracles, orders))
  }

  /** `--strict` makes the command fail exactly when the summary counts a blocking finding. */
  predicate FailsStrict(strict: bool, summary: ReportSummary) {
    strict && summary.blockingCount > 0
  }

  /** The checks with the profile's options, then the profile's filter. */
  method CheckWithProfile(ws: Workspace, artifacts: Artifacts, profile: Profiles.Profile, cfg: Config, checkToolVersions: bool,
                          oracles: Checker.Oracles)
    returns (findings: seq<Finding>, ghost orders: Checker.Orders)
    ensures Checker.OrdersFit(ws, artifacts, ScanOptions(profile, cfg, checkToolVersions), orders)
    ensures findings == ScanFindings(ws, artifacts, profile, cfg, checkToolVersions, oracles, orders)
  {
    var opts := Checker.CheckOptions(profile.enableSourceScanning, Some(cfg), checkToolVersions);
    findings, orders := Checker.CheckWithOptions(ws, artifacts, opts, oracles);
    findings := profile.FilterFindings(findings);
  }

  /** The report of the kept findings with its summary counted, and whether `--strict` fails on it. */
  method NewReport(path: string, artifacts: Artifacts, findings: seq<Finding>, strict: bool) returns (report: Report, fails: bool)
    ensures fresh(report)
    ensures report.path == path && report.artifacts == artifacts && report.findings == findings
    ensures report.summary == Summarize(findings)
    ensures fails <==> strict && exists i | 0 <= i < |findings| :: findings[i].severity == Blocking
  {
    report := new Report(path, artifacts, findings);
    report.CalculateSummary();
    CountPositive(findings, Blocking);
    fails := FailsStrict(strict, report.summary);
  }

  /**
   * `runScan` without `--config`, from the configuration to the summary: `config.Load` on the scanned
   * directory (the default configuration when it fails), `Detect`, `CheckWithOptions`, `FilterFindings`,
   * a new report, `CalculateSummary`. `os.Stat` succeeds on files and directories alike, so any
   * existing path is a candidate; `loadFromFile` is the YAML reader.
   */
  method RunScan(ws: Workspace, path: string, composeOverride: string, envOverrides: seq<string>,
                 loadFromFile: string -> Result<Config, string>, profile: Profiles.Profile, checkToolVersions: bool,
                 strict: bool, oracles: Checker.Oracles)
    returns (report: Report, fails: bool, ghost orders: Checker.Orders)
    ensures fresh(report) && fresh(report.artifacts)
    ensures report.path == path
    ensures report.artifacts.composeFiles == Detector.ComposeDetected(ws, composeOverride)
    ensures report.artifacts.envFiles == Detector.EnvFilesDetected(ws, envOverrides)
    ensures report.artifacts.envExamples == Detector.EnvExamplesDetected(ws, envOverrides)
    ensures var cfg := ScanConfig(Load(ws.regular + ws.dirs, loadFromFile));
      && Checker.OrdersFit(ws, report.artifacts, ScanOptions(profile, cfg, checkToolVersions), orders)
      && report.findings == ScanFindings(ws, report.artifacts, profile, cfg, checkToolVersions, oracles, orders)
    ensures report.summary == Summarize(report.findings)
    ensures fails <==> strict && exists i | 0 <= i < |report.findings| :: report.findings[i].severity == Blocking
  {
    var loaded := Load(ws.regular + ws.dirs, loadFromFile);
    var cfg := if loaded.Ok? then loaded.value else DefaultConfig();
    var artifacts := Detector.Detect(ws, composeOverride, envOverrides);
    var findings;
    findings, orders := CheckWithProfile(ws, artifacts, profile, cfg, checkToolVersions, oracles);
    report, fails := NewReport(path, artifacts, findings, strict);
  }

  /** Every finding of a scan has a recognised severity, so the three counts add up to the total. */
  lemma ScanCountsAddUp(ws: Workspace, artifacts: Artifacts, profile: Profiles.Profile, cfg: Config, checkToolVersions: bool,
                        oracles: Checker.Oracles, orders: Checker.Orders)
    requires |orders.depends| == |artifacts.composeFiles| && |orders.build| == |artifacts.composeFiles|
    ensures var s := Summarize(ScanFindings(ws, artifacts, profile, cfg, checkToolVersions, oracles, orders));
      s.blockingCount + s.warningCount + s.infoCount == s.totalFindings
  {
    var opts := ScanOptions(profile, cfg, checkToolVersions);
    var checked := Checker.Checked(ws, artifacts, opts, oracles, orders);
    var kept := Profiles.Kept(profile, checked);
    Checker.CheckedRecognized(ws, artifacts, opts, oracles, orders);
    forall i | 0 <= i < |kept|
      ensures Recognized(kept[i].severity)
    {
      Profiles.KeptMembers(profile, checked, kept[i]);
    }
    SummaryCountsAddUp(kept);
  }

  /**
   * A finding is in the scan result exactly when some check reports it, its code is not ignored by the
   * configuration, and the profile keeps it.
   */
  lemma ScanMembers(ws: Workspace, artifacts: Artifacts, profile: Profiles.Profile, cfg: Config, checkToolVersions: bool,
                    oracles: Checker.Oracles, orders: Checker.Orders, f: Finding)
    requires |orders.depends| == |artifacts.composeFiles| && |orders.build| == |artifacts.composeFiles|
    ensures f in ScanFindings(ws, artifacts, profile, cfg, checkToolVersions, oracles, orders) <==>
              && f in Checker.Unfiltered(ws, artifacts, ScanOptions(profile, cfg, checkToolVersions), oracles, orders)
              && !cfg.ShouldIgnoreCode(f.code)
              && profile.Keeps(f)
  {
    var opts := ScanOptions(profile, cfg, checkToolVersions);
    Checker.CheckedFiltered(ws, artifacts, opts, oracles, orders, f);
    Profiles.KeptMembers(profile, Checker.Checked(ws, artifacts, opts, oracles, orders), f);
  }

  /** The two filters keep the checks' order: the scan result is a subsequence of all findings. */
  lemma ScanSubsequence(ws: Workspace, artifacts: Artifacts, profile: Profiles.Profile, cfg: Config, checkToolVersions: bool,
                        oracles: Checker.Oracles, orders: Checker.Orders)
    requires |orders.depends| == |artifacts.composeFiles| && |orders.build| == |artifacts.composeFiles|
    ensures IsSubsequence(ScanFindings(ws, artifacts, profile, cfg, checkToolVersions, oracles, orders),
                          Checker.Unfiltered(ws, artifacts, ScanOptions(profile, cfg, checkToolVersions), oracles, orders))
  {
    var opts := ScanOptions(profile, cfg, checkToolVersions);
    var checked := Checker.Checked(ws, artifacts, opts, oracles, orders);
    Checker.CheckedFiltered(ws, artifacts, opts, oracles, orders, Finding("", Info, "", "", [], ""));
    Profiles.KeptSubsequence(profile, checked);
    SubsequenceTransitive(Profiles.Kept(profile, checked), checked, Checker.Unfiltered(ws, artifacts, opts, oracles, orders));
  }
}
