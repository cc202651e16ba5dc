/** The scan report and its summary counts (internal/models/report.go). */
module ReportModel {
  import opened FindingModel
  import opened ArtifactModel
  import opened Seqs

  datatype ReportSummary = ReportSummary(totalFindings: int, blockingCount: int, warningCount: int, infoCount: int)

  /** Number of findings whose severity is exactly `s`. */
  function CountSeverity(findings: seq<Finding>, s: Severity): (n: nat)
    ensures n <= |findings|
  {
    if findings == [] then 0
    else CountSeverity(findings[..|findings| - 1], s) + (if findings[|findings| - 1].severity == s then 1 else 0)
  }

  /** Number of findings whose severity is one of the three recognised values. */
  function CountRecognized(findings: seq<Finding>): (n: nat)
    ensures n <= |findings|
  {
    if findings == [] then 0
    else CountRecognized(findings[..|findings| - 1]) + (if Recognized(findings[|findings| - 1].severity) then 1 else 0)
  }

  /** The summary `CalculateSummary` computes: the total and one count per recognised severity. */
  function Summarize(findings: seq<Finding>): ReportSummary {
    ReportSummary(|findings|, CountSeverity(findings, Blocking), CountSeverity(findings, Warning), CountSeverity(findings, Info))
  }

  /** The findings at or above `minLevel`, in their original order. */
  function AtLeast(findings: seq<Finding>, minLevel: int): seq<Finding> {
    if findings == [] then []
    else AtLeast(findings[..|findings| - 1], minLevel)
         + (if SeverityLevel(findings[|findings| - 1].severity) >= minLevel then [findings[|findings| - 1]] else [])
  }

  /** The per-severity counts add up to the recognised findings, so to at most the total, and to the total exactly when every severity is recognised. */
  lemma {:induction false} SummaryCountsAddUp(findings: seq<Finding>)
    ensures var s := Summarize(findings);
      && s.totalFindings == |findings|
      && s.blockingCount + s.warningCount + s.infoCount == CountRecognized(findings) <= s.totalFindings
      && ((forall i | 0 <= i < |findings| :: Recognized(findings[i].severity))
          ==> s.blockingCount + s.warningCount + s.infoCount == s.totalFindings)
  {
    if findings != [] {
      var init := findings[..|findings| - 1];
      SummaryCountsAddUp(init);
      assert forall i | 0 <= i < |init| :: init[i] == findings[i];
    }
  }

  /** A severity count is positive exactly when some finding has that severity. */
  lemma {:induction false} CountPositive(findings: seq<Finding>, s: Severity)
    ensures CountSeverity(findings, s) > 0 <==> exists i | 0 <= i < |findings| :: findings[i].severity == s
  {
    if findings != [] {
      var init := findings[..|findings| - 1];
      CountPositive(init, s);
      assert forall i | 0 <= i < |init| :: init[i] == findings[i];
    }
  }

  /** `FilterBySeverity` keeps the findings at or above the threshold in their original order. */
  lemma {:induction false} AtLeastSubsequence(findings: seq<Finding>, minLevel: int)
    ensures IsSubsequence(AtLeast(findings, minLevel), findings)
  {
    if findings != [] {
      var init, last := findings[..|findings| - 1], findings[|findings| - 1];
      AtLeastSubsequence(init, minLevel);
      assert findings == init + [last];
      SubsequenceSnoc(AtLeast(init, minLevel), init, last);
      if SeverityLevel(last.severity) >= minLevel {
        assert AtLeast(findings, minLevel) == AtLeast(init, minLevel) + [last];
      } else {
        assert AtLeast(findings, minLevel) == AtLeast(init, minLevel);
      }
    }
  }

  /** A finding survives `FilterBySeverity` exactly when it is reported and at or above the threshold. */
  lemma {:induction false} AtLeastMembers(findings: seq<Finding>, minLevel: int, f: Finding)
    ensures f in AtLeast(findings, minLevel) <==> f in findings && SeverityLevel(f.severity) >= minLevel
  {
    if findings != [] {
      var init, last := findings[..|findings| - 1], findings[|findings| - 1];
      AtLeastMembers(init, minLevel, f);
      assert findings == init + [last];
    }
  }

  /** The report; its summary is stored and only changes when `CalculateSummary` is called. */
  class Report {
    var path: string
    var artifacts: Artifacts
    var findings: seq<Finding>
    var summary: ReportSummary

    constructor (path: string, artifacts: Artifacts, findings: seq<Finding>)
      ensures this.path == path && this.artifacts == artifacts && this.findings == findings
      ensures summary == ReportSummary(0, 0, 0, 0)
    {
      this.path := path;
      this.artifacts := artifacts;
      this.findings := findings;
      this.summary := ReportSummary(0, 0, 0, 0);
    }

    /** Resets the summary and recounts it from the findings; nothing else changes. */
    method CalculateSummary()
      modifies this`summary
      ensures summary == Summarize(findings)
    {
      summary := ReportSummary(0, 0, 0, 0);
      var i := 0;
      while i < |findings|
        invariant 0 <= i <= |findings|
        invariant summary == Summarize(findings[..i])
      {
        assert findings[..i + 1][..i] == findings[..i];
        var f := findings[i];
        summary := summary.(totalFindings := summary.totalFindings + 1);
        if f.severity == Blocking {
          summary := summary.(blockingCount := summary.blockingCount + 1);
        } else if f.severity == Warning {
          summary := summary.(warningCount := summary.warningCount + 1);
        } else if f.severity == Info {
          summary := summary.(infoCount := summary.infoCount + 1);
        }
        i := i + 1;
      }
      assert findings[..i] == findings;
    }

    /** Reads the stored count only, so it is stale after `findings` changes until the summary is recomputed. */
    function HasBlocking(): (r: bool)
      reads this
      ensures summary == Summarize(findings) ==> (r <==> exists i | 0 <= i < |findings| :: findings[i].severity == Blocking)
    {
      CountPositive(findings, Blocking);
      summary.blockingCount > 0
    }

    /** The findings at or above `minSeverity`, in order. */
    method FilterBySeverity(minSeverity: Severity) returns (result: seq<Finding>)
      ensures result == AtLeast(findings, SeverityLevel(minSeverity))
    {
      var minLevel := SeverityLevel(minSeverity);
      result := [];
      var i := 0;
      while i < |findings|
        invariant 0 <= i <= |findings|
        invariant result == AtLeast(findings[..i], minLevel)
      {
        assert findings[..i + 1][..i] == findings[..i];
        if SeverityLevel(findings[i].severity) >= minLevel {
          result := result + [findings[i]];
        }
        i := i + 1;
      }
      assert findings[..i] == findings;
    }
  }
}
