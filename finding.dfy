/**
 * Findings: the severity scale and the finding record with its fluent setters
 * (internal/models/finding.go).
 */
module FindingModel {

  /** Go's `Severity` is a string; the three recognised values are the constants below. */
  type Severity = string

  const Blocking: Severity := "blocking"
  const Warning: Severity := "warning"
  const Info: Severity := "info"

  predicate Recognized(s: Severity) {
    s == Blocking || s == Warning || s == Info
  }

  datatype SourceLocation = SourceLocation(file: string, line: int, column: int)

  /** The value of a finding; `files`, `details` and `suggestedFix` are empty until set. */
  datatype Finding = Finding(
    code: string,
    severity: Severity,
    title: string,
    details: string,
    files: seq<SourceLocation>,
    suggestedFix: string)

  /** Numeric level for severity comparison: blocking 3, warning 2, info 1, anything else 0. */
  function SeverityLevel(s: Severity): (level: int)
    ensures 0 <= level <= 3
    ensures level == 0 <==> !Recognized(s)
    ensures (level == 3 <==> s == Blocking) && (level == 2 <==> s == Warning) && (level == 1 <==> s == Info)
  {
    if s == Blocking then 3
    else if s == Warning then 2
    else if s == Info then 1
    else 0
  }

  /** The recognised severities are strictly ordered, blocking > warning > info > unrecognised. */
  lemma SeverityOrder(s: Severity)
    ensures SeverityLevel(Blocking) > SeverityLevel(Warning) > SeverityLevel(Info) > 0
    ensures !Recognized(s) ==> SeverityLevel(s) < SeverityLevel(Info)
  {
  }

  /** A `*Finding`: the Go code builds a finding through a pointer and updates its fields in place. */
  class FindingRef {
    var code: string
    var severity: Severity
    var title: string
    var details: string
    var files: seq<SourceLocation>
    var suggestedFix: string

    /** The finding the pointer currently refers to. */
    function Value(): Finding
      reads this
    {
      Finding(code, severity, title, details, files, suggestedFix)
    }

    /** `NewFinding`: only code, severity and title are set. */
    constructor NewFinding(code: string, severity: Severity, title: string)
      ensures Value() == Finding(code, severity, title, "", [], "")
    {
      this.code := code;
      this.severity := severity;
      this.title := title;
      this.details := "";
      this.files := [];
      this.suggestedFix := "";
    }

    /** Overwrites the details and returns the same finding. */
    method WithDetails(details: string) returns (self: FindingRef)
      modifies this
      ensures self == this
      ensures Value() == old(Value()).(details := details)
    {
      this.details := details;
      self := this;
    }

    /** Appends one location (column 0) after the existing ones and returns the same finding. */
    method WithFile(file: string, line: int) returns (self: FindingRef)
      modifies this
      ensures self == this
      ensures Value() == old(Value()).(files := old(files) + [SourceLocation(file, line, 0)])
    {
      files := files + [SourceLocation(file, line, 0)];
      self := this;
    }

    /** Overwrites the suggested fix and returns the same finding. */
    method WithFix(fix: string) returns (self: FindingRef)
      modifies this
      ensures self == this
      ensures Value() == old(Value()).(suggestedFix := fix)
    {
      suggestedFix := fix;
      self := this;
    }
  }
}
