/** Preset profiles and the finding filter they apply (internal/profiles/profiles.go). */
module Profiles {
  import opened Options
  import opened Seqs
  import opened FindingModel

  /** `contains`: a search loop over a string list. */
  method Contains(slice: seq<string>, s: string) returns (found: bool)
    ensures found <==> s in slice
  {
    for i := 0 to |slice|
      invariant s !in slice[..i]
    {
      if slice[i] == s {
        return true;
      }
    }
    return false;
  }

  datatype Profile = Profile(
    name: string,
    description: string,
    minSeverity: Severity,
    enabledChecks: seq<string>,
    disabledChecks: seq<string>,
    enableSourceScanning: bool,
    includeInfo: bool)
  {
    /** The four tests a finding must pass to be kept. */
    predicate Keeps(f: Finding) {
      && SeverityLevel(f.severity) >= SeverityLevel(minSeverity)
      && !(f.severity == Info && !includeInfo)
      && (|enabledChecks| > 0 ==> f.code in enabledChecks)
      && f.code !in disabledChecks
    }

    /** `FilterFindings`: the findings passing all four tests, in their original order. */
    method FilterFindings(findings: seq<Finding>) returns (filtered: seq<Finding>)
      ensures filtered == Kept(this, findings)
    {
      filtered := [];
      for i := 0 to |findings|
        invariant filtered == Kept(this, findings[..i])
      {
        assert findings[..i + 1][..i] == findings[..i];
        var f := findings[i];
        if SeverityLevel(f.severity) < SeverityLevel(minSeverity) {
          continue;
        }
        if f.severity == Info && !includeInfo {
          continue;
        }
        if |enabledChecks| > 0 {
          var enabled := Contains(enabledChecks, f.code);
          if !enabled {
            continue;
          }
        }
        var disabled := Contains(disabledChecks, f.code);
        if disabled {
          continue;
        }
        filtered := filtered + [f];
      }
      assert findings[..|findings|] == findings;
    }
  }

  /** The findings that profile `p` keeps, in order. */
  function Kept(p: Profile, findings: seq<Finding>): seq<Finding> {
    if findings == [] then []
    else Kept(p, findings[..|findings| - 1])
         + (if p.Keeps(findings[|findings| - 1]) then [findings[|findings| - 1]] else [])
  }

  /** The filter is order-preserving: its output is a subsequence of its input. */
  lemma {:induction false} KeptSubsequence(p: Profile, findings: seq<Finding>)
    ensures IsSubsequence(Kept(p, findings), findings)
  {
    if findings != [] {
      var init, last := findings[..|findings| - 1], findings[|findings| - 1];
      KeptSubsequence(p, init);
      assert findings == init + [last];
      SubsequenceSnoc(Kept(p, init), init, last);
      if p.Keeps(last) {
        assert Kept(p, findings) == Kept(p, init) + [last];
      } else {
        assert Kept(p, findings) == Kept(p, init);
      }
    }
  }

  /** A finding is in the output exactly when it is in the input and passes the four tests. */
  lemma {:induction false} KeptMembers(p: Profile, findings: seq<Finding>, f: Finding)
    ensures f in Kept(p, findings) <==> f in findings && p.Keeps(f)
  {
    if findings != [] {
      var init, last := findings[..|findings| - 1], findings[|findings| - 1];
      KeptMembers(p, init, f);
      assert findings == init + [last];
    }
  }

  /** A list every element of which passes is returned unchanged. */
  lemma {:induction false} KeptAllPass(p: Profile, findings: seq<Finding>)
    requires forall i | 0 <= i < |findings| :: p.Keeps(findings[i])
    ensures Kept(p, findings) == findings
  {
    if findings != [] {
      KeptAllPass(p, findings[..|findings| - 1]);
    }
  }

  /** Filtering twice with the same profile is filtering once. */
  lemma KeptIdempotent(p: Profile, findings: seq<Finding>)
    ensures Kept(p, Kept(p, findings)) == Kept(p, findings)
  {
    var once := Kept(p, findings);
    forall i | 0 <= i < |once|
      ensures p.Keeps(once[i])
    {
      KeptMembers(p, findings, once[i]);
    }
    KeptAllPass(p, once);
  }

  const DefaultProfile := Profile("default", "Standard development checks", Info, [], [], false, true)
  const StrictProfile := Profile("strict", "Strict mode - all checks enabled, fail on any issue", Info, [], [], true, true)
  const CIProfile := Profile("ci", "CI mode - blocking and warnings only, no info", Warning, [], [], false, false)
  const MinimalProfile := Profile("minimal", "Minimal mode - only blocking issues", Blocking, [], [], false, false)
  const FullProfile := Profile("full", "Full analysis including source code scanning", Info, [], [], true, true)

  const BuiltinProfiles: map<string, Profile> := map[
    "default" := DefaultProfile,
    "strict" := StrictProfile,
    "ci" := CIProfile,
    "minimal" := MinimalProfile,
    "full" := FullProfile]

  /** `Get`: the built-in profile of that name, or None for any other name. */
  function Get(name: string): (r: Option<Profile>)
    ensures r.Some? <==> name == "default" || name == "strict" || name == "ci" || name == "minimal" || name == "full"
    ensures r.Some? ==> r.value.name == name && r.value.enabledChecks == [] && r.value.disabledChecks == []
  {
    if name in BuiltinProfiles then Some(BuiltinProfiles[name]) else None
  }

  /** No built-in profile keeps a finding whose severity is not one of the three recognised values. */
  lemma BuiltinDropsUnrecognized(name: string, f: Finding)
    requires Get(name).Some? && !Recognized(f.severity)
    ensures !Get(name).value.Keeps(f)
  {
  }

  /** `minimal` keeps exactly the blocking findings. */
  lemma MinimalKeepsBlocking(f: Finding)
    ensures Get("minimal").Some? && (Get("minimal").value.Keeps(f) <==> f.severity == Blocking)
  {
    assert SeverityLevel(f.severity) == 3 <==> f.severity == Blocking;
  }

  /** `ci` keeps exactly the blocking and warning findings. */
  lemma CIKeepsBlockingAndWarning(f: Finding)
    ensures Get("ci").Some? && (Get("ci").value.Keeps(f) <==> f.severity == Blocking || f.severity == Warning)
  {
  }

  /** A profile that excludes info findings drops every info finding, whatever its threshold. */
  lemma NoInfoWithoutIncludeInfo(p: Profile, findings: seq<Finding>, f: Finding)
    requires !p.includeInfo && f.severity == Info
    ensures f !in Kept(p, findings)
  {
    KeptMembers(p, findings, f);
  }

  /** The check-code tests: a disabled code never survives, and with a non-empty enabled list only listed codes do. */
  lemma CheckCodeTests(p: Profile, findings: seq<Finding>, f: Finding)
    ensures f.code in p.disabledChecks ==> f !in Kept(p, findings)
    ensures |p.enabledChecks| > 0 && f.code !in p.enabledChecks ==> f !in Kept(p, findings)
  {
    KeptMembers(p, findings, f);
  }
}
