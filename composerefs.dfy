/**
 * ENV001: `${NAME}` and `${NAME:-default}` references in compose files that no found env file
 * defines (internal/checker/checker.go `checkComposeEnvRefs`). The regular expression
 * `\$\{([^}:]+)(?::-[^}]*)?\}` is matched by hand.
 */
module ComposeRefs {
  import opened Options
  import opened Text
  import opened Seqs
  import opened FileSystem
  import opened ArtifactModel
  import opened FindingModel
  import opened EnvFiles

  /** A character of the captured name: anything but `}` and `:`. */
  predicate IsNameChar(c: char) {
    c != '}' && c != ':'
  }

  /** A character of a default value: anything but `}`. */
  predicate IsDefaultChar(c: char) {
    c != '}'
  }

  /** The end of the longest run of characters satisfying `p` that starts at `i`. */
  function RunEnd(line: string, i: nat, p: char -> bool): (e: nat)
    requires i <= |line|
    ensures i <= e <= |line|
    decreases |line| - i
  {
    if i < |line| && p(line[i]) then RunEnd(line, i + 1, p) else i
  }

  /** The run is maximal: all of it satisfies `p`, and the character after it does not. */
  lemma {:induction false} RunEndFacts(line: string, i: nat, p: char -> bool)
    requires i <= |line|
    ensures forall k | i <= k < RunEnd(line, i, p) :: p(line[k])
    ensures RunEnd(line, i, p) < |line| ==> !p(line[RunEnd(line, i, p)])
    decreases |line| - i
  {
    if i < |line| && p(line[i]) {
      RunEndFacts(line, i + 1, p);
    }
  }

  /** A run ends where the same run ends in any text extending the line in front. */
  lemma {:induction false} RunEndShift(a: string, b: string, i: nat, p: char -> bool)
    requires i <= |b|
    ensures RunEnd(a + b, |a| + i, p) == |a| + RunEnd(b, i, p)
    decreases |b| - i
  {
    if i < |b| {
      assert (a + b)[|a| + i] == b[i];
      RunEndShift(a, b, i + 1, p);
    }
  }

  /**
   * The match starting exactly at `p`, as the captured name and the position after the match.
   * The name is the longest run of name characters after `${`; it must be followed by `}`, or by
   * `:-`, a run of default characters and `}`. A shorter name could never be followed by either.
   */
  function MatchAt(line: string, p: nat): (r: Option<(string, nat)>)
    requires p <= |line|
    ensures r.Some? ==> p < r.value.1 <= |line|
  {
    if p + 2 <= |line| && line[p] == '$' && line[p + 1] == '{' then
      var q := RunEnd(line, p + 2, IsNameChar);
      if q == p + 2 then None
      else if q < |line| && line[q] == '}' then Some((line[p + 2..q], q + 1))
      else if q + 1 < |line| && line[q] == ':' && line[q + 1] == '-' then
        var r := RunEnd(line, q + 2, IsDefaultChar);
        if r < |line| then Some((line[p + 2..q], r + 1)) else None
      else None
    else None
  }

  /** `FindAllStringSubmatch` from `p`: the leftmost match, then the next one from its end. */
  function RefsFrom(line: string, p: nat): seq<string>
    requires p <= |line|
    decreases |line| - p
  {
    if p == |line| then []
    else
      match MatchAt(line, p)
      case Some((name, e)) => [name] + RefsFrom(line, e)
      case None => RefsFrom(line, p + 1)
  }

  /** The names of all references in a line, left to right, repeats included. */
  function Refs(line: string): seq<string> {
    RefsFrom(line, 0)
  }

  predicate WellFormedName(n: string) {
    n != [] && forall i | 0 <= i < |n| :: IsNameChar(n[i])
  }

  /** Every captured name is non-empty and holds neither `}` nor `:`. */
  lemma {:induction false} RefsWellFormed(line: string, p: nat)
    requires p <= |line|
    ensures forall n | n in RefsFrom(line, p) :: WellFormedName(n)
    decreases |line| - p
  {
    if p < |line| {
      match MatchAt(line, p)
      case Some((name, e)) =>
        RefsWellFormed(line, e);
        RunEndFacts(line, p + 2, IsNameChar);
        var q := RunEnd(line, p + 2, IsNameChar);
        assert forall i | 0 <= i < |name| :: name[i] == line[p + 2 + i];
      case None =>
        RefsWellFormed(line, p + 1);
    }
  }

  /** A line without `${` holds no reference. */
  lemma {:induction false} NoOpenerNoRefs(line: string, p: nat)
    requires p <= |line| && forall j | p <= j <= |line| :: !OccursAt(line, "${", j)
    ensures RefsFrom(line, p) == []
    decreases |line| - p
  {
    if p < |line| {
      if p + 2 <= |line| {
        assert !OccursAt(line, "${", p);
        assert line[p..p + 2] == [line[p], line[p + 1]];
      }
      assert MatchAt(line, p) == None;
      NoOpenerNoRefs(line, p + 1);
    }
  }

  /** Matching only looks forward: text before the position is irrelevant. */
  lemma MatchShift(a: string, b: string, p: nat)
    requires p <= |b|
    ensures MatchAt(a + b, |a| + p) ==
              match MatchAt(b, p)
              case None => None
              case Some((n, e)) => Some((n, |a| + e))
  {
    var w := a + b;
    if p + 2 <= |b| {
      RunEndShift(a, b, p + 2, IsNameChar);
      var q := RunEnd(b, p + 2, IsNameChar);
      assert w[|a| + p + 2..|a| + q] == b[p + 2..q];
      if q + 2 <= |b| {
        RunEndShift(a, b, q + 2, IsDefaultChar);
      }
    }
  }

  lemma {:induction false} RefsShift(a: string, b: string, p: nat)
    requires p <= |b|
    ensures RefsFrom(a + b, |a| + p) == RefsFrom(b, p)
    decreases |b| - p
  {
    if p < |b| {
      MatchShift(a, b, p);
      match MatchAt(b, p)
      case Some((n, e)) =>
        RefsShift(a, b, e);
      case None =>
        RefsShift(a, b, p + 1);
    }
  }

  /** A run covering every character of `s` from `i` ends at the end of `s` or at the first character outside it. */
  lemma {:induction false} RunEndAll(line: string, i: nat, e: nat, p: char -> bool)
    requires i <= e <= |line| && (e < |line| ==> !p(line[e]))
    requires forall k | i <= k < e :: p(line[k])
    ensures RunEnd(line, i, p) == e
    decreases e - i
  {
    if i < e {
      RunEndAll(line, i + 1, e, p);
    }
  }

  /** The placeholder `${NAME}` is one reference, after which matching continues with the rest of the line. */
  lemma PlainPlaceholder(n: string, rest: string)
    requires WellFormedName(n)
    ensures Refs("${" + n + "}" + rest) == [n] + Refs(rest)
  {
    var head := "${" + n + "}";
    var w := head + rest;
    assert forall k | 2 <= k < 2 + |n| :: w[k] == n[k - 2];
    RunEndAll(w, 2, 2 + |n|, IsNameChar);
    assert w[2..2 + |n|] == n;
    assert MatchAt(w, 0) == Some((n, |head|));
    RefsShift(head, rest, 0);
  }

  /** The placeholder `${NAME:-DEFAULT}` is one reference to NAME when DEFAULT holds no `}`. */
  lemma DefaultPlaceholder(n: string, d: string, rest: string)
    requires WellFormedName(n) && forall i | 0 <= i < |d| :: IsDefaultChar(d[i])
    ensures Refs("${" + n + ":-" + d + "}" + rest) == [n] + Refs(rest)
  {
    var head := "${" + n + ":-" + d + "}";
    var w := head + rest;
    var q := 2 + |n|;
    assert forall k | 2 <= k < q :: w[k] == n[k - 2];
    assert w[q] == ':' && w[q + 1] == '-';
    RunEndAll(w, 2, q, IsNameChar);
    assert forall k | q + 2 <= k < q + 2 + |d| :: w[k] == d[k - q - 2];
    assert w[q + 2 + |d|] == '}';
    RunEndAll(w, q + 2, q + 2 + |d|, IsDefaultChar);
    assert w[2..q] == n;
    assert MatchAt(w, 0) == Some((n, |head|));
    RefsShift(head, rest, 0);
  }

  /** The finding for one unresolved reference. */
  function Env001(name: string, path: string, line: int): Finding {
    Finding(
      "ENV001", Blocking,
      "${" + name + "} referenced but not defined",
      "Variable ${" + name + "} is used in " + path + " but is not defined in any .env file",
      [SourceLocation(path, line, 0)],
      "Add " + name + "=<value> to .env file")
  }

  /** Different names, files or lines give different ENV001 findings. */
  lemma Env001Injective(a: string, pa: string, la: int, b: string, pb: string, lb: int)
    requires Env001(a, pa, la) == Env001(b, pb, lb)
    ensures a == b && pa == pb && la == lb
  {
    var t := Env001(a, pa, la).title;
    assert |a| == |b|;
    assert a == t[2..2 + |a|];
    assert Env001(a, pa, la).files[0] == SourceLocation(pa, la, 0);
  }

  /** The references of `names` that are reported: not defined and not standard, in order, repeats kept. */
  function Unresolved(names: seq<string>, defined: set<string>): seq<string> {
    if names == [] then []
    else
      var n := names[|names| - 1];
      Unresolved(names[..|names| - 1], defined) + (if Reportable(n, defined) then [n] else [])
  }

  /** One ENV001 per name, in order, all at line `lineNum` of `path`. */
  function Env001s(names: seq<string>, path: string, lineNum: int): (fs: seq<Finding>)
    ensures |fs| == |names|
  {
    if names == [] then [] else Env001s(names[..|names| - 1], path, lineNum) + [Env001(names[|names| - 1], path, lineNum)]
  }

  lemma {:induction false} Env001sAt(names: seq<string>, path: string, lineNum: int, i: nat)
    requires i < |names|
    ensures Env001s(names, path, lineNum)[i] == Env001(names[i], path, lineNum)
  {
    if i < |names| - 1 {
      Env001sAt(names[..|names| - 1], path, lineNum, i);
    }
  }

  /** The findings for the references `names` found on line `lineNum` of `path`. */
  function NameFindings(names: seq<string>, path: string, lineNum: int, defined: set<string>): seq<Finding> {
    Env001s(Unresolved(names, defined), path, lineNum)
  }

  /** The findings for the lines of one compose file; line numbers start at 1. */
  function LineFindings(lines: seq<string>, path: string, defined: set<string>): seq<Finding> {
    if lines == [] then []
    else LineFindings(lines[..|lines| - 1], path, defined) + NameFindings(Refs(lines[|lines| - 1]), path, |lines|, defined)
  }

  /** The findings for one compose file: its lines' findings if it was found and can be read, none otherwise. */
  function FileFindings(ws: Workspace, defined: set<string>, c: Artifact): seq<Finding> {
    if c.found && c.path in ws.contents then LineFindings(ScanLines(ws.contents[c.path]), c.path, defined) else []
  }

  /** The findings for the compose files, in order. */
  function RefFindings(ws: Workspace, composeFiles: seq<Artifact>, defined: set<string>): seq<Finding> {
    Flatten(composeFiles, c => FileFindings(ws, defined, c))
  }

  /** No deduplication: a reportable name referenced k times on a line is reported k times, and other names never. */
  lemma {:induction false} UnresolvedCount(names: seq<string>, defined: set<string>, x: string)
    ensures Count(Unresolved(names, defined), x) == (if Reportable(x, defined) then Count(names, x) else 0)
  {
    if names != [] {
      var init := names[..|names| - 1];
      var n := names[|names| - 1];
      UnresolvedCount(init, defined, x);
      assert names == init + [n];
      CountSnoc(init, n, x);
      if Reportable(n, defined) {
        assert Unresolved(names, defined) == Unresolved(init, defined) + [n];
        CountSnoc(Unresolved(init, defined), n, x);
      } else {
        assert Unresolved(names, defined) == Unresolved(init, defined);
        assert n != x || !Reportable(x, defined);
      }
    }
  }

  /** The reported references are exactly the reportable ones. */
  lemma UnresolvedMembers(names: seq<string>, defined: set<string>, x: string)
    ensures x in Unresolved(names, defined) <==> x in names && Reportable(x, defined)
  {
    UnresolvedCount(names, defined, x);
    CountZero(Unresolved(names, defined), x);
    CountZero(names, x);
  }

  /** The findings of one line are exactly one ENV001 per reportable reference on it. */
  lemma NameFindingsMembers(names: seq<string>, path: string, lineNum: int, defined: set<string>, f: Finding)
    ensures f in NameFindings(names, path, lineNum, defined) <==>
              exists n | n in names :: Reportable(n, defined) && f == Env001(n, path, lineNum)
  {
    var u := Unresolved(names, defined);
    if f in NameFindings(names, path, lineNum, defined) {
      var i :| 0 <= i < |u| && NameFindings(names, path, lineNum, defined)[i] == f;
      Env001sAt(u, path, lineNum, i);
      UnresolvedMembers(names, defined, u[i]);
    }
    forall n | n in names && Reportable(n, defined)
      ensures Env001(n, path, lineNum) in NameFindings(names, path, lineNum, defined)
    {
      UnresolvedMembers(names, defined, n);
      var i :| 0 <= i < |u| && u[i] == n;
      Env001sAt(u, path, lineNum, i);
      assert NameFindings(names, path, lineNum, defined)[i] == Env001(n, path, lineNum);
    }
  }

  /** Adding a reference to a line adds its finding exactly when it is reportable. */
  lemma NameFindingsSnoc(names: seq<string>, n: string, path: string, lineNum: int, defined: set<string>)
    ensures NameFindings(names + [n], path, lineNum, defined)
            == NameFindings(names, path, lineNum, defined) + (if Reportable(n, defined) then [Env001(n, path, lineNum)] else [])
  {
    assert (names + [n])[..|names|] == names;
    var u := Unresolved(names, defined);
    if Reportable(n, defined) {
      assert Unresolved(names + [n], defined) == u + [n];
      assert (u + [n])[..|u|] == u;
    } else {
      assert Unresolved(names + [n], defined) == u;
    }
  }

  /** A finding of a compose file comes from one of its lines, and carries that line's 1-based number. */
  lemma {:induction false} LineFindingsMembers(lines: seq<string>, path: string, defined: set<string>, f: Finding)
    ensures f in LineFindings(lines, path, defined) <==>
              exists i | 0 <= i < |lines| :: f in NameFindings(Refs(lines[i]), path, i + 1, defined)
  {
    if lines != [] {
      var init := lines[..|lines| - 1];
      LineFindingsMembers(init, path, defined, f);
      assert forall i | 0 <= i < |init| :: init[i] == lines[i];
    }
  }

  /** Every finding of a compose file is an ENV001 for a reportable reference, carrying its 1-based line, and every such reference has one. */
  lemma LineFindingsMeaning(lines: seq<string>, path: string, defined: set<string>, f: Finding)
    ensures f in LineFindings(lines, path, defined) <==>
              exists i, n | 0 <= i < |lines| && n in Refs(lines[i]) :: Reportable(n, defined) && f == Env001(n, path, i + 1)
  {
    LineFindingsMembers(lines, path, defined, f);
    forall i | 0 <= i < |lines|
      ensures f in NameFindings(Refs(lines[i]), path, i + 1, defined) <==>
                exists n | n in Refs(lines[i]) :: Reportable(n, defined) && f == Env001(n, path, i + 1)
    {
      NameFindingsMembers(Refs(lines[i]), path, i + 1, defined, f);
    }
  }

  /** The findings come from the found, readable compose files only. */
  lemma RefFindingsMembers(ws: Workspace, composeFiles: seq<Artifact>, defined: set<string>, f: Finding)
    ensures f in RefFindings(ws, composeFiles, defined) <==>
              exists c | 0 <= c < |composeFiles| ::
                && composeFiles[c].found && composeFiles[c].path in ws.contents
                && f in LineFindings(ScanLines(ws.contents[composeFiles[c].path]), composeFiles[c].path, defined)
  {
    FlattenMembers(composeFiles, c => FileFindings(ws, defined, c), f);
  }

  /** The reference loop for one line of `checkComposeEnvRefs`: one ENV001 per reportable match. */
  method CheckLineRefs(line: string, path: string, lineNum: int, definedVars: set<string>) returns (findings: seq<Finding>)
    ensures findings == NameFindings(Refs(line), path, lineNum, definedVars)
  {
    var matches := Refs(line);
    findings := [];
    for m := 0 to |matches|
      invariant findings == NameFindings(matches[..m], path, lineNum, definedVars)
    {
      assert matches[..m + 1] == matches[..m] + [matches[m]];
      NameFindingsSnoc(matches[..m], matches[m], path, lineNum, definedVars);
      var varName := matches[m];
      if varName !in definedVars && !IsStandardVar(varName) {
        findings := findings + [Env001(varName, path, lineNum)];
      }
    }
    assert matches[..|matches|] == matches;
  }

  /** The line loop for one compose file of `checkComposeEnvRefs`; lines are counted from 1. */
  method CheckFileRefs(lines: seq<string>, path: string, definedVars: set<string>) returns (findings: seq<Finding>)
    ensures findings == LineFindings(lines, path, definedVars)
  {
    findings := [];
    var lineNum := 0;
    while lineNum < |lines|
      invariant lineNum <= |lines|
      invariant findings == LineFindings(lines[..lineNum], path, definedVars)
    {
      var line := lines[lineNum];
      assert lines[..lineNum + 1][..lineNum] == lines[..lineNum];
      lineNum := lineNum + 1;
      var lineFindings := CheckLineRefs(line, path, lineNum, definedVars);
      findings := findings + lineFindings;
    }
    assert lines[..|lines|] == lines;
  }

  /** `checkComposeEnvRefs`: the files not found or unreadable are skipped. */
  method CheckComposeEnvRefs(ws: Workspace, artifacts: Artifacts) returns (findings: seq<Finding>)
    ensures findings == RefFindings(ws, artifacts.composeFiles, DefinedNames(ws, artifacts.envFiles))
  {
    var definedVars := CollectDefinedVars(ws, artifacts.envFiles);
    var composeFiles := artifacts.composeFiles;
    findings := [];
    for c := 0 to |composeFiles|
      invariant findings == Flatten(composeFiles[..c], c => FileFindings(ws, definedVars, c))
    {
      assert composeFiles[..c + 1][..c] == composeFiles[..c];
      var composeFile := composeFiles[c];
      if !composeFile.found || composeFile.path !in ws.contents {
        continue;
      }
      var lines := ScanLines(ws.contents[composeFile.path]);
      var fileFindings := CheckFileRefs(lines, composeFile.path, definedVars);
      findings := findings + fileFindings;
    }
    assert composeFiles[..|composeFiles|] == composeFiles;
  }
}
