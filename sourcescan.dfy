/**
 * `checkSourceCodeEnvRefs`: environment variables read by source files (Node.js, Go, Python, Java, C#,
 * Rust patterns) that no found env file defines and that are not standard. Each name is reported once,
 * at its first occurrence in walk order. The regular expressions are not modelled: `capture(pattern, line)`
 * stands for the first submatches of `pattern.FindAllStringSubmatch(line, -1)`, in order.
 */
module SourceScan {
  import opened Options
  import opened Text
  import opened Seqs
  import opened FileSystem
  import opened ArtifactModel
  import opened FindingModel
  import opened EnvFiles

  /** The seven source patterns, in the order each line is matched against them. */
  const SourcePatterns: seq<string> := [
    "process\\.env\\.([A-Za-z_][A-Za-z0-9_]*)",
    "os\\.Getenv\\s*\\(\\s*\"([A-Za-z_][A-Za-z0-9_]*)\"\\s*\\)",
    "os\\.environ\\s*\\[\\s*['\"]([A-Za-z_][A-Za-z0-9_]*)['\"]\\s*\\]",
    "os\\.getenv\\s*\\(\\s*['\"]([A-Za-z_][A-Za-z0-9_]*)['\"]",
    "System\\.getenv\\s*\\(\\s*\"([A-Za-z_][A-Za-z0-9_]*)\"\\s*\\)",
    "Environment\\.GetEnvironmentVariable\\s*\\(\\s*\"([A-Za-z_][A-Za-z0-9_]*)\"\\s*\\)",
    "env::var\\s*\\(\\s*\"([A-Za-z_][A-Za-z0-9_]*)\"\\s*\\)"]

  /** The extensions of the files that are scanned. */
  const SourceExtensions: set<string> := {".go", ".js", ".ts", ".jsx", ".tsx", ".py", ".java", ".cs", ".rs"}

  /** The directory names the walk does not descend into. */
  const SkippedDirs: set<string> := {"node_modules", "vendor", ".git", "__pycache__", "target", "bin", "obj"}

  /** `filepath.Ext` on the first `i` characters, all characters after them being neither '.' nor '/'. */
  function ExtAt(path: string, i: nat): (r: string)
    requires i <= |path|
    requires forall j | i <= j < |path| :: path[j] != '.' && path[j] != '/'
    ensures r == [] || (HasSuffix(path, r) && r[0] == '.' && forall j | 1 <= j < |r| :: r[j] != '.' && r[j] != '/')
    decreases i
  {
    if i == 0 then ""
    else if path[i - 1] == '/' then ""
    else if path[i - 1] == '.' then path[i - 1..]
    else ExtAt(path, i - 1)
  }

  /** `filepath.Ext`: the suffix from the last '.' of the final element, or "" when that element has none. */
  function Ext(path: string): (r: string)
    ensures r == [] || (HasSuffix(path, r) && r[0] == '.' && forall j | 1 <= j < |r| :: r[j] != '.' && r[j] != '/')
  {
    ExtAt(path, |path|)
  }

  /** The directories a relative path lies in: every element but the last. */
  function DirsOf(path: string): seq<string> {
    var parts := Split(path, "/");
    parts[..|parts| - 1]
  }

  /** The walk never reaches `path`: the scanned directory or a directory on the way is one of the skipped names. */
  predicate Skipped(ws: Workspace, path: string) {
    ws.rootName in SkippedDirs || exists d | d in DirsOf(path) :: d in SkippedDirs
  }

  /** The file at `path` is scanned: reached by the walk, a source extension, and readable. */
  predicate Scanned(ws: Workspace, path: string) {
    !Skipped(ws, path) && Ext(path) in SourceExtensions && path in ws.contents
  }

  /** One reference to a variable: its name, the file, and the 1-based line. */
  datatype Occurrence = Occurrence(name: string, file: string, line: int)

  /** The references `names` on line `lineNo` of `file`. */
  function MatchOccs(names: seq<string>, file: string, lineNo: int): (os: seq<Occurrence>)
    ensures |os| == |names|
  {
    if names == [] then [] else MatchOccs(names[..|names| - 1], file, lineNo) + [Occurrence(names[|names| - 1], file, lineNo)]
  }

  /** The references found on one line by the first `k` patterns, pattern by pattern. */
  function PatternOccs(capture: (string, string) -> seq<string>, line: string, file: string, lineNo: int, k: nat): seq<Occurrence>
    requires k <= |SourcePatterns|
  {
    if k == 0 then [] else PatternOccs(capture, line, file, lineNo, k - 1) + MatchOccs(capture(SourcePatterns[k - 1], line), file, lineNo)
  }

  /** The references of the lines of one file, line by line; lines are numbered from 1. */
  function FileOccs(capture: (string, string) -> seq<string>, lines: seq<string>, file: string): seq<Occurrence> {
    if lines == [] then []
    else FileOccs(capture, lines[..|lines| - 1], file) + PatternOccs(capture, lines[|lines| - 1], file, |lines|, |SourcePatterns|)
  }

  /** The lines of a file as `strings.Split(content, "\n")` gives them. */
  function SourceLines(ws: Workspace, path: string): seq<string>
    requires path in ws.contents
  {
    Split(ws.contents[path], "\n")
  }

  /** The references the walk callback collects from the file at `path`: none unless it is scanned. */
  function PathOccs(ws: Workspace, capture: (string, string) -> seq<string>, path: string): seq<Occurrence> {
    if Scanned(ws, path) then FileOccs(capture, SourceLines(ws, path), path) else []
  }

  /** The references of the scanned files among `tree`, in walk order. */
  function TreeOccs(ws: Workspace, capture: (string, string) -> seq<string>, tree: seq<string>): seq<Occurrence> {
    if tree == [] then []
    else
      TreeOccs(ws, capture, tree[..|tree| - 1]) + PathOccs(ws, capture, tree[|tree| - 1])
  }

  /** The names of a list of reports. */
  function Names(reported: seq<Occurrence>): set<string> {
    if reported == [] then {} else Names(reported[..|reported| - 1]) + {reported[|reported| - 1].name}
  }

  /** One reference: reported when it is reportable and its name was not reported before. */
  function Report(reported: seq<Occurrence>, o: Occurrence, defined: set<string>): seq<Occurrence> {
    if Reportable(o.name, defined) && o.name !in Names(reported) then reported + [o] else reported
  }

  /** The reports after the references `occs`, starting from `reported`. */
  function Fold(reported: seq<Occurrence>, occs: seq<Occurrence>, defined: set<string>): seq<Occurrence> {
    if occs == [] then reported else Report(Fold(reported, occs[..|occs| - 1], defined), occs[|occs| - 1], defined)
  }

  function Src001(o: Occurrence): Finding {
    Finding(
      "SRC001", Warning,
      "Environment variable '" + o.name + "' used in source but not defined",
      "Variable " + o.name + " is accessed in source code but not found in any .env file",
      [SourceLocation(o.file, o.line, 0)],
      "Add " + o.name + "=<value> to .env file")
  }

  /** One SRC001 per report, in order. */
  function Src001s(reported: seq<Occurrence>): (fs: seq<Finding>)
    ensures |fs| == |reported|
  {
    if reported == [] then [] else Src001s(reported[..|reported| - 1]) + [Src001(reported[|reported| - 1])]
  }

  /** The reports of the whole walk. */
  function SourceReports(ws: Workspace, capture: (string, string) -> seq<string>, defined: set<string>): seq<Occurrence> {
    Fold([], TreeOccs(ws, capture, ws.tree), defined)
  }

  /** The state the walk callback updates: `findings` and `foundUndefined` describe the reports so far. */
  ghost predicate Tracks(findings: seq<Finding>, foundUndefined: set<string>, reported: seq<Occurrence>) {
    findings == Src001s(reported) && foundUndefined == Names(reported)
  }

  /** Reporting one reference keeps the walk's state in step. */
  lemma ReportStep(findings: seq<Finding>, foundUndefined: set<string>, reported: seq<Occurrence>, o: Occurrence, defined: set<string>)
    requires Tracks(findings, foundUndefined, reported)
    requires Reportable(o.name, defined) && o.name !in foundUndefined
    ensures Tracks(findings + [Src001(o)], foundUndefined + {o.name}, Report(reported, o, defined))
  {
    assert (reported + [o])[..|reported|] == reported;
  }

  /** Processing a concatenation processes its parts in turn. */
  lemma {:induction false} FoldAppend(reported: seq<Occurrence>, a: seq<Occurrence>, b: seq<Occurrence>, defined: set<string>)
    ensures Fold(reported, a + b, defined) == Fold(Fold(reported, a, defined), b, defined)
    decreases |b|
  {
    if b == [] {
      assert a + b == a;
    } else {
      var init := b[..|b| - 1];
      assert (a + b)[..|a + b| - 1] == a + init;
      FoldAppend(reported, a, init, defined);
    }
  }

  /** The match loop. */
  method ScanMatches(names: seq<string>, file: string, lineNo: int, defined: set<string>,
                     findings0: seq<Finding>, found0: set<string>, ghost reported0: seq<Occurrence>)
    returns (findings: seq<Finding>, found: set<string>, ghost reported: seq<Occurrence>)
    requires Tracks(findings0, found0, reported0)
    ensures reported == Fold(reported0, MatchOccs(names, file, lineNo), defined)
    ensures Tracks(findings, found, reported)
  {
    findings, found, reported := findings0, found0, reported0;
    for m := 0 to |names|
      invariant reported == Fold(reported0, MatchOccs(names[..m], file, lineNo), defined)
      invariant Tracks(findings, found, reported)
    {
      var varName := names[m];
      var o := Occurrence(varName, file, lineNo);
      assert MatchOccs(names[..m + 1], file, lineNo) == MatchOccs(names[..m], file, lineNo) + [o] by {
        assert names[..m + 1][..m] == names[..m];
      }
      if varName !in defined && !IsStandardVar(varName) && varName !in found {
        ReportStep(findings, found, reported, o, defined);
        found := found + {varName};
        findings := findings + [Src001(o)];
      }
      reported := Report(reported, o, defined);
    }
    assert names[..|names|] == names;
  }

  /** The pattern loop of one line. */
  method ScanLine(capture: (string, string) -> seq<string>, line: string, file: string, lineNo: int, defined: set<string>,
                  findings0: seq<Finding>, found0: set<string>, ghost reported0: seq<Occurrence>)
    returns (findings: seq<Finding>, found: set<string>, ghost reported: seq<Occurrence>)
    requires Tracks(findings0, found0, reported0)
    ensures reported == Fold(reported0, PatternOccs(capture, line, file, lineNo, |SourcePatterns|), defined)
    ensures Tracks(findings, found, reported)
  {
    findings, found, reported := findings0, found0, reported0;
    for k := 0 to |SourcePatterns|
      invariant reported == Fold(reported0, PatternOccs(capture, line, file, lineNo, k), defined)
      invariant Tracks(findings, found, reported)
    {
      var matches := capture(SourcePatterns[k], line);
      findings, found, reported := ScanMatches(matches, file, lineNo, defined, findings, found, reported);
      FoldAppend(reported0, PatternOccs(capture, line, file, lineNo, k), MatchOccs(matches, file, lineNo), defined);
    }
  }

  /** The line loop of one file. */
  method ScanFile(capture: (string, string) -> seq<string>, lines: seq<string>, file: string, defined: set<string>,
                  findings0: seq<Finding>, found0: set<string>, ghost reported0: seq<Occurrence>)
    returns (findings: seq<Finding>, found: set<string>, ghost reported: seq<Occurrence>)
    requires Tracks(findings0, found0, reported0)
    ensures reported == Fold(reported0, FileOccs(capture, lines, file), defined)
    ensures Tracks(findings, found, reported)
  {
    findings, found, reported := findings0, found0, reported0;
    for lineNum := 0 to |lines|
      invariant reported == Fold(reported0, FileOccs(capture, lines[..lineNum], file), defined)
      invariant Tracks(findings, found, reported)
    {
      findings, found, reported := ScanLine(capture, lines[lineNum], file, lineNum + 1, defined, findings, found, reported);
      assert FileOccs(capture, lines[..lineNum + 1], file)
             == FileOccs(capture, lines[..lineNum], file) + PatternOccs(capture, lines[lineNum], file, lineNum + 1, |SourcePatterns|) by {
        assert lines[..lineNum + 1][..lineNum] == lines[..lineNum];
      }
      FoldAppend(reported0, FileOccs(capture, lines[..lineNum], file),
                 PatternOccs(capture, lines[lineNum], file, lineNum + 1, |SourcePatterns|), defined);
    }
    assert lines[..|lines|] == lines;
  }

  /** The walk callback for one path: skipped directories, other extensions and unreadable files add nothing. */
  method ScanPath(ws: Workspace, capture: (string, string) -> seq<string>, path: string, defined: set<string>,
                  findings0: seq<Finding>, found0: set<string>, ghost reported0: seq<Occurrence>)
    returns (findings: seq<Finding>, found: set<string>, ghost reported: seq<Occurrence>)
    requires Tracks(findings0, found0, reported0)
    ensures reported == Fold(reported0, PathOccs(ws, capture, path), defined)
    ensures Tracks(findings, found, reported)
  {
    findings, found, reported := findings0, found0, reported0;
    if Skipped(ws, path) || Ext(path) !in SourceExtensions || path !in ws.contents {
      return;
    }
    var lines := Split(ws.contents[path], "\n");
    findings, found, reported := ScanFile(capture, lines, path, defined, findings, found, reported);
  }

  /** The walk (`filepath.Walk`) over `tree`, in order. */
  method Walk(ws: Workspace, capture: (string, string) -> seq<string>, tree: seq<string>, defined: set<string>)
    returns (findings: seq<Finding>, found: set<string>, ghost reported: seq<Occurrence>)
    ensures reported == Fold([], TreeOccs(ws, capture, tree), defined)
    ensures Tracks(findings, found, reported)
  {
    findings, found, reported := [], {}, [];
    for t := 0 to |tree|
      invariant reported == Fold([], TreeOccs(ws, capture, tree[..t]), defined)
      invariant Tracks(findings, found, reported)
    {
      var path := tree[t];
      findings, found, reported := ScanPath(ws, capture, path, defined, findings, found, reported);
      assert reported == Fold([], TreeOccs(ws, capture, tree[..t + 1]), defined) by {
        assert tree[..t + 1][..t] == tree[..t];
        assert TreeOccs(ws, capture, tree[..t + 1]) == TreeOccs(ws, capture, tree[..t]) + PathOccs(ws, capture, path);
        FoldAppend([], TreeOccs(ws, capture, tree[..t]), PathOccs(ws, capture, path), defined);
      }
    }
    assert tree[..|tree|] == tree;
  }

  /** `checkSourceCodeEnvRefs`: the walk visits `ws.tree` in order. */
  method CheckSourceCodeEnvRefs(ws: Workspace, artifacts: Artifacts, capture: (string, string) -> seq<string>)
    returns (findings: seq<Finding>)
    ensures findings == Src001s(SourceReports(ws, capture, DefinedNames(ws, artifacts.envFiles)))
  {
    var definedVars := CollectDefinedVars(ws, artifacts.envFiles);
    var foundUndefined;
    ghost var reported;
    findings, foundUndefined, reported := Walk(ws, capture, ws.tree, definedVars);
  }

  /** No name is reported twice. */
  predicate DistinctNames(reported: seq<Occurrence>) {
    forall i, j | 0 <= i < j < |reported| :: reported[i].name != reported[j].name
  }

  /** The reportable names among the references `occs`. */
  function ReportableNames(occs: seq<Occurrence>, defined: set<string>): set<string> {
    set i | 0 <= i < |occs| && Reportable(occs[i].name, defined) :: occs[i].name
  }

  /** `o` is the first reference to its name in `occs`. */
  predicate FirstOf(occs: seq<Occurrence>, o: Occurrence) {
    exists i | 0 <= i < |occs| :: occs[i] == o && forall j | 0 <= j < i :: occs[j].name != o.name
  }

  /** The reported names are the names of the reports. */
  lemma {:induction false} NamesMembers(reported: seq<Occurrence>, n: string)
    ensures n in Names(reported) <==> exists i | 0 <= i < |reported| :: reported[i].name == n
  {
    if reported != [] {
      var init := reported[..|reported| - 1];
      NamesMembers(init, n);
      assert forall i | 0 <= i < |init| :: init[i] == reported[i];
    }
  }

  /**
   * Processing references only appends to the reports; what it appends is reportable, and the reported
   * names grow by exactly the reportable names referenced.
   */
  lemma {:induction false} FoldGrows(reported: seq<Occurrence>, occs: seq<Occurrence>, defined: set<string>)
    ensures var r := Fold(reported, occs, defined);
      && |reported| <= |r| && r[..|reported|] == reported
      && (forall i | |reported| <= i < |r| :: Reportable(r[i].name, defined) && r[i] in occs)
      && Names(r) == Names(reported) + ReportableNames(occs, defined)
  {
    if occs != [] {
      var init, x := occs[..|occs| - 1], occs[|occs| - 1];
      assert occs == init + [x];
      FoldGrows(reported, init, defined);
      var prev := Fold(reported, init, defined);
      assert ReportableNames(occs, defined) == ReportableNames(init, defined) + (if Reportable(x.name, defined) then {x.name} else {}) by {
        assert forall i | 0 <= i < |init| :: occs[i] == init[i];
      }
      if Reportable(x.name, defined) && x.name !in Names(prev) {
        assert Fold(reported, occs, defined) == prev + [x];
        assert (prev + [x])[..|prev|] == prev;
      }
    }
  }

  /** Processing references keeps the reported names distinct. */
  lemma {:induction false} FoldDistinct(reported: seq<Occurrence>, occs: seq<Occurrence>, defined: set<string>)
    requires DistinctNames(reported)
    ensures DistinctNames(Fold(reported, occs, defined))
  {
    if occs != [] {
      var init, x := occs[..|occs| - 1], occs[|occs| - 1];
      FoldDistinct(reported, init, defined);
      var prev := Fold(reported, init, defined);
      if Reportable(x.name, defined) && x.name !in Names(prev) {
        NamesMembers(prev, x.name);
        assert Fold(reported, occs, defined) == prev + [x];
      }
    }
  }

  /** The first reference to a name in a longer list: an earlier first one, or the new last one. */
  lemma FirstOfSnoc(init: seq<Occurrence>, x: Occurrence, o: Occurrence)
    ensures FirstOf(init + [x], o) <==> FirstOf(init, o) || (o == x && forall j | 0 <= j < |init| :: init[j].name != o.name)
  {
    var occs := init + [x];
    assert forall j | 0 <= j < |init| :: occs[j] == init[j];
    if FirstOf(occs, o) {
      var i :| 0 <= i < |occs| && occs[i] == o && forall j | 0 <= j < i :: occs[j].name != o.name;
      if i < |init| {
        assert init[i] == o;
      }
    }
    if FirstOf(init, o) {
      var i :| 0 <= i < |init| && init[i] == o && forall j | 0 <= j < i :: init[j].name != o.name;
      assert occs[i] == o;
    }
    if o == x && forall j | 0 <= j < |init| :: init[j].name != o.name {
      assert occs[|init|] == o;
    }
  }

  /**
   * A reference ends up among the reports exactly when it was there already, or its name is reportable, was
   * not reported before, and no earlier reference has the same name: the first reference to each name wins.
   */
  lemma {:induction false} FoldFirst(reported: seq<Occurrence>, occs: seq<Occurrence>, defined: set<string>, o: Occurrence)
    ensures o in Fold(reported, occs, defined) <==>
              o in reported || (Reportable(o.name, defined) && o.name !in Names(reported) && FirstOf(occs, o))
  {
    if occs == [] {
      assert !FirstOf(occs, o);
    } else {
      var init, x := occs[..|occs| - 1], occs[|occs| - 1];
      assert occs == init + [x];
      FoldFirst(reported, init, defined, o);
      FoldGrows(reported, init, defined);
      FirstOfSnoc(init, x, o);
      var prev := Fold(reported, init, defined);
      if Reportable(x.name, defined) && x.name !in Names(prev) {
        assert Fold(reported, occs, defined) == prev + [x];
        if o == x {
          assert o.name !in ReportableNames(init, defined);
          assert o.name !in Names(reported);
        }
      } else {
        assert Fold(reported, occs, defined) == prev;
        if o == x && Reportable(o.name, defined) && o.name !in Names(reported) {
          assert o.name in ReportableNames(init, defined);
        }
      }
    }
  }

  /** Each SRC001 is built from one report. */
  lemma {:induction false} Src001sMembers(reported: seq<Occurrence>, f: Finding)
    ensures f in Src001s(reported) <==> exists o | o in reported :: f == Src001(o)
  {
    if reported != [] {
      var init := reported[..|reported| - 1];
      Src001sMembers(init, f);
      assert reported == init + [reported[|reported| - 1]];
    }
  }

  /**
   * The reports of the whole walk: one per reportable name referenced (never a defined or standard one),
   * each at the first reference to that name in walk order.
   */
  lemma SourceReportsMeaning(ws: Workspace, capture: (string, string) -> seq<string>, defined: set<string>, o: Occurrence)
    ensures var r := SourceReports(ws, capture, defined);
      && DistinctNames(r)
      && Names(r) == ReportableNames(TreeOccs(ws, capture, ws.tree), defined)
      && (o in r <==> Reportable(o.name, defined) && FirstOf(TreeOccs(ws, capture, ws.tree), o))
  {
    var occs := TreeOccs(ws, capture, ws.tree);
    FoldGrows([], occs, defined);
    FoldDistinct([], occs, defined);
    FoldFirst([], occs, defined, o);
  }

  /** `name` is captured from `line` by one of the source patterns. */
  predicate ReferencedOn(capture: (string, string) -> seq<string>, line: string, name: string) {
    exists p | 0 <= p < |SourcePatterns| :: name in capture(SourcePatterns[p], line)
  }

  lemma {:induction false} MatchOccsMembers(names: seq<string>, file: string, lineNo: int, o: Occurrence)
    ensures o in MatchOccs(names, file, lineNo) <==> o.file == file && o.line == lineNo && o.name in names
  {
    if names != [] {
      var init := names[..|names| - 1];
      MatchOccsMembers(init, file, lineNo, o);
      assert names == init + [names[|names| - 1]];
    }
  }

  lemma {:induction false} PatternOccsMembers(capture: (string, string) -> seq<string>, line: string, file: string, lineNo: int, k: nat, o: Occurrence)
    requires k <= |SourcePatterns|
    ensures o in PatternOccs(capture, line, file, lineNo, k) <==>
              o.file == file && o.line == lineNo && exists p | 0 <= p < k :: o.name in capture(SourcePatterns[p], line)
  {
    if k > 0 {
      PatternOccsMembers(capture, line, file, lineNo, k - 1, o);
      MatchOccsMembers(capture(SourcePatterns[k - 1], line), file, lineNo, o);
    }
  }

  /** The references of a file: a captured name, on a line of that file, numbered from 1. */
  lemma {:induction false} FileOccsMembers(capture: (string, string) -> seq<string>, lines: seq<string>, file: string, o: Occurrence)
    ensures o in FileOccs(capture, lines, file) <==>
              o.file == file && 1 <= o.line <= |lines| && ReferencedOn(capture, lines[o.line - 1], o.name)
  {
    if lines != [] {
      var init := lines[..|lines| - 1];
      FileOccsMembers(capture, init, file, o);
      PatternOccsMembers(capture, lines[|lines| - 1], file, |lines|, |SourcePatterns|, o);
      if 1 <= o.line <= |init| {
        assert init[o.line - 1] == lines[o.line - 1];
      }
    }
  }

  /** The references of the walk: a captured name on a line of a scanned file of the tree. */
  lemma {:induction false} TreeOccsMembers(ws: Workspace, capture: (string, string) -> seq<string>, tree: seq<string>, o: Occurrence)
    ensures o in TreeOccs(ws, capture, tree) <==>
              && o.file in tree && Scanned(ws, o.file)
              && 1 <= o.line <= |SourceLines(ws, o.file)| && ReferencedOn(capture, SourceLines(ws, o.file)[o.line - 1], o.name)
  {
    if tree != [] {
      var init, path := tree[..|tree| - 1], tree[|tree| - 1];
      assert tree == init + [path];
      TreeOccsMembers(ws, capture, init, o);
      if Scanned(ws, path) {
        FileOccsMembers(capture, SourceLines(ws, path), path, o);
      }
    }
  }

  /** `filepath.Ext` is the suffix from the last '.', when no '.' or '/' follows it. */
  lemma {:induction false} ExtAtSuffix(stem: string, ext: string, i: nat)
    requires |ext| >= 1 && ext[0] == '.' && forall j | 1 <= j < |ext| :: ext[j] != '.' && ext[j] != '/'
    requires |stem| < i <= |stem + ext|
    ensures ExtAt(stem + ext, i) == ext
    decreases i
  {
    var path := stem + ext;
    assert forall j | |stem| < j < |path| :: path[j] == ext[j - |stem|];
    if i - 1 == |stem| {
      assert path[|stem|..] == ext;
    } else {
      ExtAtSuffix(stem, ext, i - 1);
    }
  }

  lemma ExtOfSuffix(stem: string, ext: string)
    requires |ext| >= 1 && ext[0] == '.' && forall j | 1 <= j < |ext| :: ext[j] != '.' && ext[j] != '/'
    ensures Ext(stem + ext) == ext
  {
    ExtAtSuffix(stem, ext, |stem + ext|);
  }

  /**
   * A reference in a scanned file is always accounted for: its name is defined, standard, or reported at the
   * first reference to that name in walk order.
   */
  lemma EveryReferenceAccounted(ws: Workspace, capture: (string, string) -> seq<string>, defined: set<string>, o: Occurrence)
    requires o in TreeOccs(ws, capture, ws.tree)
    ensures !Reportable(o.name, defined) || o.name in Names(SourceReports(ws, capture, defined))
  {
    var occs := TreeOccs(ws, capture, ws.tree);
    FoldGrows([], occs, defined);
    var i :| 0 <= i < |occs| && occs[i] == o;
    if Reportable(o.name, defined) {
      assert o.name in ReportableNames(occs, defined);
    }
  }
}
