/**
 * The fix script of the checklist reporter (internal/reporter/checklist.go, `GenerateShellScript`):
 * a fixed header, then for every finding that suggests a fix a comment naming it, one shell command
 * (or a TODO comment) derived from the wording of the fix, and a blank line.
 */
module Checklist {
  import opened Options
  import opened Text
  import opened Seqs
  import opened FindingModel
  import opened ReportModel

  /** The shebang, two comment lines and `set -e`, each block followed by a blank line. */
  const ScriptHeader: string :=
    "#!/bin/bash\n" + "# Auto-generated fix script from devcheck\n" + "# Review carefully before running!\n\n" + "set -e\n\n"

  /** A fix that cannot be turned into a command is kept as a comment. */
  function Todo(fix: string): (line: string)
    ensures HasPrefix(line, "# TODO: ") && line[|line| - 1] == '\n'
  {
    "# TODO: " + fix + "\n"
  }

  /** "Add V to .env …": `echo 'V' >> .env`, V being what follows the first space, trimmed of the trailing wording and cut at " to ". */
  function EchoCommand(fix: string): (line: string)
    ensures CommandShape(line) && |line| > 0 && line[|line| - 1] == '\n'
  {
    match Cut(fix, " ")
    case None => Todo(fix)
    case Some(parts) =>
      var assignment := TrimSuffix(TrimSuffix(TrimPrefix(parts.1, " "), " to .env file"), " file");
      "echo '" + Before(assignment, " to ") + "' >> .env\n"
  }

  /** "Copy X to Y and …": `cp X Y` when the rest splits into exactly two parts around " to ". */
  function CopyCommand(fix: string): (line: string)
    ensures CommandShape(line) && |line| > 0 && line[|line| - 1] == '\n'
  {
    var parts := Split(TrimPrefix(fix, "Copy "), " to ");
    if |parts| == 2 then "cp " + TrimSpace(parts[0]) + " " + TrimSpace(Before(parts[1], " and ")) + "\n"
    else Todo(fix)
  }

  /** The "Create …" case as the source writes it: a fix mentioning "directory" anywhere is taken for "Create directory D". */
  function CreateCommandAsWritten(fix: string): (line: string)
    ensures (HasPrefix(line, "mkdir -p ") || HasPrefix(line, "touch ")) && line[|line| - 1] == '\n'
  {
    if Contains(fix, "directory") then "mkdir -p " + Before(TrimPrefix(fix, "Create directory "), " or ") + "\n"
    else "touch " + Before(Before(TrimPrefix(fix, "Create "), " or "), " in ") + "\n"
  }

  /** The "Create …" case as intended: only "Create directory D or …" makes a directory; any other "Create F or/in …" touches F. */
  function CreateCommand(fix: string): (line: string)
    ensures (HasPrefix(line, "mkdir -p ") || HasPrefix(line, "touch ")) && line[|line| - 1] == '\n'
  {
    if HasPrefix(fix, "Create directory ") then "mkdir -p " + Before(TrimPrefix(fix, "Create directory "), " or ") + "\n"
    else "touch " + Before(Before(TrimPrefix(fix, "Create "), " or "), " in ") + "\n"
  }

  /** The five kinds of line a fix can become. */
  predicate CommandShape(line: string) {
    HasPrefix(line, "echo '") || HasPrefix(line, "cp ") || HasPrefix(line, "mkdir -p ") || HasPrefix(line, "touch ")
    || HasPrefix(line, "# TODO: ")
  }

  /**
   * The command line for a suggested fix, chosen by its wording as the reporter chooses it (with the
   * "directory" test as written); "Install …" and anything unrecognised become a TODO.
   */
  function FixCommand(fix: string): (line: string)
    ensures |line| > 0 && line[|line| - 1] == '\n'
    ensures CommandShape(line)
  {
    if HasPrefix(fix, "Add ") && Contains(fix, "to .env") then EchoCommand(fix)
    else if HasPrefix(fix, "Copy ") then CopyCommand(fix)
    else if HasPrefix(fix, "Create ") then CreateCommandAsWritten(fix)
    else Todo(fix)
  }

  /** The command line with the intended "Create directory " test in place of the one the reporter makes. */
  function FixCommandIntended(fix: string): (line: string)
    ensures |line| > 0 && line[|line| - 1] == '\n'
    ensures CommandShape(line)
  {
    if HasPrefix(fix, "Add ") && Contains(fix, "to .env") then EchoCommand(fix)
    else if HasPrefix(fix, "Copy ") then CopyCommand(fix)
    else if HasPrefix(fix, "Create ") then CreateCommand(fix)
    else Todo(fix)
  }

  predicate HasFix(f: Finding) {
    f.suggestedFix != ""
  }

  /** The comment line that names a finding. */
  function Heading(f: Finding): string {
    "# [" + f.code + "] " + f.title + "\n"
  }

  /** What one finding adds to the script: nothing without a fix; otherwise its heading, the command, and a blank line. */
  function FindingBlock(f: Finding): string {
    if !HasFix(f) then "" else Heading(f) + FixCommand(f.suggestedFix) + "\n"
  }

  /** The blocks of the findings, in order. */
  function Blocks(findings: seq<Finding>, block: Finding -> string): string {
    if findings == [] then "" else Blocks(findings[..|findings| - 1], block) + block(findings[|findings| - 1])
  }

  /** The whole script. */
  function ShellScript(findings: seq<Finding>): (script: string)
    ensures HasPrefix(script, ScriptHeader)
  {
    ScriptHeader + Blocks(findings, FindingBlock)
  }

  /** The block of a finding under the intended routing. */
  function FindingBlockIntended(f: Finding): string {
    if !HasFix(f) then "" else Heading(f) + FixCommandIntended(f.suggestedFix) + "\n"
  }

  /** The script the reporter evidently means to write: the intended routing of every fix. */
  function ShellScriptIntended(findings: seq<Finding>): (script: string)
    ensures HasPrefix(script, ScriptHeader)
  {
    ScriptHeader + Blocks(findings, FindingBlockIntended)
  }

  /** `GenerateShellScript`: the builder starts with the header and grows by one block per finding that has a fix. */
  method GenerateShellScript(report: Report) returns (script: string)
    ensures script == ShellScript(report.findings)
  {
    var sb := "";
    sb := sb + "#!/bin/bash\n";
    assert sb == "#!/bin/bash\n";
    sb := sb + "# Auto-generated fix script from devcheck\n";
    sb := sb + "# Review carefully before running!\n\n";
    sb := sb + "set -e\n\n";
    script := WriteBlocks(sb, report.findings);
  }

  /** One turn of the loop: a finding with a fix writes its heading, its command and a blank line. */
  method WriteBlock(sb0: string, f: Finding) returns (sb: string)
    ensures sb == sb0 + FindingBlock(f)
  {
    sb := sb0;
    if f.suggestedFix != "" {
      var heading, command := Heading(f), FixCommand(f.suggestedFix);
      sb := sb + heading;
      sb := sb + command;
      sb := sb + "\n";
      AppendAssoc(sb0, heading, command, "\n");
    }
  }

  /** The loop of `GenerateShellScript`: appends to the builder `sb0` the block of every finding, in order. */
  method WriteBlocks(sb0: string, findings: seq<Finding>) returns (sb: string)
    ensures sb == sb0 + Blocks(findings, FindingBlock)
  {
    sb := sb0;
    for i := 0 to |findings|
      invariant sb == sb0 + Blocks(findings[..i], FindingBlock)
    {
      sb := WriteBlock(sb, findings[i]);
      BlocksPrefix(findings, i, FindingBlock);
      Associative(sb0, Blocks(findings[..i], FindingBlock), FindingBlock(findings[i]));
    }
    assert findings[..|findings|] == findings;
  }

  // ---------------------------------------------------------------------------------------------
  // The script as a whole

  /** Concatenation is associative. */
  lemma Associative(a: string, b: string, c: string)
    ensures a + b + c == a + (b + c)
  {
  }

  /** Appending three pieces one by one is appending their concatenation. */
  lemma AppendAssoc(a: string, b: string, c: string, d: string)
    ensures a + b + c + d == a + (b + c + d)
  {
  }

  /** One more finding adds its block at the end. */
  lemma BlocksSnoc(xs: seq<Finding>, f: Finding, block: Finding -> string)
    ensures Blocks(xs + [f], block) == Blocks(xs, block) + block(f)
  {
    assert (xs + [f])[..|xs|] == xs;
  }

  /** The blocks of a list up to and including position `i`. */
  lemma BlocksPrefix(findings: seq<Finding>, i: nat, block: Finding -> string)
    requires i < |findings|
    ensures Blocks(findings[..i + 1], block) == Blocks(findings[..i], block) + block(findings[i])
  {
    assert findings[..i + 1][..i] == findings[..i];
  }

  /** The blocks of two lists of findings are written one after the other. */
  lemma {:induction false} BlocksAppend(xs: seq<Finding>, ys: seq<Finding>, block: Finding -> string)
    ensures Blocks(xs + ys, block) == Blocks(xs, block) + Blocks(ys, block)
  {
    if ys == [] {
      assert xs + ys == xs;
    } else {
      var init, last := ys[..|ys| - 1], ys[|ys| - 1];
      assert ys == init + [last];
      assert xs + ys == (xs + init) + [last];
      BlocksSnoc(xs + init, last, block);
      BlocksSnoc(init, last, block);
      BlocksAppend(xs, init, block);
    }
  }

  /** Findings whose block is empty leave no trace. */
  lemma {:induction false} FixlessBlocks(findings: seq<Finding>, block: Finding -> string)
    requires forall i | 0 <= i < |findings| :: !HasFix(findings[i]) ==> block(findings[i]) == ""
    ensures Blocks(Filter(findings, HasFix), block) == Blocks(findings, block)
  {
    if findings != [] {
      var init, f := findings[..|findings| - 1], findings[|findings| - 1];
      assert findings == init + [f];
      FixlessBlocks(init, block);
      BlocksSnoc(init, f, block);
      var kept := Filter(init, HasFix);
      if HasFix(f) {
        assert Filter(findings, HasFix) == kept + [f];
        BlocksSnoc(kept, f, block);
      } else {
        assert Filter(findings, HasFix) == kept;
        assert block(f) == "";
      }
    }
  }

  /** Findings without a fix leave no trace: the script is that of the findings that have one. */
  lemma FixlessIgnored(findings: seq<Finding>)
    ensures ShellScript(Filter(findings, HasFix)) == ShellScript(findings)
  {
    FixlessBlocks(findings, FindingBlock);
  }

  /** Without fixes there are no blocks. */
  lemma {:induction false} NoFixesNoBlocks(findings: seq<Finding>, block: Finding -> string)
    requires forall i | 0 <= i < |findings| :: block(findings[i]) == ""
    ensures Blocks(findings, block) == ""
  {
    if findings != [] {
      NoFixesNoBlocks(findings[..|findings| - 1], block);
    }
  }

  /** A report none of whose findings suggests a fix yields the bare header. */
  lemma NoFixesHeaderOnly(findings: seq<Finding>)
    requires forall i | 0 <= i < |findings| :: !HasFix(findings[i])
    ensures ShellScript(findings) == ScriptHeader
  {
    NoFixesNoBlocks(findings, FindingBlock);
  }

  /** A finding with a fix adds its heading, then its command, then a blank line, after the blocks before it. */
  lemma FindingBlockShape(xs: seq<Finding>, f: Finding)
    requires HasFix(f)
    ensures Blocks(xs + [f], FindingBlock) == Blocks(xs, FindingBlock) + Heading(f) + FixCommand(f.suggestedFix) + "\n"
  {
    BlocksSnoc(xs, f, FindingBlock);
    AppendAssoc(Blocks(xs, FindingBlock), Heading(f), FixCommand(f.suggestedFix), "\n");
  }

  /** The block of a finding with a fix ends with a blank line. */
  lemma BlockEndsBlank(f: Finding)
    requires HasFix(f)
    ensures HasSuffix(FindingBlock(f), "\n\n")
  {
    var cmd := FixCommand(f.suggestedFix);
    var b := Heading(f) + cmd + "\n";
    assert b[|b| - 2] == cmd[|cmd| - 1];
    assert b[|b| - 2..] == "\n\n";
  }

  // ---------------------------------------------------------------------------------------------
  // Which case a fix takes

  /** "Add … to .env …" takes the `echo` case. */
  lemma EchoCase(fix: string)
    requires HasPrefix(fix, "Add ") && Contains(fix, "to .env")
    ensures FixCommand(fix) == EchoCommand(fix)
  {
  }

  /** "Copy …" takes the `cp` case. */
  lemma CopyCase(fix: string)
    requires HasPrefix(fix, "Copy ")
    ensures FixCommand(fix) == CopyCommand(fix)
  {
    assert fix[0] == 'C';
  }

  /** "Create …" takes the `mkdir`/`touch` case. */
  lemma CreateCase(fix: string)
    requires HasPrefix(fix, "Create ")
    ensures FixCommand(fix) == CreateCommandAsWritten(fix)
    ensures FixCommandIntended(fix) == CreateCommand(fix)
  {
    assert fix[0] == 'C' && fix[1] == 'r';
  }

  /** A fix starting with "Create directory " mentions "directory". */
  lemma DirectoryPrefixContains(fix: string)
    requires HasPrefix(fix, "Create directory ")
    ensures Contains(fix, "directory")
  {
    assert fix[7..16] == "directory";
    assert OccursAt(fix, "directory", 7);
  }

  // ---------------------------------------------------------------------------------------------
  // The two routings

  /** A "Create …" fix that mentions "directory" without starting with "Create directory ". */
  predicate Misrouted(fix: string) {
    HasPrefix(fix, "Create ") && Contains(fix, "directory") && !HasPrefix(fix, "Create directory ")
  }

  /** The reporter's routing and the intended one give the same line exactly when the fix is not misrouted. */
  lemma RoutingsAgree(fix: string)
    ensures FixCommand(fix) == FixCommandIntended(fix) <==> !Misrouted(fix)
  {
    if HasPrefix(fix, "Create ") {
      CreateCase(fix);
      if HasPrefix(fix, "Create directory ") {
        DirectoryPrefixContains(fix);
      } else if Contains(fix, "directory") {
        assert FixCommand(fix)[0] == 'm' && FixCommandIntended(fix)[0] == 't';
      }
    } else {
      assert FixCommand(fix) == FixCommandIntended(fix);
    }
  }

  /** Two block functions that agree on every finding give the same blocks. */
  lemma {:induction false} BlocksAgree(findings: seq<Finding>, b1: Finding -> string, b2: Finding -> string)
    requires forall i | 0 <= i < |findings| :: b1(findings[i]) == b2(findings[i])
    ensures Blocks(findings, b1) == Blocks(findings, b2)
  {
    if findings != [] {
      BlocksAgree(findings[..|findings| - 1], b1, b2);
    }
  }

  /** When no fix of the report is misrouted, the reporter writes the intended script. */
  lemma ScriptsAgree(findings: seq<Finding>)
    requires forall i | 0 <= i < |findings| :: HasFix(findings[i]) ==> !Misrouted(findings[i].suggestedFix)
    ensures ShellScript(findings) == ShellScriptIntended(findings)
  {
    forall i | 0 <= i < |findings|
      ensures FindingBlock(findings[i]) == FindingBlockIntended(findings[i])
    {
      if HasFix(findings[i]) {
        RoutingsAgree(findings[i].suggestedFix);
      }
    }
    BlocksAgree(findings, FindingBlock, FindingBlockIntended);
  }

  // ---------------------------------------------------------------------------------------------
  // The commands

  /** The `echo` line of "Add V to .env file" with a non-empty, space-free V. */
  lemma EchoCommandOf(v: string)
    requires v != [] && ' ' !in v
    ensures EchoCommand("Add " + v + " to .env file") == "echo '" + v + "' >> .env\n"
  {
    var rest := v + " to .env file";
    assert "Add " + v + " to .env file" == "Add" + " " + rest;
    SplitAfter("Add", " ", rest);
    assert rest[0] == v[0];
    assert TrimPrefix(rest, " ") == rest;
    assert rest[..|v|] == v;
    assert TrimSuffix(rest, " to .env file") == v;
    NotContainsMissingChar(v, " to ", 0);
    assert !HasSuffix(v, " file") by {
      if |v| >= 5 {
        assert v[|v| - 5] in v;
      }
    }
  }

  /** "Add V to .env file" with a non-empty, space-free V becomes `echo 'V' >> .env`. */
  lemma EchoFix(v: string)
    requires v != [] && ' ' !in v
    ensures FixCommand("Add " + v + " to .env file") == "echo '" + v + "' >> .env\n"
  {
    var fix := "Add " + v + " to .env file";
    assert fix == "Add " + v + " " + "to .env" + " file";
    ContainsWithin("Add " + v + " ", "to .env", " file", "to .env");
    assert fix[..4] == "Add ";
    EchoCase(fix);
    EchoCommandOf(v);
  }

  /** The fix of a required variable (REQ001) whose name has no space is turned into the `echo` line that defines it. */
  lemma RequiredVariableEcho(name: string)
    requires ' ' !in name
    ensures FixCommand("Add " + name + "=<value> to .env file") == "echo '" + name + "=<value>' >> .env\n"
  {
    var v, placeholder := name + "=<value>", "=<value>";
    assert ' ' !in v by {
      assert forall i | 0 <= i < |v| :: v[i] == if i < |name| then name[i] else placeholder[i - |name|];
    }
    assert placeholder + " to .env file" == "=<value> to .env file";
    Associative("Add ", name, placeholder);
    Associative("Add " + name, placeholder, " to .env file");
    Associative("echo '", name, placeholder);
    Associative("echo '" + name, placeholder, "' >> .env\n");
    assert placeholder + "' >> .env\n" == "=<value>' >> .env\n";
    EchoFix(v);
  }

  /** The `cp` line of "Copy X to Y" with a space-free X and no further " to ". */
  lemma CopyCommandOf(x: string, y: string)
    requires ' ' !in x && !Contains(y, " to ")
    ensures CopyCommand("Copy " + x + " to " + y) == "cp " + TrimSpace(x) + " " + TrimSpace(Before(y, " and ")) + "\n"
  {
    TrimPrefixConcat("Copy ", x + " to " + y);
    assert "Copy " + x + " to " + y == "Copy " + (x + " to " + y);
    SplitAfter(x, " to ", y);
  }

  /** "Copy X to Y" with a space-free X and no further " to " becomes `cp X Y`, Y cut at " and ". */
  lemma CopyFix(x: string, y: string)
    requires ' ' !in x && !Contains(y, " to ")
    ensures FixCommand("Copy " + x + " to " + y) == "cp " + TrimSpace(x) + " " + TrimSpace(Before(y, " and ")) + "\n"
  {
    var fix := "Copy " + x + " to " + y;
    assert fix[..5] == "Copy ";
    CopyCase(fix);
    CopyCommandOf(x, y);
  }

  /** A "Copy …" fix whose rest has no " to " cannot be parsed and is kept as a TODO. */
  lemma CopyWithoutTarget(rest: string)
    requires !Contains(rest, " to ")
    ensures FixCommand("Copy " + rest) == Todo("Copy " + rest)
  {
    var fix := "Copy " + rest;
    assert fix[..5] == "Copy ";
    CopyCase(fix);
    TrimPrefixConcat("Copy ", rest);
  }

  /** The fix that suggests creating `.env` from its example (ENV002) becomes `cp .env.example .env`. */
  lemma EnvFromExampleFix(example: string, env: string, rest: string)
    requires example == ".env.example" && env == ".env" && rest == "fill in values"
    ensures FixCommand("Copy " + example + " to " + env + " and " + rest) == "cp " + example + " " + env + "\n"
  {
    var y := env + " and " + rest;
    var p := "Copy " + example + " to ";
    Associative(p, env, " and ");
    Associative(p, env + " and ", rest);
    NotContainsMissingChar(y, " to ", 2);
    CopyFix(example, y);
    SplitAfter(env, " and ", rest);
    TrimSpaceClean(example);
    TrimSpaceClean(env);
  }

  /** "Create directory D or …" with a space-free D becomes `mkdir -p D`. */
  lemma MkdirFix(d: string, rest: string)
    requires ' ' !in d
    ensures FixCommand("Create directory " + d + " or " + rest) == "mkdir -p " + d + "\n"
  {
    var tail := d + " or " + rest;
    var fix := "Create directory " + tail;
    assert fix == "Create directory " + d + " or " + rest;
    assert fix[..17] == "Create directory ";
    assert fix[..7] == "Create ";
    CreateCase(fix);
    DirectoryPrefixContains(fix);
    TrimPrefixConcat("Create directory ", tail);
    SplitAfter(d, " or ", rest);
  }

  /** "Create F in …" with a space-free F other than "directory" does not start with "Create directory ". */
  lemma NotDirectoryPrefix(f: string, c: string, rest: string)
    requires ' ' !in f && f != "directory"
    ensures !HasPrefix("Create " + f + " in " + c + " or " + rest, "Create directory ")
  {
    var fix := "Create " + f + " in " + c + " or " + rest;
    var p := "Create directory ";
    if |fix| >= 17 {
      if |f| < 9 {
        assert fix[7 + |f|] == ' ';
        assert p[7 + |f|] != ' ';
        assert fix[..17][7 + |f|] != p[7 + |f|];
      } else if |f| == 9 {
        assert fix[..17][7..16] == f;
        assert p[7..16] == "directory";
      } else {
        assert fix[16] == f[9] && f[9] in f;
        assert fix[..17][16] != p[16];
      }
    }
  }

  /** Trimming "Create " from the sentence leaves what follows it. */
  lemma CreateRest(f: string, c: string, rest: string)
    ensures TrimPrefix("Create " + f + " in " + c + " or " + rest, "Create ") == f + " in " + c + " or " + rest
  {
    var a, x := "Create ", f + " in " + c + " or ";
    Associative(a, x, rest);
    Associative(a, f + " in " + c, " or ");
    Associative(a, f + " in ", c);
    Associative(a, f, " in ");
    TrimPrefixConcat(a, x + rest);
  }

  /** In `s + " in " + c + " or " + rest` with space-free `s` and `c`, the first " or " is the one after `c` unless `c` starts with 'o'. */
  lemma FirstOrAfter(s: string, c: string, rest: string)
    requires ' ' !in s && ' ' !in c && c != [] && c[0] != 'o'
    ensures Before(s + " in " + c + " or " + rest, " or ") == s + " in " + c
  {
    var w := s + " in " + c + " or " + rest;
    var k := |s| + 4 + |c|;
    assert w[k..k + 4] == " or ";
    forall j | 0 <= j < k
      ensures !OccursAt(w, " or ", j)
    {
      if j < |s| {
        assert w[j] == s[j] && s[j] in s;
      } else if j == |s| {
        assert w[j + 1] == 'i';
      } else if j < |s| + 3 {
        assert w[j] != ' ';
      } else if j == |s| + 3 {
        assert w[j + 1] == c[0];
      } else {
        assert w[j] == c[j - |s| - 4] && c[j - |s| - 4] in c;
      }
    }
    BeforeAt(w, " or ", k);
    assert w[..k] == s + " in " + c;
  }

  /** The `touch` line of "Create F in C or …" for space-free F other than "directory" and C. */
  lemma TouchCommandOf(f: string, c: string, rest: string)
    requires ' ' !in f && ' ' !in c && c != [] && c[0] != 'o' && f != "directory"
    ensures CreateCommand("Create " + f + " in " + c + " or " + rest) == "touch " + f + "\n"
  {
    NotDirectoryPrefix(f, c, rest);
    CreateRest(f, c, rest);
    FirstOrAfter(f, c, rest);
    SplitAfter(f, " in ", c);
  }

  /** "Create F in C or …" (a missing Dockerfile) not mentioning "directory" becomes `touch F` for space-free F and C. */
  lemma TouchFix(f: string, c: string, rest: string)
    requires ' ' !in f && ' ' !in c && c != [] && c[0] != 'o'
    requires !Contains("Create " + f + " in " + c + " or " + rest, "directory")
    ensures FixCommand("Create " + f + " in " + c + " or " + rest) == "touch " + f + "\n"
  {
    var fix := "Create " + f + " in " + c + " or " + rest;
    assert fix[..7] == "Create ";
    CreateCase(fix);
    CreateRest(f, c, rest);
    FirstOrAfter(f, c, rest);
    SplitAfter(f, " in ", c);
  }

  /** "Install …" is never turned into a command. */
  lemma InstallIsTodo(fix: string)
    requires HasPrefix(fix, "Install ")
    ensures FixCommand(fix) == Todo(fix)
  {
    assert fix[0] == 'I';
  }

  /** A fix in none of the recognised forms is kept as a TODO. */
  lemma UnrecognisedIsTodo(fix: string)
    requires !(HasPrefix(fix, "Add ") && Contains(fix, "to .env")) && !HasPrefix(fix, "Copy ") && !HasPrefix(fix, "Create ")
    ensures FixCommand(fix) == Todo(fix)
  {
  }

  // ---------------------------------------------------------------------------------------------
  // The misrouted "Create" fix

  /** In the whole fix sentence, the first " or " is the one after the context. */
  lemma FirstOrAfterWords(f: string, c: string, rest: string)
    requires ' ' !in f && ' ' !in c && c != [] && c[0] != 'o' && f != "" && f[0] != 'o'
    ensures Before("Create " + f + " in " + c + " or " + rest, " or ") == "Create " + f + " in " + c
  {
    var w := "Create " + f + " in " + c + " or " + rest;
    var k := 7 + |f| + 4 + |c|;
    assert w[k..k + 4] == " or ";
    forall j | 0 <= j < k
      ensures !OccursAt(w, " or ", j)
    {
      if j < 6 {
        assert w[j] != ' ';
      } else if j == 6 {
        assert w[j + 1] == f[0];
      } else if j < 7 + |f| {
        assert w[j] == f[j - 7] && f[j - 7] in f;
      } else if j == 7 + |f| {
        assert w[j + 1] == 'i';
      } else if j < 7 + |f| + 3 {
        assert w[j] != ' ';
      } else if j == 7 + |f| + 3 {
        assert w[j + 1] == c[0];
      } else {
        assert w[j] == c[j - |f| - 11] && c[j - |f| - 11] in c;
      }
    }
    BeforeAt(w, " or ", k);
    assert w[..k] == "Create " + f + " in " + c;
  }

  /**
   * As written, a missing-Dockerfile fix whose build context mentions "directory" takes the
   * `mkdir` branch, and the command is the whole sentence up to " or "; the intended test
   * touches the Dockerfile.
   */
  lemma CreateAsWrittenMisroutes(f: string, c: string, rest: string)
    requires ' ' !in f && ' ' !in c && c != [] && c[0] != 'o' && f != "" && f[0] != 'o' && f != "directory"
    requires Contains(c, "directory")
    ensures FixCommand("Create " + f + " in " + c + " or " + rest) == "mkdir -p " + ("Create " + f + " in " + c) + "\n"
    ensures FixCommandIntended("Create " + f + " in " + c + " or " + rest) == "touch " + f + "\n"
  {
    var fix := "Create " + f + " in " + c + " or " + rest;
    assert fix[..7] == "Create ";
    CreateCase(fix);
    ContainsWithin("Create " + f + " in ", c, " or " + rest, "directory");
    Associative("Create " + f + " in " + c, " or ", rest);
    NotDirectoryPrefix(f, c, rest);
    FirstOrAfterWords(f, c, rest);
    TouchCommandOf(f, c, rest);
  }
}
