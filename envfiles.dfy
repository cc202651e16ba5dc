/**
 * Env files: line scanning, `KEY=VALUE` parsing (internal/checker/checker.go `parseEnvFile`),
 * the standard-variable list and the set of names the found env files define.
 */
module EnvFiles {
  import opened Options
  import opened Text
  import opened FileSystem
  import opened ArtifactModel

  /** Drops one trailing carriage return, as bufio's line splitter does. */
  function DropCR(s: string): string {
    if s != [] && s[|s| - 1] == '\r' then s[..|s| - 1] else s
  }

  /**
   * The lines `bufio.Scanner` yields with its default line splitter: the text up to each newline,
   * without one trailing "\r", and a last line only when text remains after the last newline.
   */
  function ScanLines(text: string): seq<string>
    decreases |text|
  {
    if text == "" then []
    else
      match Index(text, "\n")
      case None => [DropCR(text)]
      case Some(i) => [DropCR(text[..i])] + ScanLines(text[i + 1..])
  }

  /**
   * One line of an env file: blank lines, `#` comments and lines without `=` give nothing;
   * otherwise the key before the first `=` and the value after it, both trimmed, and the value
   * stripped of every leading and trailing quote character.
   */
  function ParseLine(raw: string): Option<(string, string)> {
    var line := TrimSpace(raw);
    if line == "" || HasPrefix(line, "#") then None
    else
      match Cut(line, "=")
      case None => None
      case Some((k, v)) => Some((TrimSpace(k), TrimQuotes(TrimSpace(v))))
  }

  /** Each line's parse, in order. */
  function Parsed(lines: seq<string>): (ps: seq<Option<(string, string)>>)
    ensures |ps| == |lines|
  {
    if lines == [] then [] else Parsed(lines[..|lines| - 1]) + [ParseLine(lines[|lines| - 1])]
  }

  lemma {:induction false} ParsedAt(lines: seq<string>, i: nat)
    requires i < |lines|
    ensures Parsed(lines)[i] == ParseLine(lines[i])
  {
    if i < |lines| - 1 {
      ParsedAt(lines[..|lines| - 1], i);
    }
  }

  /** The map that results from applying the assignments in order. */
  function Apply(ps: seq<Option<(string, string)>>): map<string, string> {
    if ps == [] then map[]
    else
      var m := Apply(ps[..|ps| - 1]);
      var p := ps[|ps| - 1];
      if p.None? then m else m[p.value.0 := p.value.1]
  }

  /** The entries of a parsed env file: each line's assignment applied in order, so a repeated key keeps its last value. */
  function EnvOf(lines: seq<string>): map<string, string> {
    Apply(Parsed(lines))
  }

  /** What `parseEnvFile` returns for `path`: an unreadable file gives an empty map. */
  function EnvFileVars(ws: Workspace, path: string): map<string, string> {
    if path in ws.contents then EnvOf(ScanLines(ws.contents[path])) else map[]
  }

  /** `parseEnvFile`: the scanner loop that writes `result[key]` line by line. */
  method ParseEnvFile(ws: Workspace, path: string) returns (result: map<string, string>)
    ensures result == EnvFileVars(ws, path)
  {
    result := map[];
    if path !in ws.contents {
      return;
    }
    var lines := ScanLines(ws.contents[path]);
    for i := 0 to |lines|
      invariant result == EnvOf(lines[..i])
    {
      assert lines[..i + 1][..i] == lines[..i];
      assert Parsed(lines[..i + 1]) == Parsed(lines[..i]) + [ParseLine(lines[i])];
      var line := TrimSpace(lines[i]);
      if line == "" || HasPrefix(line, "#") {
        continue;
      }
      var parts := Cut(line, "=");
      if parts.Some? {
        var key := TrimSpace(parts.value.0);
        var value := TrimSpace(parts.value.1);
        value := TrimQuotes(value);
        result := result[key := value];
      }
    }
    assert lines[..|lines|] == lines;
  }

  /** A line yields an assignment exactly when, trimmed, it is non-empty, not a comment, and contains `=`; the key is trimmed and holds no `=`, the value neither starts nor ends with a quote. */
  lemma ParseLineMeaning(raw: string)
    ensures ParseLine(raw).Some? <==>
              (TrimSpace(raw) != "" && TrimSpace(raw)[0] != '#' && Contains(TrimSpace(raw), "="))
    ensures ParseLine(raw).Some? ==>
              var (k, v) := ParseLine(raw).value;
              && (forall i | 0 <= i < |k| :: k[i] != '=')
              && (k == [] || (!IsSpace(k[0]) && !IsSpace(k[|k| - 1])))
              && (v == [] || (!IsQuote(v[0]) && !IsQuote(v[|v| - 1])))
  {
    var line := TrimSpace(raw);
    if line != "" && !HasPrefix(line, "#") && Contains(line, "=") {
      KeyHasNoEquals(line);
    }
  }

  /** The trimmed text before the first `=` holds no `=`. */
  lemma KeyHasNoEquals(line: string)
    requires Contains(line, "=")
    ensures var k := TrimSpace(Cut(line, "=").value.0);
      forall i | 0 <= i < |k| :: k[i] != '='
  {
    var k0 := Cut(line, "=").value.0;
    TrimWhereSlice(k0, IsSpace);
    var k := TrimSpace(k0);
    forall i | 0 <= i < |k|
      ensures k[i] != '='
    {
      var s := Span(k0, IsSpace);
      assert k[i] == k0[s + i];
      assert !OccursAt(line, "=", s + i);
      assert line[s + i..s + i + 1] == [k0[s + i]];
    }
  }

  lemma {:induction false} ApplyKeys(ps: seq<Option<(string, string)>>, key: string)
    ensures key in Apply(ps) <==> exists i | 0 <= i < |ps| :: ps[i].Some? && ps[i].value.0 == key
  {
    if ps != [] {
      var init := ps[..|ps| - 1];
      ApplyKeys(init, key);
      assert forall i | 0 <= i < |init| :: init[i] == ps[i];
    }
  }

  lemma {:induction false} ApplyLastWins(ps: seq<Option<(string, string)>>, i: nat)
    requires i < |ps| && ps[i].Some?
    requires forall j | i < j < |ps| :: ps[j].None? || ps[j].value.0 != ps[i].value.0
    ensures ps[i].value.0 in Apply(ps) && Apply(ps)[ps[i].value.0] == ps[i].value.1
  {
    if i < |ps| - 1 {
      var init := ps[..|ps| - 1];
      assert init[i] == ps[i];
      ApplyLastWins(init, i);
    }
  }

  /** A key is defined exactly when some line assigns it. */
  lemma EnvOfKeys(lines: seq<string>, key: string)
    ensures key in EnvOf(lines) <==>
              exists i | 0 <= i < |lines| :: ParseLine(lines[i]).Some? && ParseLine(lines[i]).value.0 == key
  {
    var ps := Parsed(lines);
    ApplyKeys(ps, key);
    forall i | 0 <= i < |lines|
      ensures ps[i] == ParseLine(lines[i])
    {
      ParsedAt(lines, i);
    }
  }

  /** The value of a key is the value of the last line that assigns it. */
  lemma EnvOfLastWins(lines: seq<string>, i: nat)
    requires i < |lines| && ParseLine(lines[i]).Some?
    requires forall j | i < j < |lines| :: ParseLine(lines[j]).None? || ParseLine(lines[j]).value.0 != ParseLine(lines[i]).value.0
    ensures ParseLine(lines[i]).value.0 in EnvOf(lines)
    ensures EnvOf(lines)[ParseLine(lines[i]).value.0] == ParseLine(lines[i]).value.1
  {
    var ps := Parsed(lines);
    forall j | i <= j < |lines|
      ensures ps[j] == ParseLine(lines[j])
    {
      ParsedAt(lines, j);
    }
    ApplyLastWins(ps, i);
  }

  /** A key that the parser gives back unchanged: non-empty, no `=`, not a comment, no surrounding white space. */
  predicate PlainKey(k: string) {
    && k != [] && k[0] != '#' && !IsSpace(k[0]) && !IsSpace(k[|k| - 1])
    && forall i | 0 <= i < |k| :: k[i] != '='
  }

  /** A value that the parser gives back unchanged: no surrounding white space or quote characters. */
  predicate PlainValue(v: string) {
    v == [] || (!IsSpace(v[0]) && !IsSpace(v[|v| - 1]) && !IsQuote(v[0]) && !IsQuote(v[|v| - 1]))
  }

  lemma TrimNothing(s: string, cut: char -> bool)
    requires s == [] || (!cut(s[0]) && !cut(s[|s| - 1]))
    ensures TrimWhere(s, cut) == s
  {
  }

  /** The first `=` of `k + "=" + v` is the one after `k` when `k` holds none. */
  lemma CutAfterKey(k: string, v: string)
    requires forall i | 0 <= i < |k| :: k[i] != '='
    ensures Cut(k + "=" + v, "=") == Some((k, v))
  {
    var line := k + "=" + v;
    assert OccursAt(line, "=", |k|);
    var r := Index(line, "=");
    assert r.Some?;
    if r.value < |k| {
      assert line[r.value..r.value + 1] == "=";
      assert line[r.value] == k[r.value];
    }
    assert line[..|k|] == k;
    assert line[|k| + 1..] == v;
  }

  /** Round trip: the line `KEY=VALUE` parses back to the pair. */
  lemma ParseRendered(k: string, v: string)
    requires PlainKey(k) && PlainValue(v)
    ensures ParseLine(k + "=" + v) == Some((k, v))
  {
    var line := k + "=" + v;
    TrimNothing(line, IsSpace);
    CutAfterKey(k, v);
    TrimNothing(k, IsSpace);
    TrimNothing(v, IsSpace);
    TrimNothing(v, IsQuote);
  }

  /** Stripping the quotes of `"VALUE"` gives `VALUE` back. */
  lemma Unquote(v: string)
    requires PlainValue(v)
    ensures TrimQuotes("\"" + v + "\"") == v
  {
    var q := "\"" + v + "\"";
    assert q[1..] == v + "\"";
    assert TrimLeftWhere(q, IsQuote) == TrimLeftWhere(v + "\"", IsQuote);
    if v == [] {
      assert (v + "\"")[1..] == [];
    } else {
      assert TrimLeftWhere(v + "\"", IsQuote) == v + "\"";
      assert (v + "\"")[..|v|] == v;
      assert TrimRightWhere(v + "\"", IsQuote) == TrimRightWhere(v, IsQuote);
    }
  }

  /** Round trip with a double-quoted value: `KEY="VALUE"` parses back to the pair without the quotes. */
  lemma ParseQuoted(k: string, v: string)
    requires PlainKey(k) && PlainValue(v)
    ensures ParseLine(k + "=" + "\"" + v + "\"") == Some((k, v))
  {
    var q := "\"" + v + "\"";
    var line := k + "=" + q;
    assert line == k + "=" + "\"" + v + "\"";
    TrimNothing(line, IsSpace);
    CutAfterKey(k, q);
    TrimNothing(k, IsSpace);
    TrimNothing(q, IsSpace);
    Unquote(v);
  }

  lemma ParsedAll(lines: seq<string>, ps: seq<Option<(string, string)>>)
    requires |ps| == |lines| && forall i | 0 <= i < |lines| :: ps[i] == ParseLine(lines[i])
    ensures Parsed(lines) == ps
  {
    forall i | 0 <= i < |lines|
      ensures Parsed(lines)[i] == ps[i]
    {
      ParsedAt(lines, i);
    }
  }

  /** A line whose first character is `#` and whose last is not white space is a comment. */
  lemma CommentLine(line: string)
    requires line != [] && line[0] == '#' && !IsSpace(line[|line| - 1])
    ensures ParseLine(line) == None
  {
    TrimNothing(line, IsSpace);
  }

  lemma ParsedFour(lines: seq<string>, comment: string, k1: string, v1: string, k2: string, v2: string)
    requires comment != [] && comment[0] == '#' && !IsSpace(comment[|comment| - 1])
    requires PlainKey(k1) && PlainValue(v1) && PlainKey(k2) && PlainValue(v2)
    requires lines == [comment, k1 + "=" + v1, "", k2 + "=" + "\"" + v2 + "\""]
    ensures Parsed(lines) == [None, Some((k1, v1)), None, Some((k2, v2))]
  {
    CommentLine(comment);
    ParseRendered(k1, v1);
    ParseQuoted(k2, v2);
    assert ParseLine("") == None;
    ParsedFourLines(comment, k1 + "=" + v1, "", k2 + "=" + "\"" + v2 + "\"");
  }

  /** Four lines parse one by one. */
  lemma ParsedFourLines(a: string, b: string, c: string, d: string)
    ensures Parsed([a, b, c, d]) == [ParseLine(a), ParseLine(b), ParseLine(c), ParseLine(d)]
  {
    var lines := [a, b, c, d];
    ParsedAll(lines, [ParseLine(a), ParseLine(b), ParseLine(c), ParseLine(d)]);
  }

  lemma ApplyFour(ps: seq<Option<(string, string)>>, k1: string, v1: string, k2: string, v2: string)
    requires ps == [None, Some((k1, v1)), None, Some((k2, v2))]
    ensures Apply(ps) == map[k1 := v1, k2 := v2]
  {
    assert ps[..3][..2][..1][..0] == [];
    assert ps[..3][..2][..1] == [None];
    assert Apply(ps[..3][..2][..1]) == map[];
    assert ps[..3][..2] == ps[..2];
    assert Apply(ps[..3][..2]) == map[k1 := v1];
    assert Apply(ps[..3]) == map[k1 := v1];
  }

  /** A comment, an assignment, a blank line and a quoted assignment give exactly the two pairs. */
  lemma CommentBlankAndQuoted(lines: seq<string>, comment: string, k1: string, v1: string, k2: string, v2: string)
    requires comment != [] && comment[0] == '#' && !IsSpace(comment[|comment| - 1])
    requires PlainKey(k1) && PlainValue(v1) && PlainKey(k2) && PlainValue(v2)
    requires lines == [comment, k1 + "=" + v1, "", k2 + "=" + "\"" + v2 + "\""]
    ensures EnvOf(lines) == map[k1 := v1, k2 := v2]
  {
    ParsedFour(lines, comment, k1, v1, k2, v2);
    ApplyFour(Parsed(lines), k1, v1, k2, v2);
  }

  /** The basic test fixture: DATABASE_HOST=localhost and API_KEY=test-key. */
  lemma BasicFixture(lines: seq<string>)
    requires lines == ["# Database", "DATABASE_HOST" + "=" + "localhost", "", "API_KEY" + "=" + "\"" + "test-key" + "\""]
    ensures EnvOf(lines) == map["DATABASE_HOST" := "localhost", "API_KEY" := "test-key"]
  {
    CommentBlankAndQuoted(lines, "# Database", "DATABASE_HOST", "localhost", "API_KEY", "test-key");
  }

  /** The nine names `isStandardVar` treats as always defined. */
  const StandardVars: set<string> := {"HOME", "USER", "PATH", "PWD", "SHELL", "TERM", "HOSTNAME", "UID", "GID"}

  predicate IsStandardVar(name: string) {
    name in StandardVars
  }

  /** The cases of the standard-variable test. */
  lemma StandardVarExamples()
    ensures IsStandardVar("HOME") && IsStandardVar("PATH")
    ensures !IsStandardVar("CUSTOM_VAR") && !IsStandardVar("DATABASE_URL")
  {
  }

  /** A referenced name is reported when no found env file defines it and it is not a standard variable. */
  predicate Reportable(name: string, defined: set<string>) {
    name !in defined && !IsStandardVar(name)
  }

  /** The union of `keys(path)` over the found artifacts among `artifacts`. */
  function FoundUnion(artifacts: seq<Artifact>, keys: string -> set<string>): set<string> {
    if artifacts == [] then {}
    else
      var e := artifacts[|artifacts| - 1];
      FoundUnion(artifacts[..|artifacts| - 1], keys) + (if e.found then keys(e.path) else {})
  }

  lemma {:induction false} FoundUnionMeaning(artifacts: seq<Artifact>, keys: string -> set<string>, name: string)
    ensures name in FoundUnion(artifacts, keys) <==>
              exists i | 0 <= i < |artifacts| :: artifacts[i].found && name in keys(artifacts[i].path)
  {
    if artifacts != [] {
      var init := artifacts[..|artifacts| - 1];
      FoundUnionMeaning(init, keys, name);
      assert forall i | 0 <= i < |init| :: init[i] == artifacts[i];
    }
  }

  /** The names defined by the found env files among `envFiles`. */
  function DefinedNames(ws: Workspace, envFiles: seq<Artifact>): set<string> {
    FoundUnion(envFiles, path => EnvFileVars(ws, path).Keys)
  }

  /** A name is defined exactly when some found env file assigns it; files not marked found are never read. */
  lemma DefinedNamesMeaning(ws: Workspace, envFiles: seq<Artifact>, name: string)
    ensures name in DefinedNames(ws, envFiles) <==>
              exists i | 0 <= i < |envFiles| :: envFiles[i].found && name in EnvFileVars(ws, envFiles[i].path)
  {
    FoundUnionMeaning(envFiles, path => EnvFileVars(ws, path).Keys, name);
  }

  /** The `definedVars` loop each check starts with: every key of every found env file. */
  method CollectDefinedVars(ws: Workspace, envFiles: seq<Artifact>) returns (defined: set<string>)
    ensures defined == DefinedNames(ws, envFiles)
  {
    defined := {};
    for i := 0 to |envFiles|
      invariant defined == FoundUnion(envFiles[..i], path => EnvFileVars(ws, path).Keys)
    {
      assert envFiles[..i + 1][..i] == envFiles[..i];
      if envFiles[i].found {
        var vars := ParseEnvFile(ws, envFiles[i].path);
        defined := defined + vars.Keys;
      }
    }
    assert envFiles[..|envFiles|] == envFiles;
  }
}
