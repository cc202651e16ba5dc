/** Tool version requirements: parsing, comparison and the per-tool check (internal/tools/tools.go). */
module Tools {
  import opened Options
  import opened Text
  import opened Seqs

  /** What probing a tool found; probing itself is not part of this model, its results are an input. */
  datatype ToolInfo = ToolInfo(name: string, version: string, path: string, available: bool, error: string)

  datatype VersionCheck = VersionCheck(tool: string, current: string, required: string, satisfied: bool, available: bool, error: string)

  /** The value of one dot-separated piece: non-digits trimmed from both ends, then `Atoi` (0 on failure). */
  function SegmentValue(piece: string): (n: int)
    ensures 0 <= n <= MaxInt
    ensures var t := TrimWhere(piece, IsNonDigit); (t == [] || exists i | 0 <= i < |t| :: !IsDigit(t[i])) ==> n == 0
  {
    Atoi(TrimWhere(piece, IsNonDigit))
  }

  /** The dot-separated pieces of a version after one leading "v" is dropped. */
  function Pieces(v: string): (parts: seq<string>)
    ensures |parts| >= 1
  {
    Split(TrimPrefix(v, "v"), ".")
  }

  /** The numeric segments `parseVersion` returns: one per piece, so never empty. */
  function Segments(v: string): seq<int> {
    Values(Pieces(v))
  }

  /** The value of each piece, in order. */
  function Values(parts: seq<string>): (segs: seq<int>)
    ensures |segs| == |parts|
  {
    if parts == [] then [] else Values(parts[..|parts| - 1]) + [SegmentValue(parts[|parts| - 1])]
  }

  /** `parseVersion`. */
  method ParseVersion(v: string) returns (result: seq<int>)
    ensures result == Segments(v)
  {
    var stripped := TrimPrefix(v, "v");
    var parts := Split(stripped, ".");
    result := [];
    for i := 0 to |parts|
      invariant result == Values(parts[..i])
    {
      assert parts[..i + 1][..i] == parts[..i];
      var numStr := TrimWhere(parts[i], IsNonDigit);
      var n := Atoi(numStr);
      result := result + [n];
    }
    assert parts[..|parts|] == parts;
  }

  /** Segment `i`, or 0 when the version has fewer segments. */
  function SegmentAt(segs: seq<int>, i: nat): int {
    if i < |segs| then segs[i] else 0
  }

  /** The first three segments, missing ones as 0; everything after the third is ignored. */
  function Triple(segs: seq<int>): (int, int, int) {
    (SegmentAt(segs, 0), SegmentAt(segs, 1), SegmentAt(segs, 2))
  }

  /** Lexicographic order on triples. */
  predicate TripleLess(a: (int, int, int), b: (int, int, int)) {
    a.0 < b.0 || (a.0 == b.0 && (a.1 < b.1 || (a.1 == b.1 && a.2 < b.2)))
  }

  /** Comparison of two segment lists, as a lexicographic comparison of their triples. */
  function Compare3(a: seq<int>, b: seq<int>): (r: int)
    ensures r == -1 || r == 0 || r == 1
    ensures r == -1 <==> TripleLess(Triple(a), Triple(b))
    ensures r == 0 <==> Triple(a) == Triple(b)
    ensures r == 1 <==> TripleLess(Triple(b), Triple(a))
  {
    if TripleLess(Triple(a), Triple(b)) then -1
    else if Triple(a) == Triple(b) then 0
    else 1
  }

  /** The comparison `CompareVersions` computes. */
  function VersionOrder(v1: string, v2: string): int {
    Compare3(Segments(v1), Segments(v2))
  }

  /** `CompareVersions`: segment by segment over the first three, returning at the first difference. */
  method CompareVersions(v1: string, v2: string) returns (r: int)
    ensures r == VersionOrder(v1, v2)
  {
    var parts1 := ParseVersion(v1);
    var parts2 := ParseVersion(v2);
    r := CompareSegments(parts1, parts2);
  }

  /** The loop of `CompareVersions`, over already-parsed segments. */
  method CompareSegments(parts1: seq<int>, parts2: seq<int>) returns (r: int)
    ensures r == Compare3(parts1, parts2)
  {
    for i := 0 to 3
      invariant forall j | 0 <= j < i :: SegmentAt(parts1, j) == SegmentAt(parts2, j)
    {
      var p1, p2 := 0, 0;
      if i < |parts1| {
        p1 := parts1[i];
      }
      if i < |parts2| {
        p2 := parts2[i];
      }
      if p1 < p2 {
        return -1;
      }
      if p1 > p2 {
        return 1;
      }
    }
    return 0;
  }

  /** `CompareVersions` returns only -1, 0 or 1. */
  lemma OrderValues(a: string, b: string)
    ensures VersionOrder(a, b) in {-1, 0, 1}
  {
  }

  lemma OrderReflexive(v: string)
    ensures VersionOrder(v, v) == 0
  {
  }

  lemma OrderAntisymmetric(a: string, b: string)
    ensures VersionOrder(a, b) == -VersionOrder(b, a)
  {
  }

  /** Both the strict and the non-strict order are transitive. */
  lemma OrderTransitive(a: string, b: string, c: string)
    ensures VersionOrder(a, b) <= 0 && VersionOrder(b, c) <= 0 ==> VersionOrder(a, c) <= 0
    ensures VersionOrder(a, b) < 0 && VersionOrder(b, c) < 0 ==> VersionOrder(a, c) < 0
  {
    Compare3Transitive(Segments(a), Segments(b), Segments(c));
  }

  lemma Compare3Transitive(a: seq<int>, b: seq<int>, c: seq<int>)
    ensures Compare3(a, b) <= 0 && Compare3(b, c) <= 0 ==> Compare3(a, c) <= 0
    ensures Compare3(a, b) < 0 && Compare3(b, c) < 0 ==> Compare3(a, c) < 0
  {
  }

  /** Appending a dot and a piece without dots to a version appends that piece to its pieces. */
  lemma PiecesAppend(v: string, x: string)
    requires !Contains(x, ".")
    ensures Pieces(v + "." + x) == Pieces(v) + [x]
  {
    var w := v + "." + x;
    if HasPrefix(v, "v") {
      assert HasPrefix(w, "v");
      assert TrimPrefix(w, "v") == TrimPrefix(v, "v") + "." + x;
    } else {
      assert !HasPrefix(w, "v") by {
        if v == [] {
          assert w[0] == '.';
        } else {
          assert w[0] == v[0];
        }
      }
    }
    SplitAppend(TrimPrefix(v, "v"), ".", x);
  }

  /** Appending a dot-separated piece to a version appends its value to the segments. */
  lemma AppendSegment(v: string, x: string)
    requires !Contains(x, ".")
    ensures Segments(v + "." + x) == Segments(v) + [SegmentValue(x)]
  {
    PiecesAppend(v, x);
    var parts := Pieces(v);
    assert (parts + [x])[..|parts|] == parts;
  }

  /** A digit string is its own trimmed piece and contains no dot. */
  lemma DigitsPiece(p: string)
    requires p != [] && AllDigits(p) && DecimalValue(p) <= MaxInt
    ensures SegmentValue(p) == DecimalValue(p)
    ensures !Contains(p, ".")
  {
    assert TrimLeftWhere(p, IsNonDigit) == p;
    assert TrimRightWhere(p, IsNonDigit) == p;
  }

  /** A missing segment counts as 0: "1.2" and "1.2.0" are the same version (for every version). */
  lemma TrailingZeroEqual(v: string)
    ensures VersionOrder(v, v + "." + "0") == 0
  {
    ZeroValue();
    AppendSegment(v, "0");
    ZeroSegmentEqual(Segments(v), Segments(v + "." + "0"));
  }

  lemma ZeroValue()
    ensures SegmentValue("0") == 0 && !Contains("0", ".")
  {
    assert DecimalValue("0") == 0;
    DigitsPiece("0");
  }

  lemma ZeroSegmentEqual(segs: seq<int>, longer: seq<int>)
    requires longer == segs + [0]
    ensures Compare3(segs, longer) == 0
  {
    assert Triple(segs) == Triple(longer);
  }

  lemma ExtraSegmentEqual(segs: seq<int>, y: int)
    requires |segs| >= 3
    ensures Compare3(segs + [y], segs) == 0
  {
    assert Triple(segs) == Triple(segs + [y]);
  }

  /** Segments after the third are ignored: a version with three segments equals itself with any piece appended. */
  lemma FourthSegmentIgnored(v: string, x: string)
    requires |Segments(v)| >= 3 && !Contains(x, ".")
    ensures VersionOrder(v + "." + x, v) == 0
  {
    AppendSegment(v, x);
    ExtraSegmentEqual(Segments(v), SegmentValue(x));
  }

  /** A version that is one digit string (not starting with "v") has that number as its only segment. */
  lemma OneDigitPiece(x: string)
    requires x != [] && AllDigits(x) && DecimalValue(x) <= MaxInt
    ensures Segments(x) == [DecimalValue(x)]
  {
    DigitsPiece(x);
    assert !HasPrefix(x, "v") by {
      assert IsDigit(x[0]);
    }
    assert Pieces(x) == [x] by {
      assert TrimPrefix(x, "v") == x;
      assert Index(x, ".") == None;
    }
    assert Values([x]) == [SegmentValue(x)];
  }

  /** Appending a dot and a digit string appends its number to the segments. */
  lemma AppendDigitPiece(v: string, y: string, segs: seq<int>)
    requires Segments(v) == segs
    requires y != [] && AllDigits(y) && DecimalValue(y) <= MaxInt
    ensures Segments(v + "." + y) == segs + [DecimalValue(y)]
  {
    DigitsPiece(y);
    AppendSegment(v, y);
  }

  /** The segments of a three-piece version whose pieces are digit strings. */
  lemma ThreeDigitPieces(x: string, y: string, z: string, v: string)
    requires x != [] && AllDigits(x) && DecimalValue(x) <= MaxInt
    requires y != [] && AllDigits(y) && DecimalValue(y) <= MaxInt
    requires z != [] && AllDigits(z) && DecimalValue(z) <= MaxInt
    requires v == x + "." + y + "." + z
    ensures Segments(v) == [DecimalValue(x), DecimalValue(y), DecimalValue(z)]
  {
    OneDigitPiece(x);
    AppendDigitPiece(x, y, [DecimalValue(x)]);
    AppendDigitPiece(x + "." + y, z, [DecimalValue(x), DecimalValue(y)]);
  }

  lemma Segments20100()
    ensures Segments("20.10.0") == [20, 10, 0]
  {
    assert DecimalValue("20"[..1]) == 2;
    assert DecimalValue("10"[..1]) == 1;
    assert DecimalValue("20") == 20 && DecimalValue("10") == 10 && DecimalValue("0") == 0;
    assert "20.10.0" == "20" + "." + "10" + "." + "0";
    ThreeDigitPieces("20", "10", "0", "20.10.0");
  }

  lemma Segments2099()
    ensures Segments("20.9.9") == [20, 9, 9]
  {
    assert DecimalValue("20"[..1]) == 2;
    assert DecimalValue("20") == 20 && DecimalValue("9") == 9;
    assert "20.9.9" == "20" + "." + "9" + "." + "9";
    ThreeDigitPieces("20", "9", "9", "20.9.9");
  }

  /** Segments compare as numbers, not as text: "20.10.0" is newer than "20.9.9". */
  lemma NumericNotTextual()
    ensures VersionOrder("20.10.0", "20.9.9") == 1
  {
    Segments20100();
    Segments2099();
    assert Compare3([20, 10, 0], [20, 9, 9]) == 1;
  }

  /** The check for one named tool with a non-empty minimum. */
  function CheckTool(tool: string, minVersion: string, tools: map<string, ToolInfo>): (c: VersionCheck)
    ensures c.tool == tool && c.required == minVersion
  {
    if tool !in tools || !tools[tool].available then
      VersionCheck(tool, "", minVersion, false, false,
                   if tool in tools && tools[tool].error != "" then tools[tool].error else "tool not found")
    else
      VersionCheck(tool, tools[tool].version, minVersion, VersionOrder(tools[tool].version, minVersion) >= 0, true, "")
  }

  /**
   * An absent or unavailable tool is neither available nor satisfied and carries the probe's error or "tool not found";
   * otherwise the check reports the installed version and is satisfied exactly when it compares at or above the minimum.
   */
  lemma CheckToolMeaning(tool: string, minVersion: string, tools: map<string, ToolInfo>)
    ensures var c := CheckTool(tool, minVersion, tools);
      && (c.available <==> tool in tools && tools[tool].available)
      && (!c.available ==> (!c.satisfied
            && c.error == (if tool in tools && tools[tool].error != "" then tools[tool].error else "tool not found")))
      && (c.available ==> (c.current == tools[tool].version
            && (c.satisfied <==> VersionOrder(tools[tool].version, minVersion) >= 0)))
  {
  }

  /** The checks for the requirement keys visited in `order`, skipping empty minimums. */
  function Checks(order: seq<string>, requirements: map<string, string>, tools: map<string, ToolInfo>): seq<VersionCheck> {
    if order == [] then []
    else
      var k := order[|order| - 1];
      Checks(order[..|order| - 1], requirements, tools)
      + (if k !in requirements || requirements[k] == "" then [] else [CheckTool(k, requirements[k], tools)])
  }

  /**
   * `CheckVersions` with the probed tools as a parameter. The Go map is visited in an order the runtime chooses;
   * `order` records the one this run used.
   */
  method CheckVersions(requirements: map<string, string>, tools: map<string, ToolInfo>)
    returns (results: seq<VersionCheck>, ghost order: seq<string>)
    ensures Enumerates(order, requirements.Keys)
    ensures results == Checks(order, requirements, tools)
  {
    results := [];
    order := [];
    var pending := requirements.Keys;
    while pending != {}
      invariant pending !! (set k | k in order)
      invariant forall k | k in order :: k in requirements
      invariant forall i, j | 0 <= i < j < |order| :: order[i] != order[j]
      invariant forall k | k in requirements :: k in pending || k in order
      invariant pending <= requirements.Keys
      invariant results == Checks(order, requirements, tools)
      decreases pending
    {
      var tool :| tool in pending;
      var minVersion := requirements[tool];
      ghost var visited := order;
      order := order + [tool];
      pending := pending - {tool};
      assert order[..|order| - 1] == visited;
      if minVersion == "" {
        continue;
      }
      var check := VersionCheck(tool, "", minVersion, false, false, "");
      if tool !in tools || !tools[tool].available {
        check := check.(available := false, satisfied := false);
        if tool in tools && tools[tool].error != "" {
          check := check.(error := tools[tool].error);
        } else {
          check := check.(error := "tool not found");
        }
        results := results + [check];
        continue;
      }
      var info := tools[tool];
      var cmp := CompareVersions(info.version, minVersion);
      check := check.(available := true, current := info.version, satisfied := cmp >= 0);
      results := results + [check];
    }
  }

  /** Every result belongs to a requirement with a non-empty minimum. */
  lemma {:induction false} ChecksFromRequirements(order: seq<string>, requirements: map<string, string>, tools: map<string, ToolInfo>, c: VersionCheck)
    requires forall k | k in order :: k in requirements
    requires c in Checks(order, requirements, tools)
    ensures c.tool in order && c.tool in requirements && requirements[c.tool] != ""
    ensures c == CheckTool(c.tool, requirements[c.tool], tools)
  {
    if order != [] {
      var init := order[..|order| - 1];
      assert forall k | k in init :: k in order;
      var prev := Checks(init, requirements, tools);
      if c in prev {
        ChecksFromRequirements(init, requirements, tools, c);
      }
    }
  }

  /** Every requirement with a non-empty minimum, visited once, gets exactly one result. */
  lemma {:induction false} ChecksCount(order: seq<string>, requirements: map<string, string>, tools: map<string, ToolInfo>, tool: string)
    requires forall k | k in order :: k in requirements
    ensures Count(ToolNames(Checks(order, requirements, tools)), tool)
            == (if tool in requirements && requirements[tool] != "" then Count(order, tool) else 0)
  {
    if order != [] {
      var init, k := order[..|order| - 1], order[|order| - 1];
      assert forall j | j in init :: j in order;
      ChecksCount(init, requirements, tools, tool);
      ChecksLast(order, requirements, tools, tool);
    }
  }

  /** The last visited key adds one result, named after it, exactly when its minimum is non-empty. */
  lemma ChecksLast(order: seq<string>, requirements: map<string, string>, tools: map<string, ToolInfo>, tool: string)
    requires order != [] && forall k | k in order :: k in requirements
    ensures var init, k := order[..|order| - 1], order[|order| - 1];
      Count(ToolNames(Checks(order, requirements, tools)), tool)
      == Count(ToolNames(Checks(init, requirements, tools)), tool) + (if requirements[k] != "" && k == tool then 1 else 0)
  {
    var init, k := order[..|order| - 1], order[|order| - 1];
    var prev := Checks(init, requirements, tools);
    if requirements[k] != "" {
      var c := CheckTool(k, requirements[k], tools);
      assert Checks(order, requirements, tools) == prev + [c];
      assert (prev + [c])[..|prev|] == prev;
      assert ToolNames(prev + [c]) == ToolNames(prev) + [k];
      CountSnoc(ToolNames(prev), k, tool);
    } else {
      assert Checks(order, requirements, tools) == prev;
    }
  }

  /** The tool named by each check, in order. */
  function ToolNames(checks: seq<VersionCheck>): (names: seq<string>)
    ensures |names| == |checks|
  {
    if checks == [] then [] else ToolNames(checks[..|checks| - 1]) + [checks[|checks| - 1].tool]
  }

  /** A distinct enumeration visits every key once, so it counts one. */
  lemma {:induction false} DistinctCount(order: seq<string>, x: string)
    requires forall i, j | 0 <= i < j < |order| :: order[i] != order[j]
    ensures Count(order, x) == (if x in order then 1 else 0)
  {
    if order != [] {
      var init := order[..|order| - 1];
      DistinctCount(init, x);
      if order[|order| - 1] == x {
        assert x !in init;
        CountZero(init, x);
      } else {
        assert x in order ==> x in init;
      }
    }
  }

  /** `CheckVersions` reports each tool with a non-empty minimum exactly once, and no other tool, whatever the map order. */
  lemma CheckVersionsOnePerTool(order: seq<string>, requirements: map<string, string>, tools: map<string, ToolInfo>, tool: string)
    requires Enumerates(order, requirements.Keys)
    ensures Count(ToolNames(Checks(order, requirements, tools)), tool)
            == (if tool in requirements && requirements[tool] != "" then 1 else 0)
  {
    ChecksCount(order, requirements, tools, tool);
    DistinctCount(order, tool);
  }
}
