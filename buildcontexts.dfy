/**
 * `checkBuildContexts`: for every service with a non-empty build context, BUILD001 when the
 * Dockerfile is not there and BUILD002 when the context directory is not there.
 */
module BuildContexts {
  import opened Options
  import opened Seqs
  import opened FileSystem
  import opened ArtifactModel
  import opened FindingModel
  import opened Compose

  /** The context and Dockerfile a `build` value names; the Dockerfile defaults to "Dockerfile", the context to "". */
  function BuildTarget(build: BuildSpec): (string, string) {
    match build
    case BuildString(path) => (path, "Dockerfile")
    case BuildObject(context, dockerfile) =>
      (if context.Some? then context.value else "", if dockerfile.Some? then dockerfile.value else "Dockerfile")
    case _ => ("", "Dockerfile")
  }

  function Build001(svcName: string, context: string, dockerfile: string, path: string): Finding {
    Finding(
      "BUILD001", Blocking,
      "Dockerfile not found for service " + svcName,
      "Service " + svcName + " expects " + dockerfile + " at " + JoinPath(context, dockerfile) + " but it doesn't exist",
      [SourceLocation(path, 0, 0)],
      "Create " + dockerfile + " in " + context + " or update build.context")
  }

  function Build002(svcName: string, context: string, path: string): Finding {
    Finding(
      "BUILD002", Blocking,
      "Build context directory not found for service " + svcName,
      "Service " + svcName + " references build context " + context + " which doesn't exist",
      [SourceLocation(path, 0, 0)],
      "Create directory " + context + " or update build.context")
  }

  /** The findings for a service named `svcName` with the given `build` value, in the compose file at `path`. */
  function BuildChecks(ws: Workspace, svcName: string, build: BuildSpec, path: string): seq<Finding> {
    var (context, dockerfile) := BuildTarget(build);
    if context == "" then []
    else
      (if NotExist(ws, JoinPath(context, dockerfile)) then [Build001(svcName, context, dockerfile, path)] else [])
      + (if NotExist(ws, context) then [Build002(svcName, context, path)] else [])
  }

  /** The findings for one service of the compose file at `path`. */
  function ServiceBuildFindings(ws: Workspace, services: map<string, Service>, svcName: string, path: string): seq<Finding> {
    if svcName in services then BuildChecks(ws, svcName, services[svcName].build, path) else []
  }

  /** The findings for a decoded file whose services are visited in `order`. */
  function ServicesBuildFindings(ws: Workspace, services: map<string, Service>, order: seq<string>, path: string): seq<Finding> {
    Flatten(order, s => ServiceBuildFindings(ws, services, s, path))
  }

  /** The findings for the compose files, file `c`'s services visited in `orders[c]`. */
  function BuildFindings(ws: Workspace, composeFiles: seq<Artifact>, orders: seq<seq<string>>): seq<Finding>
    requires |orders| == |composeFiles|
  {
    if composeFiles == [] then []
    else
      var n := |composeFiles| - 1;
      BuildFindings(ws, composeFiles[..n], orders[..n]) + ServicesBuildFindings(ws, Decoded(ws, composeFiles[n]), orders[n], composeFiles[n].path)
  }

  /** One more compose file adds the findings of its services. */
  lemma BuildFindingsSnoc(ws: Workspace, composeFiles: seq<Artifact>, orders: seq<seq<string>>, c: Artifact, order: seq<string>)
    requires |orders| == |composeFiles|
    ensures BuildFindings(ws, composeFiles + [c], orders + [order])
            == BuildFindings(ws, composeFiles, orders) + ServicesBuildFindings(ws, Decoded(ws, c), order, c.path)
  {
    assert (composeFiles + [c])[..|composeFiles|] == composeFiles;
    assert (orders + [order])[..|orders|] == orders;
  }

  /** The body of the service loop: the two `os.Stat` tests, Dockerfile first. */
  method CheckServiceBuild(ws: Workspace, svcName: string, svc: Service, path: string) returns (findings: seq<Finding>)
    ensures findings == BuildChecks(ws, svcName, svc.build, path)
  {
    findings := [];
    if svc.build.NoBuild? {
      return;
    }
    var context := "";
    var dockerfile := "Dockerfile";
    match svc.build {
      case BuildString(p) =>
        context := p;
      case BuildObject(c, df) =>
        if c.Some? {
          context := c.value;
        }
        if df.Some? {
          dockerfile := df.value;
        }
      case _ =>
    }
    if context == "" {
      return;
    }
    if NotExist(ws, JoinPath(context, dockerfile)) {
      findings := findings + [Build001(svcName, context, dockerfile, path)];
    }
    if NotExist(ws, context) {
      findings := findings + [Build002(svcName, context, path)];
    }
  }

  /** The service loop of one decoded file; `order` is Go's iteration order of the services mapping. */
  method CheckServicesBuild(ws: Workspace, services: map<string, Service>, path: string) returns (findings: seq<Finding>, ghost order: seq<string>)
    ensures Enumerates(order, services.Keys)
    ensures findings == ServicesBuildFindings(ws, services, order, path)
  {
    findings := [];
    order := [];
    var pending := services.Keys;
    while pending != {}
      invariant pending !! (set k | k in order)
      invariant forall k | k in order :: k in services
      invariant forall i, j | 0 <= i < j < |order| :: order[i] != order[j]
      invariant forall k | k in services :: k in pending || k in order
      invariant pending <= services.Keys
      invariant findings == Flatten(order, s => ServiceBuildFindings(ws, services, s, path))
      decreases pending
    {
      var svcName :| svcName in pending;
      ghost var visited := order;
      order := order + [svcName];
      pending := pending - {svcName};
      assert order[..|order| - 1] == visited;
      var svcFindings := CheckServiceBuild(ws, svcName, services[svcName], path);
      findings := findings + svcFindings;
    }
  }

  /** `checkBuildContexts`: files not found, unreadable or not decodable are skipped. */
  method CheckBuildContexts(ws: Workspace, artifacts: Artifacts) returns (findings: seq<Finding>, ghost orders: seq<seq<string>>)
    ensures |orders| == |artifacts.composeFiles|
    ensures forall c | 0 <= c < |orders| :: Enumerates(orders[c], Decoded(ws, artifacts.composeFiles[c]).Keys)
    ensures findings == BuildFindings(ws, artifacts.composeFiles, orders)
  {
    var composeFiles := artifacts.composeFiles;
    findings := [];
    orders := [];
    for c := 0 to |composeFiles|
      invariant |orders| == c
      invariant forall k | 0 <= k < c :: Enumerates(orders[k], Decoded(ws, composeFiles[k]).Keys)
      invariant findings == BuildFindings(ws, composeFiles[..c], orders)
    {
      var fileFindings; ghost var order;
      fileFindings, order := CheckBuildFile(ws, composeFiles[c]);
      BuildFindingsPrefix(ws, composeFiles, orders, order);
      orders := orders + [order];
      findings := findings + fileFindings;
    }
    assert composeFiles[..|composeFiles|] == composeFiles;
  }

  /** One turn of the file loop: a file that is not found, unreadable or not decodable adds nothing. */
  method CheckBuildFile(ws: Workspace, composeFile: Artifact) returns (findings: seq<Finding>, ghost order: seq<string>)
    ensures Enumerates(order, Decoded(ws, composeFile).Keys)
    ensures findings == ServicesBuildFindings(ws, Decoded(ws, composeFile), order, composeFile.path)
  {
    findings, order := [], [];
    if composeFile.found && composeFile.path in ws.contents && composeFile.path in ws.services {
      findings, order := CheckServicesBuild(ws, ws.services[composeFile.path], composeFile.path);
    }
  }

  /** The findings of the files up to position `|orders|`, given the order of that file's services. */
  lemma BuildFindingsPrefix(ws: Workspace, composeFiles: seq<Artifact>, orders: seq<seq<string>>, order: seq<string>)
    requires |orders| < |composeFiles|
    ensures var c := |orders|;
      BuildFindings(ws, composeFiles[..c + 1], orders + [order])
        == BuildFindings(ws, composeFiles[..c], orders) + ServicesBuildFindings(ws, Decoded(ws, composeFiles[c]), order, composeFiles[c].path)
  {
    var c := |orders|;
    assert composeFiles[..c + 1] == composeFiles[..c] + [composeFiles[c]];
    BuildFindingsSnoc(ws, composeFiles[..c], orders, composeFiles[c], order);
  }

  /**
   * What one service contributes: nothing without a build context; otherwise at most a BUILD001, exactly when
   * the Dockerfile is missing, followed by at most a BUILD002, exactly when the context is missing.
   */
  lemma ServiceBuildCodes(ws: Workspace, svcName: string, build: BuildSpec, path: string)
    ensures var fs := BuildChecks(ws, svcName, build, path);
      var (context, dockerfile) := BuildTarget(build);
      && |fs| <= 2
      && (context == "" ==> fs == [])
      && ((exists i | 0 <= i < |fs| :: fs[i].code == "BUILD001") <==> context != "" && NotExist(ws, JoinPath(context, dockerfile)))
      && ((exists i | 0 <= i < |fs| :: fs[i].code == "BUILD002") <==> context != "" && NotExist(ws, context))
      && (|fs| == 2 ==> fs[0].code == "BUILD001" && fs[1].code == "BUILD002")
  {
    var (context, dockerfile) := BuildTarget(build);
    var fs := BuildChecks(ws, svcName, build, path);
    assert "BUILD001"[7] != "BUILD002"[7];
    if context != "" {
      var m1, m2 := NotExist(ws, JoinPath(context, dockerfile)), NotExist(ws, context);
      var b1 := Build001(svcName, context, dockerfile, path);
      var b2 := Build002(svcName, context, path);
      assert b1.code != "BUILD002" && b2.code != "BUILD001";
      if m1 && m2 {
        assert fs == [b1, b2];
        assert fs[0].code == "BUILD001" && fs[1].code == "BUILD002";
      } else if m1 {
        assert fs == [b1];
        assert fs[0].code == "BUILD001";
      } else if m2 {
        assert fs == [b2];
        assert fs[0].code == "BUILD002";
      } else {
        assert fs == [];
      }
    }
  }

  /** On a real file system a missing context has no Dockerfile in it either, so BUILD002 always comes with BUILD001. */
  lemma MissingContextGivesBoth(ws: Workspace, svcName: string, build: BuildSpec, path: string)
    requires ParentsExist(ws)
    requires BuildTarget(build).0 != "" && NotExist(ws, BuildTarget(build).0)
    ensures var (context, dockerfile) := BuildTarget(build);
      BuildChecks(ws, svcName, build, path) == [Build001(svcName, context, dockerfile, path), Build002(svcName, context, path)]
  {
    var (context, dockerfile) := BuildTarget(build);
    if dockerfile != "" {
      var p := context + "/" + dockerfile;
      assert JoinPath(context, dockerfile) == p;
      assert context !in ws.dirs;
      forall i | 0 <= i < |p| && p[i] == '/'
        ensures p[..i] !in ws.regular
      {
        if i < |context| {
          assert p[..i] == context[..i] && context[i] == '/';
        } else if i == |context| {
          assert p[..i] == context;
        } else {
          assert p[..i] == context + "/" + dockerfile[..i - |context| - 1];
        }
      }
    }
    assert NotExist(ws, JoinPath(context, dockerfile));
  }

  /**
   * A context that is an existing regular file gives no finding: `os.Stat` fails below it with
   * ENOTDIR, which `os.IsNotExist` does not report, and the context itself exists.
   */
  lemma RegularContextGivesNothing(ws: Workspace, svcName: string, build: BuildSpec, path: string)
    requires BuildTarget(build).0 in ws.regular
    ensures BuildChecks(ws, svcName, build, path) == []
  {
    var (context, dockerfile) := BuildTarget(build);
    if context != "" && dockerfile != "" {
      var p := context + "/" + dockerfile;
      assert JoinPath(context, dockerfile) == p;
      assert p[|context|] == '/' && p[..|context|] == context;
    }
  }

  /** A file's findings are those of its services, whatever order they are visited in. */
  lemma ServicesBuildMembers(ws: Workspace, services: map<string, Service>, order: seq<string>, path: string, f: Finding)
    requires Enumerates(order, services.Keys)
    ensures f in ServicesBuildFindings(ws, services, order, path) <==>
              exists s | s in services :: f in ServiceBuildFindings(ws, services, s, path)
  {
    FlattenMembers(order, s => ServiceBuildFindings(ws, services, s, path), f);
    if exists s | s in services :: f in ServiceBuildFindings(ws, services, s, path) {
      var s :| s in services && f in ServiceBuildFindings(ws, services, s, path);
      var i :| 0 <= i < |order| && order[i] == s;
    }
  }

  /** The findings of the check come from the decoded compose files' services only. */
  lemma {:induction false} BuildFindingsMembers(ws: Workspace, composeFiles: seq<Artifact>, orders: seq<seq<string>>, f: Finding)
    requires |orders| == |composeFiles|
    ensures f in BuildFindings(ws, composeFiles, orders) <==>
              exists c | 0 <= c < |composeFiles| :: f in ServicesBuildFindings(ws, Decoded(ws, composeFiles[c]), orders[c], composeFiles[c].path)
  {
    if composeFiles != [] {
      var n := |composeFiles| - 1;
      BuildFindingsMembers(ws, composeFiles[..n], orders[..n], f);
      assert forall c | 0 <= c < n :: composeFiles[..n][c] == composeFiles[c] && orders[..n][c] == orders[c];
    }
  }
}
