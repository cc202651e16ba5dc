/**
 * `checkComposeDependsOn` and `extractDependsOn`: every `depends_on` entry of a service that names no
 * service of the same compose file gives a CMP001.
 */
module DependsOn {
  import opened Options
  import opened Seqs
  import opened FileSystem
  import opened ArtifactModel
  import opened FindingModel
  import opened Compose

  /** The values of the scalar items of a sequence node, in order. */
  function ScalarValues(items: seq<Node>): (r: seq<string>)
    ensures |r| <= |items|
  {
    if items == [] then []
    else
      var last := items[|items| - 1];
      ScalarValues(items[..|items| - 1]) + (if last.kind == ScalarNode then [last.value] else [])
  }

  /** The values of the entries of `content` at the even indices below `n`: a mapping's keys. */
  function KeysBelow(content: seq<Node>, n: nat): seq<string> {
    if n == 0 then []
    else KeysBelow(content, n - 1) + (if (n - 1) % 2 == 0 && n - 1 < |content| then [content[n - 1].value] else [])
  }

  /** The dependency names of a `depends_on` node: a list's scalar items, or a mapping's keys; nothing otherwise. */
  function Dependencies(node: Node): seq<string> {
    if node.kind == SequenceNode then ScalarValues(node.content)
    else if node.kind == MappingNode then KeysBelow(node.content, |node.content|)
    else []
  }

  /** `extractDependsOn`. */
  method ExtractDependsOn(node: Node) returns (deps: seq<string>)
    ensures deps == Dependencies(node)
  {
    deps := [];
    if node.kind == ZeroKind {
      return;
    }
    if node.kind == SequenceNode {
      var items := node.content;
      for i := 0 to |items|
        invariant deps == ScalarValues(items[..i])
      {
        assert items[..i + 1][..i] == items[..i];
        if items[i].kind == ScalarNode {
          deps := deps + [items[i].value];
        }
      }
      assert items[..|items|] == items;
      return;
    }
    if node.kind == MappingNode {
      var content := node.content;
      var i := 0;
      while i < |content|
        invariant i % 2 == 0 && i <= |content| + 1
        invariant deps == KeysBelow(content, i)
      {
        deps := deps + [content[i].value];
        i := i + 2;
      }
      assert i == |content| || KeysBelow(content, i) == KeysBelow(content, |content|);
    }
  }

  /** A list's dependencies are exactly its scalar items. */
  lemma {:induction false} ScalarValuesMembers(items: seq<Node>, x: string)
    ensures x in ScalarValues(items) <==> exists i | 0 <= i < |items| :: items[i].kind == ScalarNode && items[i].value == x
  {
    if items != [] {
      var init := items[..|items| - 1];
      ScalarValuesMembers(init, x);
      assert forall i | 0 <= i < |init| :: init[i] == items[i];
    }
  }

  /** A mapping's dependencies are exactly the values at its key positions, one per key. */
  lemma {:induction false} KeysBelowMembers(content: seq<Node>, n: nat, x: string)
    requires n <= |content|
    ensures |KeysBelow(content, n)| == (n + 1) / 2
    ensures x in KeysBelow(content, n) <==> exists i | 0 <= i < n :: i % 2 == 0 && content[i].value == x
  {
    if n > 0 {
      KeysBelowMembers(content, n - 1, x);
    }
  }

  /** Names of services that do not exist in the file. */
  function Unknown(deps: seq<string>, services: map<string, Service>): seq<string> {
    Filter(deps, d => d !in services)
  }

  function Cmp001(svcName: string, dep: string, path: string): Finding {
    Finding(
      "CMP001", Blocking,
      "Service " + svcName + " depends on unknown service " + dep,
      "depends_on references " + dep + " which is not defined in " + path,
      [SourceLocation(path, 0, 0)],
      "Add service " + dep + " to " + path + " or remove from depends_on")
  }

  /** Within one file, a CMP001 determines the dependency it reports. */
  lemma Cmp001Dependency(s: string, d: string, s': string, d': string, path: string)
    requires Cmp001(s, d, path) == Cmp001(s', d', path)
    ensures d == d'
  {
    var details := Cmp001(s, d, path).details;
    var start := |"depends_on references "|;
    assert |d| == |d'|;
    assert d == details[start..start + |d|];
    assert d' == details[start..start + |d'|];
  }

  /** One CMP001 per name, in order. */
  function Cmp001s(svcName: string, deps: seq<string>, path: string): (fs: seq<Finding>)
    ensures |fs| == |deps|
  {
    if deps == [] then [] else Cmp001s(svcName, deps[..|deps| - 1], path) + [Cmp001(svcName, deps[|deps| - 1], path)]
  }

  lemma {:induction false} Cmp001sMembers(svcName: string, deps: seq<string>, path: string, f: Finding)
    ensures f in Cmp001s(svcName, deps, path) <==> exists d | d in deps :: f == Cmp001(svcName, d, path)
  {
    if deps != [] {
      var init := deps[..|deps| - 1];
      Cmp001sMembers(svcName, init, path, f);
      assert deps == init + [deps[|deps| - 1]];
    }
  }

  /** The findings for one service of a decoded file. */
  function ServiceFindings(services: map<string, Service>, svcName: string, path: string): seq<Finding> {
    if svcName in services then Cmp001s(svcName, Unknown(Dependencies(services[svcName].dependsOn), services), path) else []
  }

  /** The findings for a decoded file whose services are visited in `order`. */
  function ServicesFindings(services: map<string, Service>, order: seq<string>, path: string): seq<Finding> {
    Flatten(order, s => ServiceFindings(services, s, path))
  }

  /** The findings for the compose files, file `c`'s services visited in `orders[c]`. */
  function DependsFindings(ws: Workspace, composeFiles: seq<Artifact>, orders: seq<seq<string>>): seq<Finding>
    requires |orders| == |composeFiles|
  {
    if composeFiles == [] then []
    else
      var n := |composeFiles| - 1;
      DependsFindings(ws, composeFiles[..n], orders[..n]) + ServicesFindings(Decoded(ws, composeFiles[n]), orders[n], composeFiles[n].path)
  }

  /** One more dependency adds its finding exactly when it names no service. */
  lemma UnknownSnoc(svcName: string, deps: seq<string>, dep: string, services: map<string, Service>, path: string)
    ensures Cmp001s(svcName, Unknown(deps + [dep], services), path)
            == Cmp001s(svcName, Unknown(deps, services), path) + (if dep !in services then [Cmp001(svcName, dep, path)] else [])
  {
    assert (deps + [dep])[..|deps|] == deps;
    var u := Unknown(deps, services);
    if dep !in services {
      assert Unknown(deps + [dep], services) == u + [dep];
      assert (u + [dep])[..|u|] == u;
    } else {
      assert Unknown(deps + [dep], services) == u;
    }
  }

  /** One more compose file adds the findings of its services. */
  lemma DependsFindingsSnoc(ws: Workspace, composeFiles: seq<Artifact>, orders: seq<seq<string>>, c: Artifact, order: seq<string>)
    requires |orders| == |composeFiles|
    ensures DependsFindings(ws, composeFiles + [c], orders + [order])
            == DependsFindings(ws, composeFiles, orders) + ServicesFindings(Decoded(ws, c), order, c.path)
  {
    assert (composeFiles + [c])[..|composeFiles|] == composeFiles;
    assert (orders + [order])[..|orders|] == orders;
  }

  /** The dependency loop of one service. */
  method CheckServiceDeps(svcName: string, deps: seq<string>, services: map<string, Service>, path: string) returns (findings: seq<Finding>)
    ensures findings == Cmp001s(svcName, Unknown(deps, services), path)
  {
    findings := [];
    for i := 0 to |deps|
      invariant findings == Cmp001s(svcName, Unknown(deps[..i], services), path)
    {
      assert deps[..i + 1] == deps[..i] + [deps[i]];
      UnknownSnoc(svcName, deps[..i], deps[i], services, path);
      var dep := deps[i];
      if dep !in services {
        findings := findings + [Cmp001(svcName, dep, path)];
      }
    }
    assert deps[..|deps|] == deps;
  }

  /** The service loop of one decoded file; `order` is Go's iteration order of the services mapping. */
  method CheckServices(services: map<string, Service>, path: string) returns (findings: seq<Finding>, ghost order: seq<string>)
    ensures Enumerates(order, services.Keys)
    ensures findings == ServicesFindings(services, order, path)
  {
    findings := [];
    order := [];
    var pending := services.Keys;
    while pending != {}
      invariant pending !! (set k | k in order)
      invariant forall k | k in order :: k in services
      invariant forall i, j | 0 <= i < j < |order| :: order[i] != order[j]
      invariant forall k | k in services :: k in pending || k in order
      invariant pending <= services.Keys
      invariant findings == Flatten(order, s => ServiceFindings(services, s, path))
      decreases pending
    {
      var svcName :| svcName in pending;
      ghost var visited := order;
      order := order + [svcName];
      pending := pending - {svcName};
      assert order[..|order| - 1] == visited;
      var deps := ExtractDependsOn(services[svcName].dependsOn);
      var svcFindings := CheckServiceDeps(svcName, deps, services, path);
      findings := findings + svcFindings;
    }
  }

  /** `checkComposeDependsOn`: files not found, unreadable or not decodable are skipped. */
  method CheckComposeDependsOn(ws: Workspace, artifacts: Artifacts) returns (findings: seq<Finding>, ghost orders: seq<seq<string>>)
    ensures |orders| == |artifacts.composeFiles|
    ensures forall c | 0 <= c < |orders| :: Enumerates(orders[c], Decoded(ws, artifacts.composeFiles[c]).Keys)
    ensures findings == DependsFindings(ws, artifacts.composeFiles, orders)
  {
    var composeFiles := artifacts.composeFiles;
    findings := [];
    orders := [];
    for c := 0 to |composeFiles|
      invariant |orders| == c
      invariant forall k | 0 <= k < c :: Enumerates(orders[k], Decoded(ws, composeFiles[k]).Keys)
      invariant findings == DependsFindings(ws, composeFiles[..c], orders)
    {
      var fileFindings; ghost var order;
      fileFindings, order := CheckComposeFile(ws, composeFiles[c]);
      DependsFindingsPrefix(ws, composeFiles, orders, order);
      orders := orders + [order];
      findings := findings + fileFindings;
    }
    assert composeFiles[..|composeFiles|] == composeFiles;
  }

  /** One turn of the file loop: a file that is not found, unreadable or not decodable adds nothing. */
  method CheckComposeFile(ws: Workspace, composeFile: Artifact) returns (findings: seq<Finding>, ghost order: seq<string>)
    ensures Enumerates(order, Decoded(ws, composeFile).Keys)
    ensures findings == ServicesFindings(Decoded(ws, composeFile), order, composeFile.path)
  {
    findings, order := [], [];
    if composeFile.found && composeFile.path in ws.contents && composeFile.path in ws.services {
      findings, order := CheckServices(ws.services[composeFile.path], composeFile.path);
    }
  }

  /** The findings of the files up to position `|orders|`, given the order of that file's services. */
  lemma DependsFindingsPrefix(ws: Workspace, composeFiles: seq<Artifact>, orders: seq<seq<string>>, order: seq<string>)
    requires |orders| < |composeFiles|
    ensures var c := |orders|;
      DependsFindings(ws, composeFiles[..c + 1], orders + [order])
        == DependsFindings(ws, composeFiles[..c], orders) + ServicesFindings(Decoded(ws, composeFiles[c]), order, composeFiles[c].path)
  {
    var c := |orders|;
    assert composeFiles[..c + 1] == composeFiles[..c] + [composeFiles[c]];
    DependsFindingsSnoc(ws, composeFiles[..c], orders, composeFiles[c], order);
  }

  /** A service's findings are one CMP001 per dependency that names no service of the file. */
  lemma ServiceFindingsMembers(services: map<string, Service>, svcName: string, path: string, f: Finding)
    requires svcName in services
    ensures f in ServiceFindings(services, svcName, path) <==>
              exists d | d in Dependencies(services[svcName].dependsOn) :: d !in services && f == Cmp001(svcName, d, path)
  {
    var deps := Dependencies(services[svcName].dependsOn);
    Cmp001sMembers(svcName, Unknown(deps, services), path, f);
    forall d
      ensures d in Unknown(deps, services) <==> d in deps && d !in services
    {
      FilterMembers(deps, d => d !in services, d);
    }
  }

  /**
   * Whatever order the services are visited in, a file's findings are exactly one CMP001 for each
   * service and each of its dependencies that names no service of the file.
   */
  lemma ServicesFindingsMembers(services: map<string, Service>, order: seq<string>, path: string, f: Finding)
    requires Enumerates(order, services.Keys)
    ensures f in ServicesFindings(services, order, path) <==>
              exists s, d | s in services && d in Dependencies(services[s].dependsOn) :: d !in services && f == Cmp001(s, d, path)
  {
    FlattenMembers(order, s => ServiceFindings(services, s, path), f);
    forall s | s in services
      ensures f in ServiceFindings(services, s, path) <==>
                exists d | d in Dependencies(services[s].dependsOn) :: d !in services && f == Cmp001(s, d, path)
    {
      ServiceFindingsMembers(services, s, path, f);
    }
    if f in ServicesFindings(services, order, path) {
      var i :| 0 <= i < |order| && f in ServiceFindings(services, order[i], path);
      assert order[i] in services;
    }
    if exists s, d | s in services && d in Dependencies(services[s].dependsOn) :: d !in services && f == Cmp001(s, d, path) {
      var s, d :| s in services && d in Dependencies(services[s].dependsOn) && d !in services && f == Cmp001(s, d, path);
      var i :| 0 <= i < |order| && order[i] == s;
      assert f in ServiceFindings(services, order[i], path);
    }
  }

  /** A dependency on a service of the same file, in particular a service depending on itself, is never reported. */
  lemma KnownNeverReported(services: map<string, Service>, order: seq<string>, path: string, s: string, d: string)
    requires Enumerates(order, services.Keys)
    requires d in services
    ensures Cmp001(s, d, path) !in ServicesFindings(services, order, path)
  {
    var f := Cmp001(s, d, path);
    ServicesFindingsMembers(services, order, path, f);
    if f in ServicesFindings(services, order, path) {
      var s', d' :| s' in services && d' in Dependencies(services[s'].dependsOn) && d' !in services && f == Cmp001(s', d', path);
      Cmp001Dependency(s, d, s', d', path);
      assert false;
    }
  }

  /** The findings of the check come from the compose files' own services only. */
  lemma {:induction false} DependsFindingsMembers(ws: Workspace, composeFiles: seq<Artifact>, orders: seq<seq<string>>, f: Finding)
    requires |orders| == |composeFiles|
    ensures f in DependsFindings(ws, composeFiles, orders) <==>
              exists c | 0 <= c < |composeFiles| :: f in ServicesFindings(Decoded(ws, composeFiles[c]), orders[c], composeFiles[c].path)
  {
    if composeFiles != [] {
      var n := |composeFiles| - 1;
      DependsFindingsMembers(ws, composeFiles[..n], orders[..n], f);
      assert forall c | 0 <= c < n :: composeFiles[..n][c] == composeFiles[c] && orders[..n][c] == orders[c];
    }
  }
}
