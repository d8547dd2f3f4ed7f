/**
 * Collecting the third-party packages a bundle ships: a recursive walk over resolved
 * dependencies, with a set of visited (bundle, package) pairs and a record per identity.
 */
module LicenseTraversal {
  import opened Options

  const FIRST_PARTY_PREFIX := "@t3tools/"

  /**
   * The installed packages. A node is the path of a manifest; `resolve` gives the node of a
   * dependency name seen from a manifest, if it is installed, always one of finitely many.
   */
  datatype Graph = Graph(
    roots: set<string>,
    dependencies: string -> seq<string>,
    resolve: (string, string) -> Option<string>,
    name: string -> string,
    identity: string -> string)

  ghost predicate Installed(g: Graph) {
    forall dependency, from :: g.resolve(dependency, from).Some? ==> g.resolve(dependency, from).value in g.roots
  }

  datatype Manifest = Manifest(bundle: string, path: string)

  datatype Collected = Collected(bundles: set<string>, root: string)

  predicate FirstParty(g: Graph, root: string) {
    FIRST_PARTY_PREFIX <= g.name(root)
  }

  // ---------------------------------------------------------------- reachability

  predicate Step(g: Graph, from: string, to: string) {
    exists k :: 0 <= k < |g.dependencies(from)| && g.resolve(g.dependencies(from)[k], from) == Some(to)
  }

  predicate IsPath(g: Graph, path: seq<string>) {
    |path| >= 2 && forall i :: 0 <= i < |path| - 1 ==> Step(g, path[i], path[i + 1])
  }

  /** `to` can be reached from `from` over one or more dependencies. */
  ghost predicate Reaches(g: Graph, from: string, to: string) {
    exists path :: IsPath(g, path) && path[0] == from && path[|path| - 1] == to
  }

  lemma StepReaches(g: Graph, from: string, to: string)
    requires Step(g, from, to)
    ensures Reaches(g, from, to)
  {
    assert IsPath(g, [from, to]);
  }

  lemma ReachesOnward(g: Graph, from: string, via: string, to: string)
    requires Step(g, from, via) && Reaches(g, via, to)
    ensures Reaches(g, from, to)
  {
    var path :| IsPath(g, path) && path[0] == via && path[|path| - 1] == to;
    var longer := [from] + path;
    forall i | 0 <= i < |longer| - 1 ensures Step(g, longer[i], longer[i + 1]) {
      if i > 0 {
        assert Step(g, path[i - 1], path[i]);
      }
    }
    assert IsPath(g, longer);
  }

  /** A set that holds the first steps and all steps from its members holds everything reachable. */
  lemma {:induction false} ClosedCoversPath(g: Graph, from: string, seen: set<string>, path: seq<string>)
    requires forall r :: Step(g, from, r) ==> r in seen
    requires forall r, q :: r in seen && Step(g, r, q) ==> q in seen
    requires IsPath(g, path) && path[0] == from
    ensures path[|path| - 1] in seen
    decreases |path|
  {
    var last := |path| - 1;
    assert Step(g, path[last - 1], path[last]);
    if last > 1 {
      ClosedCoversPath(g, from, seen, path[..last]);
    }
  }

  // ---------------------------------------------------------------- the collector

  predicate Has(byIdentity: map<string, Collected>, identity: string, bundle: string) {
    identity in byIdentity && bundle in byIdentity[identity].bundles
  }

  predicate Contributes(g: Graph, visited: set<(string, string)>, identity: string, bundle: string, root: string) {
    (bundle, root) in visited && !FirstParty(g, root) && g.identity(root) == identity
  }

  /** The records say exactly which identities the visited third-party packages have. */
  ghost predicate Recorded(g: Graph, byIdentity: map<string, Collected>, visited: set<(string, string)>) {
    && (forall identity, bundle ::
          Has(byIdentity, identity, bundle) <==> exists root :: Contributes(g, visited, identity, bundle, root))
    && (forall identity :: identity in byIdentity ==>
          g.identity(byIdentity[identity].root) == identity && !FirstParty(g, byIdentity[identity].root))
  }

  /** Everything visited since `before` was reachable for that bundle and has its steps visited. */
  ghost predicate Walked(
    g: Graph, from: string, bundle: string, before: set<(string, string)>, after: set<(string, string)>)
  {
    && before <= after
    && forall b, r :: (b, r) in after && (b, r) !in before ==>
         b == bundle && Reaches(g, from, r) && StepsSeen(g, bundle, r, after)
  }

  ghost predicate StepsSeen(g: Graph, bundle: string, from: string, visited: set<(string, string)>) {
    forall r :: Step(g, from, r) ==> (bundle, r) in visited
  }

  function RecordedWith(
    g: Graph, byIdentity: map<string, Collected>, bundle: string, root: string): map<string, Collected>
  {
    if FirstParty(g, root) then byIdentity
    else
      var identity := g.identity(root);
      if identity in byIdentity then
        byIdentity[identity := byIdentity[identity].(bundles := byIdentity[identity].bundles + {bundle})]
      else byIdentity[identity := Collected({bundle}, root)]
  }

  lemma RecordKeeps(
    g: Graph, byIdentity: map<string, Collected>, visited: set<(string, string)>, bundle: string, root: string)
    requires Recorded(g, byIdentity, visited)
    ensures Recorded(g, RecordedWith(g, byIdentity, bundle, root), visited + {(bundle, root)})
  {
    var after, seen := RecordedWith(g, byIdentity, bundle, root), visited + {(bundle, root)};
    forall identity, b
      ensures Has(after, identity, b) <==> exists r :: Contributes(g, seen, identity, b, r)
    {
      if r :| Contributes(g, visited, identity, b, r) {
        assert Contributes(g, seen, identity, b, r);
      }
      if Contributes(g, seen, identity, b, root) {
        assert b == bundle || Contributes(g, visited, identity, b, root);
      }
      if r :| Contributes(g, seen, identity, b, r) && r != root {
        assert Contributes(g, visited, identity, b, r);
      }
      assert Has(byIdentity, identity, b) <==> exists r :: Contributes(g, visited, identity, b, r);
      if Has(after, identity, b) && !Has(byIdentity, identity, b) {
        assert Contributes(g, seen, identity, b, root);
      }
    }
  }

  ghost predicate ShippedBy(g: Graph, manifests: seq<Manifest>, identity: string, bundle: string) {
    exists i, root :: 0 <= i < |manifests| && ShipsFrom(g, manifests[i], identity, bundle, root)
  }

  /** A third-party package with this identity is reachable from the manifest, through any packages. */
  ghost predicate ShipsFrom(g: Graph, m: Manifest, identity: string, bundle: string, root: string) {
    m.bundle == bundle && Reaches(g, m.path, root) && !FirstParty(g, root) && g.identity(root) == identity
  }

  ghost predicate FromManifest(g: Graph, manifests: seq<Manifest>, bundle: string, root: string) {
    exists i :: 0 <= i < |manifests| && manifests[i].bundle == bundle && Reaches(g, manifests[i].path, root)
  }

  /** The walk over the first manifests is complete: sound, and closed under every step. */
  ghost predicate Complete(g: Graph, manifests: seq<Manifest>, visited: set<(string, string)>) {
    && (forall b, r :: (b, r) in visited ==> FromManifest(g, manifests, b, r) && StepsSeen(g, b, r, visited))
    && (forall i :: 0 <= i < |manifests| ==> StepsSeen(g, manifests[i].bundle, manifests[i].path, visited))
  }

  lemma CompleteExtends(
    g: Graph, manifests: seq<Manifest>, m: Manifest, before: set<(string, string)>, after: set<(string, string)>)
    requires Complete(g, manifests, before)
    requires Walked(g, m.path, m.bundle, before, after) && StepsSeen(g, m.bundle, m.path, after)
    ensures Complete(g, manifests + [m], after)
  {
    var more := manifests + [m];
    forall b, r | (b, r) in after ensures FromManifest(g, more, b, r) && StepsSeen(g, b, r, after) {
      if (b, r) in before {
        var i :| 0 <= i < |manifests| && manifests[i].bundle == b && Reaches(g, manifests[i].path, r);
        assert more[i] == manifests[i];
      } else {
        assert more[|manifests|] == m;
      }
    }
  }

  lemma CompleteCovers(g: Graph, manifests: seq<Manifest>, visited: set<(string, string)>, i: nat, root: string)
    requires Complete(g, manifests, visited) && i < |manifests| && Reaches(g, manifests[i].path, root)
    ensures (manifests[i].bundle, root) in visited
  {
    var m := manifests[i];
    var seen := set p | p in visited && p.0 == m.bundle :: p.1;
    var path :| IsPath(g, path) && path[0] == m.path && path[|path| - 1] == root;
    forall r | Step(g, m.path, r) ensures r in seen {
      assert (m.bundle, r) in visited;
    }
    forall r, q | r in seen && Step(g, r, q) ensures q in seen {
      assert (m.bundle, r) in visited;
      assert (m.bundle, q) in visited;
    }
    ClosedCoversPath(g, m.path, seen, path);
  }

  /** Complete walks and faithful records together answer exactly what each bundle ships. */
  lemma CollectedExactly(
    g: Graph, manifests: seq<Manifest>, visited: set<(string, string)>, byIdentity: map<string, Collected>,
    identity: string, bundle: string)
    requires Complete(g, manifests, visited) && Recorded(g, byIdentity, visited)
    ensures Has(byIdentity, identity, bundle) <==> ShippedBy(g, manifests, identity, bundle)
  {
    if root :| Contributes(g, visited, identity, bundle, root) {
      var i :| 0 <= i < |manifests| && manifests[i].bundle == bundle && Reaches(g, manifests[i].path, root);
      assert ShipsFrom(g, manifests[i], identity, bundle, root);
    }
    if i, root :| 0 <= i < |manifests| && ShipsFrom(g, manifests[i], identity, bundle, root) {
      CompleteCovers(g, manifests, visited, i, root);
      assert Contributes(g, visited, identity, bundle, root);
    }
  }

  class Collector {
    const graph: Graph
    var visited: set<(string, string)>
    var byIdentity: map<string, Collected>

    constructor (graph: Graph)
      ensures this.graph == graph && visited == {} && byIdentity == map[]
    {
      this.graph := graph;
      visited := {};
      byIdentity := map[];
    }

    /** Visits everything a manifest depends on and has not been visited for the bundle yet. */
    method VisitManifest(path: string, bundle: string)
      requires Installed(graph) && Recorded(graph, byIdentity, visited)
      modifies this
      ensures Recorded(graph, byIdentity, visited)
      ensures Walked(graph, path, bundle, old(visited), visited)
      ensures StepsSeen(graph, bundle, path, visited)
      decreases set r | r in graph.roots && (bundle, r) !in visited
    {
      var names := graph.dependencies(path);
      ghost var unseen := set r | r in graph.roots && (bundle, r) !in visited;
      for k := 0 to |names|
        invariant Recorded(graph, byIdentity, visited)
        invariant Walked(graph, path, bundle, old(visited), visited)
        invariant forall j :: 0 <= j < k && graph.resolve(names[j], path).Some? ==>
                    (bundle, graph.resolve(names[j], path).value) in visited
      {
        var resolved := graph.resolve(names[k], path);
        if resolved.None? || (bundle, resolved.value) in visited {
          continue;
        }
        var root := resolved.value;
        assert Step(graph, path, root);
        StepReaches(graph, path, root);
        RecordKeeps(graph, byIdentity, visited, bundle, root);
        visited := visited + {(bundle, root)};
        byIdentity := RecordedWith(graph, byIdentity, bundle, root);
        ghost var entered := visited;
        assert (set r | r in graph.roots && (bundle, r) !in visited) < unseen by {
          assert root in unseen;
        }
        VisitManifest(root, bundle);
        forall b, r | (b, r) in visited && (b, r) !in entered ensures Reaches(graph, path, r) {
          assert Reaches(graph, root, r);
          ReachesOnward(graph, path, root, r);
        }
      }
    }

    /** Whatever the dependency graph, cycles included, exactly the reachable packages are recorded. */
    method Collect(manifests: seq<Manifest>)
      requires Installed(graph) && visited == {} && byIdentity == map[]
      modifies this
      ensures forall identity, bundle ::
                Has(byIdentity, identity, bundle) <==> ShippedBy(graph, manifests, identity, bundle)
      ensures forall identity :: identity in byIdentity ==> graph.identity(byIdentity[identity].root) == identity
    {
      for i := 0 to |manifests|
        invariant Recorded(graph, byIdentity, visited)
        invariant Complete(graph, manifests[..i], visited)
      {
        ghost var before := visited;
        VisitManifest(manifests[i].path, manifests[i].bundle);
        CompleteExtends(graph, manifests[..i], manifests[i], before, visited);
        assert manifests[..i + 1] == manifests[..i] + [manifests[i]];
      }
      assert manifests[..|manifests|] == manifests;
      forall identity, bundle
        ensures Has(byIdentity, identity, bundle) <==> ShippedBy(graph, manifests, identity, bundle)
      {
        CollectedExactly(graph, manifests, visited, byIdentity, identity, bundle);
      }
    }
  }
}
