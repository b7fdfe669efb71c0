/**
 * The encapsulation test of the execution layer: a worklist collects the dependency graph of a root package, and
 * any path left after removing the barrier packages is reported as a bypass.
 */
module PackageGraph {
  import opened Prelude

  datatype Name = Name(text: string)

  datatype Dependency = Dependency(name: Name, normal: bool, targeted: bool)

  type Packages = map<Name, seq<Dependency>>

  datatype Edge = Edge(from: Name, to: Name)

  datatype Graph = Graph(nodes: set<Name>, edges: set<Edge>)

  const EMPTY: Graph := Graph({}, {})

  /** The normal, untargeted dependencies of a package, in the order it lists them. */
  function EdgesOf(name: Name, deps: seq<Dependency>): (r: seq<Edge>)
    ensures forall e | e in r :: e.from == name
    ensures forall x :: Edge(name, x) in r <==> exists d | d in deps :: d.name == x && d.normal && !d.targeted
  {
    if deps == [] then []
    else
      var rest, last := EdgesOf(name, deps[..|deps| - 1]), deps[|deps| - 1];
      assert deps == deps[..|deps| - 1] + [last];
      if last.normal && !last.targeted then rest + [Edge(name, last.name)] else rest
  }

  function NormalEdges(ps: Packages, name: Name): (r: seq<Edge>)
    ensures forall e | e in r :: e.from == name
  {
    if name in ps then EdgesOf(name, ps[name]) else []
  }

  /** Every name a package depends on; the collected graph never leaves it. */
  ghost function Targets(ps: Packages): set<Name> {
    set p, e | p in ps && e in NormalEdges(ps, p) :: e.to
  }

  ghost predicate Targeted(ps: Packages, stack: seq<Edge>) {
    forall e | e in stack :: e.to in Targets(ps)
  }

  lemma NormalEdgesTargeted(ps: Packages, name: Name)
    ensures Targeted(ps, NormalEdges(ps, name))
  {
    forall e | e in NormalEdges(ps, name) ensures e.to in Targets(ps) { assert name in ps; }
  }

  function AddEdge(g: Graph, e: Edge): Graph {
    Graph(g.nodes + {e.from, e.to}, g.edges + {e})
  }

  /** The worklist. An edge into a node already collected is dropped. */
  ghost function Explore(ps: Packages, g: Graph, stack: seq<Edge>): Graph
    requires Targeted(ps, stack)
    decreases Targets(ps) - g.nodes, stack
  {
    if stack == [] then g
    else
      var e, rest := stack[|stack| - 1], stack[..|stack| - 1];
      if e.to in g.nodes then Explore(ps, g, rest)
      else
        NormalEdgesTargeted(ps, e.to);
        Explore(ps, AddEdge(g, e), rest + NormalEdges(ps, e.to))
  }

  ghost function Collected(ps: Packages, root: Name): Graph {
    NormalEdgesTargeted(ps, root);
    Explore(ps, EMPTY, NormalEdges(ps, root))
  }

  /** The loop terminates on every package map, cyclic or not. */
  method Collect(ps: Packages, root: Name) returns (g: Graph)
    ensures g == Collected(ps, root)
  {
    g := EMPTY;
    var stack := NormalEdges(ps, root);
    NormalEdgesTargeted(ps, root);
    while stack != []
      invariant Targeted(ps, stack)
      invariant Explore(ps, g, stack) == Collected(ps, root)
      decreases Targets(ps) - g.nodes, stack
    {
      var e := stack[|stack| - 1];
      stack := stack[..|stack| - 1];
      if e.to !in g.nodes {
        NormalEdgesTargeted(ps, e.to);
        g := AddEdge(g, e);
        stack := stack + NormalEdges(ps, e.to);
      }
    }
  }

  // --- Reachability ---

  ghost predicate Linked(ps: Packages, path: seq<Name>, i: nat)
    requires i + 1 < |path|
  {
    Edge(path[i], path[i + 1]) in NormalEdges(ps, path[i])
  }

  /** A path of at least one normal dependency. */
  ghost predicate IsPath(ps: Packages, path: seq<Name>, from: Name, to: Name) {
    && |path| >= 2 && path[0] == from && path[|path| - 1] == to
    && forall i: nat | i + 1 < |path| :: Linked(ps, path, i)
  }

  ghost predicate Reaches(ps: Packages, from: Name, to: Name) {
    exists path :: IsPath(ps, path, from, to)
  }

  lemma ReachesNext(ps: Packages, root: Name, e: Edge)
    requires e in NormalEdges(ps, e.from) && (e.from == root || Reaches(ps, root, e.from))
    ensures Reaches(ps, root, e.to)
  {
    if e.from == root {
      assert Linked(ps, [root, e.to], 0);
      assert IsPath(ps, [root, e.to], root, e.to);
    } else {
      var path :| IsPath(ps, path, root, e.from);
      var longer := path + [e.to];
      forall i: nat | i + 1 < |longer| ensures Linked(ps, longer, i) {
        if i + 1 < |path| { assert Linked(ps, path, i); }
      }
      assert IsPath(ps, longer, root, e.to);
    }
  }

  /** The edges of `x` lead to collected nodes or are still to be looked at. */
  ghost predicate Expanded(ps: Packages, g: Graph, stack: seq<Edge>, x: Name) {
    forall e | e in NormalEdges(ps, x) :: e.to in g.nodes || e in stack
  }

  ghost predicate OnTrack(ps: Packages, root: Name, g: Graph, e: Edge) {
    e in NormalEdges(ps, e.from) && (e.from == root || (e.from in g.nodes && Reaches(ps, root, e.from)))
  }

  ghost predicate Good(ps: Packages, root: Name, g: Graph, stack: seq<Edge>) {
    && (forall e | e in stack :: OnTrack(ps, root, g, e))
    && (forall e | e in g.edges :: OnTrack(ps, root, g, e) && e.from in g.nodes && e.to in g.nodes)
    && (forall x | x in g.nodes :: Reaches(ps, root, x) || (x == root && NormalEdges(ps, root) != []))
    && (forall x | x in g.nodes || x == root :: Expanded(ps, g, stack, x))
    && (g.nodes != {} ==> root in g.nodes)
  }

  /** Every collected node has at most one edge into it: the graph is a tree below its root. */
  ghost predicate OneWayIn(g: Graph) {
    forall d, e | d in g.edges && e in g.edges && d.to == e.to :: d == e
  }

  lemma PopKeepsGood(ps: Packages, root: Name, g: Graph, stack: seq<Edge>)
    requires Good(ps, root, g, stack) && stack != [] && stack[|stack| - 1].to in g.nodes
    ensures Good(ps, root, g, stack[..|stack| - 1])
  {
    var e, rest := stack[|stack| - 1], stack[..|stack| - 1];
    assert stack == rest + [e];
    forall x | x in g.nodes || x == root ensures Expanded(ps, g, rest, x) {
      assert Expanded(ps, g, stack, x);
    }
  }

  lemma AddKeepsExpanded(ps: Packages, g: Graph, rest: seq<Edge>, e: Edge, x: Name)
    requires Expanded(ps, g, rest + [e], x) || x == e.to
    ensures Expanded(ps, AddEdge(g, e), rest + NormalEdges(ps, e.to), x)
  {}

  lemma AddKeepsNodes(ps: Packages, root: Name, g: Graph, stack: seq<Edge>, e: Edge)
    requires Good(ps, root, g, stack) && e in stack
    ensures Reaches(ps, root, e.to)
    ensures forall x | x in AddEdge(g, e).nodes :: Reaches(ps, root, x) || (x == root && NormalEdges(ps, root) != [])
    ensures forall d | d in AddEdge(g, e).edges :: OnTrack(ps, root, AddEdge(g, e), d)
  {
    assert OnTrack(ps, root, g, e);
    ReachesNext(ps, root, e);
  }

  lemma AddKeepsGood(ps: Packages, root: Name, g: Graph, stack: seq<Edge>)
    requires Good(ps, root, g, stack) && stack != [] && stack[|stack| - 1].to !in g.nodes
    ensures var e := stack[|stack| - 1];
      Good(ps, root, AddEdge(g, e), stack[..|stack| - 1] + NormalEdges(ps, e.to))
  {
    var e, rest := stack[|stack| - 1], stack[..|stack| - 1];
    var g', stack' := AddEdge(g, e), rest + NormalEdges(ps, e.to);
    assert stack == rest + [e];
    AddKeepsNodes(ps, root, g, stack, e);
    forall x | x in g'.nodes || x == root ensures Expanded(ps, g', stack', x) { AddKeepsExpanded(ps, g, rest, e, x); }
    forall d | d in stack' ensures OnTrack(ps, root, g', d) {
      if d in rest { assert d in stack; }
    }
  }

  lemma AddKeepsOneWay(ps: Packages, root: Name, g: Graph, stack: seq<Edge>, e: Edge)
    requires Good(ps, root, g, stack) && OneWayIn(g) && e.to !in g.nodes
    ensures OneWayIn(AddEdge(g, e))
  {}

  lemma {:induction false} ExploreGood(ps: Packages, root: Name, g: Graph, stack: seq<Edge>)
    requires Targeted(ps, stack) && Good(ps, root, g, stack) && OneWayIn(g)
    ensures Good(ps, root, Explore(ps, g, stack), []) && OneWayIn(Explore(ps, g, stack))
    decreases Targets(ps) - g.nodes, stack
  {
    if stack == [] {
    } else {
      var e, rest := stack[|stack| - 1], stack[..|stack| - 1];
      if e.to in g.nodes {
        PopKeepsGood(ps, root, g, stack);
        ExploreGood(ps, root, g, rest);
      } else {
        AddKeepsGood(ps, root, g, stack);
        NormalEdgesTargeted(ps, e.to);
        AddKeepsOneWay(ps, root, g, stack, e);
        ExploreGood(ps, root, AddEdge(g, e), rest + NormalEdges(ps, e.to));
      }
    }
  }

  lemma CollectedGood(ps: Packages, root: Name)
    ensures Good(ps, root, Collected(ps, root), []) && OneWayIn(Collected(ps, root))
  {
    NormalEdgesTargeted(ps, root);
    ExploreGood(ps, root, EMPTY, NormalEdges(ps, root));
  }

  /** A finished graph has every node along every path from the root. */
  lemma {:induction false} PathCollected(ps: Packages, root: Name, g: Graph, path: seq<Name>, i: nat)
    requires Good(ps, root, g, []) && |path| >= 2 && path[0] == root && 0 < i < |path|
    requires forall k: nat | k + 1 < |path| :: Linked(ps, path, k)
    ensures path[i] in g.nodes
  {
    if i == 1 {
    } else {
      PathCollected(ps, root, g, path, i - 1);
    }
    assert Linked(ps, path, i - 1);
    assert Expanded(ps, g, [], path[i - 1]);
  }

  /** The nodes are exactly the packages reachable from the root, and the root itself when it depends on anything. */
  lemma CollectedNodes(ps: Packages, root: Name, x: Name)
    ensures x in Collected(ps, root).nodes <==> Reaches(ps, root, x) || (x == root && NormalEdges(ps, root) != [])
  {
    CollectedGood(ps, root);
    var g := Collected(ps, root);
    if Reaches(ps, root, x) {
      var path :| IsPath(ps, path, root, x);
      PathCollected(ps, root, g, path, |path| - 1);
    } else if x == root && NormalEdges(ps, root) != [] {
      assert Expanded(ps, g, [], root);
      assert NormalEdges(ps, root)[0] in NormalEdges(ps, root);
    }
  }

  // --- The bypass check ---

  function Remove(g: Graph, barriers: set<Name>): Graph {
    Graph(g.nodes - barriers, set e | e in g.edges && e.from !in barriers && e.to !in barriers)
  }

  ghost predicate IsPathIn(g: Graph, path: seq<Name>, from: Name, to: Name) {
    && |path| >= 2 && path[0] == from && path[|path| - 1] == to
    && forall i: nat | i + 1 < |path| :: HasEdge(g, path, i)
  }

  ghost predicate HasEdge(g: Graph, path: seq<Name>, i: nat)
    requires i + 1 < |path|
  {
    Edge(path[i], path[i + 1]) in g.edges
  }

  /** Every path the check reports is a chain of real dependencies that touches no barrier. */
  lemma ReportedIsBypass(ps: Packages, root: Name, barriers: set<Name>, path: seq<Name>, crate: Name)
    requires IsPathIn(Remove(Collected(ps, root), barriers), path, root, crate)
    ensures IsPath(ps, path, root, crate) && forall x | x in path :: x !in barriers
  {
    CollectedGood(ps, root);
    var g := Remove(Collected(ps, root), barriers);
    forall i: nat | i + 1 < |path| ensures Linked(ps, path, i) {
      assert HasEdge(g, path, i);
      assert Edge(path[i], path[i + 1]) in Collected(ps, root).edges;
    }
    forall x | x in path ensures x !in barriers {
      var k :| 0 <= k < |path| && path[k] == x;
      if k == 0 { assert HasEdge(g, path, 0); } else { assert HasEdge(g, path, k - 1); }
    }
  }

  // --- What the check misses ---

  function Needs(name: Name): Dependency {
    Dependency(name, true, false)
  }

  /** The root needs a library and the barrier, and both need the crate. */
  function Diamond(root: Name, lib: Name, barrier: Name, crate: Name): Packages {
    map[root := [Needs(lib), Needs(barrier)], barrier := [Needs(crate)], lib := [Needs(crate)]]
  }

  predicate Distinct(root: Name, lib: Name, barrier: Name, crate: Name) {
    root != lib && root != barrier && root != crate && lib != barrier && lib != crate && barrier != crate
  }

  lemma DiamondEdges(root: Name, lib: Name, barrier: Name, crate: Name)
    requires Distinct(root, lib, barrier, crate)
    ensures var ps := Diamond(root, lib, barrier, crate);
      && NormalEdges(ps, root) == [Edge(root, lib), Edge(root, barrier)]
      && NormalEdges(ps, barrier) == [Edge(barrier, crate)]
      && NormalEdges(ps, lib) == [Edge(lib, crate)]
      && NormalEdges(ps, crate) == []
  {
    var two, one := [Needs(lib), Needs(barrier)], [Needs(crate)];
    assert two[..1] == [Needs(lib)] && [Needs(lib)][..0] == [] && one[..0] == [];
    assert EdgesOf(root, [Needs(lib)]) == [] + [Edge(root, lib)];
    assert EdgesOf(barrier, one) == [] + [Edge(barrier, crate)] && EdgesOf(lib, one) == [] + [Edge(lib, crate)];
  }

  /** The barrier, pushed last, is looked at first. */
  lemma DiamondBarrier(ps: Packages, root: Name, lib: Name, barrier: Name, crate: Name)
    requires NormalEdges(ps, root) == [Edge(root, lib), Edge(root, barrier)]
    requires NormalEdges(ps, barrier) == [Edge(barrier, crate)]
    ensures Targeted(ps, [Edge(root, lib)] + [Edge(barrier, crate)])
    ensures Collected(ps, root) == Explore(ps, AddEdge(EMPTY, Edge(root, barrier)), [Edge(root, lib)] + [Edge(barrier, crate)])
  {
    NormalEdgesTargeted(ps, root);
    assert NormalEdges(ps, root) == [Edge(root, lib)] + [Edge(root, barrier)];
    ExploreAdds(ps, EMPTY, [Edge(root, lib)], Edge(root, barrier));
  }

  /** It leads to the crate. */
  lemma DiamondCrate(ps: Packages, g: Graph, rest: seq<Edge>, e: Edge)
    requires Targeted(ps, rest + [e]) && e.to !in g.nodes && NormalEdges(ps, e.to) == []
    ensures Targeted(ps, rest) && Explore(ps, g, rest + [e]) == Explore(ps, AddEdge(g, e), rest)
  {
    ExploreAdds(ps, g, rest, e);
    assert rest + [] == rest;
  }

  /** The library comes next, and its edge to the crate is dropped. */
  lemma DiamondLibrary(ps: Packages, g: Graph, root: Name, lib: Name, crate: Name)
    requires NormalEdges(ps, lib) == [Edge(lib, crate)] && Targeted(ps, [Edge(root, lib)])
    requires lib !in g.nodes && crate in g.nodes
    ensures Explore(ps, g, [Edge(root, lib)]) == AddEdge(g, Edge(root, lib))
  {
    assert [] + [Edge(root, lib)] == [Edge(root, lib)] && [] + [Edge(lib, crate)] == [Edge(lib, crate)];
    ExploreAdds(ps, g, [], Edge(root, lib));
    ExploreDrops(ps, AddEdge(g, Edge(root, lib)), [], Edge(lib, crate));
  }

  lemma DiamondGraph(ps: Packages, root: Name, lib: Name, barrier: Name, crate: Name)
    requires Distinct(root, lib, barrier, crate)
    requires NormalEdges(ps, root) == [Edge(root, lib), Edge(root, barrier)]
    requires NormalEdges(ps, barrier) == [Edge(barrier, crate)] && NormalEdges(ps, lib) == [Edge(lib, crate)]
    requires NormalEdges(ps, crate) == []
    ensures Collected(ps, root) ==
      AddEdge(AddEdge(AddEdge(EMPTY, Edge(root, barrier)), Edge(barrier, crate)), Edge(root, lib))
  {
    var g := AddEdge(EMPTY, Edge(root, barrier));
    assert lib !in AddEdge(g, Edge(barrier, crate)).nodes && crate !in g.nodes;
    DiamondBarrier(ps, root, lib, barrier, crate);
    DiamondCrate(ps, g, [Edge(root, lib)], Edge(barrier, crate));
    DiamondLibrary(ps, AddEdge(g, Edge(barrier, crate)), root, lib, crate);
  }

  lemma DiamondCollected(root: Name, lib: Name, barrier: Name, crate: Name)
    requires Distinct(root, lib, barrier, crate)
    ensures Collected(Diamond(root, lib, barrier, crate), root).edges == {Edge(root, barrier), Edge(barrier, crate), Edge(root, lib)}
  {
    DiamondEdges(root, lib, barrier, crate);
    DiamondGraph(Diamond(root, lib, barrier, crate), root, lib, barrier, crate);
  }

  lemma ExploreAdds(ps: Packages, g: Graph, rest: seq<Edge>, e: Edge)
    requires Targeted(ps, rest + [e]) && e.to !in g.nodes
    ensures Targeted(ps, rest + NormalEdges(ps, e.to))
    ensures Explore(ps, g, rest + [e]) == Explore(ps, AddEdge(g, e), rest + NormalEdges(ps, e.to))
  {
    assert (rest + [e])[..|rest|] == rest;
    NormalEdgesTargeted(ps, e.to);
    forall d | d in rest ensures d.to in Targets(ps) { assert d in rest + [e]; }
  }

  lemma ExploreDrops(ps: Packages, g: Graph, rest: seq<Edge>, e: Edge)
    requires Targeted(ps, rest + [e]) && e.to in g.nodes
    ensures Targeted(ps, rest) && Explore(ps, g, rest + [e]) == Explore(ps, g, rest)
  {
    assert (rest + [e])[..|rest|] == rest;
    forall d | d in rest ensures d.to in Targets(ps) { assert d in rest + [e]; }
  }

  /** The check is not complete: here the crate can be reached past the barrier, and no path is reported. */
  lemma MissedBypass(root: Name, lib: Name, barrier: Name, crate: Name)
    requires Distinct(root, lib, barrier, crate)
    ensures var ps := Diamond(root, lib, barrier, crate);
      && IsPath(ps, [root, lib, crate], root, crate)
      && forall path :: !IsPathIn(Remove(Collected(ps, root), {barrier}), path, root, crate)
  {
    var ps := Diamond(root, lib, barrier, crate);
    DiamondEdges(root, lib, barrier, crate);
    assert Linked(ps, [root, lib, crate], 0) && Linked(ps, [root, lib, crate], 1);
    DiamondCollected(root, lib, barrier, crate);
    var g := Remove(Collected(ps, root), {barrier});
    forall path ensures !IsPathIn(g, path, root, crate) {
      assert |path| >= 2 && path[|path| - 1] == crate ==> !HasEdge(g, path, |path| - 2);
    }
  }
}
