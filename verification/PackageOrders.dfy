/**
 * When the bypass check finds every bypass. The collected graph is a spanning tree, so the check sees one path to
 * each package; which one depends on the order in which packages list their dependencies.
 */
module PackageOrders {
  import opened Prelude
  import opened PackageGraph

  ghost predicate Simple(path: seq<Name>) {
    forall i, j | 0 <= i < j < |path| :: path[i] != path[j]
  }

  ghost predicate Clear(path: seq<Name>, barriers: set<Name>) {
    forall x | x in path :: x !in barriers
  }

  // --- The spanning tree ---

  ghost predicate IsTreePath(g: Graph, path: seq<Name>, root: Name, x: Name) {
    IsPathIn(g, path, root, x) && Simple(path) && forall y | y in path :: y in g.nodes
  }

  /** Every collected package but the root is reached from it along collected edges. */
  ghost predicate Spans(g: Graph, root: Name) {
    forall x | x in g.nodes && x != root :: exists path :: IsTreePath(g, path, root, x)
  }

  lemma TreePathGrows(g: Graph, e: Edge, path: seq<Name>, root: Name, x: Name)
    requires IsTreePath(g, path, root, x)
    ensures IsTreePath(AddEdge(g, e), path, root, x)
  {
    forall i: nat | i + 1 < |path| ensures HasEdge(AddEdge(g, e), path, i) { assert HasEdge(g, path, i); }
  }

  /** A path to where the edge starts, and the edge. */
  lemma TreePathExtends(g: Graph, e: Edge, path: seq<Name>, root: Name)
    requires IsTreePath(g, path, root, e.from) && e.to !in g.nodes
    ensures IsTreePath(AddEdge(g, e), path + [e.to], root, e.to)
  {
    var longer := path + [e.to];
    forall i: nat | i + 1 < |longer| ensures HasEdge(AddEdge(g, e), longer, i) {
      if i + 1 < |path| { assert HasEdge(g, path, i); }
    }
    forall i | 0 <= i < |path| ensures path[i] != e.to { assert path[i] in path; }
  }

  lemma AddSpans(g: Graph, root: Name, e: Edge)
    requires Spans(g, root) && e.to !in g.nodes && (e.from == root || e.from in g.nodes)
    ensures Spans(AddEdge(g, e), root)
  {
    var g' := AddEdge(g, e);
    forall x | x in g'.nodes && x != root ensures exists path :: IsTreePath(g', path, root, x) {
      if x in g.nodes {
        var path :| IsTreePath(g, path, root, x);
        TreePathGrows(g, e, path, root, x);
      } else if e.from == root {
        assert HasEdge(g', [root, x], 0);
        assert IsTreePath(g', [root, x], root, x);
      } else {
        var path :| IsTreePath(g, path, root, e.from);
        TreePathExtends(g, e, path, root);
      }
    }
  }

  lemma {:induction false} ExploreSpans(ps: Packages, root: Name, g: Graph, stack: seq<Edge>)
    requires Targeted(ps, stack) && Good(ps, root, g, stack) && Spans(g, root)
    ensures Spans(Explore(ps, g, stack), root)
    decreases Targets(ps) - g.nodes, stack
  {
    if stack == [] {
    } else {
      var e, rest := stack[|stack| - 1], stack[..|stack| - 1];
      if e.to in g.nodes {
        PopKeepsGood(ps, root, g, stack);
        ExploreSpans(ps, root, g, rest);
      } else {
        AddKeepsGood(ps, root, g, stack);
        NormalEdgesTargeted(ps, e.to);
        assert OnTrack(ps, root, g, e);
        AddSpans(g, root, e);
        ExploreSpans(ps, root, AddEdge(g, e), rest + NormalEdges(ps, e.to));
      }
    }
  }

  /** The collected graph is a spanning tree: a path to every package, and at most one edge into each. */
  lemma CollectedSpans(ps: Packages, root: Name)
    ensures Spans(Collected(ps, root), root) && OneWayIn(Collected(ps, root))
  {
    NormalEdgesTargeted(ps, root);
    ExploreSpans(ps, root, EMPTY, NormalEdges(ps, root));
    CollectedGood(ps, root);
  }

  // --- When the check is complete ---

  /** A simple path that the check reports. */
  ghost predicate Reports(ps: Packages, root: Name, barriers: set<Name>, crate: Name) {
    exists path :: IsPathIn(Remove(Collected(ps, root), barriers), path, root, crate) && Simple(path)
  }

  ghost predicate HasBypass(ps: Packages, root: Name, barriers: set<Name>, crate: Name) {
    exists path :: IsPath(ps, path, root, crate) && Clear(path, barriers)
  }

  /** Some simple chain of dependencies to the crate goes through a barrier. */
  ghost predicate PassesBarrier(ps: Packages, root: Name, barriers: set<Name>, crate: Name) {
    exists path :: IsPath(ps, path, root, crate) && Simple(path) && !Clear(path, barriers)
  }

  lemma ReportsAreBypasses(ps: Packages, root: Name, barriers: set<Name>, crate: Name)
    requires Reports(ps, root, barriers, crate)
    ensures HasBypass(ps, root, barriers, crate)
  {
    var path :| IsPathIn(Remove(Collected(ps, root), barriers), path, root, crate) && Simple(path);
    ReportedIsBypass(ps, root, barriers, path, crate);
  }

  /** Collected edges are dependencies. */
  lemma TreePathIsPath(ps: Packages, root: Name, path: seq<Name>, x: Name)
    requires IsPathIn(Collected(ps, root), path, root, x)
    ensures IsPath(ps, path, root, x)
  {
    CollectedGood(ps, root);
    forall i: nat | i + 1 < |path| ensures Linked(ps, path, i) {
      assert HasEdge(Collected(ps, root), path, i);
    }
  }

  lemma ClearPathRemains(g: Graph, barriers: set<Name>, path: seq<Name>, root: Name, x: Name)
    requires IsPathIn(g, path, root, x) && Clear(path, barriers)
    ensures IsPathIn(Remove(g, barriers), path, root, x)
  {
    forall i: nat | i + 1 < |path| ensures HasEdge(Remove(g, barriers), path, i) {
      assert HasEdge(g, path, i);
      assert path[i] in path && path[i + 1] in path;
    }
  }

  /** If no simple chain to the crate passes a barrier, the check reports it exactly when it is reached at all. */
  lemma CompleteWithoutPass(ps: Packages, root: Name, barriers: set<Name>, crate: Name)
    requires root != crate && !PassesBarrier(ps, root, barriers, crate)
    ensures Reports(ps, root, barriers, crate) <==> Reaches(ps, root, crate)
    ensures HasBypass(ps, root, barriers, crate) <==> Reaches(ps, root, crate)
  {
    if Reaches(ps, root, crate) {
      CollectedNodes(ps, root, crate);
      CollectedSpans(ps, root);
      var g := Collected(ps, root);
      var path :| IsTreePath(g, path, root, crate);
      TreePathIsPath(ps, root, path, crate);
      ClearPathRemains(g, barriers, path, root, crate);
    }
    if Reports(ps, root, barriers, crate) { ReportsAreBypasses(ps, root, barriers, crate); }
  }

  // --- Orders of listing ---

  /** The same packages with the same dependencies, listed in any order. */
  ghost predicate Reordered(ps: Packages, qs: Packages) {
    ps.Keys == qs.Keys && forall p | p in ps :: multiset(ps[p]) == multiset(qs[p])
  }

  lemma SameEdges(ps: Packages, qs: Packages, e: Edge)
    requires Reordered(ps, qs)
    ensures e in NormalEdges(ps, e.from) <==> e in NormalEdges(qs, e.from)
  {
    if e.from in ps {
      var a, b := ps[e.from], qs[e.from];
      assert forall d :: d in a <==> d in multiset(a);
      assert forall d :: d in b <==> d in multiset(b);
      assert e == Edge(e.from, e.to);
    }
  }

  lemma SamePaths(ps: Packages, qs: Packages, path: seq<Name>, from: Name, to: Name)
    requires Reordered(ps, qs) && IsPath(ps, path, from, to)
    ensures IsPath(qs, path, from, to)
  {
    forall i: nat | i + 1 < |path| ensures Linked(qs, path, i) {
      assert Linked(ps, path, i);
      SameEdges(ps, qs, Edge(path[i], path[i + 1]));
    }
  }

  lemma SameBypasses(ps: Packages, qs: Packages, root: Name, barriers: set<Name>, crate: Name)
    requires Reordered(ps, qs)
    ensures HasBypass(ps, root, barriers, crate) ==> HasBypass(qs, root, barriers, crate)
    ensures PassesBarrier(ps, root, barriers, crate) ==> PassesBarrier(qs, root, barriers, crate)
  {
    if HasBypass(ps, root, barriers, crate) {
      var path :| IsPath(ps, path, root, crate) && Clear(path, barriers);
      SamePaths(ps, qs, path, root, crate);
    }
    if PassesBarrier(ps, root, barriers, crate) {
      var path :| IsPath(ps, path, root, crate) && Simple(path) && !Clear(path, barriers);
      SamePaths(ps, qs, path, root, crate);
    }
  }

  /** `d` is a normal dependency on `name`. */
  predicate Wanted(d: Dependency, name: Name) {
    d.name == name && d.normal && !d.targeted
  }

  /** A normal dependency on `name` moved to the end of the list, if there is one. */
  ghost function MoveLast(deps: seq<Dependency>, name: Name): (r: seq<Dependency>)
    ensures multiset(r) == multiset(deps)
    ensures (exists d | d in deps :: Wanted(d, name)) ==> r != [] && Wanted(r[|r| - 1], name)
  {
    if exists j | 0 <= j < |deps| :: Wanted(deps[j], name) then
      var j :| 0 <= j < |deps| && Wanted(deps[j], name);
      assert deps == deps[..j] + [deps[j]] + deps[j + 1..];
      deps[..j] + deps[j + 1..] + [deps[j]]
    else deps
  }

  /** The package after `p` on the path. */
  ghost function NextOn(path: seq<Name>, p: Name): Option<Name> {
    if exists i | 0 <= i < |path| - 1 :: path[i] == p then
      var i :| 0 <= i < |path| - 1 && path[i] == p;
      Some(path[i + 1])
    else None
  }

  /** Every package on the path lists the next one last. */
  ghost function Along(ps: Packages, path: seq<Name>): Packages {
    map p | p in ps :: match NextOn(path, p) case Some(q) => MoveLast(ps[p], q) case None => ps[p]
  }

  lemma AlongReorders(ps: Packages, path: seq<Name>)
    ensures Reordered(ps, Along(ps, path))
  {}

  ghost predicate LeadsOn(ps: Packages, path: seq<Name>, i: nat)
    requires i + 1 < |path|
  {
    var es := NormalEdges(ps, path[i]);
    es != [] && es[|es| - 1] == Edge(path[i], path[i + 1])
  }

  lemma AlongLeads(ps: Packages, path: seq<Name>, from: Name, to: Name, i: nat)
    requires IsPath(ps, path, from, to) && Simple(path) && i + 1 < |path|
    ensures LeadsOn(Along(ps, path), path, i)
  {
    var p, q := path[i], path[i + 1];
    assert Linked(ps, path, i);
    assert NextOn(path, p) == Some(q);
    var d :| d in ps[p] && Wanted(d, q);
    var deps := MoveLast(ps[p], q);
    assert Along(ps, path)[p] == deps && Wanted(deps[|deps| - 1], q);
  }

  // --- The worklist follows such an order ---

  lemma {:induction false} ExploreGrows(ps: Packages, g: Graph, stack: seq<Edge>)
    requires Targeted(ps, stack)
    ensures g.edges <= Explore(ps, g, stack).edges
    decreases Targets(ps) - g.nodes, stack
  {
    if stack == [] {
    } else {
      var e, rest := stack[|stack| - 1], stack[..|stack| - 1];
      if e.to in g.nodes {
        ExploreGrows(ps, g, rest);
      } else {
        NormalEdgesTargeted(ps, e.to);
        ExploreGrows(ps, AddEdge(g, e), rest + NormalEdges(ps, e.to));
      }
    }
  }

  /** With the edges of package `i` of the path on top of the stack and the rest of the path not met yet. */
  ghost predicate Ahead(ps: Packages, g: Graph, stack: seq<Edge>, path: seq<Name>, i: nat)
    requires i < |path|
  {
    && Targeted(ps, stack) && Simple(path)
    && (forall j: nat | j + 1 < |path| :: LeadsOn(ps, path, j))
    && (forall j | i < j < |path| :: path[j] !in g.nodes)
    && (i + 1 < |path| ==> stack != [] && stack[|stack| - 1] == Edge(path[i], path[i + 1]))
  }

  lemma StepAhead(ps: Packages, g: Graph, stack: seq<Edge>, path: seq<Name>, i: nat)
    requires i + 1 < |path| && Ahead(ps, g, stack, path, i)
    ensures var e, rest := stack[|stack| - 1], stack[..|stack| - 1];
      Ahead(ps, AddEdge(g, e), rest + NormalEdges(ps, e.to), path, i + 1)
  {
    var e, rest := stack[|stack| - 1], stack[..|stack| - 1];
    NormalEdgesTargeted(ps, e.to);
    forall d | d in rest ensures d.to in Targets(ps) { assert d in stack; }
    if i + 2 < |path| { assert LeadsOn(ps, path, i + 1); }
  }

  /** The top edge is added, and stays. */
  lemma TopEdgeStays(ps: Packages, g: Graph, rest: seq<Edge>, e: Edge)
    requires Targeted(ps, rest + [e]) && e.to !in g.nodes
    ensures Targeted(ps, rest + NormalEdges(ps, e.to))
    ensures Explore(ps, g, rest + [e]) == Explore(ps, AddEdge(g, e), rest + NormalEdges(ps, e.to))
    ensures e in Explore(ps, g, rest + [e]).edges
  {
    ExploreAdds(ps, g, rest, e);
    ExploreGrows(ps, AddEdge(g, e), rest + NormalEdges(ps, e.to));
  }

  lemma {:induction false} FollowsPath(ps: Packages, g: Graph, stack: seq<Edge>, path: seq<Name>, i: nat, k: nat)
    requires i < |path| && Ahead(ps, g, stack, path, i) && i <= k && k + 1 < |path|
    ensures HasEdge(Explore(ps, g, stack), path, k)
    decreases |path| - i
  {
    var e, rest := stack[|stack| - 1], stack[..|stack| - 1];
    assert stack == rest + [e];
    TopEdgeStays(ps, g, rest, e);
    if i == k {
    } else {
      StepAhead(ps, g, stack, path, i);
      FollowsPath(ps, AddEdge(g, e), rest + NormalEdges(ps, e.to), path, i + 1, k);
    }
  }

  /** So the whole path is collected. */
  lemma CollectsPath(ps: Packages, path: seq<Name>, root: Name, crate: Name)
    requires IsPath(ps, path, root, crate) && Simple(path)
    ensures IsPathIn(Collected(Along(ps, path), root), path, root, crate)
  {
    var qs := Along(ps, path);
    NormalEdgesTargeted(qs, root);
    forall i: nat | i + 1 < |path| ensures LeadsOn(qs, path, i) { AlongLeads(ps, path, root, crate, i); }
    assert LeadsOn(qs, path, 0);
    assert Ahead(qs, EMPTY, NormalEdges(qs, root), path, 0);
    forall k: nat | k + 1 < |path| ensures HasEdge(Collected(qs, root), path, k) {
      FollowsPath(qs, EMPTY, NormalEdges(qs, root), path, 0, k);
    }
  }

  /** With one edge into each package, a path from the root to the same end runs backwards along the collected one. */
  lemma {:induction false} Backwards(g: Graph, path: seq<Name>, other: seq<Name>, root: Name, crate: Name, t: nat)
    requires OneWayIn(g) && Simple(path) && IsPathIn(g, path, root, crate) && IsPathIn(g, other, root, crate)
    requires t < |path|
    ensures t < |other| && other[|other| - 1 - t] == path[|path| - 1 - t]
  {
    if t == 0 {
    } else {
      Backwards(g, path, other, root, crate, t - 1);
      assert HasEdge(g, path, |path| - 1 - t);
      assert path[0] != path[|path| - t];
      if t < |other| { assert HasEdge(g, other, |other| - 1 - t); }
    }
  }

  /** What is left after removing the barriers is part of the graph and touches none of them. */
  lemma RemainingPath(g: Graph, barriers: set<Name>, path: seq<Name>, root: Name, x: Name)
    requires IsPathIn(Remove(g, barriers), path, root, x)
    ensures IsPathIn(g, path, root, x) && Clear(path, barriers)
  {
    var rest := Remove(g, barriers);
    forall i: nat | i + 1 < |path| ensures HasEdge(g, path, i) { assert HasEdge(rest, path, i); }
    forall k | 0 <= k < |path| ensures path[k] !in barriers {
      if k == 0 { assert HasEdge(rest, path, 0); } else { assert HasEdge(rest, path, k - 1); }
    }
  }

  lemma NotReported(g: Graph, barriers: set<Name>, path: seq<Name>, other: seq<Name>, root: Name, crate: Name)
    requires OneWayIn(g) && Simple(path) && IsPathIn(g, path, root, crate) && !Clear(path, barriers)
    ensures !IsPathIn(Remove(g, barriers), other, root, crate)
  {
    if IsPathIn(Remove(g, barriers), other, root, crate) {
      RemainingPath(g, barriers, other, root, crate);
      var b :| 0 <= b < |path| && path[b] in barriers;
      Backwards(g, path, other, root, crate, |path| - 1 - b);
      assert false;
    }
  }

  /** A chain through a barrier can be listed so that the crate is met through it, and nothing is reported. */
  lemma Hides(ps: Packages, root: Name, barriers: set<Name>, crate: Name, path: seq<Name>)
    requires IsPath(ps, path, root, crate) && Simple(path) && !Clear(path, barriers)
    ensures Reordered(ps, Along(ps, path)) && !Reports(Along(ps, path), root, barriers, crate)
  {
    var qs := Along(ps, path);
    AlongReorders(ps, path);
    CollectsPath(ps, path, root, crate);
    CollectedSpans(qs, root);
    forall other ensures !IsPathIn(Remove(Collected(qs, root), barriers), other, root, crate) {
      NotReported(Collected(qs, root), barriers, path, other, root, crate);
    }
  }

  /** However the packages list their dependencies, the check reports exactly when there is a bypass. */
  ghost predicate AlwaysFinds(ps: Packages, root: Name, barriers: set<Name>, crate: Name) {
    forall qs | Reordered(ps, qs) :: Reports(qs, root, barriers, crate) <==> HasBypass(qs, root, barriers, crate)
  }

  lemma FindsInOrder(ps: Packages, qs: Packages, root: Name, barriers: set<Name>, crate: Name)
    requires root != crate && Reordered(ps, qs)
    requires !HasBypass(ps, root, barriers, crate) || !PassesBarrier(ps, root, barriers, crate)
    ensures Reports(qs, root, barriers, crate) <==> HasBypass(qs, root, barriers, crate)
  {
    assert Reordered(qs, ps);
    SameBypasses(qs, ps, root, barriers, crate);
    if Reports(qs, root, barriers, crate) { ReportsAreBypasses(qs, root, barriers, crate); }
    if !PassesBarrier(qs, root, barriers, crate) { CompleteWithoutPass(qs, root, barriers, crate); }
  }

  /**
   * The check finds every bypass in every order of listing exactly when there is none, or no simple chain of
   * dependencies to the crate goes through a barrier.
   */
  lemma CompleteExactly(ps: Packages, root: Name, barriers: set<Name>, crate: Name)
    requires root != crate
    ensures AlwaysFinds(ps, root, barriers, crate) <==>
      !HasBypass(ps, root, barriers, crate) || !PassesBarrier(ps, root, barriers, crate)
  {
    if HasBypass(ps, root, barriers, crate) && PassesBarrier(ps, root, barriers, crate) {
      var path :| IsPath(ps, path, root, crate) && Simple(path) && !Clear(path, barriers);
      Hides(ps, root, barriers, crate, path);
      SameBypasses(ps, Along(ps, path), root, barriers, crate);
    } else {
      forall qs | Reordered(ps, qs) ensures Reports(qs, root, barriers, crate) <==> HasBypass(qs, root, barriers, crate) {
        FindsInOrder(ps, qs, root, barriers, crate);
      }
    }
  }
}
