/**
 * Properties of registration: the controllers' pending dependencies always mirror the graph's
 * edges, a registration that closes a cycle is reported, and one that does not is accepted.
 */
module Registration {
  import opened Types
  import opened DirectedGraph
  import opened Orchestration
  import Lifecycle

  /**
   * An environment that has not been started: every registered service has a fresh controller
   * whose pending set is exactly the service's dependencies in the graph.
   */
  ghost predicate Wired(s: EnvState)
  {
    && Valid(s.graph)
    && (forall x :: x in s.ctrls <==> x in s.graph.nodes)
    && (forall x :: x in s.ctrls ==> s.ctrls[x] == Lifecycle.Fresh().(pending := Preds(s.graph, x)))
    && s.ctx.registry == map[] && !s.ctx.shuttingDown
    && s.listening == {} && s.settled == None && !s.begun && s.stopLog == []
  }

  lemma InitialIsWired(name: string)
    ensures Wired(Initial(name)) && IsAcyclic(Initial(name).graph)
  {
    var s := Initial(name);
    assert IsTopologicalOrder(s.graph, []);
    OrderMeansAcyclic(s.graph, []);
  }

  /** A node that is new has no dependency yet. */
  lemma NewNodeHasNoPreds(g: Graph, n: ServiceId)
    requires Valid(g) && n !in g.nodes
    ensures Preds(g, n) == {}
  {
    forall e | e in g.edges ensures e.to != n {
    }
  }

  lemma AddServiceWired(s: EnvState, id: ServiceId)
    requires Wired(s)
    ensures Wired(AddService(s, id)) && id in AddService(s, id).ctrls
    ensures IsAcyclic(s.graph) ==> IsAcyclic(AddService(s, id).graph)
  {
    if id !in s.graph.nodes {
      NewNodeHasNoPreds(s.graph, id);
    }
    if IsAcyclic(s.graph) {
      AddNodeKeepsAcyclic(s.graph, id);
    }
  }

  /** Adding one dependency keeps the controllers in step with the graph, whether or not it closes a cycle. */
  lemma AddDependencyWired(s: EnvState, id: ServiceId, dep: ServiceId)
    requires Wired(s) && id in s.ctrls
    ensures var (r, err) := AddDependency(s, id, dep);
      && Wired(r) && id in r.ctrls
      && r.graph.edges == s.graph.edges + {Edge(dep, id)}
      && (forall n :: n in r.graph.nodes <==> n in s.graph.nodes || n == dep)
      && (err.None? <==> IsAcyclic(r.graph))
      && (err.Some? ==> err.value == CycleError(id, dep))
  {
    if dep !in s.graph.nodes {
      NewNodeHasNoPreds(s.graph, dep);
    }
    var (r, err) := AddDependency(s, id, dep);
    forall x | x in r.ctrls ensures r.ctrls[x] == Lifecycle.Fresh().(pending := Preds(r.graph, x)) {
      assert Preds(r.graph, x) == if x == id then Preds(s.graph, x) + {dep} else Preds(s.graph, x);
    }
  }

  lemma {:induction false} AddDependenciesWired(s: EnvState, id: ServiceId, deps: seq<ServiceId>)
    requires Wired(s) && id in s.ctrls
    ensures Wired(AddDependencies(s, id, deps).0) && id in AddDependencies(s, id, deps).0.ctrls
    decreases |deps|
  {
    if deps != [] {
      AddDependencyWired(s, id, deps[0]);
      var (s', err) := AddDependency(s, id, deps[0]);
      if err.None? {
        AddDependenciesWired(s', id, deps[1..]);
      }
    }
  }

  /**
   * The dependencies were added in order up to and including deps[k], the first whose edge closed
   * a cycle, and err names it: the graph p holding the edges of the dependencies before deps[k]
   * was still acyclic, r's graph is p with deps[k]'s edge and is cyclic, and r has exactly the
   * edges and nodes of that prefix added to s, and none of the later ones.
   */
  ghost predicate StoppedAt(s: EnvState, r: EnvState, err: Error, id: ServiceId, deps: seq<ServiceId>, k: nat)
    requires k < |deps|
  {
    && err == CycleError(id, deps[k])
    && FirstClosing(s.graph, r.graph, id, deps, k)
    && r.graph.edges == s.graph.edges + (set d | d in deps[..k + 1] :: Edge(d, id))
    && (forall n :: n in r.graph.nodes <==> n in s.graph.nodes || n in deps[..k + 1])
  }

  /**
   * Adding to g the edges of deps[..k] leaves an acyclic graph p, and the edge of deps[k] then
   * turns p into the cyclic graph h.
   */
  ghost predicate FirstClosing(g: Graph, h: Graph, id: ServiceId, deps: seq<ServiceId>, k: nat)
    requires k < |deps|
  {
    && !IsAcyclic(h)
    && exists p :: Closes(g, p, h, id, deps, k)
  }

  ghost predicate Closes(g: Graph, p: Graph, h: Graph, id: ServiceId, deps: seq<ServiceId>, k: nat)
    requires k < |deps|
  {
    && Valid(p) && IsAcyclic(p)
    && p.edges == g.edges + (set d | d in deps[..k] :: Edge(d, id))
    && h == AddEdge(p, deps[k], id)
  }

  /**
   * Adding the dependencies succeeds exactly when the resulting graph is acyclic; on success
   * every declared dependency is an edge. On failure the dependencies were added in order up
   * to the first one whose edge closed the cycle: the error names it, its edge and those of the
   * earlier ones stay in the graph, and the later ones were not added.
   */
  lemma {:induction false} AddDependenciesGraph(s: EnvState, id: ServiceId, deps: seq<ServiceId>)
    requires Valid(s.graph) && IsAcyclic(s.graph) && id in s.graph.nodes
    ensures var (r, err) := AddDependencies(s, id, deps);
      && (err.None? <==> IsAcyclic(r.graph))
      && (err.None? ==> r.graph.edges == s.graph.edges + (set d | d in deps :: Edge(d, id)))
      && (err.None? ==> forall n :: n in r.graph.nodes <==> n in s.graph.nodes || n in deps)
      && (err.Some? ==> exists k :: 0 <= k < |deps| && StoppedAt(s, r, err.value, id, deps, k))
    decreases |deps|
  {
    if deps != [] {
      var (s', err) := AddDependency(s, id, deps[0]);
      assert s'.graph == AddEdge(s.graph, deps[0], id);
      if err.None? {
        AddDependenciesGraph(s', id, deps[1..]);
        var (r, err') := AddDependencies(s', id, deps[1..]);
        assert AddDependencies(s, id, deps) == (r, err');
        if err'.None? {
          SucceededLater(s, s', r, id, deps);
        } else {
          Later(s, s', id, deps);
        }
      } else {
        assert !IsAcyclic(s'.graph);
        StoppedFirst(s, s', err.value, id, deps);
        assert AddDependencies(s, id, deps) == (s', err);
      }
    }
  }

  /** Success for the later dependencies, the first one having been added. */
  lemma SucceededLater(s: EnvState, s': EnvState, r: EnvState, id: ServiceId, deps: seq<ServiceId>)
    requires deps != [] && s'.graph == AddEdge(s.graph, deps[0], id) && id in s.graph.nodes
    requires r.graph.edges == s'.graph.edges + (set d | d in deps[1..] :: Edge(d, id))
    requires forall n :: n in r.graph.nodes <==> n in s'.graph.nodes || n in deps[1..]
    ensures r.graph.edges == s.graph.edges + (set d | d in deps :: Edge(d, id))
    ensures forall n :: n in r.graph.nodes <==> n in s.graph.nodes || n in deps
  {
    assert forall d :: d in deps <==> d == deps[0] || d in deps[1..];
  }

  /** A failure among the later dependencies, the first one having been added. */
  lemma Later(s: EnvState, s': EnvState, id: ServiceId, deps: seq<ServiceId>)
    requires id in s.graph.nodes && deps != []
    requires (s', None) == AddDependency(s, id, deps[0])
    requires var (r, err) := AddDependencies(s', id, deps[1..]);
      err.Some? ==> exists k :: 0 <= k < |deps[1..]| && StoppedAt(s', r, err.value, id, deps[1..], k)
    ensures var (r, err) := AddDependencies(s, id, deps);
      err.Some? ==> exists k :: 0 <= k < |deps| && StoppedAt(s, r, err.value, id, deps, k)
  {
    var (r, err) := AddDependencies(s', id, deps[1..]);
    assert AddDependencies(s, id, deps) == (r, err);
    if err.Some? {
      var k :| 0 <= k < |deps[1..]| && StoppedAt(s', r, err.value, id, deps[1..], k);
      StoppedLater(s, s', r, err.value, id, deps, k);
    }
  }

  lemma StoppedFirst(s: EnvState, r: EnvState, err: Error, id: ServiceId, deps: seq<ServiceId>)
    requires Valid(s.graph) && IsAcyclic(s.graph) && id in s.graph.nodes
    requires deps != [] && r.graph == AddEdge(s.graph, deps[0], id) && err == CycleError(id, deps[0])
    requires !IsAcyclic(r.graph)
    ensures StoppedAt(s, r, err, id, deps, 0)
  {
    assert deps[..1] == [deps[0]];
    assert (set d | d in deps[..1] :: Edge(d, id)) == {Edge(deps[0], id)};
    assert (set d | d in deps[..0] :: Edge(d, id)) == {};
    assert Closes(s.graph, s.graph, r.graph, id, deps, 0);
  }

  lemma StoppedLater(s: EnvState, s': EnvState, r: EnvState, err: Error, id: ServiceId, deps: seq<ServiceId>, k: nat)
    requires id in s.graph.nodes
    requires deps != [] && s'.graph == AddEdge(s.graph, deps[0], id)
    requires k < |deps[1..]| && StoppedAt(s', r, err, id, deps[1..], k)
    ensures StoppedAt(s, r, err, id, deps, k + 1)
  {
    assert deps[1..][k] == deps[k + 1];
    ShapeLater(s, s', r, id, deps, k);
    ClosingLater(s.graph, s'.graph, r.graph, id, deps, k);
  }

  /** The edges and nodes of a prefix, the first dependency having been added before it. */
  lemma ShapeLater(s: EnvState, s': EnvState, r: EnvState, id: ServiceId, deps: seq<ServiceId>, k: nat)
    requires id in s.graph.nodes
    requires deps != [] && s'.graph == AddEdge(s.graph, deps[0], id) && k < |deps[1..]|
    requires r.graph.edges == s'.graph.edges + (set d | d in deps[1..][..k + 1] :: Edge(d, id))
    requires forall n :: n in r.graph.nodes <==> n in s'.graph.nodes || n in deps[1..][..k + 1]
    ensures r.graph.edges == s.graph.edges + (set d | d in deps[..k + 2] :: Edge(d, id))
    ensures forall n :: n in r.graph.nodes <==> n in s.graph.nodes || n in deps[..k + 2]
  {
    var p, p' := deps[..k + 2], deps[1..][..k + 1];
    assert forall i :: 0 <= i < |p'| ==> p'[i] == p[i + 1];
    assert forall d :: d in p <==> d == deps[0] || d in p' by {
      forall d | d in p ensures d == deps[0] || d in p' {
        var i :| 0 <= i < |p| && p[i] == d;
        if i > 0 { assert p'[i - 1] == d; }
      }
      forall d | d in p' ensures d in p {
        var i :| 0 <= i < |p'| && p'[i] == d;
        assert p[i + 1] == d;
      }
      assert p[0] == deps[0];
    }
    assert (set d | d in p :: Edge(d, id)) == {Edge(deps[0], id)} + (set d | d in p' :: Edge(d, id));
  }

  /** deps[1..][k] closing the cycle first after deps[0] means deps[k + 1] closes it first in deps. */
  lemma ClosingLater(g: Graph, g': Graph, h: Graph, id: ServiceId, deps: seq<ServiceId>, k: nat)
    requires deps != [] && g' == AddEdge(g, deps[0], id) && k < |deps[1..]|
    requires FirstClosing(g', h, id, deps[1..], k)
    ensures FirstClosing(g, h, id, deps, k + 1)
  {
    assert deps[1..][k] == deps[k + 1];
    PrefixEdges(deps, k + 1, id);
    var p :| Closes(g', p, h, id, deps[1..], k);
    assert g'.edges == g.edges + {Edge(deps[0], id)};
    assert Closes(g, p, h, id, deps, k + 1);
  }

  /** The edges of a non-empty prefix of deps: that of deps[0], and those of the rest of the prefix. */
  lemma PrefixEdges(deps: seq<ServiceId>, j: nat, id: ServiceId)
    requires 0 < j <= |deps|
    ensures (set d | d in deps[..j] :: Edge(d, id)) == {Edge(deps[0], id)} + (set d | d in deps[1..][..j - 1] :: Edge(d, id))
  {
    var p, p' := deps[..j], deps[1..][..j - 1];
    assert forall i :: 0 <= i < |p'| ==> p'[i] == p[i + 1];
    assert forall d :: d in p <==> d == deps[0] || d in p' by {
      forall d | d in p ensures d == deps[0] || d in p' {
        var i :| 0 <= i < |p| && p[i] == d;
        if i > 0 { assert p'[i - 1] == d; }
      }
      forall d | d in p' ensures d in p {
        var i :| 0 <= i < |p'| && p'[i] == d;
        assert p[i + 1] == d;
      }
      assert p[0] == deps[0];
    }
  }

  /** The registration of an unstarted environment. */
  lemma RegisterCorrect(s: EnvState, id: ServiceId, deps: seq<ServiceId>)
    requires Wired(s) && IsAcyclic(s.graph)
    ensures var (r, err) := Register(s, id, deps);
      && Wired(r) && id in r.ctrls
      && (err.None? <==> IsAcyclic(r.graph))
      && (err.None? ==> r.graph.edges == s.graph.edges + (set d | d in deps :: Edge(d, id)))
      && (err.None? ==> forall n :: n in r.graph.nodes <==> n in s.graph.nodes || n == id || n in deps)
      && (err.Some? ==> exists k :: 0 <= k < |deps| && RegisteredUpTo(s, r, err.value, id, deps, k))
  {
    var s1 := AddService(s, id);
    AddServiceWired(s, id);
    AddDependenciesWired(s1, id, deps);
    AddDependenciesGraph(s1, id, deps);
    var (r, err) := Register(s, id, deps);
    if err.Some? {
      var k :| 0 <= k < |deps| && StoppedAt(s1, r, err.value, id, deps, k);
      RegisteredPrefix(s, s1, r, err.value, id, deps, k);
    }
  }

  /**
   * The registration stopped at deps[k], the first dependency whose edge closed a cycle: the error
   * names it, the edges of the earlier ones left the graph acyclic, and r has the service's node,
   * and the nodes and edges of deps up to and including deps[k], added to s.
   */
  ghost predicate RegisteredUpTo(s: EnvState, r: EnvState, err: Error, id: ServiceId, deps: seq<ServiceId>, k: nat)
    requires k < |deps|
  {
    && err == CycleError(id, deps[k])
    && FirstClosing(s.graph, r.graph, id, deps, k)
    && r.graph.edges == s.graph.edges + (set d | d in deps[..k + 1] :: Edge(d, id))
    && (forall n :: n in r.graph.nodes <==> n in s.graph.nodes || n == id || n in deps[..k + 1])
  }

  lemma RegisteredPrefix(s: EnvState, s1: EnvState, r: EnvState, err: Error, id: ServiceId, deps: seq<ServiceId>, k: nat)
    requires s1 == AddService(s, id) && k < |deps| && StoppedAt(s1, r, err, id, deps, k)
    ensures RegisteredUpTo(s, r, err, id, deps, k)
  {
    var g :| Closes(s1.graph, g, r.graph, id, deps, k);
    assert Closes(s.graph, g, r.graph, id, deps, k);
  }

  /** A service may not depend on itself. */
  lemma SelfDependencyRejected(s: EnvState, id: ServiceId)
    requires Wired(s)
    ensures Register(s, id, [id]).1 == Some(CycleError(id, id))
  {
    AddServiceWired(s, id);
    var s' := AddService(s, id);
    AddDependencyWired(s', id, id);
    var r := AddDependency(s', id, id).0;
    MutualDependencyIsCycle(r.graph, id, id);
  }

  /** Declaring that a service depends on one of its dependents is rejected. */
  lemma MutualDependencyRejected(s: EnvState, id: ServiceId, dep: ServiceId)
    requires Wired(s) && id in s.ctrls && Edge(id, dep) in s.graph.edges
    ensures AddDependency(s, id, dep).1 == Some(CycleError(id, dep))
  {
    AddDependencyWired(s, id, dep);
    var r := AddDependency(s, id, dep).0;
    MutualDependencyIsCycle(r.graph, id, dep);
  }
}
