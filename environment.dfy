/**
 * The mutable objects of the orchestration kernel: the ServiceGraph, which holds the dependency
 * graph and a controller per registered id, and the Environment, which registers services,
 * starts them in dependency order and stops them in reverse order. Each state-changing method
 * is proved to perform the corresponding step of the Orchestration module on the abstract
 * value `Abs()`, so the properties proved there hold of these objects.
 */
module Env {
  import opened Types
  import opened DirectedGraph
  import Lifecycle
  import Orchestration
  import Controller
  import Registration
  import Startup

  type ServiceController = Controller.ServiceController

  function Ids(services: seq<Service>): (ids: seq<ServiceId>)
    ensures |ids| == |services| && forall i :: 0 <= i < |ids| ==> ids[i] == services[i].id
  {
    seq(|services|, i requires 0 <= i < |services| => services[i].id)
  }

  /** The controllers of sg as values. */
  ghost function ViewsOf(sg: ServiceGraph): map<ServiceId, Lifecycle.Ctrl>
    requires sg.Valid()
    reads sg, sg.Repr
  {
    map x | x in sg.ctrls :: sg.ctrls[x].View()
  }

  /** When only the controller of y changed, only y's view changed. */
  twostate lemma OneChanged(sg: ServiceGraph, new y: ServiceId)
    requires unchanged(sg) && old(sg.Valid()) && y in old(sg.ctrls)
    requires forall o: object :: o in old(sg.Repr) && o != old(sg.ctrls[y]) ==> unchanged(o)
    ensures sg.Valid()
    ensures ViewsOf(sg) == old(ViewsOf(sg))[y := sg.ctrls[y].View()]
  {
    forall z | z in sg.ctrls && z != y ensures sg.ctrls[z].View() == old(sg.ctrls[z].View()) {
      assert sg.ctrls[z].Id() != sg.ctrls[y].Id();
    }
  }

  /** When no controller changed, no view changed. */
  twostate lemma NoneChanged(sg: ServiceGraph)
    requires unchanged(sg) && old(sg.Valid())
    requires forall o: object :: o in old(sg.Repr) ==> unchanged(o)
    ensures sg.Valid() && ViewsOf(sg) == old(ViewsOf(sg))
  {
  }

  /** When c is put under y and no controller changed, only y's view changed. */
  twostate lemma OneAdded(sg: ServiceGraph, new y: ServiceId, new c: ServiceController)
    requires old(sg.Valid()) && sg.Valid()
    requires sg.ctrls == old(sg.ctrls)[y := c] && sg.Repr == old(sg.Repr) + {c}
    requires forall o: object :: o in old(sg.Repr) ==> unchanged(o)
    ensures ViewsOf(sg) == old(ViewsOf(sg))[y := c.View()]
  {
    ghost var v0, v1 := old(ViewsOf(sg)), ViewsOf(sg);
    forall z | z in v1 && z != y ensures v1[z] == v0[z] {
      assert old(sg.ctrls[z]) in old(sg.Repr);
    }
    Overwritten(v0, v1, y, c.View());
  }

  /** v1 is v0 with y mapped to u. */
  lemma Overwritten<K, V>(v0: map<K, V>, v1: map<K, V>, y: K, u: V)
    requires v1.Keys == v0.Keys + {y} && v1[y] == u
    requires forall z :: z in v1 && z != y ==> v1[z] == v0[z]
    ensures v1 == v0[y := u]
  {
  }

  /** The controllers once id depends on dep, dv being dep's controller. */
  lemma DependencyCtrlsAre(v: map<ServiceId, Lifecycle.Ctrl>, id: ServiceId, dep: ServiceId, dv: Lifecycle.Ctrl)
    requires id in v && dv == (if dep in v then v[dep] else Lifecycle.Fresh())
    ensures Orchestration.DependencyCtrls(v, id, dep) == v[dep := dv][id := Lifecycle.WithDependency(v[id], dep)]
  {
    if dep in v {
      assert v[dep := dv] == v;
    }
  }

  lemma ElemsSnoc(q: seq<ServiceId>, i: nat)
    requires i < |q|
    ensures Orchestration.Elems(q[..i + 1]) == Orchestration.Elems(q[..i]) + {q[i]}
  {
    assert q[..i + 1] == q[..i] + [q[i]];
  }

  lemma StartAllStep(v: map<ServiceId, Lifecycle.Ctrl>, rs: set<ServiceId>, y: ServiceId)
    requires y in v
    ensures Orchestration.StartAll(v, rs + {y})
         == Orchestration.StartAll(v, rs)[y := Lifecycle.Start(Orchestration.StartAll(v, rs)[y])]
  {
  }

  lemma NotifyAllStep(v: map<ServiceId, Lifecycle.Ctrl>, ds: set<ServiceId>, y: ServiceId, meta: Metadata, sd: bool)
    requires y in v && y !in ds
    ensures Orchestration.NotifyAll(v, ds + {y}, meta, sd)
         == Orchestration.NotifyAll(v, ds, meta, sd)[y := Lifecycle.DependencyStarted(v[y], meta, sd)]
  {
  }

  class ServiceGraph {
    var graph: Graph
    var ctrls: map<ServiceId, ServiceController>
    /** The controllers held, so that frames can name them. */
    ghost var Repr: set<ServiceController>

    /**
     * The graph is valid, its nodes are exactly the ids with a controller, each wrapping a
     * service of that id.
     */
    ghost predicate Valid()
      reads this
    {
      && DirectedGraph.Valid(graph)
      && (forall x :: x in ctrls <==> x in graph.nodes)
      && (forall x :: x in ctrls ==> ctrls[x].Id() == x && ctrls[x] in Repr)
    }

    constructor()
      ensures Valid() && graph == Empty() && ctrls == map[] && Repr == {}
    {
      graph := Empty();
      ctrls := map[];
      Repr := {};
    }

    method GetService(id: ServiceId) returns (c: Option<ServiceController>)
      ensures c.Some? <==> id in ctrls
      ensures c.Some? ==> c.value == ctrls[id]
    {
      if id in ctrls {
        c := Some(ctrls[id]);
      } else {
        c := None;
      }
    }

    /** Adds the node of c's service; an id already present must map to c itself. */
    method AddService(c: ServiceController)
      requires Valid()
      requires c.Id() in ctrls ==> ctrls[c.Id()] == c
      modifies this
      ensures Valid()
      ensures graph == AddNode(old(graph), c.Id())
      ensures ctrls == old(ctrls)[c.Id() := c] && Repr == old(Repr) + {c}
      ensures ViewsOf(this) == old(ViewsOf(this))[c.Id() := c.View()]
    {
      graph := AddNode(graph, c.Id());
      ctrls := ctrls[c.Id() := c];
      Repr := Repr + {c};
      OneAdded(this, c.Id(), c);
    }

    /**
     * Records that service depends on dependency: the edge goes into the graph, the dependency
     * is registered if it is new and becomes pending in the service's controller. When the edge
     * closes a cycle the error names both; the edge stays.
     */
    method AddDependency(service: ServiceController, dependency: ServiceController) returns (err: Option<Error>)
      requires Valid()
      requires service.Id() in ctrls && ctrls[service.Id()] == service
      requires dependency.Id() in ctrls ==> ctrls[dependency.Id()] == dependency
      modifies this, service
      ensures Valid()
      ensures graph == AddEdge(old(graph), dependency.Id(), service.Id())
      ensures ctrls == old(ctrls)[dependency.Id() := dependency] && Repr == old(Repr) + {dependency}
      ensures service.View() == Lifecycle.WithDependency(old(service.View()), dependency.Id())
      ensures ViewsOf(this) == old(ViewsOf(this))[dependency.Id() := old(dependency.View())][service.Id() := service.View()]
      ensures err.None? <==> IsAcyclic(graph)
      ensures err.Some? ==> err.value == CycleError(service.Id(), dependency.Id())
    {
      graph := AddEdge(graph, dependency.Id(), service.Id());
      ctrls := ctrls[dependency.Id() := dependency];
      Repr := Repr + {dependency};
      assert forall x :: x in ctrls <==> x in graph.nodes;
      OneAdded(this, dependency.Id(), dependency);
      label linked:
      service.AddDependency(dependency);
      OneChanged@linked(this, service.Id());
      if !IsAcyclic(graph) {
        return Some(CycleError(service.Id(), dependency.Id()));
      }
      return None;
    }

    /** The controllers of ids, in the same order. */
    method ControllersOf(ids: seq<ServiceId>) returns (cs: seq<ServiceController>)
      requires forall i :: 0 <= i < |ids| ==> ids[i] in ctrls
      ensures |cs| == |ids| && forall i :: 0 <= i < |ids| ==> cs[i] == ctrls[ids[i]]
    {
      cs := [];
      for i := 0 to |ids|
        invariant |cs| == i && forall k :: 0 <= k < i ==> cs[k] == ctrls[ids[k]]
      {
        cs := cs + [ctrls[ids[i]]];
      }
    }

    /** Every controller, in registration order. */
    method GetServices() returns (cs: seq<ServiceController>)
      requires Valid()
      ensures |cs| == |graph.nodes| && forall i :: 0 <= i < |cs| ==> cs[i] == ctrls[graph.nodes[i]]
    {
      cs := ControllersOf(graph.nodes);
      forall x | x in ctrls ensures ctrls[x] in cs {
        var i :| 0 <= i < |graph.nodes| && graph.nodes[i] == x;
        assert cs[i] == ctrls[x];
      }
    }

    /** The controllers of exactly the services without a dependency, each once, in registration order. */
    method GetBootstrapServices() returns (cs: seq<ServiceController>)
      requires Valid()
      ensures |cs| == |Roots(graph)| && forall i :: 0 <= i < |cs| ==> cs[i] == ctrls[Roots(graph)[i]]
    {
      cs := ControllersOf(Roots(graph));
    }

    /** Every controller once, each dependent before its dependencies. */
    method GetShutdownSequence() returns (cs: seq<ServiceController>)
      requires Valid() && IsAcyclic(graph)
      ensures |cs| == |ReverseTopologicalSort(graph)| == |graph.nodes|
      ensures forall i :: 0 <= i < |cs| ==> cs[i] == ctrls[ReverseTopologicalSort(graph)[i]]
      ensures forall x :: x in ctrls ==> ctrls[x] in cs
      ensures forall i, j :: 0 <= i < |cs| && 0 <= j < |cs| && Edge(cs[i].Id(), cs[j].Id()) in graph.edges ==> j < i
    {
      var q := ReverseTopologicalSort(graph);
      Startup.DistinctCard(q);
      Startup.DistinctCard(graph.nodes);
      assert (set n | n in q) == (set n | n in graph.nodes);
      cs := ControllersOf(q);
      forall x | x in ctrls ensures ctrls[x] in cs {
        var i :| 0 <= i < |q| && q[i] == x;
        assert cs[i] == ctrls[x];
      }
      forall i, j | 0 <= i < |cs| && 0 <= j < |cs| && Edge(cs[i].Id(), cs[j].Id()) in graph.edges ensures j < i {
        assert cs[i].Id() == q[i] && cs[j].Id() == q[j];
      }
    }
  }

  /**
   * A set of services that are started in dependency order and stopped in reverse order.
   * The listeners the environment attaches are modelled by its own fields: `listening` holds
   * the services whose 'error' listener from the current startup is still attached and
   * `settled` how the promise returned by start has settled, if it has.
   */
  class Environment {
    const id: string
    const services: ServiceGraph
    var ctx: Context
    var listening: set<ServiceId>
    var settled: Option<StartResult>
    /** Startup has been requested; the services whose stop was invoked, in order. */
    ghost var begun: bool
    ghost var stopLog: seq<ServiceId>

    ghost predicate Valid()
      reads this, services
    {
      services.Valid()
    }

    /** The environment as a value. */
    ghost function Abs(): Orchestration.EnvState
      requires Valid()
      reads this, services, services.Repr
    {
      Orchestration.EnvState(services.graph, ViewsOf(services), ctx, listening, settled, begun, stopLog)
    }

    /** The id is the given name, unless it is missing or empty, in which case it is made from `generated`. */
    constructor(name: Option<string>, generated: string)
      ensures id == (if name.Some? && name.value != "" then name.value else "env-" + generated)
      ensures Valid() && fresh(services)
      ensures Abs() == Orchestration.Initial(id)
    {
      var n := if name.Some? && name.value != "" then name.value else "env-" + generated;
      id := n;
      services := new ServiceGraph();
      ctx := Context(n, map[], false);
      listening := {};
      settled := None;
      begun := false;
      stopLog := [];
    }

    /** The registered controller of the service's id, or a new one. */
    method GetOrCreateControllerFor(service: Service) returns (c: ServiceController)
      requires Valid()
      ensures c.Id() == service.id
      ensures service.id in services.ctrls ==> c == services.ctrls[service.id]
      ensures service.id !in services.ctrls ==> fresh(c) && c.View() == Lifecycle.Fresh()
    {
      var found := services.GetService(service.id);
      if found.Some? {
        c := found.value;
      } else {
        c := new Controller.ServiceController(service);
      }
    }

    /** Adds the service's node, with its controller. */
    method AddServiceOf(service: Service) returns (sc: ServiceController)
      requires Valid()
      modifies services
      ensures Valid()
      ensures service.id in services.ctrls && services.ctrls[service.id] == sc
      ensures fresh(sc) || sc in old(services.Repr)
      ensures Abs() == Orchestration.AddService(old(Abs()), service.id)
    {
      ghost var s0 := Abs();
      sc := GetOrCreateControllerFor(service);
      services.AddService(sc);
      assert ViewsOf(services) == Orchestration.AddService(s0, service.id).ctrls;
    }

    /** Adds the dependency of sc's service on dep. */
    method AddDependencyOf(sc: ServiceController, dep: Service) returns (err: Option<Error>)
      requires Valid() && sc.Id() in services.ctrls && services.ctrls[sc.Id()] == sc
      modifies services, sc
      ensures Valid() && sc.Id() in services.ctrls && services.ctrls[sc.Id()] == sc
      ensures (Abs(), err) == Orchestration.AddDependency(old(Abs()), sc.Id(), dep.id)
    {
      ghost var s0 := Abs();
      ghost var v0 := ViewsOf(services);
      var dc := GetOrCreateControllerFor(dep);
      ghost var dv := dc.View();
      assert dv == if dep.id in v0 then v0[dep.id] else Lifecycle.Fresh();
      err := services.AddDependency(sc, dc);
      DependencyCtrlsAre(v0, sc.Id(), dep.id, dv);
      ghost var s1 := s0.(graph := AddEdge(s0.graph, dep.id, sc.Id()), ctrls := Orchestration.DependencyCtrls(s0.ctrls, sc.Id(), dep.id));
      assert Abs() == s1;
      assert err == if IsAcyclic(s1.graph) then None else Some(CycleError(sc.Id(), dep.id));
      assert Orchestration.AddDependency(s0, sc.Id(), dep.id) == (s1, err);
    }

    /**
     * Registers the service and then its dependencies one by one; the first dependency that
     * closes a cycle ends the registration with an error.
     */
    method Register(service: Service, deps: seq<Service>) returns (err: Option<Error>)
      requires Valid()
      modifies services, services.Repr
      ensures Valid()
      ensures (Abs(), err) == Orchestration.Register(old(Abs()), service.id, Ids(deps))
    {
      ghost var s0 := Abs();
      var sc := AddServiceOf(service);
      ghost var ids := Ids(deps);
      for i := 0 to |deps|
        invariant Valid()
        invariant service.id in services.ctrls && services.ctrls[service.id] == sc
        invariant Orchestration.Register(s0, service.id, ids) == Orchestration.AddDependencies(Abs(), service.id, ids[i..])
      {
        ghost var before := Abs();
        assert ids[i..][0] == deps[i].id && ids[i..][1..] == ids[i + 1..];
        err := AddDependencyOf(sc, deps[i]);
        ghost var after := Abs();
        assert Orchestration.AddDependencies(before, service.id, ids[i..])
            == if err.Some? then (after, err) else Orchestration.AddDependencies(after, service.id, ids[i + 1..]);
        if err.Some? {
          return;
        }
      }
      assert ids[|deps|..] == [];
      err := None;
    }

    /** Invokes the start of c, the controller of its id. */
    method StartCtrl(c: ServiceController)
      requires Valid() && c.Id() in services.ctrls && services.ctrls[c.Id()] == c
      modifies c
      ensures ViewsOf(services) == old(ViewsOf(services))[c.Id() := Lifecycle.Start(old(ViewsOf(services))[c.Id()])]
    {
      var invoked := c.Start();
      OneChanged(services, c.Id());
    }

    /** Invokes the start of every controller without a dependency. */
    method StartRoots()
      requires Valid()
      modifies services.Repr
      ensures ViewsOf(services) == Orchestration.StartAll(old(ViewsOf(services)), Orchestration.RootSet(services.graph))
    {
      ghost var v0 := ViewsOf(services);
      var roots := services.GetBootstrapServices();
      ghost var rs := Roots(services.graph);
      for i := 0 to |roots|
        invariant ViewsOf(services) == Orchestration.StartAll(v0, Orchestration.Elems(rs[..i]))
      {
        ElemsSnoc(rs, i);
        StartAllStep(v0, Orchestration.Elems(rs[..i]), rs[i]);
        StartCtrl(roots[i]);
      }
      assert rs[..|roots|] == rs;
    }

    /**
     * Startup: attaches the listeners to every service, then starts the services without
     * dependencies. The completion check is also made once up front.
     */
    method BeginStart()
      requires Valid()
      modifies this, services.Repr
      ensures Valid()
      ensures Abs() == Orchestration.BeginStart(old(Abs()))
    {
      ghost var s0 := Abs();
      var cs := services.GetServices();
      assert forall i :: 0 <= i < |cs| ==> cs[i].Id() == services.graph.nodes[i];
      var attached := Attach(listening, cs, services.graph);
      listening, begun := attached, true;
      NoneChanged(services);
      ghost var s1 := Abs();
      assert s1 == s0.(listening := s0.listening + Orchestration.NodeSet(s0.graph), begun := true);
      StartRoots();
      ghost var s2 := Abs();
      assert s2 == s1.(ctrls := Orchestration.StartAll(s1.ctrls, Orchestration.RootSet(s1.graph)));
      label started:
      if settled.None? && |ctx.registry| == |services.graph.nodes| {
        settled := Some(Resolved);
      }
      NoneChanged@started(services);
      assert Abs() == s2.(settled := settled);
      Orchestration.BeginStartIs(s0, s2.ctrls);
    }

    /** The services of cs, whose graph is g, each get the startup's listeners attached. */
    static method Attach(listening: set<ServiceId>, cs: seq<ServiceController>, ghost g: Graph) returns (attached: set<ServiceId>)
      requires |cs| == |g.nodes| && forall i :: 0 <= i < |cs| ==> cs[i].Id() == g.nodes[i]
      ensures attached == listening + Orchestration.NodeSet(g)
    {
      attached := listening;
      for i := 0 to |cs|
        invariant attached == listening + (set k | 0 <= k < i :: g.nodes[k])
      {
        attached := attached + {cs[i].Id()};
      }
      forall n | n in g.nodes ensures n in attached {
        var k :| 0 <= k < |g.nodes| && g.nodes[k] == n;
      }
    }

    /** Notifies c, the controller of its id, that a dependency started with meta. */
    method NotifyCtrl(c: ServiceController, meta: Metadata)
      requires Valid() && c.Id() in services.ctrls && services.ctrls[c.Id()] == c
      modifies c
      ensures ViewsOf(services)
           == old(ViewsOf(services))[c.Id() := Lifecycle.DependencyStarted(old(ViewsOf(services))[c.Id()], meta, ctx.shuttingDown)]
    {
      var began, violated := c.OnDependencyStarted(meta, ctx);
      OneChanged(services, c.Id());
    }

    /** Notifies each dependent of x that x started with meta. */
    method NotifyDependents(x: ServiceId, meta: Metadata)
      requires Valid()
      modifies services.Repr
      ensures ViewsOf(services) == Orchestration.NotifyAll(old(ViewsOf(services)), Dependents(services.graph, x), meta, ctx.shuttingDown)
    {
      ghost var v0 := ViewsOf(services);
      var ds := Dependents(services.graph, x);
      var todo := ds;
      while todo != {}
        invariant todo <= ds
        invariant ViewsOf(services) == Orchestration.NotifyAll(v0, ds - todo, meta, ctx.shuttingDown)
        decreases todo
      {
        var y :| y in todo;
        assert y in services.ctrls;
        NotifyAllStep(v0, ds - todo, y, meta, ctx.shuttingDown);
        NotifyCtrl(services.ctrls[y], meta);
        assert ds - (todo - {y}) == (ds - todo) + {y};
        todo := todo - {y};
      }
      assert ds - todo == ds;
    }

    /**
     * x's 'started' event with meta: the metadata is registered, the startup listener
     * detaches x's error listener and resolves the startup once every service is registered,
     * and each dependent of x is notified.
     */
    method Announce(x: ServiceId, meta: Metadata)
      requires Valid()
      modifies this, services.Repr
      ensures Valid()
      ensures Abs() == Orchestration.Announce(old(Abs()), x, meta)
    {
      ghost var s0 := Abs();
      label before:
      ctx := ctx.(registry := ctx.registry[meta.id := meta]);
      listening := listening - {x};
      if settled.None? && |ctx.registry| == |services.graph.nodes| {
        settled := Some(Resolved);
      }
      NoneChanged@before(services);
      NotifyDependents(x, meta);
    }

    /** x's 'error' event: the startup listener, when still attached, detaches and rejects the startup. */
    method OnError(x: ServiceId, e: Error)
      requires Valid()
      modifies this
      ensures Valid()
      ensures Abs() == Orchestration.Fail(old(Abs()), x, e)
    {
      ghost var s0 := Abs();
      label before:
      if x in listening {
        listening := listening - {x};
        if settled.None? {
          settled := Some(Rejected(e));
        }
      }
      NoneChanged@before(services);
      assert Abs() == s0.(listening := listening, settled := settled);
    }

    /** The start in flight of c, the controller of its id, settles with outcome. */
    method CompleteCtrl(c: ServiceController, outcome: StartOutcome) returns (ev: Lifecycle.Event)
      requires Valid() && c.Id() in services.ctrls && services.ctrls[c.Id()] == c && c.phase.Starting?
      modifies c
      ensures ev == Lifecycle.Emitted(outcome)
      ensures ViewsOf(services) == old(ViewsOf(services))[c.Id() := Lifecycle.Complete(old(ViewsOf(services))[c.Id()], outcome)]
    {
      ev := c.CompleteStart(outcome);
      OneChanged(services, c.Id());
    }

    /** x's start, in flight during startup, settles: a success is announced, a failure rolls the environment back. */
    method Settle(x: ServiceId, startOutcome: ServiceId -> StartOutcome, stopOutcome: ServiceId -> StopOutcome)
      requires Valid() && IsAcyclic(services.graph)
      requires x in services.ctrls && services.ctrls[x].phase.Starting?
      modifies this, services.Repr
      ensures Valid()
      ensures Abs() == Orchestration.Resolve(old(Abs()), x, startOutcome, stopOutcome)
    {
      ghost var s0 := Abs();
      var ev := CompleteCtrl(services.ctrls[x], startOutcome(x));
      assert Abs() == Orchestration.Completed(s0, x, startOutcome(x));
      match ev
      case StartedEvent(meta) =>
        Announce(x, meta);
      case ErrorEvent(e) =>
        OnError(x, e);
        Stop(startOutcome, stopOutcome);
    }

    /**
     * Starts the environment and waits for the returned promise to settle: the settlements of
     * the starts in flight are delivered one at a time, in an order left open. With every
     * service's start succeeding, the startup resolves with every service started once and
     * registered; otherwise it is rejected with the failure of one of the services, and the
     * environment has been rolled back.
     */
    method StartAndAwait(startOutcome: ServiceId -> StartOutcome, stopOutcome: ServiceId -> StopOutcome)
      returns (r: StartResult, ghost failed: ServiceId, ghost at: Orchestration.EnvState)
      requires Valid() && Registration.Wired(Abs()) && IsAcyclic(services.graph)
      requires WellBehaved(startOutcome)
      modifies this, services.Repr
      ensures Valid() && services.graph == old(services.graph) && services.ctrls == old(services.ctrls)
      ensures Startup.Concluded(Abs(), r, startOutcome, stopOutcome)
      ensures r.Rejected? ==> Startup.RejectedBy(at, failed, Abs(), startOutcome, stopOutcome)
    {
      ghost var s0 := Abs();
      failed, at := "", s0;
      Startup.BeginStartHealthy(s0, startOutcome);
      BeginStart();
      Startup.HealthyIsAwaiting(Abs(), startOutcome, stopOutcome);
      while settled.None?
        invariant Valid()
        invariant Startup.Awaiting(Abs(), startOutcome, stopOutcome)
        invariant settled.Some? && settled.value.Rejected? ==> Startup.RejectedBy(at, failed, Abs(), startOutcome, stopOutcome)
        decreases if settled.None? then 1 else 0, Orchestration.NodeSet(services.graph) - Startup.StartedSet(Abs())
      {
        ghost var s := Abs();
        Startup.InFlight(s, startOutcome);
        var x :| x in services.ctrls && services.ctrls[x].phase.Starting?;
        assert s.ctrls[x].phase.Starting?;
        Startup.SettleStep(s, x, startOutcome, stopOutcome);
        Settle(x, startOutcome, stopOutcome);
        failed, at := x, s;
      }
      r := settled.value;
    }

    /** Stops c, the controller of its id; returns the event of a start it waited for. */
    method HaltCtrl(c: ServiceController, startOutcome: StartOutcome, stopOutcome: StopOutcome)
      returns (awaited: Option<Lifecycle.Event>)
      requires Valid() && c.Id() in services.ctrls && services.ctrls[c.Id()] == c
      modifies c
      ensures awaited == if old(c.phase).Starting? then Some(Lifecycle.Emitted(startOutcome)) else None
      ensures ViewsOf(services) == old(ViewsOf(services))[c.Id() := Lifecycle.Stop(old(ViewsOf(services))[c.Id()], startOutcome, stopOutcome)]
    {
      var failure;
      awaited, failure := c.Stop(startOutcome, stopOutcome);
      OneChanged(services, c.Id());
    }

    /** x's controller stops; the event of a start it waited for is returned. */
    method Halt(x: ServiceId, startOutcome: ServiceId -> StartOutcome, stopOutcome: ServiceId -> StopOutcome)
      returns (awaited: Option<Lifecycle.Event>)
      requires Valid() && x in services.ctrls
      modifies this, services.Repr
      ensures Valid()
      ensures awaited == if old(services.ctrls[x].phase).Starting? then Some(Lifecycle.Emitted(startOutcome(x))) else None
      ensures Abs() == Orchestration.Halted(old(Abs()), x, startOutcome, stopOutcome)
    {
      ghost var s0 := Abs();
      ghost var invokes := Lifecycle.StopInvokes(s0.ctrls[x], startOutcome(x));
      awaited := HaltCtrl(services.ctrls[x], startOutcome(x), stopOutcome(x));
      if invokes {
        stopLog := stopLog + [x];
      }
    }

    /**
     * The stop of x's controller. When the controller was waiting for a start in flight, that
     * start's event is delivered as well.
     */
    method StopOne(x: ServiceId, startOutcome: ServiceId -> StartOutcome, stopOutcome: ServiceId -> StopOutcome)
      requires Valid()
      modifies this, services.Repr
      ensures Valid()
      ensures Abs() == Orchestration.StopOne(old(Abs()), x, startOutcome, stopOutcome)
    {
      if x !in services.ctrls {
        return;
      }
      var awaited := Halt(x, startOutcome, stopOutcome);
      if awaited.Some? {
        match awaited.value
        case StartedEvent(meta) =>
          Announce(x, meta);
        case ErrorEvent(e) =>
          OnError(x, e);
      }
    }

    /** Stops the controllers of xs one after another. */
    method StopEach(xs: seq<ServiceId>, startOutcome: ServiceId -> StartOutcome, stopOutcome: ServiceId -> StopOutcome)
      requires Valid()
      modifies this, services.Repr
      ensures Valid()
      ensures Abs() == Orchestration.StopEach(old(Abs()), xs, startOutcome, stopOutcome)
    {
      ghost var s0 := Abs();
      for i := 0 to |xs|
        invariant Valid()
        invariant Abs() == Orchestration.StopEach(s0, xs[..i], startOutcome, stopOutcome)
      {
        assert xs[..i + 1][..i] == xs[..i];
        StopOne(xs[i], startOutcome, stopOutcome);
      }
      assert xs[..|xs|] == xs;
    }

    /** The shutdown sequence, split into the ids whose start is in flight and the others, each in order. */
    method ShutdownPasses() returns (now: seq<ServiceId>, waiting: seq<ServiceId>)
      requires Valid() && IsAcyclic(services.graph)
      ensures now == Orchestration.Split(Abs(), ReverseTopologicalSort(services.graph), false)
      ensures waiting == Orchestration.Split(Abs(), ReverseTopologicalSort(services.graph), true)
    {
      var cs := services.GetShutdownSequence();
      ghost var s := Abs();
      ghost var q := ReverseTopologicalSort(services.graph);
      forall i | 0 <= i < |cs| ensures cs[i].Id() == q[i] && (Orchestration.InFlight(s, q[i]) <==> cs[i].phase.Starting?) {
        assert s.ctrls[q[i]] == cs[i].View();
      }
      now, waiting := Partition(s, q, cs);
    }

    /** Splits the ids of cs, whose controllers' phases are those of s, by whether a start is in flight. */
    static method Partition(ghost s: Orchestration.EnvState, ghost q: seq<ServiceId>, cs: seq<ServiceController>)
      returns (now: seq<ServiceId>, waiting: seq<ServiceId>)
      requires |cs| == |q|
      requires forall i :: 0 <= i < |cs| ==> cs[i].Id() == q[i] && (Orchestration.InFlight(s, q[i]) <==> cs[i].phase.Starting?)
      ensures now == Orchestration.Split(s, q, false) && waiting == Orchestration.Split(s, q, true)
    {
      now, waiting := [], [];
      for i := 0 to |cs|
        invariant now == Orchestration.Split(s, q[..i], false)
        invariant waiting == Orchestration.Split(s, q[..i], true)
      {
        assert q[..i + 1][..i] == q[..i] && q[..i + 1][i] == q[i];
        if cs[i].phase.Starting? {
          waiting := waiting + [cs[i].Id()];
        } else {
          now := now + [cs[i].Id()];
        }
      }
      assert q[..|cs|] == q;
    }

    /**
     * Shutdown as written: the stops of all controllers are issued in shutdown order. Those
     * without a start in flight take effect at once; the others wait for their start, and take
     * effect after that, in the same order.
     */
    method StopAsWritten(startOutcome: ServiceId -> StartOutcome, stopOutcome: ServiceId -> StopOutcome)
      requires Valid() && IsAcyclic(services.graph)
      modifies this, services.Repr
      ensures Valid()
      ensures Abs() == Orchestration.StopAsWritten(old(Abs()), startOutcome, stopOutcome)
    {
      ghost var s0 := Abs();
      var now, waiting := ShutdownPasses();
      StopEach(now, startOutcome, stopOutcome);
      ghost var s1 := Abs();
      StopEach(waiting, startOutcome, stopOutcome);
      assert Abs() == Orchestration.StopEach(s1, waiting, startOutcome, stopOutcome);
      assert s1 == Orchestration.StopEach(s0, now, startOutcome, stopOutcome);
    }

    /** Shutdown that first marks the context as shutting down. */
    method Stop(startOutcome: ServiceId -> StartOutcome, stopOutcome: ServiceId -> StopOutcome)
      requires Valid() && IsAcyclic(services.graph)
      modifies this, services.Repr
      ensures Valid()
      ensures Abs() == Orchestration.Stop(old(Abs()), startOutcome, stopOutcome)
    {
      ghost var s0 := Abs();
      ctx := ctx.(shuttingDown := true);
      assert Abs() == s0.(ctx := s0.ctx.(shuttingDown := true)) by {
        assert Abs().ctrls == s0.ctrls;
      }
      StopAsWritten(startOutcome, stopOutcome);
    }
  }
}
