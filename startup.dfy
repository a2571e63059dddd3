/**
 * Properties of startup. While no start has failed, every reachable state is Healthy: a
 * controller's pending set is exactly its dependencies that are not started yet, a service is
 * started only after all of its dependencies, each start is invoked once, and the startup
 * resolves exactly when every service is started. A Healthy state whose startup has not
 * resolved always has a start in flight, so startup cannot get stuck; a failed start rolls the
 * environment back.
 */
module Startup {
  import opened Types
  import opened DirectedGraph
  import opened Orchestration
  import Lifecycle
  import Registration
  import Shutdown

  ghost function StartedSet(s: EnvState): set<ServiceId>
  {
    set x | x in s.ctrls && s.ctrls[x].phase.Started?
  }

  /** The graph is valid and acyclic and every node has a controller. */
  ghost predicate Wf(s: EnvState)
  {
    Valid(s.graph) && IsAcyclic(s.graph) && (forall x :: x in s.ctrls <==> x in s.graph.nodes)
  }

  function Restrict(m: map<ServiceId, Metadata>, keys: set<ServiceId>): map<ServiceId, Metadata>
  {
    map k | k in m && k in keys :: m[k]
  }

  /**
   * The controller c of x during a startup with no failure so far, started being the services
   * started so far and registry the metadata registered so far.
   */
  ghost predicate CtrlOk(g: Graph, started: set<ServiceId>, registry: map<ServiceId, Metadata>,
                         x: ServiceId, c: Ctrl, startOutcome: ServiceId -> StartOutcome)
  {
    var deps := Preds(g, x);
    && c.pending == deps - started
    && c.startedDeps == Restrict(registry, deps)
    && (c.phase.Idle? ==> c.pending != {})
    && (!c.phase.Idle? ==> deps <= started)
    && c.startCalls == (if c.phase.Idle? then 0 else 1)
    && c.stopCalls == 0
    && c.everStarted == c.phase.Started?
    && (c.phase.Started? ==> startOutcome(x) == StartOk(c.phase.meta))
  }

  ghost predicate CtrlsOk(s: EnvState, started: set<ServiceId>, startOutcome: ServiceId -> StartOutcome)
  {
    forall x :: x in s.ctrls ==> CtrlOk(s.graph, started, s.ctx.registry, x, s.ctrls[x], startOutcome)
  }

  /** The registry holds the metadata of exactly the started services. */
  ghost predicate RegistryOk(s: EnvState, started: set<ServiceId>)
  {
    && s.ctx.registry.Keys == started
    && forall x :: x in started ==> x in s.ctrls && s.ctrls[x].phase == Lifecycle.Started(s.ctx.registry[x])
  }

  /** A startup under way, or resolved, with no start failed. */
  ghost predicate Healthy(s: EnvState, startOutcome: ServiceId -> StartOutcome)
  {
    && Wf(s) && s.begun && !s.ctx.shuttingDown && s.stopLog == []
    && CtrlsOk(s, StartedSet(s), startOutcome)
    && RegistryOk(s, StartedSet(s))
    && s.listening == NodeSet(s.graph) - StartedSet(s)
    && s.settled == (if StartedSet(s) == NodeSet(s.graph) then Some(Resolved) else None)
  }

  lemma {:induction false} SubsetCard(a: set<ServiceId>, b: set<ServiceId>)
    requires a <= b
    ensures |a| <= |b|
    ensures a != b ==> |a| < |b|
    decreases b
  {
    if a != {} {
      var x :| x in a;
      SubsetCard(a - {x}, b - {x});
      assert |a - {x}| == |a| - 1 && |b - {x}| == |b| - 1;
      if a != b {
        var y :| y in b && y !in a;
        assert y in b - {x} && y !in a - {x};
      }
    } else if b != {} {
      var x :| x in b;
    }
  }

  lemma {:induction false} DistinctCard(ns: seq<ServiceId>)
    requires Distinct(ns)
    ensures |set n | n in ns| == |ns|
  {
    if ns != [] {
      var tail := ns[1..];
      assert Distinct(tail) by {
        forall a, b | 0 <= a < b < |tail| ensures tail[a] != tail[b] {
          assert tail[a] == ns[a + 1] && tail[b] == ns[b + 1];
        }
      }
      DistinctCard(tail);
      assert ns[0] !in tail by {
        forall k | 0 <= k < |tail| ensures tail[k] != ns[0] {
          assert tail[k] == ns[k + 1];
        }
      }
      assert (set n | n in ns) == (set n | n in tail) + {ns[0]};
    }
  }

  /** The registry holds as many entries as the environment has services exactly when all are started. */
  lemma CountMeansComplete(s: EnvState, started: set<ServiceId>)
    requires Valid(s.graph) && started <= NodeSet(s.graph)
    ensures |started| == |s.graph.nodes| <==> started == NodeSet(s.graph)
  {
    DistinctCard(s.graph.nodes);
    SubsetCard(started, NodeSet(s.graph));
  }

  /** x is not among its own dependencies or dependents. */
  lemma NoSelfEdge(g: Graph, x: ServiceId)
    requires Valid(g) && IsAcyclic(g)
    ensures x !in Preds(g, x) && x !in Dependents(g, x)
  {
    if Edge(x, x) in g.edges {
      MutualDependencyIsCycle(g, x, x);
    }
  }

  // ---------------------------------------------------------------------------------------
  // Beginning the startup

  /** x's controller once startup has begun: started when x is a root, and as registered otherwise. */
  lemma BeginCtrlOk(s: EnvState, x: ServiceId, startOutcome: ServiceId -> StartOutcome)
    requires Registration.Wired(s) && x in s.ctrls
    ensures var c := StartAll(s.ctrls, RootSet(s.graph))[x];
      CtrlOk(s.graph, {}, map[], x, c, startOutcome) && (c.phase.Starting? <==> IsRoot(s.graph, x))
  {
    var g := s.graph;
    var c0 := s.ctrls[x];
    assert c0 == Lifecycle.Fresh().(pending := Preds(g, x));
    var c := StartAll(s.ctrls, RootSet(g))[x];
    if IsRoot(g, x) {
      assert Preds(g, x) == {};
      assert c == Lifecycle.Start(c0);
    } else {
      assert c == c0;
      var e :| e in g.edges && e.to == x;
      assert e.from in Preds(g, x);
    }
  }

  lemma BeginCtrlsOk(s: EnvState, startOutcome: ServiceId -> StartOutcome)
    requires Registration.Wired(s)
    ensures CtrlsOk(BeginStart(s), {}, startOutcome)
    ensures forall x :: x in s.ctrls ==> (BeginStart(s).ctrls[x].phase.Starting? <==> IsRoot(s.graph, x))
  {
    var r := BeginStart(s);
    assert r.graph == s.graph && r.ctx == s.ctx && r.ctrls == StartAll(s.ctrls, RootSet(s.graph));
    forall x | x in r.ctrls
      ensures CtrlOk(r.graph, {}, r.ctx.registry, x, r.ctrls[x], startOutcome)
      ensures r.ctrls[x].phase.Starting? <==> IsRoot(s.graph, x)
    {
      BeginCtrlOk(s, x, startOutcome);
    }
  }

  /**
   * Beginning the startup of a registered, acyclic environment starts exactly its services
   * without dependencies and reaches a Healthy state.
   */
  lemma BeginStartHealthy(s: EnvState, startOutcome: ServiceId -> StartOutcome)
    requires Registration.Wired(s) && IsAcyclic(s.graph)
    ensures Healthy(BeginStart(s), startOutcome)
    ensures forall x :: x in s.ctrls ==> (BeginStart(s).ctrls[x].phase.Starting? <==> IsRoot(s.graph, x))
  {
    var r := BeginStart(s);
    BeginStartFields(s);
    BeginCtrlsOk(s, startOutcome);
    CountMeansComplete(r, {});
    assert RegistryOk(r, StartedSet(r));
  }

  /** Right after startup begins, no service is started and every listener is attached. */
  lemma BeginStartFields(s: EnvState)
    requires Registration.Wired(s)
    ensures var r := BeginStart(s);
      && r.graph == s.graph && r.ctx == s.ctx && r.listening == NodeSet(s.graph) && r.begun && r.stopLog == []
      && r.ctrls.Keys == s.ctrls.Keys && StartedSet(r) == {}
      && r.settled == (if |s.graph.nodes| == 0 then Some(Resolved) else None)
  {
    var r := BeginStart(s);
    forall x | x in r.ctrls ensures !r.ctrls[x].phase.Started? {
      assert s.ctrls[x].phase.Idle?;
    }
  }

  // ---------------------------------------------------------------------------------------
  // A start succeeds

  /** The controller whose start succeeded. */
  lemma CompletedOk(g: Graph, started: set<ServiceId>, registry: map<ServiceId, Metadata>,
                    x: ServiceId, c: Ctrl, meta: Metadata, startOutcome: ServiceId -> StartOutcome)
    requires Valid(g) && IsAcyclic(g)
    requires CtrlOk(g, started, registry, x, c, startOutcome) && c.phase.Starting?
    requires startOutcome(x) == StartOk(meta) && meta.id == x
    ensures CtrlOk(g, started + {x}, registry[x := meta], x, Lifecycle.Complete(c, StartOk(meta)), startOutcome)
  {
    NoSelfEdge(g, x);
    var deps := Preds(g, x);
    assert Restrict(registry[x := meta], deps) == Restrict(registry, deps);
  }

  /** A dependent of the service whose start succeeded: it is notified, and starts if that was its last pending dependency. */
  lemma DependentOk(g: Graph, started: set<ServiceId>, registry: map<ServiceId, Metadata>,
                    x: ServiceId, y: ServiceId, c: Ctrl, meta: Metadata, startOutcome: ServiceId -> StartOutcome)
    requires CtrlOk(g, started, registry, y, c, startOutcome)
    requires x in Preds(g, y) && x !in started && meta.id == x
    ensures c.phase.Idle?
    ensures CtrlOk(g, started + {x}, registry[x := meta], y, Lifecycle.DependencyStarted(c, meta, false), startOutcome)
  {
    var deps := Preds(g, y);
    assert Restrict(registry[x := meta], deps) == Restrict(registry, deps)[x := meta];
  }

  /** Any other service is unaffected. */
  lemma BystanderOk(g: Graph, started: set<ServiceId>, registry: map<ServiceId, Metadata>,
                    x: ServiceId, y: ServiceId, c: Ctrl, meta: Metadata, startOutcome: ServiceId -> StartOutcome)
    requires CtrlOk(g, started, registry, y, c, startOutcome)
    requires x !in Preds(g, y) && meta.id == x
    ensures CtrlOk(g, started + {x}, registry[x := meta], y, c, startOutcome)
  {
    var deps := Preds(g, y);
    assert Restrict(registry[x := meta], deps) == Restrict(registry, deps);
  }

  lemma AnnounceStarted(s: EnvState, x: ServiceId, meta: Metadata)
    requires x in s.ctrls
    ensures var r := Announce(Completed(s, x, StartOk(meta)), x, meta);
      r.ctrls.Keys == s.ctrls.Keys && StartedSet(r) == StartedSet(s) + {x}
  {
    var r := Announce(Completed(s, x, StartOk(meta)), x, meta);
    forall y | y in s.ctrls ensures r.ctrls[y].phase.Started? <==> y == x || s.ctrls[y].phase.Started? {
    }
  }

  lemma AnnounceCtrlsOk(s: EnvState, x: ServiceId, startOutcome: ServiceId -> StartOutcome)
    requires Healthy(s, startOutcome) && Types.WellBehaved(startOutcome)
    requires x in s.ctrls && s.ctrls[x].phase.Starting? && startOutcome(x).StartOk?
    ensures CtrlsOk(Announce(Completed(s, x, startOutcome(x)), x, startOutcome(x).meta), StartedSet(s) + {x}, startOutcome)
  {
    var meta := startOutcome(x).meta;
    var r := Announce(Completed(s, x, startOutcome(x)), x, meta);
    var started := StartedSet(s);
    assert x !in started;
    NoSelfEdge(s.graph, x);
    forall y | y in r.ctrls
      ensures CtrlOk(r.graph, started + {x}, r.ctx.registry, y, r.ctrls[y], startOutcome)
    {
      var c := s.ctrls[y];
      assert CtrlOk(s.graph, started, s.ctx.registry, y, c, startOutcome);
      if y == x {
        CompletedOk(s.graph, started, s.ctx.registry, x, c, meta, startOutcome);
      } else if y in Dependents(s.graph, x) {
        assert x in Preds(s.graph, y);
        DependentOk(s.graph, started, s.ctx.registry, x, y, c, meta, startOutcome);
      } else {
        assert x !in Preds(s.graph, y);
        BystanderOk(s.graph, started, s.ctx.registry, x, y, c, meta, startOutcome);
      }
    }
  }

  lemma AnnounceHealthy(s: EnvState, x: ServiceId, startOutcome: ServiceId -> StartOutcome)
    requires Healthy(s, startOutcome) && Types.WellBehaved(startOutcome)
    requires x in s.ctrls && s.ctrls[x].phase.Starting? && startOutcome(x).StartOk?
    ensures var r := Announce(Completed(s, x, startOutcome(x)), x, startOutcome(x).meta);
      Healthy(r, startOutcome) && StartedSet(r) == StartedSet(s) + {x}
  {
    var meta := startOutcome(x).meta;
    AnnounceStarted(s, x, meta);
    AnnounceCtrlsOk(s, x, startOutcome);
    AnnounceRegistryOk(s, x, startOutcome);
    AnnounceState(s, x, startOutcome);
  }

  /** After x's 'started' event, x's listener is detached and the startup resolves once every service is started. */
  lemma AnnounceState(s: EnvState, x: ServiceId, startOutcome: ServiceId -> StartOutcome)
    requires Healthy(s, startOutcome) && Types.WellBehaved(startOutcome)
    requires x in s.ctrls && s.ctrls[x].phase.Starting? && startOutcome(x).StartOk?
    ensures var r := Announce(Completed(s, x, startOutcome(x)), x, startOutcome(x).meta);
      var started := StartedSet(s) + {x};
      && Wf(r) && r.begun && !r.ctx.shuttingDown && r.stopLog == []
      && r.listening == NodeSet(r.graph) - started
      && r.settled == (if started == NodeSet(r.graph) then Some(Resolved) else None)
  {
    var meta := startOutcome(x).meta;
    var r := Announce(Completed(s, x, startOutcome(x)), x, meta);
    var started := StartedSet(s) + {x};
    assert x !in StartedSet(s) && meta.id == x;
    assert r.ctx.registry.Keys == started;
    assert started <= NodeSet(r.graph);
    CountMeansComplete(r, started);
  }

  /** The registry of x's 'started' event holds exactly the metadata of the started services. */
  lemma AnnounceRegistryOk(s: EnvState, x: ServiceId, startOutcome: ServiceId -> StartOutcome)
    requires Healthy(s, startOutcome) && Types.WellBehaved(startOutcome)
    requires x in s.ctrls && s.ctrls[x].phase.Starting? && startOutcome(x).StartOk?
    ensures RegistryOk(Announce(Completed(s, x, startOutcome(x)), x, startOutcome(x).meta), StartedSet(s) + {x})
  {
    var meta := startOutcome(x).meta;
    var m := Completed(s, x, startOutcome(x)).ctrls;
    var r := Announce(Completed(s, x, startOutcome(x)), x, meta);
    assert x !in StartedSet(s) && meta.id == x;
    assert r.ctx.registry == s.ctx.registry[x := meta];
    assert r.ctrls == NotifyAll(m, Dependents(s.graph, x), meta, s.ctx.shuttingDown);
    forall y | y in StartedSet(s) + {x}
      ensures y in r.ctrls && r.ctrls[y].phase == Lifecycle.Started(r.ctx.registry[y])
    {
      assert m[y].phase == Lifecycle.Started(r.ctx.registry[y]);
      NotifyKeepsPhase(m, Dependents(s.graph, x), meta, s.ctx.shuttingDown, y);
    }
  }

  /** A notification never changes the phase of a controller that is not idle. */
  lemma NotifyKeepsPhase(ctrls: map<ServiceId, Lifecycle.Ctrl>, ds: set<ServiceId>, meta: Metadata, shuttingDown: bool, y: ServiceId)
    requires y in ctrls && !ctrls[y].phase.Idle?
    ensures var r := NotifyAll(ctrls, ds, meta, shuttingDown);
      y in r && r[y].phase == ctrls[y].phase
  {
  }

  /** A successful start keeps the startup Healthy and adds exactly that service to the started ones. */
  lemma SuccessKeepsHealthy(s: EnvState, x: ServiceId,
                            startOutcome: ServiceId -> StartOutcome, stopOutcome: ServiceId -> StopOutcome)
    requires Healthy(s, startOutcome) && Types.WellBehaved(startOutcome)
    requires x in s.ctrls && s.ctrls[x].phase.Starting? && startOutcome(x).StartOk?
    ensures Healthy(Resolve(s, x, startOutcome, stopOutcome), startOutcome)
    ensures StartedSet(Resolve(s, x, startOutcome, stopOutcome)) == StartedSet(s) + {x}
  {
    assert Resolve(s, x, startOutcome, stopOutcome) == Announce(Completed(s, x, startOutcome(x)), x, startOutcome(x).meta);
    AnnounceHealthy(s, x, startOutcome);
  }

  // ---------------------------------------------------------------------------------------
  // Progress

  /** While a Healthy startup has not resolved, some start is in flight. */
  lemma InFlight(s: EnvState, startOutcome: ServiceId -> StartOutcome)
    requires Healthy(s, startOutcome) && s.settled.None?
    ensures exists x :: x in s.ctrls && s.ctrls[x].phase.Starting?
  {
    if forall x :: x in s.ctrls ==> !s.ctrls[x].phase.Starting? {
      var idle := NodeSet(s.graph) - StartedSet(s);
      assert idle != {};
      var x := MinimalMember(s.graph, idle);
      assert false;
    }
  }

  /** A Healthy startup has resolved exactly when every service is started, each with its metadata registered. */
  lemma ResolvedMeansComplete(s: EnvState, startOutcome: ServiceId -> StartOutcome)
    requires Healthy(s, startOutcome)
    ensures s.settled == Some(Resolved) <==> forall x :: x in s.ctrls ==> s.ctrls[x].phase.Started?
    ensures s.settled == Some(Resolved) ==>
      && s.ctx.registry.Keys == NodeSet(s.graph)
      && forall x :: x in s.ctrls ==> startOutcome(x) == StartOk(s.ctx.registry[x]) && s.ctrls[x].startCalls == 1
  {
    if forall x :: x in s.ctrls ==> s.ctrls[x].phase.Started? {
      assert StartedSet(s) == NodeSet(s.graph);
    }
    if s.settled == Some(Resolved) {
      forall x | x in s.ctrls ensures startOutcome(x) == StartOk(s.ctx.registry[x]) && s.ctrls[x].startCalls == 1 {
        assert x in StartedSet(s);
        assert CtrlOk(s.graph, StartedSet(s), s.ctx.registry, x, s.ctrls[x], startOutcome);
      }
    }
  }

  // ---------------------------------------------------------------------------------------
  // A start fails

  /**
   * The environment after a rollback: no start is in flight, a service still started is one
   * whose stop failed, the stop of every service that ever started was invoked once and no
   * other stop was invoked, each service's start was invoked at most once, and the stops were
   * invoked in stop order, waited being the services whose stop waited for their start.
   */
  ghost predicate RolledBack(s: EnvState, waited: set<ServiceId>, stopOutcome: ServiceId -> StopOutcome)
  {
    && (forall y :: y in s.ctrls ==>
          var c := s.ctrls[y];
          && !c.phase.Starting?
          && (c.phase.Started? ==> stopOutcome(y).StopFailed?)
          && c.stopCalls == (if c.everStarted then 1 else 0)
          && c.startCalls <= 1
          && (c.everStarted ==> c.startCalls == 1))
    && Distinct(s.stopLog)
    && Shutdown.StopOrder(s.graph, waited, s.stopLog)
    && (forall y :: y in s.stopLog <==> y in s.ctrls && s.ctrls[y].everStarted)
  }

  /** A controller whose stop has never been invoked and whose start was invoked at most once. */
  ghost predicate Unstopped(c: Ctrl)
  {
    && c.stopCalls == 0 && c.everStarted == c.phase.Started?
    && c.startCalls <= 1 && (!c.phase.Idle? ==> c.startCalls == 1)
  }

  /** Stopping an environment none of whose services has been stopped rolls it back. */
  lemma StopRollsBack(s: EnvState, startOutcome: ServiceId -> StartOutcome, stopOutcome: ServiceId -> StopOutcome)
    requires Wf(s) && s.stopLog == []
    requires forall y :: y in s.ctrls ==> Unstopped(s.ctrls[y])
    ensures var r := Stop(s, startOutcome, stopOutcome);
      && RolledBack(r, Shutdown.Waiting(s), stopOutcome)
      && r.graph == s.graph && r.ctrls.Keys == s.ctrls.Keys
      && (s.settled.Some? ==> r.settled == s.settled)
  {
    Shutdown.StopShutsDown(s, startOutcome, stopOutcome);
    var r := Stop(s, startOutcome, stopOutcome);
    forall y | y in s.ctrls
      ensures var c := r.ctrls[y];
        && c.stopCalls == (if c.everStarted then 1 else 0)
        && c.startCalls <= 1
        && (c.everStarted ==> c.startCalls == 1)
    {
      assert Unstopped(s.ctrls[y]);
    }
    assert r.stopLog[|s.stopLog|..] == r.stopLog;
  }

  lemma HealthyIsUnstopped(s: EnvState, startOutcome: ServiceId -> StartOutcome)
    requires Healthy(s, startOutcome)
    ensures forall y :: y in s.ctrls ==> Unstopped(s.ctrls[y])
  {
    forall y | y in s.ctrls ensures Unstopped(s.ctrls[y]) {
      assert CtrlOk(s.graph, StartedSet(s), s.ctx.registry, y, s.ctrls[y], startOutcome);
    }
  }

  /** Once x's start has failed, the starts in flight are the others that were. */
  lemma WaitingAfterFailure(s: EnvState, x: ServiceId, e: Error)
    requires x in s.ctrls && s.ctrls[x].phase.Starting?
    ensures Shutdown.Waiting(Fail(Completed(s, x, StartFailed(e)), x, e)) == Shutdown.Waiting(s) - {x}
  {
    var r := Fail(Completed(s, x, StartFailed(e)), x, e);
    assert r.ctrls == s.ctrls[x := Lifecycle.Complete(s.ctrls[x], StartFailed(e))];
  }

  /** A failed start rejects the startup with that failure and rolls the environment back. */
  lemma FailureRollsBack(s: EnvState, x: ServiceId,
                         startOutcome: ServiceId -> StartOutcome, stopOutcome: ServiceId -> StopOutcome)
    requires Healthy(s, startOutcome)
    requires x in s.ctrls && s.ctrls[x].phase.Starting? && startOutcome(x).StartFailed?
    ensures var r := Resolve(s, x, startOutcome, stopOutcome);
      && r.settled == Some(Rejected(startOutcome(x).error))
      && RolledBack(r, Shutdown.Waiting(s) - {x}, stopOutcome)
      && r.graph == s.graph && r.ctrls.Keys == s.ctrls.Keys
  {
    var e := startOutcome(x).error;
    var s2 := Fail(Completed(s, x, startOutcome(x)), x, e);
    FailedStartRejects(s, x, startOutcome);
    StopRollsBack(s2, startOutcome, stopOutcome);
    assert Resolve(s, x, startOutcome, stopOutcome) == Stop(s2, startOutcome, stopOutcome);
  }

  /** Right after a failed start, the startup is rejected and no controller has been stopped. */
  lemma FailedStartRejects(s: EnvState, x: ServiceId, startOutcome: ServiceId -> StartOutcome)
    requires Healthy(s, startOutcome)
    requires x in s.ctrls && s.ctrls[x].phase.Starting? && startOutcome(x).StartFailed?
    ensures var e := startOutcome(x).error;
      var r := Fail(Completed(s, x, startOutcome(x)), x, e);
      && Wf(r) && r.stopLog == [] && r.settled == Some(Rejected(e))
      && r.graph == s.graph && r.ctrls.Keys == s.ctrls.Keys
      && (forall y :: y in r.ctrls ==> Unstopped(r.ctrls[y]))
      && Shutdown.Waiting(r) == Shutdown.Waiting(s) - {x}
  {
    var e := startOutcome(x).error;
    var s1 := Completed(s, x, startOutcome(x));
    assert x !in StartedSet(s);
    assert x in s.listening;
    var s2 := Fail(s1, x, e);
    assert s2.settled == Some(Rejected(e));
    HealthyIsUnstopped(s, startOutcome);
    assert forall y :: y in s2.ctrls ==> Unstopped(s2.ctrls[y]);
    WaitingAfterFailure(s, x, e);
  }

  /** Stopping an environment whose startup is Healthy (under way or resolved) rolls it back as well. */
  lemma StopAfterHealthy(s: EnvState, startOutcome: ServiceId -> StartOutcome, stopOutcome: ServiceId -> StopOutcome)
    requires Healthy(s, startOutcome)
    ensures var r := Stop(s, startOutcome, stopOutcome);
      && RolledBack(r, Shutdown.Waiting(s), stopOutcome)
      && r.graph == s.graph && r.ctrls.Keys == s.ctrls.Keys
      && (s.settled.Some? ==> r.settled == s.settled)
  {
    HealthyIsUnstopped(s, startOutcome);
    StopRollsBack(s, startOutcome, stopOutcome);
  }

  // ---------------------------------------------------------------------------------------
  // Awaiting the startup

  /** What a start that has settled with r has achieved. */
  ghost predicate Concluded(s: EnvState, r: StartResult,
                            startOutcome: ServiceId -> StartOutcome, stopOutcome: ServiceId -> StopOutcome)
  {
    && s.settled == Some(r)
    && (r == Resolved <==> forall x :: x in s.ctrls ==> startOutcome(x).StartOk?)
    && (r == Resolved ==>
          && Healthy(s, startOutcome)
          && s.ctx.registry.Keys == NodeSet(s.graph)
          && forall x :: x in s.ctrls ==>
               s.ctrls[x].phase == Lifecycle.Started(s.ctx.registry[x]) && startOutcome(x) == StartOk(s.ctx.registry[x]))
    && (r.Rejected? ==>
          && (exists x :: x in s.ctrls && startOutcome(x) == StartFailed(r.error))
          && exists waited :: RolledBack(s, waited, stopOutcome))
  }

  /** A startup under way, or one that has settled: Healthy unless rejected, rolled back when rejected. */
  ghost predicate Awaiting(s: EnvState, startOutcome: ServiceId -> StartOutcome, stopOutcome: ServiceId -> StopOutcome)
  {
    && Wf(s)
    && (s.settled.None? ==> Healthy(s, startOutcome))
    && (s.settled.Some? ==> Concluded(s, s.settled.value, startOutcome, stopOutcome))
  }

  /**
   * `r` is the state reached when the start of `x`, in flight in the healthy startup `at`,
   * failed: the failure rejects the startup and the shutdown it triggers rolls back every
   * service, waiting for the starts that were in flight beside the failed one.
   */
  ghost predicate RejectedBy(at: EnvState, x: ServiceId, r: EnvState,
                             startOutcome: ServiceId -> StartOutcome, stopOutcome: ServiceId -> StopOutcome)
  {
    && Healthy(at, startOutcome) && x in at.ctrls && at.ctrls[x].phase.Starting?
    && startOutcome(x).StartFailed?
    && r == Resolve(at, x, startOutcome, stopOutcome)
    && r.settled == Some(Rejected(startOutcome(x).error))
    && RolledBack(r, Shutdown.Waiting(at) - {x}, stopOutcome)
  }

  /** Healthy startups are awaited ones. */
  lemma HealthyIsAwaiting(s: EnvState, startOutcome: ServiceId -> StartOutcome, stopOutcome: ServiceId -> StopOutcome)
    requires Healthy(s, startOutcome)
    ensures Awaiting(s, startOutcome, stopOutcome)
  {
    if s.settled.Some? {
      ResolvedMeansComplete(s, startOutcome);
      assert forall x :: x in s.ctrls ==> startOutcome(x).StartOk? by {
        forall x | x in s.ctrls ensures startOutcome(x).StartOk? {
          assert s.ctrls[x].phase.Started?;
          assert x in StartedSet(s);
          assert CtrlOk(s.graph, StartedSet(s), s.ctx.registry, x, s.ctrls[x], startOutcome);
        }
      }
      forall x | x in s.ctrls
        ensures s.ctrls[x].phase == Lifecycle.Started(s.ctx.registry[x])
      {
        assert x in StartedSet(s);
      }
    }
  }

  /**
   * Settling one start in flight keeps the startup awaited, changes neither the graph nor the
   * set of controllers, and, while the startup is unsettled, adds a started service.
   */
  lemma SettleStep(s: EnvState, x: ServiceId,
                   startOutcome: ServiceId -> StartOutcome, stopOutcome: ServiceId -> StopOutcome)
    requires Awaiting(s, startOutcome, stopOutcome) && s.settled.None? && WellBehaved(startOutcome)
    requires x in s.ctrls && s.ctrls[x].phase.Starting?
    ensures var r := Resolve(s, x, startOutcome, stopOutcome);
      && Awaiting(r, startOutcome, stopOutcome)
      && r.graph == s.graph && r.ctrls.Keys == s.ctrls.Keys
      && (r.settled.None? ==> NodeSet(r.graph) - StartedSet(r) < NodeSet(s.graph) - StartedSet(s))
      && (r.settled.Some? && r.settled.value.Rejected? ==>
            && startOutcome(x) == StartFailed(r.settled.value.error)
            && RolledBack(r, Shutdown.Waiting(s) - {x}, stopOutcome))
  {
    if startOutcome(x).StartOk? {
      SuccessProgresses(s, x, startOutcome, stopOutcome);
    } else {
      FailureConcludes(s, x, startOutcome, stopOutcome);
    }
  }

  lemma SuccessProgresses(s: EnvState, x: ServiceId,
                          startOutcome: ServiceId -> StartOutcome, stopOutcome: ServiceId -> StopOutcome)
    requires Healthy(s, startOutcome) && WellBehaved(startOutcome)
    requires x in s.ctrls && s.ctrls[x].phase.Starting? && startOutcome(x).StartOk?
    ensures var r := Resolve(s, x, startOutcome, stopOutcome);
      && Healthy(r, startOutcome) && Awaiting(r, startOutcome, stopOutcome)
      && r.graph == s.graph && r.ctrls.Keys == s.ctrls.Keys
      && NodeSet(r.graph) - StartedSet(r) < NodeSet(s.graph) - StartedSet(s)
  {
    var r := Resolve(s, x, startOutcome, stopOutcome);
    SuccessKeepsHealthy(s, x, startOutcome, stopOutcome);
    HealthyIsAwaiting(r, startOutcome, stopOutcome);
    assert x in NodeSet(s.graph) && x !in StartedSet(s);
    assert x in StartedSet(r);
  }

  lemma FailureConcludes(s: EnvState, x: ServiceId,
                         startOutcome: ServiceId -> StartOutcome, stopOutcome: ServiceId -> StopOutcome)
    requires Healthy(s, startOutcome)
    requires x in s.ctrls && s.ctrls[x].phase.Starting? && startOutcome(x).StartFailed?
    ensures var r := Resolve(s, x, startOutcome, stopOutcome);
      && Awaiting(r, startOutcome, stopOutcome) && r.graph == s.graph && r.ctrls.Keys == s.ctrls.Keys
      && r.settled == Some(Rejected(startOutcome(x).error))
      && RolledBack(r, Shutdown.Waiting(s) - {x}, stopOutcome)
  {
    var r := Resolve(s, x, startOutcome, stopOutcome);
    FailureRollsBack(s, x, startOutcome, stopOutcome);
    assert x in r.ctrls && startOutcome(x) == StartFailed(r.settled.value.error);
    assert Wf(r);
  }
}
