/**
 * Properties of shutdown. Once the context is marked as shutting down, a service's
 * 'started' notification no longer starts its dependents, so stopping the controllers in the
 * two passes of shutdown acts on each controller exactly as its own stop does. The stops of
 * the wrapped services are invoked first for the controllers that had no start in flight, then
 * for those that waited for one, dependents first within each group.
 */
module Shutdown {
  import opened Types
  import opened DirectedGraph
  import opened Orchestration
  import Lifecycle

  /** a and b agree on everything the lifecycle decides: phase, call counts, whether a start succeeded. */
  ghost predicate SameLifecycle(a: Ctrl, b: Ctrl)
  {
    a.phase == b.phase && a.startCalls == b.startCalls && a.stopCalls == b.stopCalls && a.everStarted == b.everStarted
  }

  /** The services of q, in order, whose stop operation is invoked when they are stopped from s. */
  function Invoked(s: EnvState, q: seq<ServiceId>, startOutcome: ServiceId -> StartOutcome): seq<ServiceId>
    decreases |q|
  {
    if q == [] then []
    else
      var z := q[|q| - 1];
      Invoked(s, q[..|q| - 1], startOutcome)
        + (if z in s.ctrls && Lifecycle.StopInvokes(s.ctrls[z], startOutcome(z)) then [z] else [])
  }

  /** Dependents come before their dependencies in o. */
  ghost predicate DependentsFirst(g: Graph, o: seq<ServiceId>)
  {
    forall i, j :: 0 <= i < |o| && 0 <= j < |o| && Edge(o[i], o[j]) in g.edges ==> j < i
  }

  /** The services whose controller has a start in flight in s. */
  ghost function Waiting(s: EnvState): set<ServiceId>
  {
    set y | y in s.ctrls && s.ctrls[y].phase.Starting?
  }

  /**
   * The order of the stops invoked in o, waited being the services whose stop first waited for
   * a start in flight: the others come first, and within each group dependents come before
   * their dependencies.
   */
  ghost predicate StopOrder(g: Graph, waited: set<ServiceId>, o: seq<ServiceId>)
  {
    && (forall i, j :: 0 <= i < |o| && 0 <= j < |o| && Edge(o[i], o[j]) in g.edges && (o[i] in waited <==> o[j] in waited) ==> j < i)
    && (forall i, j :: 0 <= i < |o| && 0 <= j < |o| && o[i] !in waited && o[j] in waited ==> i < j)
  }

  /** With shutdown marked, a notification changes only the bookkeeping of dependencies. */
  lemma NotifyAllKeepsLifecycle(ctrls: map<ServiceId, Ctrl>, ds: set<ServiceId>, meta: Metadata)
    ensures NotifyAll(ctrls, ds, meta, true).Keys == ctrls.Keys
    ensures forall y :: y in ctrls ==> SameLifecycle(NotifyAll(ctrls, ds, meta, true)[y], ctrls[y])
  {
  }

  /** One controller's stop, with shutdown marked: it acts on that controller alone. */
  lemma StopOneEffect(s: EnvState, x: ServiceId, startOutcome: ServiceId -> StartOutcome, stopOutcome: ServiceId -> StopOutcome)
    requires s.ctx.shuttingDown
    ensures var r := StopOne(s, x, startOutcome, stopOutcome);
      && r.graph == s.graph && r.ctrls.Keys == s.ctrls.Keys && r.ctx.shuttingDown && r.begun == s.begun
      && (forall y :: y in s.ctrls && y != x ==> SameLifecycle(r.ctrls[y], s.ctrls[y]))
      && (x in s.ctrls ==> SameLifecycle(r.ctrls[x], Lifecycle.Stop(s.ctrls[x], startOutcome(x), stopOutcome(x))))
      && r.stopLog == s.stopLog + (if x in s.ctrls && Lifecycle.StopInvokes(s.ctrls[x], startOutcome(x)) then [x] else [])
      && (s.settled.Some? ==> r.settled == s.settled)
  {
    if x in s.ctrls && s.ctrls[x].phase.Starting? && startOutcome(x).StartOk? {
      var c := s.ctrls[x];
      var s' := s.(ctrls := s.ctrls[x := Lifecycle.Stop(c, startOutcome(x), stopOutcome(x))],
                   stopLog := s.stopLog + [x]);
      NotifyAllKeepsLifecycle(s'.ctrls, Dependents(s.graph, x), startOutcome(x).meta);
    }
  }

  /** What stopping the controllers of q in turn, from s, has done to the controllers by the time it reaches r. */
  ghost predicate StoppedInTurn(s: EnvState, q: seq<ServiceId>, r: EnvState,
                                startOutcome: ServiceId -> StartOutcome, stopOutcome: ServiceId -> StopOutcome)
  {
    && r.graph == s.graph && r.ctrls.Keys == s.ctrls.Keys && r.ctx.shuttingDown && r.begun == s.begun
    && (s.settled.Some? ==> r.settled == s.settled)
    && forall y :: y in s.ctrls ==>
         SameLifecycle(r.ctrls[y], if y in q then Lifecycle.Stop(s.ctrls[y], startOutcome(y), stopOutcome(y)) else s.ctrls[y])
  }

  /** One more controller stopped, one not stopped before. */
  lemma StopNext(s: EnvState, p: seq<ServiceId>, z: ServiceId, rp: EnvState,
                 startOutcome: ServiceId -> StartOutcome, stopOutcome: ServiceId -> StopOutcome)
    requires z !in p && StoppedInTurn(s, p, rp, startOutcome, stopOutcome)
    ensures StoppedInTurn(s, p + [z], StopOne(rp, z, startOutcome, stopOutcome), startOutcome, stopOutcome)
  {
    var q := p + [z];
    assert forall y :: y in q <==> y in p || y == z;
    StopOneEffect(rp, z, startOutcome, stopOutcome);
    var r := StopOne(rp, z, startOutcome, stopOutcome);
    forall y | y in s.ctrls
      ensures SameLifecycle(r.ctrls[y], if y in q then Lifecycle.Stop(s.ctrls[y], startOutcome(y), stopOutcome(y)) else s.ctrls[y])
    {
      if y == z {
        assert SameLifecycle(rp.ctrls[z], s.ctrls[z]);
        StopKeepsSame(rp.ctrls[z], s.ctrls[z], startOutcome(z), stopOutcome(z));
      }
    }
  }

  lemma StopKeepsSame(a: Ctrl, b: Ctrl, startOutcome: StartOutcome, stopOutcome: StopOutcome)
    requires SameLifecycle(a, b)
    ensures SameLifecycle(Lifecycle.Stop(a, startOutcome, stopOutcome), Lifecycle.Stop(b, startOutcome, stopOutcome))
  {
  }

  /** The stop log grows by the next controller when its stop invokes the service's. */
  lemma LogNext(s: EnvState, p: seq<ServiceId>, z: ServiceId, rp: EnvState,
                startOutcome: ServiceId -> StartOutcome, stopOutcome: ServiceId -> StopOutcome)
    requires z !in p && StoppedInTurn(s, p, rp, startOutcome, stopOutcome)
    requires rp.stopLog == s.stopLog + Invoked(s, p, startOutcome)
    ensures StopOne(rp, z, startOutcome, stopOutcome).stopLog == s.stopLog + Invoked(s, p + [z], startOutcome)
  {
    var q := p + [z];
    assert q[..|q| - 1] == p;
    StopOneEffect(rp, z, startOutcome, stopOutcome);
    assert z in s.ctrls ==> SameLifecycle(rp.ctrls[z], s.ctrls[z]);
  }

  /** Stopping the controllers of q in turn stops each of them once and changes no other. */
  lemma {:induction false} StopEachEffect(s: EnvState, q: seq<ServiceId>,
                                           startOutcome: ServiceId -> StartOutcome, stopOutcome: ServiceId -> StopOutcome)
    requires s.ctx.shuttingDown && Distinct(q)
    ensures StoppedInTurn(s, q, StopEach(s, q, startOutcome, stopOutcome), startOutcome, stopOutcome)
    ensures StopEach(s, q, startOutcome, stopOutcome).stopLog == s.stopLog + Invoked(s, q, startOutcome)
    decreases |q|
  {
    if q == [] {
      assert Invoked(s, q, startOutcome) == [];
    } else {
      var p, z := q[..|q| - 1], q[|q| - 1];
      assert q == p + [z];
      assert Distinct(p);
      assert z !in p;
      StopEachEffect(s, p, startOutcome, stopOutcome);
      StopNext(s, p, z, StopEach(s, p, startOutcome, stopOutcome), startOutcome, stopOutcome);
      LogNext(s, p, z, StopEach(s, p, startOutcome, stopOutcome), startOutcome, stopOutcome);
    }
  }

  /** A stop never leaves a start in flight, and invokes the service's stop exactly when it was or becomes started. */
  lemma StopSettles(c: Ctrl, startOutcome: StartOutcome, stopOutcome: StopOutcome)
    ensures var r := Lifecycle.Stop(c, startOutcome, stopOutcome);
      && !r.phase.Starting?
      && (r.phase.Started? <==> Lifecycle.StopInvokes(c, startOutcome) && stopOutcome.StopFailed?)
      && r.stopCalls == c.stopCalls + (if Lifecycle.StopInvokes(c, startOutcome) then 1 else 0)
      && r.startCalls == c.startCalls
      && (r.everStarted <==> c.everStarted || (c.phase.Starting? && startOutcome.StartOk?))
  {
  }

  /** The invoked services of q keep q's order: a sub-sequence of a dependents-first order. */
  lemma {:induction false} InvokedOrder(s: EnvState, q: seq<ServiceId>, g: Graph, startOutcome: ServiceId -> StartOutcome)
    requires Distinct(q) && DependentsFirst(g, q)
    ensures var v := Invoked(s, q, startOutcome);
      && Distinct(v) && DependentsFirst(g, v)
      && forall y :: y in v <==> y in q && y in s.ctrls && Lifecycle.StopInvokes(s.ctrls[y], startOutcome(y))
    decreases |q|
  {
    if q != [] {
      var p, z := q[..|q| - 1], q[|q| - 1];
      assert Distinct(p);
      assert DependentsFirst(g, p) by {
        forall i, j | 0 <= i < |p| && 0 <= j < |p| && Edge(p[i], p[j]) in g.edges ensures j < i {
          assert p[i] == q[i] && p[j] == q[j];
        }
      }
      assert forall y :: y in q <==> y in p || y == z;
      InvokedOrder(s, p, g, startOutcome);
      var vp := Invoked(s, p, startOutcome);
      var v := Invoked(s, q, startOutcome);
      if z in s.ctrls && Lifecycle.StopInvokes(s.ctrls[z], startOutcome(z)) {
        assert v == vp + [z];
        assert z !in vp;
        forall i | 0 <= i < |vp| ensures Edge(vp[i], z) !in g.edges && Edge(z, z) !in g.edges {
          assert vp[i] in vp;
          var k :| 0 <= k < |p| && p[k] == vp[i];
          assert q[k] == vp[i] && q[|q| - 1] == z;
        }
        assert Edge(z, z) !in g.edges by { assert q[|q| - 1] == z; }
        forall i, j | 0 <= i < |v| && 0 <= j < |v| && Edge(v[i], v[j]) in g.edges ensures j < i {
          if i < |vp| && j < |vp| {
            assert v[i] == vp[i] && v[j] == vp[j];
          }
        }
      } else {
        assert v == vp;
      }
    }
  }

  /** Either part of a split keeps q's order. */
  lemma {:induction false} SplitOrder(s: EnvState, q: seq<ServiceId>, g: Graph, inFlight: bool)
    requires Distinct(q)
    ensures Distinct(Split(s, q, inFlight))
    ensures DependentsFirst(g, q) ==> DependentsFirst(g, Split(s, q, inFlight))
    decreases |q|
  {
    if q != [] {
      var p, z := q[..|q| - 1], q[|q| - 1];
      assert Distinct(p);
      assert DependentsFirst(g, q) ==> DependentsFirst(g, p) by {
        if DependentsFirst(g, q) {
          forall i, j | 0 <= i < |p| && 0 <= j < |p| && Edge(p[i], p[j]) in g.edges ensures j < i {
            assert p[i] == q[i] && p[j] == q[j];
          }
        }
      }
      SplitOrder(s, p, g, inFlight);
      var vp := Split(s, p, inFlight);
      var v := Split(s, q, inFlight);
      if InFlight(s, z) == inFlight {
        assert v == vp + [z];
        assert z !in vp;
        if DependentsFirst(g, q) {
          forall i | 0 <= i < |vp| ensures Edge(vp[i], z) !in g.edges {
            assert vp[i] in vp;
            var k :| 0 <= k < |p| && p[k] == vp[i];
            assert q[k] == vp[i] && q[|q| - 1] == z;
          }
          assert Edge(z, z) !in g.edges by { assert q[|q| - 1] == z; }
          forall i, j | 0 <= i < |v| && 0 <= j < |v| && Edge(v[i], v[j]) in g.edges ensures j < i {
            if i < |vp| && j < |vp| {
              assert v[i] == vp[i] && v[j] == vp[j];
            }
          }
        }
      } else {
        assert v == vp;
      }
    }
  }

  /** Stopping a controller acts alike on controllers that agree on their lifecycle. */
  lemma StopSame(a: Ctrl, b: Ctrl, startOutcome: StartOutcome, stopOutcome: StopOutcome)
    requires SameLifecycle(a, b)
    ensures SameLifecycle(Lifecycle.Stop(a, startOutcome, stopOutcome), Lifecycle.Stop(b, startOutcome, stopOutcome))
    ensures Lifecycle.StopInvokes(a, startOutcome) == Lifecycle.StopInvokes(b, startOutcome)
  {
  }

  /** The stops invoked from two states that agree on the lifecycles of q are the same. */
  lemma {:induction false} InvokedSame(s: EnvState, r: EnvState, q: seq<ServiceId>, startOutcome: ServiceId -> StartOutcome)
    requires forall y :: y in q ==> (y in s.ctrls <==> y in r.ctrls)
    requires forall y :: y in q && y in s.ctrls ==> SameLifecycle(s.ctrls[y], r.ctrls[y])
    ensures Invoked(s, q, startOutcome) == Invoked(r, q, startOutcome)
    decreases |q|
  {
    if q != [] {
      var z := q[|q| - 1];
      assert z in q;
      assert forall y :: y in q[..|q| - 1] ==> y in q;
      InvokedSame(s, r, q[..|q| - 1], startOutcome);
      if z in s.ctrls {
        StopSame(s.ctrls[z], r.ctrls[z], startOutcome(z), stopOutcome := StopOk);
      }
    }
  }

  /** Both passes of a shutdown, from a state with shutdown marked. */
  lemma TwoPassEffect(s: EnvState, q: seq<ServiceId>, startOutcome: ServiceId -> StartOutcome, stopOutcome: ServiceId -> StopOutcome)
    requires s.ctx.shuttingDown && Distinct(q)
    ensures var r := StopEach(StopEach(s, Split(s, q, false), startOutcome, stopOutcome), Split(s, q, true), startOutcome, stopOutcome);
      StoppedInTurn(s, q, r, startOutcome, stopOutcome)
  {
    var q1, q2 := Split(s, q, false), Split(s, q, true);
    SplitOrder(s, q, s.graph, false);
    SplitOrder(s, q, s.graph, true);
    StopEachEffect(s, q1, startOutcome, stopOutcome);
    var r1 := StopEach(s, q1, startOutcome, stopOutcome);
    StopEachEffect(r1, q2, startOutcome, stopOutcome);
    var r2 := StopEach(r1, q2, startOutcome, stopOutcome);
    InvokedSame(s, r1, q2, startOutcome);
    forall y | y in s.ctrls
      ensures SameLifecycle(r2.ctrls[y], if y in q then Lifecycle.Stop(s.ctrls[y], startOutcome(y), stopOutcome(y)) else s.ctrls[y])
    {
      if y in q2 {
        StopSame(r1.ctrls[y], s.ctrls[y], startOutcome(y), stopOutcome(y));
      }
    }
  }

  /** The stops invoked by both passes, first pass first. */
  lemma TwoPassStopLog(s: EnvState, q: seq<ServiceId>, startOutcome: ServiceId -> StartOutcome, stopOutcome: ServiceId -> StopOutcome)
    requires s.ctx.shuttingDown && Distinct(q)
    ensures StopEach(StopEach(s, Split(s, q, false), startOutcome, stopOutcome), Split(s, q, true), startOutcome, stopOutcome).stopLog
            == s.stopLog + Invoked(s, Split(s, q, false), startOutcome) + Invoked(s, Split(s, q, true), startOutcome)
  {
    var q1, q2 := Split(s, q, false), Split(s, q, true);
    SplitOrder(s, q, s.graph, false);
    SplitOrder(s, q, s.graph, true);
    StopEachEffect(s, q1, startOutcome, stopOutcome);
    var r1 := StopEach(s, q1, startOutcome, stopOutcome);
    StopEachEffect(r1, q2, startOutcome, stopOutcome);
    InvokedSame(s, r1, q2, startOutcome);
  }

  /** The stops of the first pass followed by those of the second are in stop order. */
  lemma ConcatStopOrder(g: Graph, waited: set<ServiceId>, v1: seq<ServiceId>, v2: seq<ServiceId>)
    requires Distinct(v1) && Distinct(v2) && DependentsFirst(g, v1) && DependentsFirst(g, v2)
    requires forall y :: y in v1 ==> y !in waited
    requires forall y :: y in v2 ==> y in waited
    ensures Distinct(v1 + v2) && StopOrder(g, waited, v1 + v2)
  {
    var v := v1 + v2;
    assert forall k :: 0 <= k < |v1| ==> v[k] == v1[k] && v[k] in v1 && v[k] !in waited;
    assert forall k :: |v1| <= k < |v| ==> v[k] == v2[k - |v1|] && v[k] in v2 && v[k] in waited;
    forall i, j | 0 <= i < j < |v| ensures v[i] != v[j] {
      if j < |v1| {
        assert v[i] == v1[i] && v[j] == v1[j];
      } else if |v1| <= i {
        assert v[i] == v2[i - |v1|] && v[j] == v2[j - |v1|];
      }
    }
    forall i, j | 0 <= i < |v| && 0 <= j < |v| && Edge(v[i], v[j]) in g.edges && (v[i] in waited <==> v[j] in waited)
      ensures j < i
    {
      if i < |v1| && j < |v1| {
        assert v[i] == v1[i] && v[j] == v1[j];
      } else if |v1| <= i && |v1| <= j {
        assert v[i] == v2[i - |v1|] && v[j] == v2[j - |v1|];
      }
    }
  }

  /** The stops invoked by the two passes over q. */
  lemma TwoPassLog(s: EnvState, q: seq<ServiceId>, g: Graph, startOutcome: ServiceId -> StartOutcome)
    requires Distinct(q) && DependentsFirst(g, q)
    ensures var n := Invoked(s, Split(s, q, false), startOutcome) + Invoked(s, Split(s, q, true), startOutcome);
      && Distinct(n) && StopOrder(g, Waiting(s), n)
      && (forall y :: y in n <==> y in q && y in s.ctrls && Lifecycle.StopInvokes(s.ctrls[y], startOutcome(y)))
  {
    var q1, q2 := Split(s, q, false), Split(s, q, true);
    SplitOrder(s, q, g, false);
    SplitOrder(s, q, g, true);
    InvokedOrder(s, q1, g, startOutcome);
    InvokedOrder(s, q2, g, startOutcome);
    var v1, v2 := Invoked(s, q1, startOutcome), Invoked(s, q2, startOutcome);
    ConcatStopOrder(g, Waiting(s), v1, v2);
  }

  /** The services whose stop a shutdown of s invokes, in order. */
  function StopsInvoked(s: EnvState, startOutcome: ServiceId -> StartOutcome): seq<ServiceId>
    requires Valid(s.graph) && IsAcyclic(s.graph)
  {
    var s' := s.(ctx := s.ctx.(shuttingDown := true));
    var q := ReverseTopologicalSort(s.graph);
    Invoked(s', Split(s', q, false), startOutcome) + Invoked(s', Split(s', q, true), startOutcome)
  }

  lemma StopLogGrows(s: EnvState, startOutcome: ServiceId -> StartOutcome, stopOutcome: ServiceId -> StopOutcome)
    requires Valid(s.graph) && IsAcyclic(s.graph)
    ensures Stop(s, startOutcome, stopOutcome).stopLog == s.stopLog + StopsInvoked(s, startOutcome)
  {
    var s' := s.(ctx := s.ctx.(shuttingDown := true));
    StopIsStopAsWritten(s, startOutcome, stopOutcome);
    TwoPassStopLog(s', ReverseTopologicalSort(s'.graph), startOutcome, stopOutcome);
  }

  lemma StopIsStopAsWritten(s: EnvState, startOutcome: ServiceId -> StartOutcome, stopOutcome: ServiceId -> StopOutcome)
    requires Valid(s.graph) && IsAcyclic(s.graph)
    ensures var s' := s.(ctx := s.ctx.(shuttingDown := true));
      var q := ReverseTopologicalSort(s.graph);
      Stop(s, startOutcome, stopOutcome) == StopEach(StopEach(s', Split(s', q, false), startOutcome, stopOutcome), Split(s', q, true), startOutcome, stopOutcome)
  {
  }

  lemma StopsInvokedOrder(s: EnvState, startOutcome: ServiceId -> StartOutcome)
    requires Valid(s.graph) && IsAcyclic(s.graph)
    requires forall x :: x in s.ctrls <==> x in s.graph.nodes
    ensures var n := StopsInvoked(s, startOutcome);
      && Distinct(n) && StopOrder(s.graph, Waiting(s), n)
      && (forall y :: y in n <==> y in s.ctrls && Lifecycle.StopInvokes(s.ctrls[y], startOutcome(y)))
  {
    var s' := s.(ctx := s.ctx.(shuttingDown := true));
    TwoPassLog(s', ReverseTopologicalSort(s.graph), s.graph, startOutcome);
    assert Waiting(s') == Waiting(s);
  }

  /** The stops a shutdown invokes: those of the services that were or become started, once each, in stop order. */
  lemma ShutdownLog(s: EnvState, startOutcome: ServiceId -> StartOutcome, stopOutcome: ServiceId -> StopOutcome)
    requires Valid(s.graph) && IsAcyclic(s.graph)
    requires forall x :: x in s.ctrls <==> x in s.graph.nodes
    ensures var r := Stop(s, startOutcome, stopOutcome);
      && |s.stopLog| <= |r.stopLog| && r.stopLog[..|s.stopLog|] == s.stopLog
      && Distinct(r.stopLog[|s.stopLog|..])
      && StopOrder(s.graph, Waiting(s), r.stopLog[|s.stopLog|..])
      && (forall y :: y in r.stopLog[|s.stopLog|..] <==> y in s.ctrls && Lifecycle.StopInvokes(s.ctrls[y], startOutcome(y)))
  {
    StopLogGrows(s, startOutcome, stopOutcome);
    StopsInvokedOrder(s, startOutcome);
    var r := Stop(s, startOutcome, stopOutcome);
    assert r.stopLog[|s.stopLog|..] == StopsInvoked(s, startOutcome);
  }

  /**
   * Shutdown: afterwards no start is in flight, a controller is still started exactly when its
   * stop was invoked and failed, each stop is invoked at most once more than before and only for
   * a service that was (or became) started, no start is invoked, and the stops are invoked in
   * stop order: those that did not wait for a start first, dependents first within each group.
   */
  lemma StopShutsDown(s: EnvState, startOutcome: ServiceId -> StartOutcome, stopOutcome: ServiceId -> StopOutcome)
    requires Valid(s.graph) && IsAcyclic(s.graph)
    requires forall x :: x in s.ctrls <==> x in s.graph.nodes
    ensures var r := Stop(s, startOutcome, stopOutcome);
      && r.graph == s.graph && r.ctrls.Keys == s.ctrls.Keys && r.ctx.shuttingDown
      && (forall y :: y in s.ctrls ==>
            var c, rc := s.ctrls[y], r.ctrls[y];
            && !rc.phase.Starting?
            && (rc.phase.Started? <==> Lifecycle.StopInvokes(c, startOutcome(y)) && stopOutcome(y).StopFailed?)
            && rc.stopCalls == c.stopCalls + (if Lifecycle.StopInvokes(c, startOutcome(y)) then 1 else 0)
            && rc.startCalls == c.startCalls
            && (rc.everStarted <==> c.everStarted || (c.phase.Starting? && startOutcome(y).StartOk?)))
      && |s.stopLog| <= |r.stopLog| && r.stopLog[..|s.stopLog|] == s.stopLog
      && Distinct(r.stopLog[|s.stopLog|..])
      && StopOrder(s.graph, Waiting(s), r.stopLog[|s.stopLog|..])
      && (forall y :: y in r.stopLog[|s.stopLog|..] <==> y in s.ctrls && Lifecycle.StopInvokes(s.ctrls[y], startOutcome(y)))
      && (s.settled.Some? ==> r.settled == s.settled)
  {
    var s' := s.(ctx := s.ctx.(shuttingDown := true));
    var q := ReverseTopologicalSort(s.graph);
    TwoPassEffect(s', q, startOutcome, stopOutcome);
    ShutdownLog(s, startOutcome, stopOutcome);
    forall y | y in s.ctrls {
      StopSettles(s.ctrls[y], startOutcome(y), stopOutcome(y));
    }
  }
}
