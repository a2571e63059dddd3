/**
 * Three places where the startup and shutdown code, as written, does not do what it evidently
 * intends, each shown on a concrete environment together with the corrected behaviour.
 */
module Findings {
  import opened Types
  import opened DirectedGraph
  import opened Orchestration
  import Lifecycle
  import Registration
  import Startup
  import Shutdown

  /** b depends on a. */
  function Pair(a: ServiceId, b: ServiceId): Graph
  {
    Graph([a, b], {Edge(a, b)})
  }

  /** The environment after registering a, then b with dependency a. */
  function PairRegistered(a: ServiceId, b: ServiceId): EnvState
  {
    EnvState(Pair(a, b),
             map[a := Lifecycle.Fresh(), b := Lifecycle.Fresh().(pending := {a})],
             Context("env", map[], false), {}, None, false, [])
  }

  lemma PairRegisteredIsWired(a: ServiceId, b: ServiceId)
    requires a != b
    ensures Registration.Wired(PairRegistered(a, b)) && IsAcyclic(Pair(a, b))
  {
    var g := Pair(a, b);
    assert Preds(g, b) == {a} by {
      assert Edge(a, b) in g.edges;
    }
    assert Preds(g, a) == {};
    assert IsTopologicalOrder(g, [a, b]);
    OrderMeansAcyclic(g, [a, b]);
  }

  /** The shutdown order of the pair: b, then a. */
  lemma PairShutdownOrder(a: ServiceId, b: ServiceId)
    requires a != b
    ensures Valid(Pair(a, b)) && IsAcyclic(Pair(a, b))
    ensures ReverseTopologicalSort(Pair(a, b)) == [b, a]
  {
    PairRegisteredIsWired(a, b);
    var g := Pair(a, b);
    var q := ReverseTopologicalSort(g);
    Startup.DistinctCard(q);
    assert (set n | n in q) == {a, b};
    assert a in q && b in q;
    var i :| 0 <= i < |q| && q[i] == a;
    var j :| 0 <= j < |q| && q[j] == b;
    assert Edge(q[i], q[j]) in g.edges;
  }

  /**
   * The pair once startup has begun: a's start is in flight, b waits for a. Both shutdown
   * variants first stop b, a no-op as b is idle, then wait for a's start and stop a.
   */
  lemma PairStartingThenStopped(a: ServiceId, b: ServiceId, startOutcome: ServiceId -> StartOutcome, stopOutcome: ServiceId -> StopOutcome)
    requires a != b
    ensures var s := BeginStart(PairRegistered(a, b));
      && Valid(s.graph) && IsAcyclic(s.graph)
      && s.ctrls[a].phase.Starting? && s.ctrls[b] == Lifecycle.Fresh().(pending := {a})
      && StopAsWritten(s, startOutcome, stopOutcome)
         == StopOne(StopOne(s, b, startOutcome, stopOutcome), a, startOutcome, stopOutcome)
  {
    PairRegisteredIsWired(a, b);
    PairShutdownOrder(a, b);
    var s := BeginStart(PairRegistered(a, b));
    Startup.BeginStartHealthy(PairRegistered(a, b), startOutcome);
    assert IsRoot(Pair(a, b), a);
    assert !IsRoot(Pair(a, b), b) by {
      assert Edge(a, b) in Pair(a, b).edges;
    }
    assert s.ctrls[b] == PairRegistered(a, b).ctrls[b];
    SplitPair(s, b, a);
    StopEachOne(s, b, startOutcome, stopOutcome);
    StopEachOne(StopOne(s, b, startOutcome, stopOutcome), a, startOutcome, stopOutcome);
  }

  /** Of the sequence [x, y], with y's start in flight and x's not, the first pass takes x and the second y. */
  lemma SplitPair(s: EnvState, x: ServiceId, y: ServiceId)
    requires !InFlight(s, x) && InFlight(s, y)
    ensures Split(s, [x, y], false) == [x] && Split(s, [x, y], true) == [y]
  {
    var q := [x, y];
    assert q[..1] == [x] && q[1] == y;
    assert [x][..0] == [] && [x][0] == x;
    assert Split(s, [x], false) == Split(s, [], false) + [x];
    assert Split(s, [x], true) == Split(s, [], true);
    assert Split(s, q, false) == Split(s, [x], false);
    assert Split(s, q, true) == Split(s, [x], true) + [y];
  }

  lemma StopEachOne(s: EnvState, x: ServiceId, startOutcome: ServiceId -> StartOutcome, stopOutcome: ServiceId -> StopOutcome)
    ensures StopEach(s, [x], startOutcome, stopOutcome) == StopOne(s, x, startOutcome, stopOutcome)
  {
    assert [x][..0] == [];
  }

  /**
   * As written, shutdown does not mark the context as shutting down. Stopping the pair while
   * a's start is in flight stops b first, which is idle and so is skipped; then a's start
   * succeeds, a's 'started' event starts b, and only then is a stopped. The shutdown ends with
   * b's start in flight and b never stopped.
   */
  lemma ShutdownAsWrittenStartsDependent(a: ServiceId, b: ServiceId, startOutcome: ServiceId -> StartOutcome, stopOutcome: ServiceId -> StopOutcome)
    requires a != b && startOutcome(a).StartOk? && startOutcome(a).meta.id == a
    ensures Valid(Pair(a, b)) && IsAcyclic(Pair(a, b))
    ensures var r := StopAsWritten(BeginStart(PairRegistered(a, b)), startOutcome, stopOutcome);
      && b in r.ctrls
      && r.ctrls[b].phase.Starting? && r.ctrls[b].startCalls == 1 && r.ctrls[b].stopCalls == 0
      && b !in r.stopLog
  {
    PairStartingThenStopped(a, b, startOutcome, stopOutcome);
    var s := BeginStart(PairRegistered(a, b));
    var s1 := StopOne(s, b, startOutcome, stopOutcome);
    IdleStopChangesNothing(s, b, startOutcome, stopOutcome);
    assert b in Dependents(Pair(a, b), a) by {
      assert Edge(a, b) in Pair(a, b).edges;
    }
    AwaitedStartNotifies(s1, a, b, startOutcome, stopOutcome);
  }

  /** Stopping an idle controller changes nothing. */
  lemma IdleStopChangesNothing(s: EnvState, x: ServiceId,
                               startOutcome: ServiceId -> StartOutcome, stopOutcome: ServiceId -> StopOutcome)
    requires x in s.ctrls && s.ctrls[x].phase.Idle?
    ensures var r := StopOne(s, x, startOutcome, stopOutcome);
      && r.graph == s.graph && r.ctx == s.ctx && r.stopLog == s.stopLog
      && r.ctrls.Keys == s.ctrls.Keys && forall z :: z in s.ctrls ==> r.ctrls[z] == s.ctrls[z]
  {
    assert StopOne(s, x, startOutcome, stopOutcome) == Halted(s, x, startOutcome, stopOutcome);
  }

  /** Stopping x while its start is in flight and about to succeed notifies each dependent y. */
  lemma AwaitedStartNotifies(s: EnvState, x: ServiceId, y: ServiceId,
                             startOutcome: ServiceId -> StartOutcome, stopOutcome: ServiceId -> StopOutcome)
    requires x != y && x in s.ctrls && y in s.ctrls && s.ctrls[x].phase.Starting?
    requires startOutcome(x).StartOk? && y in Dependents(s.graph, x)
    ensures var r := StopOne(s, x, startOutcome, stopOutcome);
      && y in r.ctrls
      && r.ctrls[y] == Lifecycle.DependencyStarted(s.ctrls[y], startOutcome(x).meta, s.ctx.shuttingDown)
      && (y in r.stopLog <==> y in s.stopLog)
  {
    var h := Halted(s, x, startOutcome, stopOutcome);
    assert h.ctrls[y] == s.ctrls[y] && h.graph == s.graph && h.ctx == s.ctx;
    assert h.stopLog == s.stopLog || h.stopLog == s.stopLog + [x];
  }

  /** With the context marked first, the same shutdown leaves b idle, its start never invoked. */
  lemma ShutdownLeavesDependentIdle(a: ServiceId, b: ServiceId, startOutcome: ServiceId -> StartOutcome, stopOutcome: ServiceId -> StopOutcome)
    requires a != b && startOutcome(a).StartOk? && startOutcome(a).meta.id == a
    ensures Valid(Pair(a, b)) && IsAcyclic(Pair(a, b))
    ensures var r := Stop(BeginStart(PairRegistered(a, b)), startOutcome, stopOutcome);
      && a in r.ctrls && b in r.ctrls
      && r.ctrls[b].phase.Idle? && r.ctrls[b].startCalls == 0 && r.ctrls[b].stopCalls == 0
      && r.ctrls[a].stopCalls == 1
  {
    PairStartingThenStopped(a, b, startOutcome, stopOutcome);
    var s := BeginStart(PairRegistered(a, b));
    Shutdown.StopShutsDown(s, startOutcome, stopOutcome);
    var r := Stop(s, startOutcome, stopOutcome);
    assert !Lifecycle.StopInvokes(s.ctrls[b], startOutcome(b)) && Lifecycle.StopInvokes(s.ctrls[a], startOutcome(a));
    assert s.ctrls[a].stopCalls == 0 && s.ctrls[b].startCalls == 0;
    assert !r.ctrls[b].phase.Starting? && !r.ctrls[b].phase.Started?;
  }

  /** Two services without dependencies, a registered before b. */
  function Loose(a: ServiceId, b: ServiceId): Graph
  {
    Graph([a, b], {})
  }

  /** The environment after registering a, then b, neither with a dependency. */
  function LooseRegistered(a: ServiceId, b: ServiceId): EnvState
  {
    EnvState(Loose(a, b), map[a := Lifecycle.Fresh(), b := Lifecycle.Fresh()],
             Context("env", map[], false), {}, None, false, [])
  }

  /** The shutdown order of two independent services is the reverse of their registration. */
  lemma LooseShutdownOrder(a: ServiceId, b: ServiceId)
    requires a != b
    ensures Valid(Loose(a, b)) && IsAcyclic(Loose(a, b))
    ensures ReverseTopologicalSort(Loose(a, b)) == [b, a]
  {
    var g := Loose(a, b);
    assert !HasPredIn(g, a, [a, b]) && !HasPredIn(g, b, [b]);
    assert FirstSource(g, [a, b], 0) == Some(0);
    assert RemoveAt([a, b], 0) == [b];
    assert FirstSource(g, [b], 0) == Some(0);
    assert RemoveAt([b], 0) == [];
    assert Peel(g, []) == Some([]);
    assert [b] + [] == [b] && [a] + [b] == [a, b];
    assert Peel(g, [b]) == Some([b]);
    assert TopologicalSort(g) == Some([a, b]);
  }

  /** Once startup has begun, both starts are in flight and both error listeners attached. */
  lemma LooseStarting(a: ServiceId, b: ServiceId)
    requires a != b
    ensures var s := BeginStart(LooseRegistered(a, b));
      && s.graph == Loose(a, b) && s.ctrls.Keys == {a, b} && s.listening == {a, b}
      && s.ctrls[a] == Lifecycle.Start(Lifecycle.Fresh()) && s.ctrls[b] == Lifecycle.Start(Lifecycle.Fresh())
      && s.stopLog == [] && !s.ctx.shuttingDown
  {
    var g := Loose(a, b);
    assert IsRoot(g, a) && IsRoot(g, b);
    assert NodeSet(g) == {a, b};
  }

  /**
   * As written, a start that fails while the shutdown waits for it runs a second shutdown from
   * the startup's 'error' listener. Stopping a and b while both starts are in flight waits for
   * b's start, then a's; b's fails and its listener issues the stops again, so a's stop now
   * waits twice for a's start. a's start succeeds and both waiting stops invoke a's stop.
   */
  lemma ShutdownAsWrittenStopsTwice(a: ServiceId, b: ServiceId, startOutcome: ServiceId -> StartOutcome, stopOutcome: ServiceId -> StopOutcome)
    requires a != b && startOutcome(a).StartOk? && startOutcome(b).StartFailed?
    ensures Valid(Loose(a, b)) && IsAcyclic(Loose(a, b))
    ensures var r := StopNestedAsWritten(BeginStart(LooseRegistered(a, b)), startOutcome, stopOutcome);
      && a in r.ctrls && r.ctrls[a].stopCalls == 2 && r.stopLog == [a, a]
  {
    LooseShutdownOrder(a, b);
    LooseStarting(a, b);
    var s := BeginStart(LooseRegistered(a, b));
    SplitBoth(s, b, a);
    assert StopEach(s, [], startOutcome, stopOutcome) == s;
    assert StopNestedAsWritten(s, startOutcome, stopOutcome) == AwaitAsWritten(s, [b, a], [b, a], startOutcome, stopOutcome);
    StopsTwiceFrom(s, a, b, startOutcome, stopOutcome);
  }

  /** The waiting stops of that shutdown, from the state where both starts are in flight. */
  lemma StopsTwiceFrom(s: EnvState, a: ServiceId, b: ServiceId,
                       startOutcome: ServiceId -> StartOutcome, stopOutcome: ServiceId -> StopOutcome)
    requires a != b && startOutcome(a).StartOk? && startOutcome(b).StartFailed? && s.graph.edges == {}
    requires s.ctrls.Keys == {a, b} && s.listening == {a, b} && s.stopLog == []
    requires s.ctrls[a] == Lifecycle.Start(Lifecycle.Fresh()) && s.ctrls[b] == Lifecycle.Start(Lifecycle.Fresh())
    ensures var r := AwaitAsWritten(s, [b, a], [b, a], startOutcome, stopOutcome);
      a in r.ctrls && r.ctrls[a].stopCalls == 2 && r.stopLog == [a, a]
  {
    var q := [b, a];
    var s2 := FailedFirst(s, a, b, startOutcome, stopOutcome);
    var s3 := StopOne(s2, a, startOutcome, stopOutcome);
    StartedWaiter(s2, q, a, [a], startOutcome, stopOutcome);
    AwaitedSuccessStops(s2, a, startOutcome, stopOutcome);
    assert [a] + [] == [a];
    SettledWaiter(s3, q, a, [], startOutcome, stopOutcome);
    var s4 := s3.(ctrls := s3.ctrls[a := Lifecycle.Resume(s3.ctrls[a], startOutcome(a), stopOutcome(a))],
                  stopLog := s3.stopLog + [a]);
    assert AwaitAsWritten(s4, q, [], startOutcome, stopOutcome) == s4;
    assert s3.stopLog == [] + [a] == [a];
    assert s4.stopLog == [a] + [a] == [a, a];
  }

  /**
   * b's start fails first: its listener runs the second shutdown, in which b is idle and a
   * waits once more. The queue becomes [a, a] and a is untouched.
   */
  lemma FailedFirst(s: EnvState, a: ServiceId, b: ServiceId,
                    startOutcome: ServiceId -> StartOutcome, stopOutcome: ServiceId -> StopOutcome)
    returns (s2: EnvState)
    requires a != b && startOutcome(b).StartFailed?
    requires s.ctrls.Keys == {a, b} && s.listening == {a, b} && s.stopLog == []
    requires s.ctrls[a] == Lifecycle.Start(Lifecycle.Fresh()) && s.ctrls[b] == Lifecycle.Start(Lifecycle.Fresh())
    ensures AwaitAsWritten(s, [b, a], [b, a], startOutcome, stopOutcome)
         == AwaitAsWritten(s2, [b, a], [a, a], startOutcome, stopOutcome)
    ensures s2.ctrls.Keys == {a, b} && s2.ctrls[a] == s.ctrls[a] && s2.stopLog == [] && s2.graph == s.graph
  {
    var q := [b, a];
    var s1 := StopOne(s, b, startOutcome, stopOutcome);
    assert s1.ctrls[b].phase.Idle? && s1.ctrls[a] == s.ctrls[a] && s1.stopLog == [];
    SplitPair(s1, b, a);
    StopEachOne(s1, b, startOutcome, stopOutcome);
    IdleStopChangesNothing(s1, b, startOutcome, stopOutcome);
    s2 := StopOne(s1, b, startOutcome, stopOutcome);
    FailedWaiter(s, q, b, [a], startOutcome, stopOutcome);
    assert [a] + [a] == [a, a];
  }

  /** A waiter whose start fails while its listener is attached runs a second shutdown. */
  lemma FailedWaiter(s: EnvState, q: seq<ServiceId>, x: ServiceId, rest: seq<ServiceId>,
                     startOutcome: ServiceId -> StartOutcome, stopOutcome: ServiceId -> StopOutcome)
    requires InFlight(s, x) && startOutcome(x).StartFailed? && x in s.listening
    ensures var s1 := StopOne(s, x, startOutcome, stopOutcome);
      AwaitAsWritten(s, q, [x] + rest, startOutcome, stopOutcome)
      == AwaitAsWritten(StopEach(s1, Split(s1, q, false), startOutcome, stopOutcome), q,
                        rest + Split(s1, q, true), startOutcome, stopOutcome)
  {
    assert ([x] + rest)[0] == x && ([x] + rest)[1..] == rest;
  }

  /** A waiter whose start succeeds stops the service once. */
  lemma StartedWaiter(s: EnvState, q: seq<ServiceId>, x: ServiceId, rest: seq<ServiceId>,
                      startOutcome: ServiceId -> StartOutcome, stopOutcome: ServiceId -> StopOutcome)
    requires InFlight(s, x) && startOutcome(x).StartOk?
    ensures AwaitAsWritten(s, q, [x] + rest, startOutcome, stopOutcome)
         == AwaitAsWritten(StopOne(s, x, startOutcome, stopOutcome), q, rest, startOutcome, stopOutcome)
  {
    assert ([x] + rest)[0] == x && ([x] + rest)[1..] == rest;
  }

  /** A waiter whose start an earlier waiter already saw succeed stops the service again. */
  lemma SettledWaiter(s: EnvState, q: seq<ServiceId>, x: ServiceId, rest: seq<ServiceId>,
                      startOutcome: ServiceId -> StartOutcome, stopOutcome: ServiceId -> StopOutcome)
    requires x in s.ctrls && !s.ctrls[x].phase.Starting? && startOutcome(x).StartOk?
    ensures var r := AwaitAsWritten(s, q, [x] + rest, startOutcome, stopOutcome);
      r == AwaitAsWritten(s.(ctrls := s.ctrls[x := Lifecycle.Resume(s.ctrls[x], startOutcome(x), stopOutcome(x))],
                             stopLog := s.stopLog + [x]), q, rest, startOutcome, stopOutcome)
  {
    assert ([x] + rest)[0] == x && ([x] + rest)[1..] == rest;
  }

  /** Waiting for a start in flight that succeeds invokes the stop once and logs it. */
  lemma AwaitedSuccessStops(s: EnvState, x: ServiceId,
                            startOutcome: ServiceId -> StartOutcome, stopOutcome: ServiceId -> StopOutcome)
    requires x in s.ctrls && s.ctrls[x] == Lifecycle.Start(Lifecycle.Fresh()) && startOutcome(x).StartOk?
    requires s.graph.edges == {}
    ensures var r := StopOne(s, x, startOutcome, stopOutcome);
      && x in r.ctrls && r.ctrls[x].stopCalls == 1 && !r.ctrls[x].phase.Starting?
      && r.stopLog == s.stopLog + [x]
  {
    var h := Halted(s, x, startOutcome, stopOutcome);
    assert h.ctrls[x].stopCalls == 1 && !h.ctrls[x].phase.Starting?;
    assert Dependents(h.graph, x) == {};
    var r := Announce(h, x, startOutcome(x).meta);
    assert r.ctrls[x] == h.ctrls[x];
  }

  /** Of the sequence [x, y], with both starts in flight, the first pass is empty and the second takes both. */
  lemma SplitBoth(s: EnvState, x: ServiceId, y: ServiceId)
    requires InFlight(s, x) && InFlight(s, y)
    ensures Split(s, [x, y], false) == [] && Split(s, [x, y], true) == [x, y]
  {
    var q := [x, y];
    assert q[..1] == [x] && q[1] == y;
    assert [x][..0] == [] && [x][0] == x;
    assert Split(s, [x], true) == Split(s, [], true) + [x];
    assert Split(s, [x], false) == Split(s, [], false);
    assert Split(s, q, false) == Split(s, [x], false);
    assert Split(s, q, true) == Split(s, [x], true) + [y];
  }

  /** The shutdown of the model issues the stops once: a's stop is invoked once and b's never. */
  lemma ShutdownStopsOnce(a: ServiceId, b: ServiceId, startOutcome: ServiceId -> StartOutcome, stopOutcome: ServiceId -> StopOutcome)
    requires a != b && startOutcome(a).StartOk? && startOutcome(b).StartFailed?
    ensures Valid(Loose(a, b)) && IsAcyclic(Loose(a, b))
    ensures var r := Stop(BeginStart(LooseRegistered(a, b)), startOutcome, stopOutcome);
      && a in r.ctrls && b in r.ctrls && r.ctrls[a].stopCalls == 1 && r.ctrls[b].stopCalls == 0
  {
    LooseShutdownOrder(a, b);
    LooseStarting(a, b);
    var s := BeginStart(LooseRegistered(a, b));
    Shutdown.StopShutsDown(s, startOutcome, stopOutcome);
    assert Lifecycle.StopInvokes(s.ctrls[a], startOutcome(a)) && !Lifecycle.StopInvokes(s.ctrls[b], startOutcome(b));
  }

  /**
   * As written, the startup of an environment without services never settles: the completion
   * check runs only when a service announces that it started, and there is none to start.
   */
  lemma EmptyStartAsWrittenNeverSettles(name: string)
    ensures var s := BeginStartAsWritten(Initial(name));
      s.settled.None? && forall x :: x in s.ctrls ==> !s.ctrls[x].phase.Starting?
  {
    var s := BeginStartAsWritten(Initial(name));
    assert s.ctrls == map[];
  }

  /** With the check also made up front, it resolves at once. */
  lemma EmptyStartResolves(name: string)
    ensures BeginStart(Initial(name)).settled == Some(Resolved)
  {
  }
}
