/**
 * The environment as a value, and each step of registration, startup and shutdown as a
 * function on it. The Environment and ServiceGraph classes are proved to perform exactly these
 * steps; the properties of startup and shutdown are proved about the steps themselves.
 *
 * Asynchrony is modelled by splitting a service start into the call (the controller becomes
 * Starting) and its settlement (Resolve / StopOne). During startup, which in-flight start settles
 * next is left open, so the startup properties hold for every schedule; during shutdown, the
 * starts that stops wait for settle in shutdown order. What the wrapped services do is given by two
 * functions: `startOutcome(x)` is how x's start settles, `stopOutcome(x)` how x's stop settles.
 */
module Orchestration {
  import opened Types
  import opened DirectedGraph
  import Lifecycle

  type Ctrl = Lifecycle.Ctrl

  /**
   * graph: the dependency graph; ctrls: the controller of every registered id; ctx: the shared
   * runtime context; listening: the services whose 'error' listener from the current startup is
   * still attached; settled: how the promise returned by start has settled, if at all;
   * begun: startup has been requested; stopLog: the services whose stop was invoked, in order.
   */
  datatype EnvState = EnvState(
    graph: Graph,
    ctrls: map<ServiceId, Ctrl>,
    ctx: Context,
    listening: set<ServiceId>,
    settled: Option<StartResult>,
    begun: bool,
    stopLog: seq<ServiceId>)

  function NodeSet(g: Graph): set<ServiceId>
  {
    set n | n in g.nodes
  }

  function Elems(q: seq<ServiceId>): set<ServiceId>
  {
    set x | x in q
  }

  /** The services without a dependency. */
  function RootSet(g: Graph): (r: set<ServiceId>)
    ensures forall x :: x in r <==> IsRoot(g, x)
  {
    Elems(Roots(g))
  }

  /** A newly constructed environment. */
  function Initial(name: string): EnvState
  {
    EnvState(Empty(), map[], Context(name, map[], false), {}, None, false, [])
  }

  // ---------------------------------------------------------------------------------------
  // Registration

  /** Adds the service's node and controller; an id seen before keeps its controller. */
  function AddService(s: EnvState, id: ServiceId): EnvState
  {
    s.(graph := AddNode(s.graph, id),
       ctrls := if id in s.ctrls then s.ctrls else s.ctrls[id := Lifecycle.Fresh()])
  }

  /**
   * Records that id depends on dep: the edge is added (creating dep's controller if it is new),
   * the dependency is added to id's pending set, and the error is reported when the edge closes
   * a cycle. The edge is not taken back in that case.
   */
  function AddDependency(s: EnvState, id: ServiceId, dep: ServiceId): (EnvState, Option<Error>)
  {
    var s' := s.(graph := AddEdge(s.graph, dep, id), ctrls := DependencyCtrls(s.ctrls, id, dep));
    (s', if IsAcyclic(s'.graph) then None else Some(CycleError(id, dep)))
  }

  /** The controllers once id depends on dep. */
  function DependencyCtrls(ctrls: map<ServiceId, Ctrl>, id: ServiceId, dep: ServiceId): map<ServiceId, Ctrl>
  {
    var ctrls' := if dep in ctrls then ctrls else ctrls[dep := Lifecycle.Fresh()];
    if id in ctrls' then ctrls'[id := Lifecycle.WithDependency(ctrls'[id], dep)] else ctrls'
  }

  /** Adds the dependencies in order, stopping at the first one that closes a cycle. */
  function AddDependencies(s: EnvState, id: ServiceId, deps: seq<ServiceId>): (EnvState, Option<Error>)
    decreases |deps|
  {
    if deps == [] then (s, None)
    else
      var (s', err) := AddDependency(s, id, deps[0]);
      if err.Some? then (s', err) else AddDependencies(s', id, deps[1..])
  }

  function Register(s: EnvState, id: ServiceId, deps: seq<ServiceId>): (EnvState, Option<Error>)
  {
    AddDependencies(AddService(s, id), id, deps)
  }

  // ---------------------------------------------------------------------------------------
  // Startup

  function StartAll(ctrls: map<ServiceId, Ctrl>, roots: set<ServiceId>): map<ServiceId, Ctrl>
  {
    map x | x in ctrls :: if x in roots then Lifecycle.Start(ctrls[x]) else ctrls[x]
  }

  /**
   * Startup as written: attach the listeners to every service, then start the services without
   * dependencies. The promise is settled only from the listeners.
   */
  function BeginStartAsWritten(s: EnvState): EnvState
  {
    s.(listening := s.listening + NodeSet(s.graph), begun := true, ctrls := StartAll(s.ctrls, RootSet(s.graph)))
  }

  /**
   * Startup with the completion check also made once up front, so that an environment whose
   * services are all started already (in particular an empty one) resolves.
   */
  function BeginStart(s: EnvState): EnvState
  {
    var s' := BeginStartAsWritten(s);
    if s'.settled.None? && |s'.ctx.registry| == |s'.graph.nodes| then s'.(settled := Some(Resolved)) else s'
  }

  /** The state BeginStart reaches, field by field. */
  lemma BeginStartIs(s: EnvState, ctrls: map<ServiceId, Ctrl>)
    requires ctrls == StartAll(s.ctrls, RootSet(s.graph))
    ensures var settled := if s.settled.None? && |s.ctx.registry| == |s.graph.nodes| then Some(Resolved) else s.settled;
      BeginStart(s) == EnvState(s.graph, ctrls, s.ctx, s.listening + NodeSet(s.graph), settled, true, s.stopLog)
  {
  }

  function NotifyAll(ctrls: map<ServiceId, Ctrl>, ds: set<ServiceId>, meta: Metadata, shuttingDown: bool): map<ServiceId, Ctrl>
  {
    map y | y in ctrls :: if y in ds then Lifecycle.DependencyStarted(ctrls[y], meta, shuttingDown) else ctrls[y]
  }

  /**
   * x's 'started' event, x's controller already being Started with meta: the metadata is
   * registered, the startup listener records it (resolving the startup once every service is
   * registered) and detaches x's error listener, and x's dependents are notified.
   */
  function Announce(s: EnvState, x: ServiceId, meta: Metadata): EnvState
  {
    var registry := s.ctx.registry[meta.id := meta];
    var settled := if s.settled.None? && |registry| == |s.graph.nodes| then Some(Resolved) else s.settled;
    s.(ctx := s.ctx.(registry := registry),
       listening := s.listening - {x},
       settled := settled,
       ctrls := NotifyAll(s.ctrls, Dependents(s.graph, x), meta, s.ctx.shuttingDown))
  }

  /** x's 'error' event: the listener, when still attached, detaches and rejects the startup. */
  function Fail(s: EnvState, x: ServiceId, e: Error): EnvState
  {
    if x !in s.listening then s
    else s.(listening := s.listening - {x}, settled := if s.settled.None? then Some(Rejected(e)) else s.settled)
  }

  /**
   * During startup, x's start settles. A success is announced; a failure rejects the startup
   * and rolls the environment back by stopping it.
   */
  function Resolve(s: EnvState, x: ServiceId,
                   startOutcome: ServiceId -> StartOutcome, stopOutcome: ServiceId -> StopOutcome): EnvState
    requires Valid(s.graph) && IsAcyclic(s.graph)
    requires x in s.ctrls
  {
    var s' := Completed(s, x, startOutcome(x));
    match startOutcome(x)
    case StartOk(meta) => Announce(s', x, meta)
    case StartFailed(e) => Stop(Fail(s', x, e), startOutcome, stopOutcome)
  }

  /** x's controller after its start settled with outcome. */
  function Completed(s: EnvState, x: ServiceId, outcome: StartOutcome): EnvState
    requires x in s.ctrls
  {
    s.(ctrls := s.ctrls[x := Lifecycle.Complete(s.ctrls[x], outcome)])
  }

  // ---------------------------------------------------------------------------------------
  // Shutdown

  /** x's controller stops; x is logged when that invokes the service's stop. */
  function Halted(s: EnvState, x: ServiceId,
                  startOutcome: ServiceId -> StartOutcome, stopOutcome: ServiceId -> StopOutcome): EnvState
    requires x in s.ctrls
  {
    var c := s.ctrls[x];
    s.(ctrls := s.ctrls[x := Lifecycle.Stop(c, startOutcome(x), stopOutcome(x))],
       stopLog := if Lifecycle.StopInvokes(c, startOutcome(x)) then s.stopLog + [x] else s.stopLog)
  }

  /**
   * The controller of x stops: waits for x's start in flight, then stops x if it is started.
   * The event of the awaited start is delivered as well.
   */
  function StopOne(s: EnvState, x: ServiceId,
                   startOutcome: ServiceId -> StartOutcome, stopOutcome: ServiceId -> StopOutcome): EnvState
  {
    if x !in s.ctrls then s
    else
      var s' := Halted(s, x, startOutcome, stopOutcome);
      if !s.ctrls[x].phase.Starting? then s'
      else match startOutcome(x)
        case StartOk(meta) => Announce(s', x, meta)
        case StartFailed(e) => Fail(s', x, e)
  }

  /** Stops the services of q one after another. */
  function StopEach(s: EnvState, q: seq<ServiceId>,
                    startOutcome: ServiceId -> StartOutcome, stopOutcome: ServiceId -> StopOutcome): EnvState
    decreases |q|
  {
    if q == [] then s
    else StopOne(StopEach(s, q[..|q| - 1], startOutcome, stopOutcome), q[|q| - 1], startOutcome, stopOutcome)
  }

  /** x's controller in s has a start in flight. */
  predicate InFlight(s: EnvState, x: ServiceId)
  {
    x in s.ctrls && s.ctrls[x].phase.Starting?
  }

  /** The services of q, in order, whose start is in flight in s (inFlight) or not (!inFlight). */
  function Split(s: EnvState, q: seq<ServiceId>, inFlight: bool): (r: seq<ServiceId>)
    ensures forall x :: x in r <==> x in q && InFlight(s, x) == inFlight
    decreases |q|
  {
    if q == [] then []
    else
      var z := q[|q| - 1];
      assert forall x :: x in q <==> x in q[..|q| - 1] || x == z;
      Split(s, q[..|q| - 1], inFlight) + (if InFlight(s, z) == inFlight then [z] else [])
  }

  /**
   * Shutdown as written: the stops of all controllers are issued at once, in shutdown order
   * (dependents first). An idle controller returns at once and a started one invokes its
   * service's stop straight away; one whose start is in flight waits for that start to settle,
   * so its stop takes effect after all of those, the waiting starts settling in shutdown order.
   */
  function StopAsWritten(s: EnvState, startOutcome: ServiceId -> StartOutcome, stopOutcome: ServiceId -> StopOutcome): EnvState
    requires Valid(s.graph) && IsAcyclic(s.graph)
  {
    var q := ReverseTopologicalSort(s.graph);
    StopEach(StopEach(s, Split(s, q, false), startOutcome, stopOutcome), Split(s, q, true), startOutcome, stopOutcome)
  }

  /** A shutdown pass never attaches a startup listener. */
  lemma StopEachListening(s: EnvState, q: seq<ServiceId>,
                          startOutcome: ServiceId -> StartOutcome, stopOutcome: ServiceId -> StopOutcome)
    ensures StopEach(s, q, startOutcome, stopOutcome).listening <= s.listening
    decreases |q|
  {
    if q != [] {
      StopEachListening(s, q[..|q| - 1], startOutcome, stopOutcome);
    }
  }

  /**
   * The stops that wait for a start, as written, one after another. The startup's 'error'
   * listener of a service is detached only by its 'started' event, so a start that fails while
   * its listener is still attached runs a further shutdown: its stops are issued at once, those
   * not waiting act immediately, and those waiting join the queue behind the ones already
   * waiting. A waiting stop that finds its start already settled by an earlier waiter invokes
   * the service's stop again when that start succeeded.
   */
  function AwaitAsWritten(s: EnvState, q: seq<ServiceId>, waiters: seq<ServiceId>,
                          startOutcome: ServiceId -> StartOutcome, stopOutcome: ServiceId -> StopOutcome): EnvState
    decreases s.listening, |waiters|
  {
    if waiters == [] then s
    else
      var x := waiters[0];
      if x !in s.ctrls then AwaitAsWritten(s, q, waiters[1..], startOutcome, stopOutcome)
      else if !s.ctrls[x].phase.Starting? then
        var s' := s.(ctrls := s.ctrls[x := Lifecycle.Resume(s.ctrls[x], startOutcome(x), stopOutcome(x))],
                     stopLog := if startOutcome(x).StartOk? then s.stopLog + [x] else s.stopLog);
        AwaitAsWritten(s', q, waiters[1..], startOutcome, stopOutcome)
      else
        var s1 := StopOne(s, x, startOutcome, stopOutcome);
        if startOutcome(x).StartFailed? && x in s.listening then
          var s2 := StopEach(s1, Split(s1, q, false), startOutcome, stopOutcome);
          StopEachListening(s1, Split(s1, q, false), startOutcome, stopOutcome);
          AwaitAsWritten(s2, q, waiters[1..] + Split(s1, q, true), startOutcome, stopOutcome)
        else AwaitAsWritten(s1, q, waiters[1..], startOutcome, stopOutcome)
  }

  /**
   * Shutdown as written, including the further shutdowns that failing starts run from the
   * startup's 'error' listener.
   */
  function StopNestedAsWritten(s: EnvState, startOutcome: ServiceId -> StartOutcome, stopOutcome: ServiceId -> StopOutcome): EnvState
    requires Valid(s.graph) && IsAcyclic(s.graph)
  {
    var q := ReverseTopologicalSort(s.graph);
    AwaitAsWritten(StopEach(s, Split(s, q, false), startOutcome, stopOutcome), q, Split(s, q, true), startOutcome, stopOutcome)
  }

  /** Shutdown that first marks the context as shutting down, so that no dependent starts any more. */
  function Stop(s: EnvState, startOutcome: ServiceId -> StartOutcome, stopOutcome: ServiceId -> StopOutcome): EnvState
    requires Valid(s.graph) && IsAcyclic(s.graph)
  {
    StopAsWritten(s.(ctx := s.ctx.(shuttingDown := true)), startOutcome, stopOutcome)
  }
}
