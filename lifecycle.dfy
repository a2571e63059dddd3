/**
 * The lifecycle of one service controller as a value: the abstract state that the
 * ServiceController class keeps in its fields, and the transitions its methods perform.
 * The environment-level model composes these transitions.
 */
module Lifecycle {
  import opened Types

  /**
   * Idle: not started and no start in flight. Starting: the service's start has been invoked
   * and has not settled yet (the source's pending `startPromise`). Started: the service's start
   * returned `meta` (the source's defined `meta` field).
   */
  datatype Phase = Idle | Starting | Started(meta: Metadata)

  /**
   * The abstract value of a controller. `startCalls` and `stopCalls` count how often the wrapped
   * service's start and stop operations have been invoked; `everStarted` records whether a start
   * has ever succeeded.
   */
  datatype Ctrl = Ctrl(
    pending: set<ServiceId>,
    startedDeps: map<ServiceId, Metadata>,
    phase: Phase,
    startCalls: nat,
    stopCalls: nat,
    everStarted: bool)

  /** What a controller emits when its start settles. */
  datatype Event = StartedEvent(meta: Metadata) | ErrorEvent(error: Error)

  /** A newly created controller. */
  function Fresh(): Ctrl
  {
    Ctrl({}, map[], Idle, 0, 0, false)
  }

  function WithDependency(c: Ctrl, dep: ServiceId): Ctrl
  {
    c.(pending := c.pending + {dep})
  }

  /** `start`: invokes the service only when idle; a started controller and one with a start in flight are left alone. */
  function Start(c: Ctrl): Ctrl
  {
    if c.phase.Idle? then c.(phase := Starting, startCalls := c.startCalls + 1) else c
  }

  /** A dependency's 'started' notification: record it, drop it from the pending set, maybe start. */
  function DependencyStarted(c: Ctrl, meta: Metadata, shuttingDown: bool): Ctrl
  {
    var c' := c.(startedDeps := c.startedDeps[meta.id := meta], pending := c.pending - {meta.id});
    if c'.pending == {} && !shuttingDown then Start(c') else c'
  }

  /** The in-flight start settles: success records the metadata, failure returns to idle. */
  function Complete(c: Ctrl, outcome: StartOutcome): Ctrl
  {
    match outcome
    case StartOk(meta) => c.(phase := Started(meta), everStarted := true)
    case StartFailed(_) => c.(phase := Idle)
  }

  function Emitted(outcome: StartOutcome): Event
  {
    match outcome
    case StartOk(meta) => StartedEvent(meta)
    case StartFailed(e) => ErrorEvent(e)
  }

  /**
   * `stop`: nothing when idle; otherwise wait for the start in flight (settling with
   * `startOutcome`), then, if the controller is started, invoke the service's stop. A failed stop
   * leaves the metadata in place, so the controller remains started.
   */
  function Stop(c: Ctrl, startOutcome: StartOutcome, stopOutcome: StopOutcome): Ctrl
  {
    var c' := if c.phase.Starting? then Complete(c, startOutcome) else c;
    if !c'.phase.Started? then c'
    else if stopOutcome.StopOk? then c'.(phase := Idle, stopCalls := c'.stopCalls + 1)
    else c'.(stopCalls := c'.stopCalls + 1)
  }

  /** A second start reuses the first: the service's start is invoked at most once in a row. */
  lemma StartIdempotent(c: Ctrl)
    ensures Start(Start(c)) == Start(c)
    ensures !Start(c).phase.Idle? && Start(c).startCalls <= c.startCalls + 1
  {
  }

  /** Stopping an idle controller changes nothing and invokes nothing. */
  lemma StopIdleIsNoop(c: Ctrl, startOutcome: StartOutcome, stopOutcome: StopOutcome)
    requires c.phase.Idle?
    ensures Stop(c, startOutcome, stopOutcome) == c && !StopInvokes(c, startOutcome)
  {
  }

  /**
   * A stop call resuming after the start it waited for has settled, as written: when that
   * start succeeded, the service's stop is invoked whatever the controller's phase is by now.
   */
  function Resume(c: Ctrl, startOutcome: StartOutcome, stopOutcome: StopOutcome): (r: Ctrl)
    ensures r.stopCalls == c.stopCalls + (if startOutcome.StartOk? then 1 else 0)
    ensures r.phase == (if startOutcome.StartOk? && stopOutcome.StopOk? then Idle else c.phase)
  {
    if !startOutcome.StartOk? then c
    else if stopOutcome.StopOk? then c.(phase := Idle, stopCalls := c.stopCalls + 1)
    else c.(stopCalls := c.stopCalls + 1)
  }

  /** Whether `Stop` invokes the service's stop operation. */
  predicate StopInvokes(c: Ctrl, startOutcome: StartOutcome)
  {
    c.phase.Started? || (c.phase.Starting? && startOutcome.StartOk?)
  }
}
