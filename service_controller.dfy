/**
 * The controller that wraps one service: it tracks the dependencies still pending, the
 * metadata of those that started, and whether a start is in flight or has succeeded. Each
 * method performs the corresponding transition of the Lifecycle module on the controller's
 * fields.
 *
 * The asynchronous start is split in two: `Start` invokes the wrapped service's start and
 * leaves the controller Starting; `CompleteStart` is the moment that start settles, with the
 * outcome given by the caller. Events are returned to the caller, which delivers them.
 */
module Controller {
  import opened Types
  import Lifecycle

  class ServiceController {
    const service: Service
    var pending: set<ServiceId>
    var startedDeps: map<ServiceId, Metadata>
    var phase: Lifecycle.Phase
    /** How often the wrapped service's start and stop have been invoked. */
    ghost var startCalls: nat
    ghost var stopCalls: nat
    /** Whether a start of the wrapped service has ever succeeded. */
    ghost var everStarted: bool

    ghost function View(): Lifecycle.Ctrl
      reads this
    {
      Lifecycle.Ctrl(pending, startedDeps, phase, startCalls, stopCalls, everStarted)
    }

    /** The controller starts with no pending dependency; they are added one by one. */
    constructor(service: Service)
      ensures this.service == service
      ensures View() == Lifecycle.Fresh()
    {
      this.service := service;
      pending := {};
      startedDeps := map[];
      phase := Lifecycle.Idle;
      startCalls := 0;
      stopCalls := 0;
      everStarted := false;
    }

    function Id(): ServiceId
    {
      service.id
    }

    predicate IsStarted()
      reads this
    {
      phase.Started?
    }

    method AddDependency(dep: ServiceController)
      modifies this
      ensures pending == old(pending) + {dep.Id()}
      ensures View() == Lifecycle.WithDependency(old(View()), dep.Id())
    {
      pending := pending + {dep.Id()};
    }

    /**
     * A dependency announced that it started. Its metadata is recorded and it is no longer
     * pending; the start is invoked once nothing is pending, unless the environment is shutting
     * down. A controller that is not idle at this point reports the broken internal state
     * (`violated`) and does not start.
     */
    method OnDependencyStarted(meta: Metadata, ctx: Context) returns (began: bool, violated: bool)
      modifies this
      ensures pending == old(pending) - {meta.id}
      ensures startedDeps == old(startedDeps)[meta.id := meta]
      ensures violated <==> !old(phase).Idle?
      ensures began <==> old(phase).Idle? && pending == {} && !ctx.shuttingDown
      ensures began ==> phase.Starting? && startCalls == old(startCalls) + 1
      ensures !began ==> phase == old(phase) && startCalls == old(startCalls)
      ensures View() == Lifecycle.DependencyStarted(old(View()), meta, ctx.shuttingDown)
    {
      startedDeps := startedDeps[meta.id := meta];
      pending := pending - {meta.id};
      violated := !phase.Idle?;
      began := false;
      if !violated && pending == {} && !ctx.shuttingDown {
        began := Start();
      }
    }

    /**
     * Invokes the service's start unless the controller is started already or a start is in
     * flight, in which case that start is reused.
     */
    method Start() returns (invoked: bool)
      modifies this
      ensures invoked <==> old(phase).Idle?
      ensures invoked ==> phase.Starting? && startCalls == old(startCalls) + 1
      ensures !invoked ==> phase == old(phase) && startCalls == old(startCalls)
      ensures View() == Lifecycle.Start(old(View()))
    {
      if phase.Started? {
        return false;
      }
      if phase.Starting? {
        return false;
      }
      phase := Lifecycle.Starting;
      startCalls := startCalls + 1;
      invoked := true;
    }

    /**
     * The start in flight settles with `outcome`: on success the controller is started with the
     * returned metadata and emits 'started'; on failure it is idle again and emits 'error'.
     */
    method CompleteStart(outcome: StartOutcome) returns (ev: Lifecycle.Event)
      requires phase.Starting?
      modifies this
      ensures outcome.StartOk? ==> phase == Lifecycle.Started(outcome.meta) && ev == Lifecycle.StartedEvent(outcome.meta)
      ensures outcome.StartFailed? ==> phase.Idle? && ev == Lifecycle.ErrorEvent(outcome.error)
      ensures View() == Lifecycle.Complete(old(View()), outcome)
    {
      match outcome
      case StartOk(meta) =>
        phase := Lifecycle.Started(meta);
        everStarted := true;
        ev := Lifecycle.StartedEvent(meta);
      case StartFailed(e) =>
        phase := Lifecycle.Idle;
        ev := Lifecycle.ErrorEvent(e);
    }

    /**
     * Stops the controller. An idle one is left alone. A start in flight is awaited first
     * (settling with `startOutcome`, its event returned in `awaited`); a failed start is
     * rethrown. A started controller then invokes the service's stop: on success it is idle
     * again, on failure it stays started and the error is rethrown.
     */
    method Stop(startOutcome: StartOutcome, stopOutcome: StopOutcome)
      returns (awaited: Option<Lifecycle.Event>, failure: Option<Error>)
      modifies this
      ensures awaited == (if old(phase).Starting? then Some(Lifecycle.Emitted(startOutcome)) else None)
      ensures old(phase).Idle? ==> failure.None?
      ensures old(phase).Starting? && startOutcome.StartFailed? ==> failure == Some(startOutcome.error)
      ensures Lifecycle.StopInvokes(old(View()), startOutcome) ==>
                failure == (if stopOutcome.StopOk? then None else Some(stopOutcome.error))
      ensures !phase.Starting?
      ensures phase.Started? <==> Lifecycle.StopInvokes(old(View()), startOutcome) && stopOutcome.StopFailed?
      ensures stopCalls == old(stopCalls) + (if Lifecycle.StopInvokes(old(View()), startOutcome) then 1 else 0)
      ensures View() == Lifecycle.Stop(old(View()), startOutcome, stopOutcome)
    {
      awaited, failure := None, None;
      if phase.Idle? {
        return;
      }
      if phase.Starting? {
        var ev := CompleteStart(startOutcome);
        awaited := Some(ev);
        if ev.ErrorEvent? {
          failure := Some(ev.error);
          return;
        }
      }
      stopCalls := stopCalls + 1;
      match stopOutcome
      case StopOk => phase := Lifecycle.Idle;
      case StopFailed(e) => failure := Some(e);
    }
  }
}
