/** Values shared by the service controller, the service graph and the environment. */
module Types {

  /** A service is identified by a string, unique within an environment. */
  type ServiceId = string

  datatype Option<T> = None | Some(value: T)

  /** What a started service publishes about itself; a well-behaved service keys it by its own id. */
  datatype Metadata = Metadata(id: ServiceId, value: string)

  /**
   * An externally implemented service. Only its identity is visible to the orchestrator; what its
   * start and stop operations do is supplied to the model as outcomes (StartOutcome, StopOutcome).
   */
  datatype Service = Service(id: ServiceId)

  datatype Error =
    | ServiceError(reason: string)
      /** A dependency declaration that closed a cycle: `dependent` depends on `dependency`. */
    | CycleError(dependent: ServiceId, dependency: ServiceId)

  /** How one invocation of a service's start operation settles. */
  datatype StartOutcome = StartOk(meta: Metadata) | StartFailed(error: Error)

  /** How one invocation of a service's stop operation settles. */
  datatype StopOutcome = StopOk | StopFailed(error: Error)

  /**
   * The runtime context handed to every service: the environment's name, the registry of
   * metadata published by started services, and the shutting-down flag.
   */
  datatype Context = Context(name: string, registry: map<ServiceId, Metadata>, shuttingDown: bool)

  /** How the environment's overall start settles. */
  datatype StartResult = Resolved | Rejected(error: Error)

  /** Services whose every successful start publishes metadata keyed by their own id. */
  ghost predicate WellBehaved(startOutcome: ServiceId -> StartOutcome)
  {
    forall x :: startOutcome(x).StartOk? ==> startOutcome(x).meta.id == x
  }
}
