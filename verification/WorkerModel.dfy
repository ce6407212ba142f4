/** The retrying job worker as a step machine on values. */
module WorkerModel {
  import opened Common
  import opened Backoff

  /** What process_job does with a job: a foreign call. Errors other than the application's own count as retryable. */
  datatype Outcome = Returned | Raised(retryable: bool, message: string)

  datatype JobStatus = Queued | Finished | Failed

  /** What the caller of enqueue fixes for good. */
  datatype Spec = Spec(id: string, protocolRunId: Option<int>, stepRunId: Option<int>, maxAttempts: int)

  /** A job, with the outcomes its executions had and the delays it was requeued with. */
  datatype JobRow = JobRow(
    spec: Spec, attempts: nat, status: JobStatus, error: Option<string>, outcomes: seq<Outcome>, delays: seq<nat>)

  datatype RunStatus = RunRunning | RunSucceeded | RunFailed

  datatype RunRecord = RunRecord(status: RunStatus, attempt: nat, error: Option<string>)

  /** Writes to protocol and step rows, in the order they are made. */
  datatype Effect = JobFailedEvent(protocolRunId: int, jobId: string, attempts: nat) | BlockProtocol(protocolRunId: int) | FailStep(stepRunId: int)

  datatype System = System(
    queue: seq<JobRow>, finished: seq<JobRow>, failed: seq<JobRow>, registry: map<string, RunRecord>, effects: seq<Effect>)

  datatype Action = Enqueue(spec: Spec) | Drain(k: nat, outcome: Outcome, freshId: string)

  const ATTRIBUTE_ERROR := "'NoneType' object has no attribute 'result'"

  function NewJob(spec: Spec): JobRow {
    JobRow(spec, 0, Queued, None, [], [])
  }

  function Truthy(id: Option<int>): bool {
    id.Some? && id.value != 0
  }

  /** What a permanent failure writes. */
  function FailureEffects(spec: Spec, attempts: nat): seq<Effect> {
    (if Truthy(spec.protocolRunId)
     then [JobFailedEvent(spec.protocolRunId.value, spec.id, attempts), BlockProtocol(spec.protocolRunId.value)]
     else [])
    + (if Truthy(spec.stepRunId) then [FailStep(spec.stepRunId.value)] else [])
  }

  /** start_run: an existing record goes back to running with the new attempt number and keeps its error. */
  function Started(registry: map<string, RunRecord>, runId: string, attempt: nat): map<string, RunRecord> {
    registry[runId := RunRecord(RunRunning, attempt, if runId in registry then registry[runId].error else None)]
  }

  function Marked(registry: map<string, RunRecord>, runId: string, status: RunStatus, error: Option<string>): map<string, RunRecord> {
    if runId !in registry then registry
    else registry[runId := RunRecord(status, registry[runId].attempt, if error.Some? then error else registry[runId].error)]
  }

  /** The run id of an execution: the job's id, or a fresh one when that is empty. */
  function RunId(spec: Spec, freshId: string): string {
    if spec.id != "" then spec.id else freshId
  }

  /**
   The error an execution ends with. A job whose id has no run record cannot be marked as succeeded:
   the attempt to do so raises inside the guarded block.
   */
  function ErrorOf(registry: map<string, RunRecord>, id: string, outcome: Outcome): Option<(bool, string)> {
    match outcome
    case Raised(retryable, message) => Some((retryable, message))
    case Returned => if id in registry then None else Some((true, ATTRIBUTE_ERROR))
  }

  function Apply(s: System, a: Action): System {
    match a
    case Enqueue(spec) => s.(queue := s.queue + [NewJob(spec)])
    case Drain(k, outcome, freshId) => if k < |s.queue| then Execute(s, k, outcome, freshId) else s
  }

  function Remove<T>(q: seq<T>, k: nat): seq<T>
    requires k < |q|
  {
    q[..k] + q[k + 1..]
  }

  /** Claim the job at k, run it, and put it where it belongs. */
  function Execute(s: System, k: nat, outcome: Outcome, freshId: string): System
    requires k < |s.queue|
  {
    Settle(s.(queue := Remove(s.queue, k)), s.queue[k], outcome, freshId)
  }

  /** The job after process_job: a normal return sets the status before the run is marked. */
  function Processed(job: JobRow, outcome: Outcome): JobRow {
    job.(outcomes := job.outcomes + [outcome], status := if outcome.Returned? then Finished else job.status)
  }

  function Begun(s: System, job: JobRow, freshId: string): System {
    s.(registry := Started(s.registry, RunId(job.spec, freshId), job.attempts + 1))
  }

  /** What handling the claimed job does to the rest of the system. */
  function Settle(s: System, claimed: JobRow, outcome: Outcome, freshId: string): System {
    var job, running := Processed(claimed, outcome), Begun(s, claimed, freshId);
    match ErrorOf(running.registry, job.spec.id, outcome)
    case None => Complete(running, job)
    case Some((retryable, message)) => HandleError(running, job, retryable, message)
  }

  function Complete(s: System, job: JobRow): System {
    s.(finished := s.finished + [job], registry := Marked(s.registry, job.spec.id, RunSucceeded, None))
  }

  /** Back to the queue with a delay, or failed for good. */
  function HandleError(s: System, job: JobRow, retryable: bool, message: string): System {
    var attempts := job.attempts + 1;
    if retryable && attempts < job.spec.maxAttempts then
      s.(queue := s.queue + [job.(attempts := attempts, delays := job.delays + [Delay(attempts)])])
    else
      s.(failed := s.failed + [job.(attempts := attempts, status := Failed, error := Some(message))],
         registry := Marked(s.registry, job.spec.id, RunFailed, Some(message)),
         effects := s.effects + FailureEffects(job.spec, attempts))
  }

  function Run(s: System, actions: seq<Action>): System
    decreases |actions|
  {
    if actions == [] then s else Run(Apply(s, actions[0]), actions[1..])
  }

  const IDLE := System([], [], [], map[], [])
}
