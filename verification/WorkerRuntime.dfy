/** The worker's objects: jobs, the queue that hands the same job objects back, the run registry. */
module WorkerRuntime {
  import opened Common
  import opened Backoff
  import opened WorkerModel
  import opened WorkerLaws

  class Job {
    const spec: Spec
    var attempts: nat
    var status: JobStatus
    var error: Option<string>
    ghost var outcomes: seq<Outcome>
    ghost var delays: seq<nat>

    constructor (spec: Spec)
      ensures this.spec == spec && Row() == NewJob(spec)
    {
      this.spec := spec;
      attempts, status, error := 0, Queued, None;
      outcomes, delays := [], [];
    }

    ghost function Row(): JobRow
      reads this
    {
      JobRow(spec, attempts, status, error, outcomes, delays)
    }
  }

  ghost function Rows(jobs: seq<Job>): seq<JobRow>
    reads jobs
  {
    seq(|jobs|, i requires 0 <= i < |jobs| reads jobs => jobs[i].Row())
  }

  class RunRegistry {
    var records: map<string, RunRecord>

    constructor ()
      ensures records == map[]
    {
      records := map[];
    }

    method StartRun(runId: string, attempt: nat)
      modifies this
      ensures records == Started(old(records), runId, attempt)
      ensures records.Keys == old(records).Keys + {runId} && forall i :: i in old(records) && i != runId ==> records[i] == old(records)[i]
      ensures records[runId].status == RunRunning && records[runId].attempt == attempt
      ensures records[runId].error == if runId in old(records) then old(records)[runId].error else None
    {
      if runId in records {
        records := records[runId := records[runId].(status := RunRunning, attempt := attempt)];
      } else {
        records := records[runId := RunRecord(RunRunning, attempt, None)];
      }
    }

    /** Raises when there is no such run: the missing record is read before the update. */
    method MarkSucceeded(runId: string) returns (r: Result<(), string>)
      modifies this
      ensures r.Ok? <==> runId in old(records)
      ensures r.Err? ==> r.error == ATTRIBUTE_ERROR
      ensures records == Marked(old(records), runId, RunSucceeded, None)
      ensures records.Keys == old(records).Keys && forall i :: i in records && i != runId ==> records[i] == old(records)[i]
      ensures r.Ok? ==> records[runId] == old(records)[runId].(status := RunSucceeded)
    {
      if runId !in records {
        return Err(ATTRIBUTE_ERROR);
      }
      records := records[runId := records[runId].(status := RunSucceeded)];
      return Ok(());
    }

    method MarkFailed(runId: string, error: string) returns (r: Result<(), string>)
      modifies this
      ensures r.Ok? <==> runId in old(records)
      ensures records == Marked(old(records), runId, RunFailed, Some(error))
      ensures records.Keys == old(records).Keys && forall i :: i in records && i != runId ==> records[i] == old(records)[i]
      ensures r.Ok? ==> records[runId] == old(records)[runId].(status := RunFailed, error := Some(error))
    {
      if runId !in records {
        return Err(ATTRIBUTE_ERROR);
      }
      records := records[runId := records[runId].(status := RunFailed, error := Some(error))];
      return Ok(());
    }
  }

  /** A queue that returns the very job object it was given. Which job is ready next is the queue's business. */
  class JobQueue {
    var pending: seq<Job>

    constructor ()
      ensures pending == []
    {
      pending := [];
    }

    method Claim(k: nat) returns (job: Job?)
      modifies this
      ensures k >= |old(pending)| ==> job == null && pending == old(pending)
      ensures k < |old(pending)| ==> job == old(pending)[k] && pending == old(pending)[..k] + old(pending)[k + 1..]
    {
      if k >= |pending| {
        return null;
      }
      job := pending[k];
      pending := pending[..k] + pending[k + 1..];
    }

    method Requeue(job: Job, delaySeconds: nat)
      modifies this, job`delays
      ensures pending == old(pending) + [job] && job.delays == old(job.delays) + [delaySeconds]
    {
      pending := pending + [job];
      job.delays := job.delays + [delaySeconds];
    }
  }

  /** After any claim, another one will come that is given the oldest job. */
  ghost predicate Fair(claims: nat -> nat, ready: nat -> nat) {
    forall n :: Due(claims, n, ready(n))
  }

  predicate Due(claims: nat -> nat, n: nat, due: nat) {
    n <= due && claims(due) == 0
  }

  /** An empty claim brings the due one nearer; after any other, a new one is due. */
  ghost function NextDue(claims: nat -> nat, ready: nat -> nat, n: nat, due: nat, pending: nat): (d: nat)
    requires Fair(claims, ready) && Due(claims, n, due) && pending > 0
    ensures Due(claims, n + 1, d) && (claims(n) >= pending ==> d == due)
  {
    if claims(n) < pending then ready(n + 1) else due
  }

  class Worker {
    const queue: JobQueue
    const registry: RunRegistry
    var effects: seq<Effect>
    ghost var finished: seq<Job>
    ghost var failed: seq<Job>
    ghost var jobs: set<Job>

    /** No job object is queued twice, or queued after it was done. */
    ghost predicate Valid()
      reads this, queue
    {
      && Distinct(queue.pending)
      && forall j :: j in queue.pending ==> j in jobs && Loose(j)
    }

    ghost predicate Loose(job: Job)
      reads this
    {
      job !in finished && job !in failed
    }

    ghost function State(): System
      reads this, queue, registry, queue.pending, finished, failed
    {
      System(Rows(queue.pending), Rows(finished), Rows(failed), registry.records, effects)
    }

    constructor ()
      ensures Valid() && State() == IDLE && fresh(queue) && fresh(registry)
    {
      queue := new JobQueue();
      registry := new RunRegistry();
      effects, finished, failed, jobs := [], [], [], {};
      new;
      assert Rows([]) == [];
    }

    method Enqueue(spec: Spec) returns (job: Job)
      requires Valid()
      modifies this`jobs, queue
      ensures Valid() && State() == Apply(old(State()), WorkerModel.Enqueue(spec))
      ensures jobs == old(jobs) + {job} && fresh(job) && queue.pending == old(queue.pending) + [job]
    {
      job := new Job(spec);
      jobs := jobs + {job};
      ghost var before := queue.pending;
      queue.pending := queue.pending + [job];
      assert Rows(queue.pending) == old(Rows(queue.pending)) + [job.Row()];
      DistinctConcat(before, [job]);
    }

    method HandleError(job: Job, retryable: bool, message: string)
      requires Valid() && job in jobs && job !in queue.pending && Loose(job)
      modifies this`effects, this`failed, queue, registry, job
      ensures Valid() && State() == WorkerModel.HandleError(old(State()), old(job.Row()), retryable, message)
      ensures jobs == old(jobs) && job.attempts == old(job.attempts) + 1
      // back to the queue with a delay, if that may help and attempts are left
      ensures retryable && job.attempts < job.spec.maxAttempts ==>
        queue.pending == old(queue.pending) + [job] && job.delays == old(job.delays) + [Delay(job.attempts)]
        && effects == old(effects) && registry.records == old(registry.records)
      // otherwise failed, with the event before the protocol is blocked, and the step failed
      ensures !(retryable && job.attempts < job.spec.maxAttempts) ==>
        queue.pending == old(queue.pending) && job.status == Failed && job.error == Some(message)
        && effects == old(effects)
           + (match job.spec.protocolRunId
              case Some(p) => if p != 0 then [JobFailedEvent(p, job.spec.id, job.attempts), BlockProtocol(p)] else []
              case None => [])
           + (match job.spec.stepRunId
              case Some(q) => if q != 0 then [FailStep(q)] else []
              case None => [])
    {
      job.attempts := job.attempts + 1;
      var backoff := Delay(job.attempts);
      if retryable && job.attempts < job.spec.maxAttempts {
        DistinctConcat(queue.pending, [job]);
        queue.Requeue(job, backoff);
        assert Rows(queue.pending) == old(Rows(queue.pending)) + [job.Row()];
      } else {
        job.status := Failed;
        job.error := Some(message);
        effects := effects + FailureEffects(job.spec, job.attempts);
        var _ := registry.MarkFailed(job.spec.id, message);
        failed := failed + [job];
        assert Rows(failed) == old(Rows(failed)) + [job.Row()];
      }
    }

    /** The guarded block: start the run, process the job, mark the run. Some is what it raises. */
    method TryJob(job: Job, outcome: Outcome, freshId: string) returns (failure: Option<(bool, string)>)
      requires Valid() && job in jobs && job !in queue.pending && Loose(job)
      modifies this`finished, registry, job
      ensures var running := Begun(old(State()), old(job.Row()), freshId);
        && failure == ErrorOf(running.registry, job.spec.id, outcome)
        && job.Row() == Processed(old(job.Row()), outcome)
        && State() == if failure.None? then Complete(running, job.Row()) else running
      ensures failure.Some? ==> finished == old(finished)
      ensures Valid()
    {
      registry.StartRun(if job.spec.id != "" then job.spec.id else freshId, job.attempts + 1);
      job.outcomes := job.outcomes + [outcome];
      match outcome {
        case Raised(retryable, message) =>
          return Some((retryable, message));
        case Returned =>
          failure := Finish(job);
      }
    }

    /** After a normal return: the job is finished, and then its run is marked, which may raise. */
    method Finish(job: Job) returns (failure: Option<(bool, string)>)
      requires Valid() && job in jobs && job !in queue.pending && Loose(job)
      modifies this`finished, registry, job`status
      ensures failure == if job.spec.id in old(registry.records) then None else Some((true, ATTRIBUTE_ERROR))
      ensures job.Row() == old(job.Row()).(status := Finished)
      ensures State() == if failure.None? then Complete(old(State()), job.Row()) else old(State())
      ensures failure.Some? ==> finished == old(finished)
      ensures Valid()
    {
      job.status := Finished;
      var marked := registry.MarkSucceeded(job.spec.id);
      if marked.Err? {
        return Some((true, marked.error));
      }
      finished := finished + [job];
      assert Rows(finished) == old(Rows(finished)) + [job.Row()];
      return None;
    }

    /** Handles a claimed job; outcome is what process_job does, freshId the run id drawn for a job without one. */
    method RunJobWithHandling(job: Job, outcome: Outcome, freshId: string)
      requires Valid() && job in jobs && job !in queue.pending && Loose(job)
      modifies this, queue, registry, job
      ensures Valid() && State() == Settle(old(State()), old(job.Row()), outcome, freshId)
      ensures jobs == old(jobs)
    {
      var failure := TryJob(job, outcome, freshId);
      if failure.Some? {
        HandleError(job, failure.value.0, failure.value.1);
      }
    }

    method DrainOnce(k: nat, outcome: Outcome, freshId: string) returns (job: Job?)
      requires Valid()
      modifies this, queue, registry, jobs
      ensures Valid() && jobs == old(jobs) && State() == Apply(old(State()), Drain(k, outcome, freshId))
      ensures job == if k < |old(queue.pending)| then old(queue.pending)[k] else null
    {
      ghost var before := queue.pending;
      job := queue.Claim(k);
      if job == null {
        return;
      }
      DistinctRemove(before, k);
      assert Rows(queue.pending) == Remove(old(Rows(queue.pending)), k);
      RunJobWithHandling(job, outcome, freshId);
    }

    /**
     The worker's loop, run until nothing is queued: every job is then finished or failed. claims(n) is the position of the job
     the queue gives to the n-th claim, beyond the end when every delay is still running; outcomes and freshIds are what
     process_job and the id generator answer then.
     */
    method DrainAll(claims: nat -> nat, outcomes: nat -> Outcome, freshIds: nat -> string, ghost ready: nat -> nat)
      returns (ghost actions: seq<Action>)
      requires Valid() && Inv(State())
      requires forall n :: freshIds(n) != "" && !UsesId(State(), freshIds(n))
      requires Fair(claims, ready)
      modifies this, queue, registry, jobs
      ensures Valid() && Inv(State()) && queue.pending == []
      ensures State() == Run(old(State()), actions) && |actions| <= Work(old(State()).queue)
      ensures SpecsOf(Rows(finished)) + SpecsOf(Rows(failed)) == AllSpecs(old(State()))
    {
      actions := [];
      ghost var start := State();
      WorkPositive(start.queue);
      var n := 0;
      ghost var due := ready(0);
      while queue.pending != []
        invariant Valid() && State() == Run(start, actions)
        invariant DrainingRun(start, actions) && |actions| <= Work(start.queue)
        invariant jobs == old(jobs)
        invariant Fair(claims, ready) && Due(claims, n, due)
        decreases Work(start.queue) - |actions|, due - n
      {
        ghost var a := Drain(claims(n), outcomes(n), freshIds(n));
        assert |State().queue| == |queue.pending|;
        due := NextDue(claims, ready, n, due, |queue.pending|);
        DrainOrWait(start, actions, a);
        actions := Extended(start, actions, a);
        var _ := DrainOnce(claims(n), outcomes(n), freshIds(n));
        n := n + 1;
      }
      AllSettled(start, actions);
    }
  }
}
