/** What every run of the worker keeps: bounded attempts, no job lost, registry and queue in agreement, draining ends. */
module WorkerLaws {
  import opened Common
  import opened Backoff
  import opened WorkerModel

  /** How often a job may be executed: max_attempts times, but at least once. */
  function Bound(spec: Spec): nat {
    if spec.maxAttempts < 1 then 1 else spec.maxAttempts
  }

  /** The execution ended in an error after which another one is allowed. Without an id, even a normal return is such an error. */
  predicate Retryable(spec: Spec, o: Outcome) {
    match o
    case Raised(retryable, _) => retryable
    case Returned => spec.id == ""
  }

  predicate AllRetryable(spec: Spec, os: seq<Outcome>) {
    forall i :: 0 <= i < |os| ==> Retryable(spec, os[i])
  }

  /** What the failure of an execution is reported as. */
  function Message(o: Outcome): string {
    match o
    case Raised(_, message) => message
    case Returned => ATTRIBUTE_ERROR
  }

  /** A waiting job keeps the status an execution set that returned, and could not be marked. */
  predicate QueuedOk(r: JobRow) {
    && r.error.None? && r.status == (if Returned in r.outcomes then Finished else Queued)
    && |r.outcomes| == r.attempts < Bound(r.spec)
    && AllRetryable(r.spec, r.outcomes)
    && r.delays == Delays(r.attempts)
  }

  /** Only a job with an id finishes: its last execution returned, all earlier ones were retried. */
  predicate FinishedOk(r: JobRow) {
    && r.status == Finished && r.error.None? && r.spec.id != ""
    && |r.outcomes| == r.attempts + 1 <= Bound(r.spec)
    && AllRetryable(r.spec, r.outcomes[..r.attempts]) && r.outcomes[r.attempts] == Returned
    && r.delays == Delays(r.attempts)
  }

  /** A job fails on an error that does not allow a retry, or on its last attempt, and not before. */
  predicate FailedOk(r: JobRow) {
    && r.status == Failed
    && 0 < r.attempts == |r.outcomes| <= Bound(r.spec) && r.error == Some(Message(r.outcomes[r.attempts - 1]))
    && AllRetryable(r.spec, r.outcomes[..r.attempts - 1])
    && (var last := r.outcomes[r.attempts - 1];
        if Retryable(r.spec, last) then r.attempts == Bound(r.spec) else last.Raised?)
    && r.delays == Delays(r.attempts - 1)
  }

  ghost predicate JobsOk(s: System) {
    && (forall r :: r in s.queue ==> QueuedOk(r))
    && (forall r :: r in s.finished ==> FinishedOk(r))
    && (forall r :: r in s.failed ==> FailedOk(r))
  }

  ghost predicate RecordOk(registry: map<string, RunRecord>, id: string, status: RunStatus, attempt: nat, error: Option<string>) {
    && id in registry && registry[id].status == status && registry[id].attempt == attempt
    && (error.Some? ==> registry[id].error == error)
  }

  ghost predicate RegistryOk(s: System) {
    && "" !in s.registry
    && (forall r :: r in s.queue && r.spec.id != "" && r.attempts > 0 ==>
          RecordOk(s.registry, r.spec.id, RunRunning, r.attempts, None))
    && (forall r :: r in s.finished ==> RecordOk(s.registry, r.spec.id, RunSucceeded, r.attempts + 1, None))
    && (forall r :: r in s.failed && r.spec.id != "" ==> RecordOk(s.registry, r.spec.id, RunFailed, r.attempts, r.error))
  }

  function SpecsOf(q: seq<JobRow>): multiset<Spec> {
    if q == [] then multiset{} else multiset{q[0].spec} + SpecsOf(q[1..])
  }

  /** Every job the system holds. */
  function AllSpecs(s: System): multiset<Spec> {
    SpecsOf(s.queue) + SpecsOf(s.finished) + SpecsOf(s.failed)
  }

  ghost predicate UsesId(s: System, id: string) {
    exists p :: p in AllSpecs(s) && p.id == id
  }

  /** No two jobs have the same non-empty id. */
  ghost predicate IdsDiffer(jobs: multiset<Spec>) {
    forall p :: p in jobs && p.id != "" ==> jobs[p] == 1 && forall q :: q in jobs && q.id == p.id ==> q == p
  }

  /** Ids drawn for new jobs, and for runs without a job id, are not in use. */
  ghost predicate Admissible(s: System, a: Action) {
    match a
    case Enqueue(spec) => spec.id == "" || !UsesId(s, spec.id)
    case Drain(_, _, freshId) => freshId != "" && !UsesId(s, freshId)
  }

  /** The failures written are those of the failed jobs, once each. */
  function AllEffects(failed: seq<JobRow>): seq<Effect> {
    if failed == [] then []
    else
      var last := failed[|failed| - 1];
      AllEffects(failed[..|failed| - 1]) + FailureEffects(last.spec, last.attempts)
  }

  ghost predicate Inv(s: System) {
    JobsOk(s) && RegistryOk(s) && IdsDiffer(AllSpecs(s)) && s.effects == AllEffects(s.failed)
  }

  // ----- one step

  /** An execution begins by setting one run record, the job's or a fresh one, to running with the attempt's number. */
  lemma RunStarted(s: System, job: JobRow, freshId: string)
    ensures var id, after := if job.spec.id == "" then freshId else job.spec.id, Begun(s, job, freshId).registry;
      && after.Keys == s.registry.Keys + {id} && (forall i :: i in s.registry && i != id ==> after[i] == s.registry[i])
      && after[id].status == RunRunning && after[id].attempt == job.attempts + 1
      && after[id].error == if id in s.registry then s.registry[id].error else None
  {
  }

  /** An execution fails exactly when the job raises or has no id to be marked under. */
  lemma ErrorExact(s: System, job: JobRow, outcome: Outcome, freshId: string)
    requires "" !in s.registry && freshId != ""
    ensures "" !in Begun(s, job, freshId).registry
    ensures var e := ErrorOf(Begun(s, job, freshId).registry, job.spec.id, outcome);
      && (e.None? <==> outcome.Returned? && job.spec.id != "")
      && (e.Some? ==> e.value.0 == Retryable(job.spec, outcome))
      && (e.Some? && !e.value.0 ==> outcome.Raised?)
      && (e.Some? ==> e.value.1 == Message(outcome))
  {
  }

  datatype Place = InQueue | InFinished | InFailed

  predicate FitsPlace(place: Place, r: JobRow) {
    match place
    case InQueue => QueuedOk(r)
    case InFinished => FinishedOk(r)
    case InFailed => FailedOk(r)
  }

  /** The system after a job that was claimed from s ended up as r in the given place. */
  function Landed(s: System, job: JobRow, freshId: string, place: Place, r: JobRow): System {
    var running := Begun(s, job, freshId);
    match place
    case InQueue => running.(queue := s.queue + [r])
    case InFinished => Complete(running, r)
    case InFailed => running.(failed := s.failed + [r],
                              registry := Marked(running.registry, r.spec.id, RunFailed, r.error),
                              effects := s.effects + FailureEffects(r.spec, r.attempts))
  }

  lemma SettledJob(s: System, job: JobRow, outcome: Outcome, freshId: string) returns (place: Place, r: JobRow)
    requires QueuedOk(job) && "" !in s.registry && freshId != ""
    ensures Settle(s, job, outcome, freshId) == Landed(s, job, freshId, place, r) && FitsPlace(place, r)
    ensures r.spec == job.spec && r.attempts == job.attempts + (if place == InFinished then 0 else 1)
  {
    ErrorExact(s, job, outcome, freshId);
    var running, p := Begun(s, job, freshId), Processed(job, outcome);
    assert p.outcomes[..job.attempts] == job.outcomes;
    match ErrorOf(running.registry, job.spec.id, outcome)
    case None =>
      place, r := InFinished, p;
    case Some((retryable, message)) =>
      var attempts := job.attempts + 1;
      if retryable && attempts < job.spec.maxAttempts {
        place, r := InQueue, p.(attempts := attempts, delays := job.delays + [Delay(attempts)]);
      } else {
        place, r := InFailed, p.(attempts := attempts, status := Failed, error := Some(message));
      }
  }

  // ----- no job is lost

  lemma {:induction false} SpecsConcat(a: seq<JobRow>, b: seq<JobRow>)
    ensures SpecsOf(a + b) == SpecsOf(a) + SpecsOf(b)
    decreases |a|
  {
    if a == [] {
      assert a + b == b;
    } else {
      assert (a + b)[1..] == a[1..] + b;
      SpecsConcat(a[1..], b);
    }
  }

  lemma SpecsSnoc(a: seq<JobRow>, r: JobRow)
    ensures SpecsOf(a + [r]) == SpecsOf(a) + multiset{r.spec}
  {
    SpecsConcat(a, [r]);
    assert SpecsOf([r]) == multiset{r.spec};
  }

  lemma SpecsRemove(q: seq<JobRow>, k: nat)
    requires k < |q|
    ensures SpecsOf(q) == SpecsOf(Remove(q, k)) + multiset{q[k].spec}
  {
    assert q == q[..k] + q[k..];
    SpecsConcat(q[..k], q[k..]);
    assert q[k..][1..] == q[k + 1..];
    SpecsConcat(q[..k], q[k + 1..]);
  }

  lemma {:induction false} SpecsMember(q: seq<JobRow>, r: JobRow)
    requires r in q
    ensures r.spec in SpecsOf(q)
    decreases |q|
  {
    if q[0] != r {
      assert r in q[1..];
      SpecsMember(q[1..], r);
    }
  }

  lemma LandedSpecs(s: System, job: JobRow, freshId: string, place: Place, r: JobRow)
    ensures AllSpecs(Landed(s, job, freshId, place, r)) == AllSpecs(s) + multiset{r.spec}
  {
    Shuffle(SpecsOf(s.queue), SpecsOf(s.finished), SpecsOf(s.failed), multiset{r.spec});
    match place
    case InQueue => SpecsSnoc(s.queue, r);
    case InFinished => SpecsSnoc(s.finished, r);
    case InFailed => SpecsSnoc(s.failed, r);
  }

  lemma Shuffle(a: multiset<Spec>, b: multiset<Spec>, c: multiset<Spec>, x: multiset<Spec>)
    ensures (a + x) + b + c == a + b + c + x
    ensures a + (b + x) + c == a + b + c + x
    ensures a + b + (c + x) == a + b + c + x
  {
  }

  lemma ClaimSpecs(s: System, k: nat)
    requires k < |s.queue|
    ensures AllSpecs(s) == AllSpecs(s.(queue := Remove(s.queue, k))) + multiset{s.queue[k].spec}
  {
    SpecsRemove(s.queue, k);
    Shuffle(SpecsOf(Remove(s.queue, k)), SpecsOf(s.finished), SpecsOf(s.failed), multiset{s.queue[k].spec});
  }

  /** Enqueueing adds a job, a drain neither loses nor duplicates one. */
  lemma JobsConserved(s: System, a: Action)
    requires Inv(s) && Admissible(s, a)
    ensures AllSpecs(Apply(s, a)) == AllSpecs(s) + (if a.Enqueue? then multiset{a.spec} else multiset{})
  {
    match a
    case Enqueue(spec) =>
      SpecsSnoc(s.queue, NewJob(spec));
      Shuffle(SpecsOf(s.queue), SpecsOf(s.finished), SpecsOf(s.failed), multiset{spec});
    case Drain(k, outcome, freshId) =>
      if k < |s.queue| {
        var claimed := s.(queue := Remove(s.queue, k));
        assert s.queue[k] in s.queue;
        var place, r := SettledJob(claimed, s.queue[k], outcome, freshId);
        ClaimSpecs(s, k);
        LandedSpecs(claimed, s.queue[k], freshId, place, r);
      }
  }

  // ----- the invariant is kept

  predicate Holds(s: System, r: JobRow) {
    r in s.queue || r in s.finished || r in s.failed
  }

  lemma HeldSpec(s: System, r: JobRow)
    requires Holds(s, r)
    ensures r.spec in AllSpecs(s)
  {
    if r in s.queue {
      SpecsMember(s.queue, r);
    } else if r in s.finished {
      SpecsMember(s.finished, r);
    } else {
      SpecsMember(s.failed, r);
    }
  }

  /** The run an execution writes to belongs to no other job. */
  lemma OthersDiffer(s: System, k: nat, freshId: string, r: JobRow)
    requires k < |s.queue| && IdsDiffer(AllSpecs(s)) && !UsesId(s, freshId)
    requires Holds(s.(queue := Remove(s.queue, k)), r) && r.spec.id != ""
    ensures r.spec.id != RunId(s.queue[k].spec, freshId)
  {
    HeldSpec(s.(queue := Remove(s.queue, k)), r);
    ClaimSpecs(s, k);
    var p := s.queue[k].spec;
    assert r.spec in AllSpecs(s) && p in AllSpecs(s);
    assert r.spec == p ==> AllSpecs(s)[p] >= 2;
  }

  lemma LandedJobs(s: System, job: JobRow, freshId: string, place: Place, r: JobRow)
    requires JobsOk(s) && FitsPlace(place, r) && s.effects == AllEffects(s.failed)
    ensures var t := Landed(s, job, freshId, place, r); JobsOk(t) && t.effects == AllEffects(t.failed)
  {
    if place == InFailed {
      assert (s.failed + [r])[..|s.failed|] == s.failed;
    }
  }

  lemma LandedRegistry(s: System, job: JobRow, freshId: string, place: Place, r: JobRow)
    requires RegistryOk(s) && FitsPlace(place, r) && freshId != ""
    requires r.spec == job.spec && r.attempts == job.attempts + (if place == InFinished then 0 else 1)
    requires forall x :: Holds(s, x) && x.spec.id != "" ==> x.spec.id != RunId(job.spec, freshId)
    requires forall x :: x in s.finished ==> x.spec.id != ""
    ensures RegistryOk(Landed(s, job, freshId, place, r))
  {
    var t := Landed(s, job, freshId, place, r);
    assert forall id :: id in s.registry && id != RunId(job.spec, freshId) ==> id in t.registry && t.registry[id] == s.registry[id];
    forall x | x in t.queue && x.spec.id != "" && x.attempts > 0
      ensures RecordOk(t.registry, x.spec.id, RunRunning, x.attempts, None)
    {
      assert Holds(s, x) || x == r;
    }
    forall x | x in t.finished
      ensures RecordOk(t.registry, x.spec.id, RunSucceeded, x.attempts + 1, None)
    {
      assert Holds(s, x) || x == r;
    }
    forall x | x in t.failed && x.spec.id != ""
      ensures RecordOk(t.registry, x.spec.id, RunFailed, x.attempts, x.error)
    {
      assert Holds(s, x) || x == r;
    }
  }

  lemma RemoveSubset(q: seq<JobRow>, k: nat)
    requires k < |q|
    ensures q[k] in q && forall r :: r in Remove(q, k) ==> r in q
  {
  }

  lemma ClaimKeeps(s: System, k: nat)
    requires Inv(s) && k < |s.queue|
    ensures var claimed := s.(queue := Remove(s.queue, k)); JobsOk(claimed) && RegistryOk(claimed) && QueuedOk(s.queue[k])
  {
    RemoveSubset(s.queue, k);
  }

  lemma NoOtherRun(s: System, k: nat, freshId: string)
    requires k < |s.queue| && IdsDiffer(AllSpecs(s)) && !UsesId(s, freshId)
    ensures forall r :: Holds(s.(queue := Remove(s.queue, k)), r) && r.spec.id != "" ==> r.spec.id != RunId(s.queue[k].spec, freshId)
  {
    forall r | Holds(s.(queue := Remove(s.queue, k)), r) && r.spec.id != ""
      ensures r.spec.id != RunId(s.queue[k].spec, freshId)
    {
      OthersDiffer(s, k, freshId, r);
    }
  }

  lemma DrainKeepsInv(s: System, k: nat, outcome: Outcome, freshId: string)
    requires Inv(s) && k < |s.queue| && Admissible(s, Drain(k, outcome, freshId))
    ensures Inv(Execute(s, k, outcome, freshId))
  {
    var claimed, job := s.(queue := Remove(s.queue, k)), s.queue[k];
    ClaimKeeps(s, k);
    var place, r := SettledJob(claimed, job, outcome, freshId);
    LandedJobs(claimed, job, freshId, place, r);
    NoOtherRun(s, k, freshId);
    LandedRegistry(claimed, job, freshId, place, r);
    JobsConserved(s, Drain(k, outcome, freshId));
  }

  lemma EnqueueKeepsInv(s: System, spec: Spec)
    requires Inv(s) && Admissible(s, Enqueue(spec))
    ensures Inv(Apply(s, Enqueue(spec)))
  {
    JobsConserved(s, Enqueue(spec));
    var t := Apply(s, Enqueue(spec));
    assert QueuedOk(NewJob(spec));
    forall p | p in AllSpecs(t) && p.id != ""
      ensures AllSpecs(t)[p] == 1 && forall q :: q in AllSpecs(t) && q.id == p.id ==> q == p
    {
    }
  }

  lemma StepKeepsInv(s: System, a: Action)
    requires Inv(s) && Admissible(s, a)
    ensures Inv(Apply(s, a))
  {
    match a
    case Enqueue(spec) => EnqueueKeepsInv(s, spec);
    case Drain(k, outcome, freshId) =>
      if k < |s.queue| {
        DrainKeepsInv(s, k, outcome, freshId);
      }
  }

  // ----- whole runs

  ghost predicate AdmissibleRun(s: System, actions: seq<Action>)
    decreases |actions|
  {
    actions != [] ==> Admissible(s, actions[0]) && AdmissibleRun(Apply(s, actions[0]), actions[1..])
  }

  function Enqueued(actions: seq<Action>): multiset<Spec> {
    if actions == [] then multiset{}
    else (if actions[0].Enqueue? then multiset{actions[0].spec} else multiset{}) + Enqueued(actions[1..])
  }

  lemma {:induction false} RunKeepsInv(s: System, actions: seq<Action>)
    requires Inv(s) && AdmissibleRun(s, actions)
    ensures Inv(Run(s, actions)) && AllSpecs(Run(s, actions)) == AllSpecs(s) + Enqueued(actions)
    decreases |actions|
  {
    if actions != [] {
      StepKeepsInv(s, actions[0]);
      JobsConserved(s, actions[0]);
      RunKeepsInv(Apply(s, actions[0]), actions[1..]);
    }
  }

  /**
   After any run from an idle system: every enqueued job is queued, finished or failed, once;
   no job was executed more than its bound; a job is only retried with attempts left, and its delays are the RQ intervals;
   finished and failed jobs have a matching run record; and the failures written are those of the failed jobs.
   */
  lemma WorkerSafety(actions: seq<Action>)
    requires AdmissibleRun(IDLE, actions)
    ensures var s := Run(IDLE, actions);
      && AllSpecs(s) == Enqueued(actions)
      && JobsOk(s) && RegistryOk(s)
      && s.effects == AllEffects(s.failed)
      && forall r :: Holds(s, r) ==>
           |r.outcomes| <= Bound(r.spec) && r.delays <= RetryIntervals(r.spec.maxAttempts)
  {
    assert Inv(IDLE);
    RunKeepsInv(IDLE, actions);
    var s := Run(IDLE, actions);
    forall r | Holds(s, r)
      ensures |r.outcomes| <= Bound(r.spec) && r.delays <= RetryIntervals(r.spec.maxAttempts)
    {
      RowBounds(r);
    }
  }

  lemma RowBounds(r: JobRow)
    requires QueuedOk(r) || FinishedOk(r) || FailedOk(r)
    ensures |r.outcomes| <= Bound(r.spec) && r.delays <= RetryIntervals(r.spec.maxAttempts)
  {
    SchedulesAgree(|r.delays|, r.spec.maxAttempts);
  }

  lemma RowDelays(r: JobRow)
    requires QueuedOk(r) || FinishedOk(r) || FailedOk(r)
    ensures |r.delays| <= Max(0, r.spec.maxAttempts - 1) && r.delays == Delays(|r.delays|)
  {
  }

  /**
   However its executions ended and whatever ran between them, a job was requeued with the first intervals RQ would have used,
   at most once per retry; together they are the closed sum.
   */
  lemma RequeueDelays(actions: seq<Action>, r: JobRow)
    requires AdmissibleRun(IDLE, actions) && Holds(Run(IDLE, actions), r)
    ensures |r.delays| <= Max(0, r.spec.maxAttempts - 1)
    ensures |r.delays| <= |RetryIntervals(r.spec.maxAttempts)| && r.delays == RetryIntervals(r.spec.maxAttempts)[..|r.delays|]
    ensures var n := |r.delays|; Sum(r.delays) == if n <= 5 then Pow2(n + 1) - 2 else 62 + 60 * (n - 5)
  {
    WorkerSafety(actions);
    RowDelays(r);
    SchedulesAgree(|r.delays|, r.spec.maxAttempts);
    TotalDelay(|r.delays|);
  }

  lemma {:induction false} RunSnoc(s: System, actions: seq<Action>, a: Action)
    ensures Run(s, actions + [a]) == Apply(Run(s, actions), a)
    decreases |actions|
  {
    if actions == [] {
      assert [a][1..] == [];
    } else {
      assert (actions + [a])[1..] == actions[1..] + [a];
      RunSnoc(Apply(s, actions[0]), actions[1..], a);
    }
  }

  // ----- draining ends

  /** Executions the queued jobs still have at most. */
  function Work(q: seq<JobRow>): int {
    if q == [] then 0 else Bound(q[0].spec) - q[0].attempts + Work(q[1..])
  }

  lemma {:induction false} WorkConcat(a: seq<JobRow>, b: seq<JobRow>)
    ensures Work(a + b) == Work(a) + Work(b)
    decreases |a|
  {
    if a == [] {
      assert a + b == b;
    } else {
      assert (a + b)[1..] == a[1..] + b;
      WorkConcat(a[1..], b);
    }
  }

  lemma {:induction false} WorkPositive(q: seq<JobRow>)
    requires forall r :: r in q ==> QueuedOk(r)
    ensures Work(q) >= |q|
    decreases |q|
  {
    if q != [] {
      assert q[0] in q;
      WorkPositive(q[1..]);
    }
  }

  lemma WorkRemove(q: seq<JobRow>, k: nat)
    requires k < |q|
    ensures Work(q) == Work(Remove(q, k)) + Bound(q[k].spec) - q[k].attempts
  {
    assert q == q[..k] + q[k..];
    WorkConcat(q[..k], q[k..]);
    assert q[k..][1..] == q[k + 1..];
    WorkConcat(q[..k], q[k + 1..]);
  }

  lemma DrainReducesWork(s: System, k: nat, outcome: Outcome, freshId: string)
    requires Inv(s) && k < |s.queue| && Admissible(s, Drain(k, outcome, freshId))
    ensures Work(Execute(s, k, outcome, freshId).queue) < Work(s.queue)
  {
    var claimed, job := s.(queue := Remove(s.queue, k)), s.queue[k];
    RemoveSubset(s.queue, k);
    WorkRemove(s.queue, k);
    var place, r := SettledJob(claimed, job, outcome, freshId);
    WorkConcat(claimed.queue, [r]);
    assert Work([r]) == Bound(r.spec) - r.attempts + Work([]);
  }

  /** A run that only drains, each time claiming a queued job. */
  ghost predicate DrainingRun(s: System, actions: seq<Action>)
    decreases |actions|
  {
    actions != [] ==> Drainable(s, actions[0]) && DrainingRun(Apply(s, actions[0]), actions[1..])
  }

  ghost predicate Drainable(s: System, a: Action) {
    a.Drain? && a.k < |s.queue| && Admissible(s, a)
  }

  /** Draining cannot go on for more executions than the queued jobs have left, whatever the outcomes and the order. */
  lemma {:induction false} DrainingEnds(s: System, actions: seq<Action>)
    requires Inv(s) && DrainingRun(s, actions)
    ensures |actions| <= Work(s.queue)
    decreases |actions|
  {
    if actions == [] {
      WorkPositive(s.queue);
    } else {
      var a := actions[0];
      DrainReducesWork(s, a.k, a.outcome, a.freshId);
      StepKeepsInv(s, a);
      DrainingEnds(Apply(s, a), actions[1..]);
    }
  }

  lemma {:induction false} DrainingRunKeeps(s: System, actions: seq<Action>)
    requires Inv(s) && DrainingRun(s, actions)
    ensures AdmissibleRun(s, actions) && Enqueued(actions) == multiset{}
    decreases |actions|
  {
    if actions != [] {
      StepKeepsInv(s, actions[0]);
      DrainingRunKeeps(Apply(s, actions[0]), actions[1..]);
    }
  }

  lemma DrainKeepsIds(s: System, a: Action, id: string)
    requires Inv(s) && a.Drain? && Admissible(s, a)
    ensures UsesId(Apply(s, a), id) <==> UsesId(s, id)
  {
    JobsConserved(s, a);
  }

  lemma DrainingCons(s: System, a: Action, rest: seq<Action>)
    requires Drainable(s, a) && DrainingRun(Apply(s, a), rest)
    ensures DrainingRun(s, [a] + rest)
  {
    assert ([a] + rest)[1..] == rest;
  }

  lemma {:induction false} DrainingSnoc(s: System, actions: seq<Action>, a: Action)
    requires Inv(s) && DrainingRun(s, actions)
    requires a.Drain? && a.k < |Run(s, actions).queue| && a.freshId != "" && !UsesId(s, a.freshId)
    ensures DrainingRun(s, actions + [a])
    decreases |actions|
  {
    if actions == [] {
      DrainingCons(s, a, []);
      SnocOfEmpty(a);
    } else {
      var b, rest := actions[0], actions[1..];
      DrainStepKeeps(s, b, a.freshId);
      DrainingSnoc(Apply(s, b), rest, a);
      DrainingCons(s, b, rest + [a]);
      SnocOfCons(actions, a);
    }
  }

  lemma SnocOfEmpty(a: Action)
    ensures [] + [a] == [a] + []
  {
  }

  lemma SnocOfCons(actions: seq<Action>, a: Action)
    requires actions != []
    ensures actions + [a] == [actions[0]] + (actions[1..] + [a])
  {
  }

  lemma DrainStepKeeps(s: System, b: Action, id: string)
    requires Inv(s) && Drainable(s, b)
    ensures Inv(Apply(s, b)) && (UsesId(Apply(s, b), id) <==> UsesId(s, id))
  {
    StepKeepsInv(s, b);
    DrainKeepsIds(s, b, id);
  }

  /** One more drain of a queued job: the run goes on, and has not used up the work. */
  lemma DrainStep(s: System, actions: seq<Action>, a: Action)
    requires Inv(s) && DrainingRun(s, actions)
    requires a.Drain? && a.k < |Run(s, actions).queue| && a.freshId != "" && !UsesId(s, a.freshId)
    ensures DrainingRun(s, actions + [a]) && |actions + [a]| <= Work(s.queue)
    ensures Run(s, actions + [a]) == Apply(Run(s, actions), a)
  {
    DrainingSnoc(s, actions, a);
    DrainingEnds(s, actions + [a]);
    RunSnoc(s, actions, a);
  }

  /** An empty claim leaves no trace in the run. */
  function Extended(s: System, actions: seq<Action>, a: Action): seq<Action>
    requires a.Drain?
  {
    if a.k < |Run(s, actions).queue| then actions + [a] else actions
  }

  lemma DrainOrWait(s: System, actions: seq<Action>, a: Action)
    requires Inv(s) && DrainingRun(s, actions) && |actions| <= Work(s.queue)
    requires a.Drain? && a.freshId != "" && !UsesId(s, a.freshId)
    ensures DrainingRun(s, Extended(s, actions, a)) && |Extended(s, actions, a)| <= Work(s.queue)
    ensures Run(s, Extended(s, actions, a)) == Apply(Run(s, actions), a)
  {
    if a.k < |Run(s, actions).queue| {
      DrainStep(s, actions, a);
    }
  }

  /** Once the queue is empty, every job is finished or failed. */
  lemma AllSettled(s: System, actions: seq<Action>)
    requires Inv(s) && DrainingRun(s, actions) && Run(s, actions).queue == []
    ensures var t := Run(s, actions);
      Inv(t) && SpecsOf(t.finished) + SpecsOf(t.failed) == AllSpecs(s)
  {
    DrainingRunKeeps(s, actions);
    RunKeepsInv(s, actions);
    assert SpecsOf([]) == multiset{};
  }
}
