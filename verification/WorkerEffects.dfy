/** Which writes to protocols and steps the worker has made after a run. */
module WorkerEffects {
  import opened Common
  import opened Paging
  import opened WorkerModel
  import opened WorkerLaws

  function WithProtocol(p: int): JobRow -> bool {
    (r: JobRow) => r.spec.protocolRunId == Some(p) && p != 0
  }

  function WithStep(q: int): JobRow -> bool {
    (r: JobRow) => r.spec.stepRunId == Some(q) && q != 0
  }

  function WithFailure(p: int, id: string, attempts: nat): JobRow -> bool {
    (r: JobRow) => r.spec.protocolRunId == Some(p) && p != 0 && r.spec.id == id && r.attempts == attempts
  }

  /** A write that is made once for each job that meets a condition occurs as often as such jobs failed. */
  lemma {:induction false} Counted(failed: seq<JobRow>, e: Effect, of: JobRow -> bool)
    requires forall r: JobRow :: multiset(FailureEffects(r.spec, r.attempts))[e] == if of(r) then 1 else 0
    ensures multiset(AllEffects(failed))[e] == |Filter(failed, of)|
    decreases |failed|
  {
    if failed != [] {
      var n := |failed| - 1;
      Counted(failed[..n], e, of);
      FilterSnoc(failed, n, of);
      assert failed[..n + 1] == failed;
      var last := failed[n];
      assert AllEffects(failed) == AllEffects(failed[..n]) + FailureEffects(last.spec, last.attempts);
    }
  }

  lemma OneBlock(r: JobRow, p: int)
    ensures multiset(FailureEffects(r.spec, r.attempts))[BlockProtocol(p)] == if WithProtocol(p)(r) then 1 else 0
  {
  }

  lemma OneStep(r: JobRow, q: int)
    ensures multiset(FailureEffects(r.spec, r.attempts))[FailStep(q)] == if WithStep(q)(r) then 1 else 0
  {
  }

  lemma OneEvent(r: JobRow, p: int, id: string, attempts: nat)
    ensures multiset(FailureEffects(r.spec, r.attempts))[JobFailedEvent(p, id, attempts)]
         == if WithFailure(p, id, attempts)(r) then 1 else 0
  {
  }

  ghost predicate EventThenBlock(effects: seq<Effect>, p: int, id: string, attempts: nat, i: int) {
    0 <= i < |effects| - 1 && effects[i] == JobFailedEvent(p, id, attempts) && effects[i + 1] == BlockProtocol(p)
  }

  lemma {:induction false} EventFirst(failed: seq<JobRow>, r: JobRow, p: int)
    requires r in failed && r.spec.protocolRunId == Some(p) && p != 0
    ensures exists i :: EventThenBlock(AllEffects(failed), p, r.spec.id, r.attempts, i)
    decreases |failed|
  {
    var n := |failed| - 1;
    var before, last := AllEffects(failed[..n]), failed[n];
    assert AllEffects(failed) == before + FailureEffects(last.spec, last.attempts);
    if last == r {
      assert EventThenBlock(AllEffects(failed), p, r.spec.id, r.attempts, |before|);
    } else {
      assert failed == failed[..n] + [last];
      EventFirst(failed[..n], r, p);
      var i :| EventThenBlock(before, p, r.spec.id, r.attempts, i);
      assert EventThenBlock(AllEffects(failed), p, r.spec.id, r.attempts, i);
    }
  }

  /**
   After every run: a protocol has been blocked once for each failed job that names it, right after the event with the job's id
   and attempts; a step has been set to failed once for each failed job that names it; and there were no other writes.
   */
  lemma FailureWrites(actions: seq<Action>)
    requires AdmissibleRun(IDLE, actions)
    ensures var s := Run(IDLE, actions);
      && (forall r :: r in s.failed && r.spec.protocolRunId.Some? && r.spec.protocolRunId.value != 0 ==>
            exists i :: EventThenBlock(s.effects, r.spec.protocolRunId.value, r.spec.id, r.attempts, i))
      && (forall p :: multiset(s.effects)[BlockProtocol(p)] == |Filter(s.failed, WithProtocol(p))|)
      && (forall q :: multiset(s.effects)[FailStep(q)] == |Filter(s.failed, WithStep(q))|)
      && forall p, id, n :: multiset(s.effects)[JobFailedEvent(p, id, n)] == |Filter(s.failed, WithFailure(p, id, n))|
  {
    WorkerSafety(actions);
    var s := Run(IDLE, actions);
    forall r | r in s.failed && r.spec.protocolRunId.Some? && r.spec.protocolRunId.value != 0
      ensures exists i :: EventThenBlock(s.effects, r.spec.protocolRunId.value, r.spec.id, r.attempts, i)
    {
      EventFirst(s.failed, r, r.spec.protocolRunId.value);
    }
    forall p
      ensures multiset(s.effects)[BlockProtocol(p)] == |Filter(s.failed, WithProtocol(p))|
    {
      forall r: JobRow { OneBlock(r, p); }
      Counted(s.failed, BlockProtocol(p), WithProtocol(p));
    }
    forall q
      ensures multiset(s.effects)[FailStep(q)] == |Filter(s.failed, WithStep(q))|
    {
      forall r: JobRow { OneStep(r, q); }
      Counted(s.failed, FailStep(q), WithStep(q));
    }
    forall p, id, n
      ensures multiset(s.effects)[JobFailedEvent(p, id, n)] == |Filter(s.failed, WithFailure(p, id, n))|
    {
      forall r: JobRow { OneEvent(r, p, id, n); }
      Counted(s.failed, JobFailedEvent(p, id, n), WithFailure(p, id, n));
    }
  }
}
