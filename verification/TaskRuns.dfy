/** What holds in every state that create, update and delete calls can lead to. */
module TaskRuns {
  import opened Common
  import opened DependencyGraph
  import opened TaskTable

  const EMPTY := Table(map[], 1)

  ghost function Run(t: Table, ops: seq<Op>): Table
    decreases |ops|
  {
    if ops == [] then t else Run(Apply(t, ops[0]), ops[1..])
  }

  ghost predicate Sane(t: Table) {
    Acyclic(GraphOf(t.tasks))
  }

  /** Only issued ids occur in the table. */
  ghost predicate IssuedOnly(t: Table) {
    && (forall id :: id in t.tasks ==> id < t.next)
    && forall v, b :: b in Blockers(GraphOf(t.tasks), v) ==> b < t.next
  }

  function Named(op: Op): seq<int> {
    match op
    case Create(_, bs) => bs
    case Update(_, args) => BlockedBy(args)
    case Delete(_) => []
  }

  /** The caller names, as blockers, only ids that were already issued. */
  ghost predicate Disciplined(t: Table, ops: seq<Op>)
    decreases |ops|
  {
    ops != [] ==>
      && (forall b :: b in Named(ops[0]) ==> b < t.next)
      && Disciplined(Apply(t, ops[0]), ops[1..])
  }

  // ----- one call

  lemma CreateGraph(t: Table, columns: Columns, bs: seq<int>)
    ensures GraphOf(Apply(t, Create(columns, bs)).tasks) == GraphOf(t.tasks)[t.next := bs]
  {
  }

  /** create_task has no guard: it keeps the graph acyclic exactly when no named blocker leads to the id it issues. */
  lemma CreateExact(t: Table, columns: Columns, bs: seq<int>)
    requires Sane(t)
    ensures Sane(Apply(t, Create(columns, bs))) <==> forall b :: b in bs ==> !Reaches(GraphOf(t.tasks), b, t.next)
  {
    CreateGraph(t, columns, bs);
    RewireExact(GraphOf(t.tasks), t.next, bs);
  }

  /** A first task that blocks itself: the id is predictable and nothing checks it. */
  lemma CreateCanCloseCycle()
    ensures Sane(EMPTY) && !Sane(Apply(EMPTY, Create(map[], [1])))
  {
    OrderImpliesAcyclic(GraphOf(EMPTY.tasks), []);
    ReachesSelf(GraphOf(EMPTY.tasks), 1);
    assert 1 in [1];
    CreateExact(EMPTY, map[], [1]);
  }

  lemma OverlayBlockers(row: Columns, args: Columns)
    requires WellTyped(args)
    ensures BlockedBy(Overlay(row, args)) == if BLOCKED_BY in args then BlockedBy(args) else BlockedBy(row)
  {
    assert BLOCKED_BY in UPDATABLE;
  }

  lemma UpdateGraph(t: Table, id: int, args: Columns)
    requires WellTyped(args) && id in t.tasks
    ensures GraphOf(t.tasks[id := Overlay(t.tasks[id], args)])
         == if BLOCKED_BY in args then GraphOf(t.tasks)[id := BlockedBy(args)] else GraphOf(t.tasks)
  {
    OverlayBlockers(t.tasks[id], args);
  }

  /** update_task keeps the graph acyclic whatever its arguments are. */
  lemma UpdateSafe(t: Table, id: int, args: Columns)
    requires Sane(t) && WellTyped(args)
    ensures Sane(Apply(t, Update(id, args)))
  {
    if !Refused(t, id, args) && id in t.tasks {
      UpdateGraph(t, id, args);
      RewireExact(GraphOf(t.tasks), id, BlockedBy(args));
    }
  }

  /** The rows if an update were carried out without the guard: an id that is not there changes nothing. */
  function CarriedOut(t: Table, id: int, args: Columns): map<int, Columns> {
    if id in t.tasks then t.tasks[id := Overlay(t.tasks[id], args)] else t.tasks
  }

  /** A refused update would have closed a cycle exactly when the row it names exists. */
  lemma RefusalExact(t: Table, id: int, args: Columns)
    requires Sane(t) && WellTyped(args) && Refused(t, id, args)
    ensures !Acyclic(GraphOf(CarriedOut(t, id, args))) <==> id in t.tasks
  {
    if id in t.tasks {
      UpdateGraph(t, id, args);
      RewireExact(GraphOf(t.tasks), id, BlockedBy(args));
    }
  }

  /** An update of a row that is not there is refused if it names itself, where it could do no harm. */
  lemma MissingRowRefused()
    ensures Sane(EMPTY) && Refused(EMPTY, 5, map[BLOCKED_BY := Ids([5])])
    ensures CarriedOut(EMPTY, 5, map[BLOCKED_BY := Ids([5])]) == EMPTY.tasks
  {
    OrderImpliesAcyclic(GraphOf(EMPTY.tasks), []);
    ReachesSelf(GraphOf(EMPTY.tasks), 5);
    assert 5 in BlockedBy(map[BLOCKED_BY := Ids([5])]);
  }

  lemma DeleteSafe(t: Table, id: int)
    requires Sane(t)
    ensures Sane(Apply(t, Delete(id)))
  {
    SubgraphAcyclic(GraphOf(t.tasks), GraphOf((t.tasks - {id})));
  }

  lemma StepExact(t: Table, op: Op)
    requires Sane(t) && (op.Update? ==> WellTyped(op.args))
    ensures Sane(Apply(t, op)) <==> Guarded(t, op)
  {
    match op
    case Create(columns, bs) => CreateExact(t, columns, bs);
    case Update(id, args) => UpdateSafe(t, id, args);
    case Delete(id) => DeleteSafe(t, id);
  }

  // ----- whole runs

  ghost predicate TypedRun(ops: seq<Op>) {
    forall op :: op in ops && op.Update? ==> WellTyped(op.args)
  }

  ghost predicate Guarded(t: Table, op: Op) {
    op.Create? ==> forall b :: b in op.blockedBy ==> !Reaches(GraphOf(t.tasks), b, t.next)
  }

  /** Every create of the run names only blockers that do not lead to the id it is about to get. */
  ghost predicate GuardedCreates(t: Table, ops: seq<Op>)
    decreases |ops|
  {
    ops != [] ==>
      && Guarded(t, ops[0])
      && GuardedCreates(Apply(t, ops[0]), ops[1..])
  }

  ghost predicate AlwaysSane(t: Table, ops: seq<Op>) {
    forall n :: 0 <= n <= |ops| ==> Sane(Run(t, ops[..n]))
  }

  lemma AlwaysSaneUnfold(t: Table, ops: seq<Op>)
    requires ops != []
    ensures AlwaysSane(t, ops) <==> Sane(t) && AlwaysSane(Apply(t, ops[0]), ops[1..])
  {
    var t' := Apply(t, ops[0]);
    forall n | 0 <= n < |ops|
      ensures Run(t, ops[..n + 1]) == Run(t', ops[1..][..n])
    {
      assert ops[..n + 1][1..] == ops[1..][..n];
    }
    if AlwaysSane(t, ops) {
      assert ops[..0] == [] && Sane(Run(t, ops[..0]));
      forall n | 0 <= n <= |ops| - 1
        ensures Sane(Run(t', ops[1..][..n]))
      {
        assert Sane(Run(t, ops[..n + 1]));
      }
    }
    if Sane(t) && AlwaysSane(t', ops[1..]) {
      forall n | 0 <= n <= |ops|
        ensures Sane(Run(t, ops[..n]))
      {
        if n > 0 {
          assert Sane(Run(t', ops[1..][..n - 1]));
        }
      }
    }
  }

  /** Over every run, the graph stays acyclic throughout exactly when each create passes the guard updates go through. */
  lemma {:induction false} RunExact(t: Table, ops: seq<Op>)
    requires Sane(t) && TypedRun(ops)
    ensures AlwaysSane(t, ops) <==> GuardedCreates(t, ops)
    decreases |ops|
  {
    if ops == [] {
      assert forall n :: 0 <= n <= |ops| ==> ops[..n] == [];
    } else {
      AlwaysSaneUnfold(t, ops);
      var t' := Apply(t, ops[0]);
      assert ops[0] in ops && forall op :: op in ops[1..] ==> op in ops;
      StepExact(t, ops[0]);
      if Sane(t') {
        RunExact(t', ops[1..]);
      } else {
        assert ops[1..][..0] == [] && !Sane(Run(t', ops[1..][..0]));
      }
    }
  }

  lemma IssuedOnlyKept(t: Table, op: Op)
    requires IssuedOnly(t) && forall b :: b in Named(op) ==> b < t.next
    ensures IssuedOnly(Apply(t, op))
  {
    var t' := Apply(t, op);
    var g := GraphOf(t.tasks);
    forall v, b | b in Blockers(GraphOf(t'.tasks), v)
      ensures b < t'.next
    {
      assert v in t'.tasks;
      assert b in BlockedBy(t'.tasks[v]);
      if b !in Named(op) {
        assert b in Blockers(g, v);
      }
    }
  }

  /** An id still to be issued is reached from no issued one. */
  lemma FutureIdUnreached(t: Table, b: int)
    requires IssuedOnly(t) && b < t.next
    ensures !Reaches(GraphOf(t.tasks), b, t.next)
  {
    var g := GraphOf(t.tasks);
    forall p | IsPath(g, p) && p[0] == b
      ensures p[|p| - 1] != t.next
    {
      if |p| > 1 {
        assert Hop(g, p, |p| - 2);
        var v, w := p[|p| - 2], p[|p| - 1];
        assert w in Blockers(g, v);
      }
    }
  }

  lemma {:induction false} DisciplineGuards(t: Table, ops: seq<Op>)
    requires IssuedOnly(t) && Disciplined(t, ops)
    ensures GuardedCreates(t, ops)
    decreases |ops|
  {
    if ops != [] {
      if ops[0].Create? {
        forall b | b in ops[0].blockedBy
          ensures !Reaches(GraphOf(t.tasks), b, t.next)
        {
          assert b in Named(ops[0]);
          FutureIdUnreached(t, b);
        }
      }
      IssuedOnlyKept(t, ops[0]);
      DisciplineGuards(Apply(t, ops[0]), ops[1..]);
    }
  }

  /**
   The invariant the guard is there for: starting from an empty table, callers that name issued ids only
   never see a cycle, the tasks can always be put in a working order, and while there is a task
   some task waits for no other.
   */
  lemma ReachableTablesAreSane(ops: seq<Op>)
    requires TypedRun(ops) && Disciplined(EMPTY, ops)
    ensures AlwaysSane(EMPTY, ops)
    ensures exists order :: TopologicalOrder(GraphOf(Run(EMPTY, ops).tasks), order)
    ensures Run(EMPTY, ops).tasks != map[] ==> exists t :: Unblocked(GraphOf(Run(EMPTY, ops).tasks), t)
  {
    CreateCanCloseCycle();
    DisciplineGuards(EMPTY, ops);
    RunExact(EMPTY, ops);
    assert ops[..|ops|] == ops;
    var tasks := Run(EMPTY, ops).tasks;
    assert Sane(Run(EMPTY, ops[..|ops|]));
    AcyclicIffOrdered(GraphOf(tasks));
    if tasks != map[] {
      var t := SomeKey(tasks);
      assert t in GraphOf(tasks);
      SomeTaskIsUnblocked(GraphOf(tasks));
    }
  }
}
