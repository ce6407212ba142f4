/**
 The tasks table: create_task, update_task with its circular-dependency guard, delete_task.
 A row maps column names to values; the id is the key of the table.
 */
module TaskTable {
  import opened Common
  import opened DependencyGraph

  datatype Value = Null | Number(n: int) | Text(s: string) | Strings(items: seq<string>) | Ids(ids: seq<int>)

  type Columns = map<string, Value>

  datatype TaskError = NotFound(id: int) | Circular(id: int, blocker: int)

  const BLOCKED_BY := "blocked_by"

  /** The columns update_task may write. */
  const UPDATABLE: set<string> := {
    "title", "description", "task_type", "priority", "board_status", "sprint_id", "protocol_run_id", "step_run_id",
    "story_points", "assignee", "reporter", "labels", "acceptance_criteria", "started_at", "completed_at", "due_date",
    BLOCKED_BY, "blocks" }

  /** The columns of the table. */
  const COLUMNS: set<string> := {
    "id", "project_id", "sprint_id", "protocol_run_id", "step_run_id", "title", "description", "task_type", "priority",
    "board_status", "story_points", "assignee", "reporter", "labels", "acceptance_criteria", BLOCKED_BY, "blocks", "due_date",
    "started_at", "completed_at", "created_at", "updated_at" }

  /** An update may write every column but the identity, the project and the two time stamps. */
  lemma UpdatableColumns()
    ensures UPDATABLE <= COLUMNS && COLUMNS - UPDATABLE == {"id", "project_id", "created_at", "updated_at"}
  {
    assert forall k :: k in UPDATABLE ==> k in COLUMNS;
    forall k
      ensures k in COLUMNS && k !in UPDATABLE <==> k in {"id", "project_id", "created_at", "updated_at"}
    {
    }
  }

  /** The stored blocked_by list; a NULL column reads as the empty list. */
  function BlockedBy(row: Columns): seq<int> {
    if BLOCKED_BY in row && row[BLOCKED_BY].Ids? then row[BLOCKED_BY].ids else []
  }

  function GraphOf(tasks: map<int, Columns>): Graph {
    map t | t in tasks :: BlockedBy(tasks[t])
  }

  /** The declared type of the blocked_by argument: a list of ids, or None. */
  predicate WellTyped(args: Columns) {
    BLOCKED_BY in args ==> args[BLOCKED_BY].Null? || args[BLOCKED_BY].Ids?
  }

  /** The row after an UPDATE: named, updatable columns take the argument, all others stay. */
  function Overlay(row: Columns, args: Columns): Columns {
    row + (map k | k in args && k in UPDATABLE :: args[k])
  }

  // ----- the table as a value

  /** next is the id the AUTOINCREMENT counter issues next; it never returns to an earlier value. */
  datatype Table = Table(tasks: map<int, Columns>, next: int)

  datatype Op =
    | Create(columns: Columns, blockedBy: seq<int>)
    | Update(id: int, args: Columns)
    | Delete(id: int)

  /** An update is refused when some proposed blocker already leads to its id. */
  ghost predicate Refused(t: Table, id: int, args: Columns) {
    exists b :: b in BlockedBy(args) && Reaches(GraphOf(t.tasks), b, id)
  }

  ghost function Apply(t: Table, op: Op): Table {
    match op
    case Create(columns, bs) => Table(t.tasks[t.next := columns[BLOCKED_BY := Ids(bs)]], t.next + 1)
    case Update(id, args) =>
      if Refused(t, id, args) || id !in t.tasks then t else t.(tasks := t.tasks[id := Overlay(t.tasks[id], args)])
    case Delete(id) => t.(tasks := t.tasks - {id})
  }

  // ----- the table as an object

  /** A Python set shared by reference between the calls of the search. */
  class IdSet {
    var ids: set<int>

    constructor ()
      ensures ids == {}
    {
      ids := {};
    }

    method Add(x: int)
      modifies this
      ensures ids == old(ids) + {x}
    {
      ids := ids + {x};
    }

    method Remove(x: int)
      modifies this
      ensures ids == old(ids) - {x}
    {
      ids := ids - {x};
    }
  }

  /** Every id the search can come across. */
  ghost function Known(g: Graph, roots: seq<int>): set<int> {
    g.Keys + (set t, b | t in g && b in g[t] :: b) + set b | b in roots
  }

  /** All successors of v are in s. */
  ghost predicate Expanded(g: Graph, v: int, s: set<int>) {
    forall b :: b in Blockers(g, v) ==> b in s
  }

  ghost predicate FirstOffender(g: Graph, id: int, bs: seq<int>, i: nat, b: int)
    requires i < |bs|
  {
    && b == bs[i] && Reaches(g, b, id)
    && forall k :: 0 <= k < i ==> !Reaches(g, bs[k], id)
  }

  class Tasks {
    var tasks: map<int, Columns>
    var next: int

    ghost function Snapshot(): Table
      reads this
    {
      Table(tasks, next)
    }

    ghost function Dependencies(): Graph
      reads this
    {
      GraphOf(tasks)
    }

    constructor ()
      ensures Snapshot() == Table(map[], 1)
    {
      tasks, next := map[], 1;
    }

    method GetTask(id: int) returns (r: Result<Columns, TaskError>)
      ensures r == if id in tasks then Ok(tasks[id]) else Err(NotFound(id))
    {
      if id in tasks {
        r := Ok(tasks[id]);
      } else {
        r := Err(NotFound(id));
      }
    }

    /**
     The recursive search. visited is shared by all roots, path by the calls below one root.
     expanded lists, in order, the ids whose task the call looked up.
     */
    method HasCycle(target: int, current: int, visited: IdSet, path: IdSet, ghost known: set<int>)
      returns (found: bool, ghost expanded: seq<int>)
      requires visited != path
      requires path.ids <= visited.ids <= known && target !in visited.ids
      requires current in known && Closed(Dependencies(), known)
      modifies visited, path
      ensures old(visited.ids) <= visited.ids <= known && target !in visited.ids
      ensures path.ids <= visited.ids
      ensures Distinct(expanded) && forall v :: v in expanded <==> v in visited.ids - old(visited.ids)
      ensures found ==> Reaches(Dependencies(), current, target)
      ensures !found ==> current in visited.ids && path.ids == old(path.ids)
      ensures !found ==> forall v :: v in visited.ids - old(visited.ids) ==> Expanded(Dependencies(), v, visited.ids)
      decreases known - visited.ids
    {
      ghost var g := Dependencies();
      expanded := [];
      if current == target {
        ReachesSelf(g, target);
        return true, [];
      }
      if current in visited.ids || current in path.ids {
        return current == target, [];
      }
      visited.Add(current);
      path.Add(current);
      expanded := [current];
      var task := GetTask(current);
      if task.Ok? {
        var blockers := BlockedBy(task.value);
        assert blockers == Blockers(g, current);
        var i := 0;
        while i < |blockers|
          invariant 0 <= i <= |blockers|
          invariant old(visited.ids) + {current} <= visited.ids <= known && target !in visited.ids
          invariant path.ids == old(path.ids) + {current}
          invariant Distinct(expanded) && forall v :: v in expanded <==> v in visited.ids - old(visited.ids)
          invariant forall k :: 0 <= k < i ==> blockers[k] in visited.ids
          invariant forall v :: v in visited.ids - old(visited.ids) - {current} ==> Expanded(g, v, visited.ids)
        {
          var b := blockers[i];
          assert b in Blockers(g, current);
          ghost var before := visited.ids;
          var hit, more := HasCycle(target, b, visited, path, known);
          assert forall x :: x in expanded ==> x in before;
          assert forall x :: x in more ==> x in visited.ids - before;
          DistinctConcat(expanded, more);
          expanded := expanded + more;
          if hit {
            ReachesVia(g, current, b, target);
            return true, expanded;
          }
          forall v | v in visited.ids - old(visited.ids) - {current}
            ensures Expanded(g, v, visited.ids)
          {
            if v in before {
              assert v in before - old(visited.ids) - {current};
              assert Expanded(g, v, before);
            } else {
              assert v in visited.ids - before;
            }
          }
          i := i + 1;
        }
      }
      path.Remove(current);
      return false, expanded;
    }

    /**
     None when the guard passes, otherwise the blocker it reports: the first in the list that leads back.
     expanded lists the ids looked up, over all proposed blockers.
     */
    method CheckCircularTaskDependencies(id: int, blockedBy: seq<int>)
      returns (bad: Option<int>, ghost expanded: seq<int>)
      ensures bad.None? <==> forall b :: b in blockedBy ==> !Reaches(Dependencies(), b, id)
      ensures Distinct(expanded) && forall v :: v in expanded ==> v in Known(Dependencies(), blockedBy) && v != id
      ensures bad.Some? ==> exists i :: 0 <= i < |blockedBy| && FirstOffender(Dependencies(), id, blockedBy, i, bad.value)
    {
      ghost var g := Dependencies();
      ghost var known := Known(g, blockedBy);
      var visited := new IdSet();
      expanded := [];
      var i := 0;
      while i < |blockedBy|
        invariant 0 <= i <= |blockedBy|
        invariant visited.ids <= known && id !in visited.ids
        invariant Closed(g, visited.ids)
        invariant Distinct(expanded) && forall v :: v in expanded <==> v in visited.ids
        invariant forall k :: 0 <= k < i ==> blockedBy[k] in visited.ids
        invariant fresh(visited)
      {
        ghost var before := visited.ids;
        forall k | 0 <= k < i
          ensures !Reaches(g, blockedBy[k], id)
        {
          ClosedExcludes(g, visited.ids, blockedBy[k], id);
        }
        var path := new IdSet();
        var hit, more := HasCycle(id, blockedBy[i], visited, path, known);
        assert forall x :: x in expanded ==> x in before;
        assert forall x :: x in more ==> x in visited.ids - before;
        DistinctConcat(expanded, more);
        expanded := expanded + more;
        if hit {
          assert FirstOffender(g, id, blockedBy, i, blockedBy[i]);
          return Some(blockedBy[i]), expanded;
        }
        forall v, b | v in visited.ids && b in Blockers(g, v)
          ensures b in visited.ids
        {
          if v !in before {
            assert v in visited.ids - before;
            assert Expanded(g, v, visited.ids);
          }
        }
        i := i + 1;
      }
      forall b | b in blockedBy
        ensures !Reaches(g, b, id)
      {
        ClosedExcludes(g, visited.ids, b, id);
      }
      return None, expanded;
    }

    method CreateTask(columns: Columns, blockedBy: Option<seq<int>>) returns (r: Result<Columns, TaskError>)
      modifies this
      ensures Snapshot() == Apply(old(Snapshot()), Create(columns, if blockedBy.Some? then blockedBy.value else []))
      ensures r == Ok(tasks[old(next)])
      // one row, under the next id, with the given columns and the given or no blockers
      ensures next == old(next) + 1 && tasks.Keys == old(tasks.Keys) + {old(next)}
      ensures forall t :: t in old(tasks) && t != old(next) ==> tasks[t] == old(tasks)[t]
      ensures tasks[old(next)].Keys == columns.Keys + {BLOCKED_BY}
      ensures forall c :: c in columns && c != BLOCKED_BY ==> tasks[old(next)][c] == columns[c]
      ensures tasks[old(next)][BLOCKED_BY] == Ids(if blockedBy.Some? then blockedBy.value else [])
    {
      var id := next;
      tasks := tasks[id := columns[BLOCKED_BY := Ids(if blockedBy.Some? then blockedBy.value else [])]];
      next := next + 1;
      r := GetTask(id);
    }

    method UpdateTask(id: int, args: Columns) returns (r: Result<Columns, TaskError>)
      requires WellTyped(args)
      modifies this
      ensures Snapshot() == Apply(old(Snapshot()), Update(id, args))
      ensures r.Err? && r.error.Circular? <==> Refused(old(Snapshot()), id, args)
      ensures !Refused(old(Snapshot()), id, args) ==> r == if id in tasks then Ok(tasks[id]) else Err(NotFound(id))
      // refused if and only if a proposed blocker leads to the id
      ensures r.Err? && r.error.Circular? <==>
        BLOCKED_BY in args && args[BLOCKED_BY].Ids? && exists b :: b in args[BLOCKED_BY].ids && Reaches(old(Dependencies()), b, id)
      ensures r.Err? && r.error.NotFound? ==> id !in old(tasks)
      // no row comes or goes, and no other row changes
      ensures next == old(next) && tasks.Keys == old(tasks.Keys)
      ensures forall t :: t in tasks && (t != id || r.Err?) ==> tasks[t] == old(tasks)[t]
      // in the row, the named columns that may be written hold their arguments, the others what they held
      ensures r.Ok? ==> id in tasks && tasks[id].Keys == old(tasks)[id].Keys + (args.Keys * UPDATABLE)
      ensures r.Ok? ==> forall c :: c in args && c in UPDATABLE ==> tasks[id][c] == args[c]
      ensures r.Ok? ==> forall c :: c in old(tasks)[id] && !(c in args && c in UPDATABLE) ==> tasks[id][c] == old(tasks)[id][c]
    {
      if BLOCKED_BY in args && args[BLOCKED_BY] != Null {
        var bad, _ := CheckCircularTaskDependencies(id, args[BLOCKED_BY].ids);
        if bad.Some? {
          return Err(Circular(id, bad.value));
        }
      }
      var updates := Permitted(args, UPDATABLE);
      if updates == map[] {
        assert forall row: Columns :: row + updates == row;
        r := GetTask(id);
        assert id in tasks ==> tasks[id := tasks[id]] == tasks;
        return;
      }
      if id in tasks {
        tasks := tasks[id := tasks[id] + updates];
      }
      r := GetTask(id);
    }

    /** The arguments that name a column of the given ones. */
    method Permitted(args: Columns, allowed: set<string>) returns (updates: Columns)
      ensures updates == map k | k in args && k in allowed :: args[k]
    {
      updates := map[];
      var keys := args.Keys;
      while keys != {}
        invariant keys <= args.Keys
        invariant updates == map k | k in args && k !in keys && k in allowed :: args[k]
        decreases |keys|
      {
        var key :| key in keys;
        if key in allowed {
          updates := updates[key := args[key]];
        }
        keys := keys - {key};
      }
    }

    method DeleteTask(id: int)
      modifies this
      ensures Snapshot() == Apply(old(Snapshot()), Delete(id))
      ensures next == old(next) && tasks.Keys == old(tasks.Keys) - {id}
      ensures forall t :: t in tasks ==> tasks[t] == old(tasks)[t]
    {
      tasks := tasks - {id};
    }
  }
}
