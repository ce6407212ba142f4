/**
 The agent_assignments table: rows of a project, and global rows whose project_id is NULL
 and which the UNIQUE constraint therefore does not protect.
 */
module AgentAssignments {
  import opened Common

  datatype Assignment = Assignment(
    agentId: Option<string>, promptId: Option<string>, modelOverride: Option<string>,
    enabled: Option<bool>, metadata: Option<string>)

  datatype Row = Row(id: int, projectId: Option<int>, processKey: string, assignment: Assignment)

  predicate Truthy(s: Option<string>) {
    s.Some? && s.value != ""
  }

  predicate IsEmpty(a: Assignment) {
    !Truthy(a.agentId) && !Truthy(a.promptId) && !Truthy(a.modelOverride) && a.enabled.None? && a.metadata.None?
  }

  function NonEmpty(a: Option<Assignment>): Option<Assignment> {
    if a.Some? && !IsEmpty(a.value) then a else None
  }

  predicate Matches(r: Row, projectId: Option<int>, key: string) {
    r.projectId == projectId && r.processKey == key
  }

  // ----- what the calls so far say

  datatype Call =
    | Upsert(projectId: Option<int>, key: string, assignment: Assignment)
    | Delete(project: int, key: string)
    | SetInherit(project: int, inherit: bool)

  /** The assignment last written for a project (or globally) and a process, unless it was deleted since. */
  function LastWritten(calls: seq<Call>, projectId: Option<int>, key: string): Option<Assignment> {
    if calls == [] then None
    else
      var last, earlier := calls[|calls| - 1], calls[..|calls| - 1];
      Written(last, projectId, key, LastWritten(earlier, projectId, key))
  }

  function Written(c: Call, projectId: Option<int>, key: string, before: Option<Assignment>): Option<Assignment> {
    match c
    case Upsert(p, k, a) => if p == projectId && k == key then Some(a) else before
    case Delete(p, k) => if Some(p) == projectId && k == key then None else before
    case SetInherit(_, _) => before
  }

  function LastInherit(calls: seq<Call>, project: int): bool {
    if calls == [] then true
    else
      var last, earlier := calls[|calls| - 1], calls[..|calls| - 1];
      if last.SetInherit? && last.project == project then last.inherit else LastInherit(earlier, project)
  }

  /** What applies to a process: the project's own assignment, or else the inherited global one; empty ones do not count. */
  function Effective(calls: seq<Call>, projectId: Option<int>, key: string): Option<Assignment> {
    var own := NonEmpty(LastWritten(calls, projectId, key));
    if own.Some? || projectId.None? then own
    else if LastInherit(calls, projectId.value) then NonEmpty(LastWritten(calls, None, key))
    else None
  }

  // ----- the rows

  /** Where the row of a project (or the global row) for a process is. */
  function Find(rows: seq<Row>, projectId: Option<int>, key: string): Option<Assignment> {
    if rows == [] then None
    else
      var n := |rows| - 1;
      if Matches(rows[n], projectId, key) then Some(rows[n].assignment) else Find(rows[..n], projectId, key)
  }

  ghost predicate OnePerKey(rows: seq<Row>) {
    forall i, j :: 0 <= i < j < |rows| ==> !Matches(rows[j], rows[i].projectId, rows[i].processKey)
  }

  lemma {:induction false} FindAt(rows: seq<Row>, i: nat)
    requires OnePerKey(rows) && i < |rows|
    ensures Find(rows, rows[i].projectId, rows[i].processKey) == Some(rows[i].assignment)
    decreases |rows|
  {
    var n := |rows| - 1;
    if i < n {
      FindAt(rows[..n], i);
    }
  }

  lemma {:induction false} FindNone(rows: seq<Row>, projectId: Option<int>, key: string)
    ensures Find(rows, projectId, key) == None <==> forall i :: 0 <= i < |rows| ==> !Matches(rows[i], projectId, key)
    decreases |rows|
  {
    if rows != [] {
      var n := |rows| - 1;
      FindNone(rows[..n], projectId, key);
      assert forall i :: 0 <= i < n ==> rows[..n][i] == rows[i];
    }
  }

  lemma {:induction false} FindUpdated(rows: seq<Row>, i: nat, a: Assignment, projectId: Option<int>, key: string)
    requires OnePerKey(rows) && i < |rows|
    ensures Find(rows[i := rows[i].(assignment := a)], projectId, key)
         == if Matches(rows[i], projectId, key) then Some(a) else Find(rows, projectId, key)
    decreases |rows|
  {
    var n := |rows| - 1;
    var updated := rows[i := rows[i].(assignment := a)];
    if i < n {
      assert updated[..n] == rows[..n][i := rows[..n][i].(assignment := a)];
      FindUpdated(rows[..n], i, a, projectId, key);
    } else {
      assert updated[..n] == rows[..n];
    }
  }

  lemma FindAppended(rows: seq<Row>, r: Row, projectId: Option<int>, key: string)
    ensures Find(rows + [r], projectId, key) == if Matches(r, projectId, key) then Some(r.assignment) else Find(rows, projectId, key)
  {
    assert (rows + [r])[..|rows|] == rows;
  }

  function Without(rows: seq<Row>, projectId: Option<int>, key: string): seq<Row> {
    if rows == [] then []
    else
      var n := |rows| - 1;
      Without(rows[..n], projectId, key) + (if Matches(rows[n], projectId, key) then [] else [rows[n]])
  }

  lemma {:induction false} FindWithout(rows: seq<Row>, p: Option<int>, k: string)
    requires OnePerKey(rows)
    ensures OnePerKey(Without(rows, p, k)) && (forall r :: r in Without(rows, p, k) ==> r in rows)
    ensures forall q, key :: Find(Without(rows, p, k), q, key) == if q == p && key == k then None else Find(rows, q, key)
    decreases |rows|
  {
    if rows != [] {
      var n := |rows| - 1;
      FindWithout(rows[..n], p, k);
      var kept := Without(rows[..n], p, k);
      if !Matches(rows[n], p, k) {
        forall i | 0 <= i < |kept|
          ensures !Matches(rows[n], kept[i].projectId, kept[i].processKey)
        {
          assert kept[i] in kept && kept[i] in rows[..n];
        }
        forall q, key
          ensures Find(kept + [rows[n]], q, key) == if q == p && key == k then None else Find(rows, q, key)
        {
          FindAppended(kept, rows[n], q, key);
        }
      } else {
        assert kept + [] == kept;
      }
    }
  }

  lemma {:induction false} WithoutMembers(rows: seq<Row>, p: Option<int>, k: string)
    ensures forall r :: r in Without(rows, p, k) <==> r in rows && (r.projectId != p || r.processKey != k)
    decreases |rows|
  {
    if rows != [] {
      var n := |rows| - 1;
      WithoutMembers(rows[..n], p, k);
      assert rows == rows[..n] + [rows[n]];
    }
  }

  lemma RowReplaced(rows: seq<Row>, i: nat, a: Assignment)
    requires i < |rows|
    ensures var r := rows[i].(assignment := a);
      && r in rows[i := r]
      && forall x: Row :: x.projectId != r.projectId || x.processKey != r.processKey ==> (x in rows[i := r] <==> x in rows)
  {
    var r := rows[i].(assignment := a);
    var after := rows[i := r];
    assert after[i] == r;
    forall x: Row | x.projectId != r.projectId || x.processKey != r.processKey
      ensures x in after <==> x in rows
    {
      if j :| 0 <= j < |rows| && rows[j] == x {
        assert after[j] == x;
      }
    }
  }

  /** The assignment says something: a non-empty agent, prompt or model, or a flag or metadata. */
  predicate Says(a: Assignment) {
    || (a.agentId.Some? && |a.agentId.value| > 0)
    || (a.promptId.Some? && |a.promptId.value| > 0)
    || (a.modelOverride.Some? && |a.modelOverride.value| > 0)
    || a.enabled != None || a.metadata != None
  }

  ghost predicate HasSaying(rows: seq<Row>, projectId: Option<int>, key: string) {
    exists r :: r in rows && r.projectId == projectId && r.processKey == key && Says(r.assignment)
  }

  predicate Lists(resolved: map<string, Assignment>, r: Row) {
    r.processKey in resolved && resolved[r.processKey] == r.assignment
  }

  lemma FoundRow(rows: seq<Row>, r: Row)
    requires OnePerKey(rows) && r in rows
    ensures Find(rows, r.projectId, r.processKey) == Some(r.assignment)
  {
    var i :| 0 <= i < |rows| && rows[i] == r;
    FindAt(rows, i);
  }

  lemma SayingFound(rows: seq<Row>, projectId: Option<int>, key: string)
    requires OnePerKey(rows)
    ensures HasSaying(rows, projectId, key) <==> NonEmpty(Find(rows, projectId, key)).Some?
  {
    FindNone(rows, projectId, key);
    if i :| 0 <= i < |rows| && Matches(rows[i], projectId, key) {
      FindAt(rows, i);
      assert rows[i] in rows;
      forall r | r in rows && r.projectId == projectId && r.processKey == key
        ensures Find(rows, projectId, key) == Some(r.assignment)
      {
        FoundRow(rows, r);
      }
    }
  }

  lemma ListedRows(rows: seq<Row>)
    requires OnePerKey(rows)
    ensures forall r :: r in rows ==> Find(rows, r.projectId, r.processKey) == Some(r.assignment)
    ensures forall p, k :: HasSaying(rows, p, k) <==> NonEmpty(Find(rows, p, k)).Some?
  {
    forall r | r in rows
      ensures Find(rows, r.projectId, r.processKey) == Some(r.assignment)
    {
      FoundRow(rows, r);
    }
    forall p, k
      ensures HasSaying(rows, p, k) <==> NonEmpty(Find(rows, p, k)).Some?
    {
      SayingFound(rows, p, k);
    }
  }

  class Assignments {
    var rows: seq<Row>
    var next: int
    var inherit: map<int, bool>
    ghost var calls: seq<Call>

    /** At most one row per project or global scope and process, holding what was last written. */
    ghost predicate Valid()
      reads this
    {
      && OnePerKey(rows)
      && (forall p, k :: Find(rows, p, k) == LastWritten(calls, p, k))
      && forall p :: (p in inherit ==> inherit[p]) == LastInherit(calls, p)
    }

    constructor ()
      ensures Valid() && calls == []
    {
      rows, next, inherit, calls := [], 1, map[], [];
    }

    /** The row to write to, if there is one: the lookup by hand for NULL, the conflict target otherwise. */
    method FindRow(projectId: Option<int>, key: string) returns (found: Option<nat>)
      ensures found.Some? ==> found.value < |rows| && Matches(rows[found.value], projectId, key)
      ensures found.None? ==> forall i :: 0 <= i < |rows| ==> !Matches(rows[i], projectId, key)
    {
      var i := 0;
      while i < |rows|
        invariant 0 <= i <= |rows|
        invariant forall j :: 0 <= j < i ==> !Matches(rows[j], projectId, key)
      {
        if Matches(rows[i], projectId, key) {
          return Some(i);
        }
        i := i + 1;
      }
      return None;
    }

    method UpsertAgentAssignment(projectId: Option<int>, key: string, a: Assignment)
      requires Valid()
      modifies this
      ensures Valid() && calls == old(calls) + [Upsert(projectId, key, a)]
      // one row for this scope and process, with what was given; all other rows and settings stay
      ensures exists r :: r in rows && r.projectId == projectId && r.processKey == key
      ensures forall r :: r in rows && r.projectId == projectId && r.processKey == key ==> r.assignment == a
      ensures forall r: Row :: r.projectId != projectId || r.processKey != key ==> (r in rows <==> r in old(rows))
      ensures forall i, j :: 0 <= i < j < |rows| ==> rows[i].projectId != rows[j].projectId || rows[i].processKey != rows[j].processKey
      ensures inherit == old(inherit)
    {
      ghost var before := rows;
      var found := FindRow(projectId, key);
      if found.Some? {
        var i := found.value;
        RowReplaced(rows, i, a);
        rows := rows[i := rows[i].(assignment := a)];
        forall p, k
          ensures Find(rows, p, k) == if p == projectId && k == key then Some(a) else Find(before, p, k)
        {
          FindUpdated(before, i, a, p, k);
        }
      } else {
        var r := Row(next, projectId, key, a);
        rows := rows + [r];
        next := next + 1;
        assert r in rows;
        forall p, k
          ensures Find(rows, p, k) == if p == projectId && k == key then Some(a) else Find(before, p, k)
        {
          FindAppended(before, r, p, k);
        }
      }
      assert forall p, k :: Find(rows, p, k) == if p == projectId && k == key then Some(a) else Find(before, p, k);
      Recorded(calls, Upsert(projectId, key, a));
      calls := calls + [Upsert(projectId, key, a)];
    }

    method DeleteAgentAssignment(project: int, key: string)
      requires Valid()
      modifies this
      ensures Valid() && calls == old(calls) + [Delete(project, key)]
      // the project's row for this process goes, and nothing else
      ensures forall r :: r in rows <==> r in old(rows) && (r.projectId != Some(project) || r.processKey != key)
      ensures inherit == old(inherit)
    {
      WithoutMembers(rows, Some(project), key);
      FindWithout(rows, Some(project), key);
      rows := Without(rows, Some(project), key);
      Recorded(calls, Delete(project, key));
      calls := calls + [Delete(project, key)];
    }

    method UpsertAgentAssignmentSettings(project: int, inheritGlobal: bool)
      requires Valid()
      modifies this
      ensures Valid() && calls == old(calls) + [SetInherit(project, inheritGlobal)]
      ensures rows == old(rows) && inherit == old(inherit)[project := inheritGlobal]
    {
      inherit := inherit[project := inheritGlobal];
      Recorded(calls, SetInherit(project, inheritGlobal));
      calls := calls + [SetInherit(project, inheritGlobal)];
    }

    /** Adds the non-empty assignments of one scope to the result so far. */
    method Overlay(base: map<string, Assignment>, projectId: Option<int>) returns (resolved: map<string, Assignment>)
      requires OnePerKey(rows)
      ensures forall k :: LookUp(resolved, k) == Over(NonEmpty(Find(rows, projectId, k)), LookUp(base, k))
    {
      resolved := base;
      var i := 0;
      while i < |rows|
        invariant 0 <= i <= |rows|
        invariant forall k :: LookUp(resolved, k) == Over(NonEmpty(Find(rows[..i], projectId, k)), LookUp(base, k))
      {
        var r := rows[i];
        assert rows[..i + 1] == rows[..i] + [r];
        forall k
          ensures Find(rows[..i + 1], projectId, k)
               == if Matches(r, projectId, k) then Some(r.assignment) else Find(rows[..i], projectId, k)
        {
          FindAppended(rows[..i], r, projectId, k);
        }
        FindNone(rows[..i], r.projectId, r.processKey);
        if r.projectId == projectId && !IsEmpty(r.assignment) {
          resolved := resolved[r.processKey := r.assignment];
        }
        i := i + 1;
      }
      assert rows[..i] == rows;
    }

    /** Projects inherit unless told otherwise. */
    predicate Inherits(projectId: Option<int>)
      reads this
    {
      projectId.Some? && (projectId.value in inherit ==> inherit[projectId.value])
    }

    method ListAgentAssignments(projectId: Option<int>) returns (resolved: map<string, Assignment>)
      requires Valid()
      ensures forall k :: LookUp(resolved, k) == Effective(calls, projectId, k)
      // a row of the scope that says something is listed
      ensures forall r :: r in rows && r.projectId == projectId && Says(r.assignment) ==> Lists(resolved, r)
      // so is a global one, if the project inherits and has no such row itself
      ensures Inherits(projectId) ==> forall r ::
        r in rows && r.projectId == None && Says(r.assignment) && !HasSaying(rows, projectId, r.processKey) ==> Lists(resolved, r)
      // and nothing else
      ensures forall k :: k in resolved ==>
        HasSaying(rows, projectId, k) || (Inherits(projectId) && HasSaying(rows, None, k))
    {
      ListedRows(rows);
      resolved := map[];
      if projectId.None? {
        resolved := Overlay(map[], None);
        return;
      }
      var inherits := if projectId.value in inherit then inherit[projectId.value] else true;
      if inherits {
        resolved := Overlay(map[], None);
      }
      resolved := Overlay(resolved, projectId);
    }

    /** Writes an assignment and lists its scope: it is listed as written, unless it says nothing, and then what is inherited is. */
    method AssignAndList(projectId: Option<int>, key: string, a: Assignment) returns (resolved: map<string, Assignment>)
      requires Valid()
      modifies this
      ensures Valid()
      ensures (key in resolved && resolved[key] == a && HasSaying(rows, projectId, key)) <==>
        || a.enabled.Some? || a.metadata.Some?
        || (a.agentId.Some? && a.agentId.value != "")
        || (a.promptId.Some? && a.promptId.value != "")
        || (a.modelOverride.Some? && a.modelOverride.value != "")
      ensures !HasSaying(rows, projectId, key) ==>
        if Inherits(projectId) && HasSaying(old(rows), None, key)
        then exists r :: r in old(rows) && r.projectId == None && r.processKey == key && Lists(resolved, r)
        else key !in resolved
    {
      UpsertAgentAssignment(projectId, key, a);
      resolved := ListAgentAssignments(projectId);
    }
  }

  function LookUp(m: map<string, Assignment>, k: string): Option<Assignment> {
    if k in m then Some(m[k]) else None
  }

  function Over(top: Option<Assignment>, below: Option<Assignment>): Option<Assignment> {
    if top.Some? then top else below
  }

  lemma Recorded(calls: seq<Call>, c: Call)
    ensures forall p, k :: LastWritten(calls + [c], p, k) == Written(c, p, k, LastWritten(calls, p, k))
    ensures forall p :: LastInherit(calls + [c], p) == if c.SetInherit? && c.project == p then c.inherit else LastInherit(calls, p)
  {
    assert (calls + [c])[..|calls|] == calls;
  }

  /** An empty assignment of a project never hides an inherited global one. */
  lemma EmptyHidesNothing(calls: seq<Call>, project: int, key: string, a: Assignment)
    requires !Says(a) && LastInherit(calls, project)
    ensures Effective(calls + [Upsert(Some(project), key, a)], Some(project), key) == Effective(calls, None, key)
  {
    Recorded(calls, Upsert(Some(project), key, a));
  }
}
