/**
 What deleting a project leaves behind. No table is assumed to be free of dangling references beforehand:
 foreign keys are not enforced, and other operations leave some.
 */
module ProjectIntegrity {
  import opened Common
  import opened ProjectDeletion

  predicate Exists(db: Db, t: Table, k: Key) {
    t in db && k in db[t]
  }

  // ----- the schema

  predicate NamesSteps(t: Table) {
    t.Tasks? || t.JobRuns? || t.QaResults? || t.FeedbackEvents? || t.Events? || t.Clarifications?
  }

  /** The reference columns a table has. */
  predicate HasColumn(t: Table, c: Column) {
    match c
    case ProjectId => !(t.Projects? || t.PolicyPacks? || t.StepRuns? || t.RunArtifacts? || t.FeedbackEvents?)
    case ProtocolRunId => NamesSteps(t) || t.StepRuns? || t.SpecRuns?
    case StepRunId => NamesSteps(t)
    case SprintId => t.Tasks? || t.SpecSprintLinks?
    case LinkedTaskId => t.StepRuns?
    case LinkedSprintId => t.ProtocolRuns?
    case RunIdColumn => t.RunArtifacts?
  }

  /** The column that may not be NULL and places a row, where a table has one. */
  predicate IsAnchor(t: Table, c: Column) {
    match c
    case ProjectId => HasColumn(t, ProjectId) && !(t.JobRuns? || t.Events? || t.AgentAssignments?)
    case ProtocolRunId => t.StepRuns? || t.FeedbackEvents?
    case RunIdColumn => t.RunArtifacts?
    case _ => false
  }

  predicate ColumnShaped(t: Table, row: Row, c: Column) {
    if c in row.refs then HasColumn(t, c) else !IsAnchor(t, c)
  }

  ghost predicate Shaped(db: Db) {
    forall t, k, c :: Exists(db, t, k) ==> ColumnShaped(t, db[t][k], c)
  }

  // ----- rows before and after

  lemma PurgeRows(db: Db, p: Key, t: Table, k: Key)
    requires Complete(db)
    ensures Complete(Purge(db, p))
    ensures Exists(Purge(db, p), t, k) <==> Exists(db, t, k) && !Doomed(db, t, k, db[t][k], p)
    ensures Exists(Purge(db, p), t, k) ==> Purge(db, p)[t][k] == db[t][k]
  {
    assert Purge(db, p)[t] == Kept(db, t, p);
  }

  /** Column c of the row leads to an existing row. */
  predicate Leads(db: Db, t: Table, k: Key, c: Column) {
    Exists(db, t, k) && c in db[t][k].refs && Exists(db, Target(c), db[t][k].refs[c])
  }

  /** Every reference of a surviving row that led somewhere before the deletion still does. */
  ghost predicate CleanDeletion(db: Db, p: Key)
    requires Complete(db)
  {
    forall t, k, c :: Exists(Purge(db, p), t, k) && Leads(db, t, k, c) ==> Leads(Purge(db, p), t, k, c)
  }

  /** Column c of the row leads to a row that the deletion takes. */
  predicate LeadsToDoomed(db: Db, t: Table, k: Key, c: Column, p: Key)
    requires Complete(db)
  {
    Leads(db, t, k, c) && var u := db[t][k].refs[c]; Doomed(db, Target(c), u, db[Target(c)][u], p)
  }

  /** The row counts as the project's own: by its project, by its protocol run, or by either. */
  predicate Claimed(db: Db, t: Table, row: Row, p: Key)
    requires Complete(db)
  {
    if OwnedByColumn(t) then Has(row, ProjectId, p)
    else if t == FeedbackEvents then OfProjectRun(db[ProtocolRuns], row, p)
    else OfProject(db[ProtocolRuns], row, p)
  }

  /**
   A reference across projects that a deletion of p cuts: the row is not p's own, but it names one of p's protocol runs,
   a step of one, one of p's sprints, or one of p's tasks.
   */
  predicate Stray(db: Db, t: Table, k: Key, c: Column, p: Key)
    requires Complete(db) && Exists(db, t, k)
  {
    var row := db[t][k];
    c in row.refs && var u := row.refs[c];
    match c
    case ProjectId => false
    case RunIdColumn => false
    case ProtocolRunId => OwnedByColumn(t) && OfProjectRun(db[ProtocolRuns], row, p) && !Has(row, ProjectId, p)
    case StepRunId => u in db[StepRuns] && OfProjectRun(db[ProtocolRuns], db[StepRuns][u], p) && !Claimed(db, t, row, p)
    case SprintId => u in db[Sprints] && Has(db[Sprints][u], ProjectId, p) && !Has(row, ProjectId, p)
    case LinkedSprintId => u in db[Sprints] && Has(db[Sprints][u], ProjectId, p) && !Has(row, ProjectId, p)
    case LinkedTaskId => u in db[Tasks] && Has(db[Tasks][u], ProjectId, p) && !OfProjectRun(db[ProtocolRuns], row, p)
  }

  /** Apart from projects and artifacts, the deletion takes what counts as the project's own. */
  lemma DoomedIffClaimed(db: Db, t: Table, k: Key, p: Key)
    requires Complete(db) && Shaped(db) && Exists(db, t, k) && t != Projects && t != RunArtifacts && t != PolicyPacks
    ensures Doomed(db, t, k, db[t][k], p) <==> Claimed(db, t, db[t][k], p)
  {
    assert ColumnShaped(t, db[t][k], ProjectId);
  }

  lemma NoStrayProject(db: Db, t: Table, k: Key, p: Key)
    requires Complete(db) && Shaped(db) && LeadsToDoomed(db, t, k, ProjectId, p)
    ensures Doomed(db, t, k, db[t][k], p)
  {
    assert ColumnShaped(t, db[t][k], ProjectId);
    DoomedIffClaimed(db, t, k, p);
  }

  lemma NoStrayArtifact(db: Db, t: Table, k: Key, p: Key)
    requires Complete(db) && Shaped(db) && LeadsToDoomed(db, t, k, RunIdColumn, p)
    ensures Doomed(db, t, k, db[t][k], p)
  {
    assert ColumnShaped(t, db[t][k], RunIdColumn);
  }

  lemma StrayRunExact(db: Db, t: Table, k: Key, p: Key)
    requires Complete(db) && Shaped(db) && Exists(db, t, k)
    ensures Stray(db, t, k, ProtocolRunId, p) <==> !Doomed(db, t, k, db[t][k], p) && LeadsToDoomed(db, t, k, ProtocolRunId, p)
  {
    if ProtocolRunId in db[t][k].refs {
      assert ColumnShaped(t, db[t][k], ProtocolRunId);
      DoomedIffClaimed(db, t, k, p);
    }
  }

  lemma StrayStepExact(db: Db, t: Table, k: Key, p: Key)
    requires Complete(db) && Shaped(db) && Exists(db, t, k)
    ensures Stray(db, t, k, StepRunId, p) <==> !Doomed(db, t, k, db[t][k], p) && LeadsToDoomed(db, t, k, StepRunId, p)
  {
    if StepRunId in db[t][k].refs {
      assert ColumnShaped(t, db[t][k], StepRunId);
      DoomedIffClaimed(db, t, k, p);
    }
  }

  lemma StraySprintExact(db: Db, t: Table, k: Key, c: Column, p: Key)
    requires Complete(db) && Shaped(db) && Exists(db, t, k) && (c == SprintId || c == LinkedSprintId)
    ensures Stray(db, t, k, c, p) <==> !Doomed(db, t, k, db[t][k], p) && LeadsToDoomed(db, t, k, c, p)
  {
    if c in db[t][k].refs {
      assert ColumnShaped(t, db[t][k], c);
      DoomedIffClaimed(db, t, k, p);
    }
  }

  lemma StrayTaskExact(db: Db, t: Table, k: Key, p: Key)
    requires Complete(db) && Shaped(db) && Exists(db, t, k)
    ensures Stray(db, t, k, LinkedTaskId, p) <==> !Doomed(db, t, k, db[t][k], p) && LeadsToDoomed(db, t, k, LinkedTaskId, p)
  {
    if LinkedTaskId in db[t][k].refs {
      assert ColumnShaped(t, db[t][k], LinkedTaskId);
    }
  }

  /** The stray references are exactly those of surviving rows to rows that go. */
  lemma StrayExact(db: Db, t: Table, k: Key, c: Column, p: Key)
    requires Complete(db) && Shaped(db) && Exists(db, t, k)
    ensures Stray(db, t, k, c, p) <==> !Doomed(db, t, k, db[t][k], p) && LeadsToDoomed(db, t, k, c, p)
  {
    if c == ProtocolRunId {
      StrayRunExact(db, t, k, p);
    } else if c == StepRunId {
      StrayStepExact(db, t, k, p);
    } else if c == SprintId || c == LinkedSprintId {
      StraySprintExact(db, t, k, c, p);
    } else if c == LinkedTaskId {
      StrayTaskExact(db, t, k, p);
    } else if LeadsToDoomed(db, t, k, c, p) {
      if c == ProjectId {
        NoStrayProject(db, t, k, p);
      } else {
        NoStrayArtifact(db, t, k, p);
      }
    }
  }

  /** A deletion leaves no reference to a row it took, exactly when no row outside the project holds a stray reference. */
  lemma DeletionExact(db: Db, p: Key)
    requires Complete(db) && Shaped(db)
    ensures CleanDeletion(db, p) <==> forall t, k, c :: Exists(db, t, k) ==> !Stray(db, t, k, c, p)
  {
    var after := Purge(db, p);
    forall t, k, c | Exists(db, t, k)
      ensures Stray(db, t, k, c, p) <==> Exists(after, t, k) && Leads(db, t, k, c) && !Leads(after, t, k, c)
    {
      StrayExact(db, t, k, c, p);
      PurgeRows(db, p, t, k);
      if Leads(db, t, k, c) {
        PurgeRows(db, p, Target(c), db[t][k].refs[c]);
      }
    }
    if t, k, c :| Exists(after, t, k) && Leads(db, t, k, c) && !Leads(after, t, k, c) {
      assert Stray(db, t, k, c, p);
    }
  }

  // ----- databases in which references stay inside projects

  /** The project a row belongs to: its project_id, or else the one of its protocol run, or of its run's job. */
  function Owner(db: Db, t: Table, k: Key): Option<Key>
    requires Complete(db) && k in db[t]
  {
    var row := db[t][k];
    if t == Projects then Some(k)
    else if t == RunArtifacts then
      if RunIdColumn in row.refs && row.refs[RunIdColumn] in db[JobRuns] then RowOwner(db, db[JobRuns][row.refs[RunIdColumn]]) else None
    else RowOwner(db, row)
  }

  function RowOwner(db: Db, row: Row): Option<Key>
    requires Complete(db)
  {
    if ProjectId in row.refs then Some(row.refs[ProjectId])
    else if ProtocolRunId in row.refs && row.refs[ProtocolRunId] in db[ProtocolRuns]
            && ProjectId in db[ProtocolRuns][row.refs[ProtocolRunId]].refs
    then Some(db[ProtocolRuns][row.refs[ProtocolRunId]].refs[ProjectId])
    else None
  }

  /** A reference that leads somewhere stays inside the project of the row that holds it. */
  ghost predicate ProjectLocal(db: Db)
    requires Complete(db)
  {
    forall t, k, c :: Leads(db, t, k, c) ==> Owner(db, Target(c), db[t][k].refs[c]) == Owner(db, t, k)
  }

  lemma ClaimedIffOwned(db: Db, t: Table, k: Key, p: Key)
    requires Complete(db) && ProjectLocal(db) && Shaped(db) && Exists(db, t, k)
    requires t != Projects && t != RunArtifacts && t != PolicyPacks
    ensures Claimed(db, t, db[t][k], p) <==> RowOwner(db, db[t][k]) == Some(p)
  {
    var row := db[t][k];
    assert ColumnShaped(t, row, ProjectId) && ColumnShaped(t, row, ProtocolRunId);
    if Leads(db, t, k, ProtocolRunId) {
      var r := row.refs[ProtocolRunId];
      assert Exists(db, ProtocolRuns, r) && ColumnShaped(ProtocolRuns, db[ProtocolRuns][r], ProjectId);
    }
  }

  lemma ArtifactDoomedIffOwned(db: Db, k: Key, p: Key)
    requires Complete(db) && ProjectLocal(db) && Shaped(db) && Exists(db, RunArtifacts, k)
    ensures Doomed(db, RunArtifacts, k, db[RunArtifacts][k], p) <==> Owner(db, RunArtifacts, k) == Some(p)
  {
    if Leads(db, RunArtifacts, k, RunIdColumn) {
      ClaimedIffOwned(db, JobRuns, db[RunArtifacts][k].refs[RunIdColumn], p);
    }
  }

  /** In a project-local database the rows a deletion takes are exactly those the project owns. */
  lemma DoomedIffOwned(db: Db, t: Table, k: Key, p: Key)
    requires Complete(db) && ProjectLocal(db) && Shaped(db) && Exists(db, t, k)
    ensures Doomed(db, t, k, db[t][k], p) <==> Owner(db, t, k) == Some(p)
  {
    if t == RunArtifacts {
      ArtifactDoomedIffOwned(db, k, p);
    } else if t == PolicyPacks {
      assert ColumnShaped(t, db[t][k], ProjectId) && ColumnShaped(t, db[t][k], ProtocolRunId);
    } else if t != Projects {
      DoomedIffClaimed(db, t, k, p);
      ClaimedIffOwned(db, t, k, p);
    }
  }

  /**
   Deleting a project from a project-local database takes exactly the rows the project owns, leaves all others unchanged,
   and leaves no reference to a row it took. Dangling references from before neither matter nor grow in number.
   */
  lemma DeletionIsLocal(db: Db, p: Key)
    requires Complete(db) && ProjectLocal(db) && Shaped(db)
    ensures CleanDeletion(db, p)
    ensures forall t, k :: Exists(Purge(db, p), t, k) <==> Exists(db, t, k) && Owner(db, t, k) != Some(p)
    ensures forall t, k :: Exists(Purge(db, p), t, k) ==> Purge(db, p)[t][k] == db[t][k]
  {
    var after := Purge(db, p);
    forall t, k
      ensures Exists(after, t, k) <==> Exists(db, t, k) && Owner(db, t, k) != Some(p)
      ensures Exists(after, t, k) ==> after[t][k] == db[t][k]
    {
      PurgeRows(db, p, t, k);
      if Exists(db, t, k) {
        DoomedIffOwned(db, t, k, p);
      }
    }
    forall t, k, c | Exists(after, t, k) && Leads(db, t, k, c)
      ensures Leads(after, t, k, c)
    {
      assert Exists(db, Target(c), db[t][k].refs[c]);
    }
  }

  /** No row refers to a row that is not there. */
  ghost predicate Intact(db: Db) {
    forall t, k, c :: Exists(db, t, k) && c in db[t][k].refs ==> Leads(db, t, k, c)
  }

  /** In particular, what had no dangling reference has none afterwards. */
  lemma IntactStays(db: Db, p: Key)
    requires Complete(db) && ProjectLocal(db) && Shaped(db) && Intact(db)
    ensures Intact(Purge(db, p))
  {
    DeletionIsLocal(db, p);
    var after := Purge(db, p);
    forall t, k, c | Exists(after, t, k) && c in after[t][k].refs
      ensures Leads(after, t, k, c)
    {
      assert Leads(db, t, k, c);
    }
  }

  // ----- any number of deletions

  lemma RowOwnerStays(db: Db, p: Key, t: Table, k: Key)
    requires Complete(db) && Complete(Purge(db, p)) && CleanDeletion(db, p) && Exists(Purge(db, p), t, k)
    ensures Exists(db, t, k) && Purge(db, p)[t][k] == db[t][k]
    ensures RowOwner(Purge(db, p), db[t][k]) == RowOwner(db, db[t][k])
  {
    PurgeRows(db, p, t, k);
    var after, row := Purge(db, p), db[t][k];
    if ProtocolRunId in row.refs {
      PurgeRows(db, p, ProtocolRuns, row.refs[ProtocolRunId]);
      assert Leads(db, t, k, ProtocolRunId) ==> Leads(after, t, k, ProtocolRunId);
    }
  }

  lemma OwnerStays(db: Db, p: Key, t: Table, k: Key)
    requires Complete(db) && Complete(Purge(db, p)) && CleanDeletion(db, p) && Exists(Purge(db, p), t, k)
    ensures Exists(db, t, k) && Owner(Purge(db, p), t, k) == Owner(db, t, k)
  {
    PurgeRows(db, p, t, k);
    var after, row := Purge(db, p), db[t][k];
    if t == RunArtifacts {
      if RunIdColumn in row.refs {
        var j := row.refs[RunIdColumn];
        PurgeRows(db, p, JobRuns, j);
        assert Leads(db, t, k, RunIdColumn) ==> Leads(after, t, k, RunIdColumn);
        if Exists(after, JobRuns, j) {
          RowOwnerStays(db, p, JobRuns, j);
        }
      }
    } else if t != Projects {
      RowOwnerStays(db, p, t, k);
    }
  }

  lemma PurgeStaysLocal(db: Db, p: Key)
    requires Complete(db) && ProjectLocal(db) && Shaped(db)
    ensures Complete(Purge(db, p)) && ProjectLocal(Purge(db, p)) && Shaped(Purge(db, p))
  {
    DeletionIsLocal(db, p);
    var after := Purge(db, p);
    assert forall t: Table :: t in db ==> t in after;
    forall t, k, c | Exists(after, t, k)
      ensures ColumnShaped(t, after[t][k], c)
    {
      assert ColumnShaped(t, db[t][k], c);
    }
    forall t, k, c | Leads(after, t, k, c)
      ensures Owner(after, Target(c), after[t][k].refs[c]) == Owner(after, t, k)
    {
      assert Leads(db, t, k, c) by {
        PurgeRows(db, p, Target(c), after[t][k].refs[c]);
      }
      OwnerStays(db, p, t, k);
      OwnerStays(db, p, Target(c), after[t][k].refs[c]);
    }
  }

  function PurgeAll(db: Db, ps: seq<Key>): Db
    requires Complete(db)
    decreases |ps|
  {
    if ps == [] then db
    else
      assert forall t: Table :: t in db ==> t in Purge(db, ps[0]);
      PurgeAll(Purge(db, ps[0]), ps[1..])
  }

  predicate OwnedByAny(db: Db, t: Table, k: Key, ps: seq<Key>)
    requires Complete(db) && Exists(db, t, k)
  {
    Owner(db, t, k).Some? && Owner(db, t, k).value in ps
  }

  /** After any deletions, in any order, exactly the rows of the deleted projects are gone, and no reference to them is left. */
  lemma {:induction false} DeletionsAreLocal(db: Db, ps: seq<Key>)
    requires Complete(db) && ProjectLocal(db) && Shaped(db)
    ensures forall t, k :: Exists(PurgeAll(db, ps), t, k) <==> Exists(db, t, k) && !OwnedByAny(db, t, k, ps)
    ensures forall t, k :: Exists(PurgeAll(db, ps), t, k) ==> Exists(db, t, k) && PurgeAll(db, ps)[t][k] == db[t][k]
    ensures forall t, k, c :: Exists(PurgeAll(db, ps), t, k) && Leads(db, t, k, c) ==> Leads(PurgeAll(db, ps), t, k, c)
    decreases |ps|
  {
    if ps != [] {
      var after := Purge(db, ps[0]);
      DeletionIsLocal(db, ps[0]);
      PurgeStaysLocal(db, ps[0]);
      DeletionsAreLocal(after, ps[1..]);
      forall t, k | Exists(db, t, k)
        ensures !OwnedByAny(db, t, k, ps) <==> Exists(after, t, k) && !OwnedByAny(after, t, k, ps[1..])
      {
        if Exists(after, t, k) {
          OwnerStays(db, ps[0], t, k);
        }
      }
    }
  }

  // ----- a stray reference

  const TABLES: set<Table> := {
    Projects, ProtocolRuns, StepRuns, Tasks, Sprints, JobRuns, RunArtifacts, QaResults, FeedbackEvents, Events,
    Clarifications, SpecRuns, SpeckitSpecs, SpecSprintLinks, AgentOverrides, AgentAssignments,
    AgentAssignmentSettings, PolicyPacks }

  /** One project, protocol run and step run, and a job run that names nothing but the step. */
  function StrayJob(): Db {
    map t | t in TABLES ::
      match t
      case Projects => map[Id(1) := Row(map[], "project")]
      case ProtocolRuns => map[Id(10) := Row(map[ProjectId := Id(1)], "protocol run")]
      case StepRuns => map[Id(100) := Row(map[ProtocolRunId := Id(10)], "step run")]
      case JobRuns => map[Name("job") := Row(map[StepRunId := Id(100)], "job run")]
      case _ => map[]
  }

  lemma StrayJobComplete()
    ensures Complete(StrayJob())
  {
    forall t: Table
      ensures t in StrayJob()
    {
      match t
      case Projects | ProtocolRuns | StepRuns | Tasks | Sprints | JobRuns =>
      case RunArtifacts | QaResults | FeedbackEvents | Events | Clarifications | SpecRuns =>
      case SpeckitSpecs | SpecSprintLinks | AgentOverrides | AgentAssignments | AgentAssignmentSettings | PolicyPacks =>
    }
  }

  lemma StrayJobRows(t: Table, k: Key)
    ensures Complete(StrayJob())
    ensures Exists(StrayJob(), t, k) <==>
      (t == Projects && k == Id(1)) || (t == ProtocolRuns && k == Id(10)) || (t == StepRuns && k == Id(100))
      || (t == JobRuns && k == Name("job"))
  {
    StrayJobComplete();
  }

  lemma StrayJobShaped()
    ensures Shaped(StrayJob())
  {
    var db := StrayJob();
    forall t, k, c | Exists(db, t, k)
      ensures ColumnShaped(t, db[t][k], c)
    {
      StrayJobRows(t, k);
    }
  }

  /** A job run that names only a step run outlives it. */
  lemma StrayJobDangles()
    ensures Complete(StrayJob()) && Shaped(StrayJob()) && Exists(StrayJob(), JobRuns, Name("job"))
    ensures Stray(StrayJob(), JobRuns, Name("job"), StepRunId, Id(1)) && !CleanDeletion(StrayJob(), Id(1))
  {
    StrayJobShaped();
    StrayJobRows(JobRuns, Name("job"));
    StrayJobRows(StepRuns, Id(100));
    StrayJobRows(ProtocolRuns, Id(10));
    assert OfProjectRun(StrayJob()[ProtocolRuns], StrayJob()[StepRuns][Id(100)], Id(1));
    assert !Claimed(StrayJob(), JobRuns, StrayJob()[JobRuns][Name("job")], Id(1));
    assert Stray(StrayJob(), JobRuns, Name("job"), StepRunId, Id(1));
    DeletionExact(StrayJob(), Id(1));
  }
}
