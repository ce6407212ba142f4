/**
 Deleting a project: the statements of delete_project over tables of rows, in their order,
 against one simultaneous purge computed before the first statement.
 */
module ProjectDeletion {
  import opened Common

  datatype Table =
    | Projects | ProtocolRuns | StepRuns | Tasks | Sprints | JobRuns | RunArtifacts | QaResults | FeedbackEvents | Events
    | Clarifications | SpecRuns | SpeckitSpecs | SpecSprintLinks | AgentOverrides | AgentAssignments
    | AgentAssignmentSettings | PolicyPacks

  /** Ids are integers, except the run_id of job_runs. */
  datatype Key = Id(n: int) | Name(s: string)

  /** The columns that refer to other rows. linked_task_id refers to tasks without a declared foreign key. */
  datatype Column = ProjectId | ProtocolRunId | StepRunId | SprintId | LinkedTaskId | LinkedSprintId | RunIdColumn

  function Target(c: Column): Table {
    match c
    case ProjectId => Projects
    case ProtocolRunId => ProtocolRuns
    case StepRunId => StepRuns
    case SprintId => Sprints
    case LinkedTaskId => Tasks
    case LinkedSprintId => Sprints
    case RunIdColumn => JobRuns
  }

  /** A row: its non-NULL references, and everything else it holds. */
  datatype Row = Row(refs: map<Column, Key>, data: string)

  type Rows = map<Key, Row>

  /** All tables at once. */
  type Db = map<Table, Rows>

  predicate Complete(db: Db) {
    forall t: Table :: t in db
  }

  predicate Has(row: Row, c: Column, k: Key) {
    c in row.refs && row.refs[c] == k
  }

  /** The row names a protocol run of the project. */
  predicate OfProjectRun(runs: Rows, row: Row, p: Key) {
    ProtocolRunId in row.refs && row.refs[ProtocolRunId] in runs && Has(runs[row.refs[ProtocolRunId]], ProjectId, p)
  }

  /** The row names the project, or one of its protocol runs. */
  predicate OfProject(runs: Rows, row: Row, p: Key) {
    Has(row, ProjectId, p) || OfProjectRun(runs, row, p)
  }

  /** The row names a job run that names the project or one of its protocol runs. */
  predicate OfProjectJob(runs: Rows, jobs: Rows, row: Row, p: Key) {
    RunIdColumn in row.refs && row.refs[RunIdColumn] in jobs && OfProject(runs, jobs[row.refs[RunIdColumn]], p)
  }

  /** Which rows disappear, judged on the tables as they are before the deletion. */
  predicate Doomed(db: Db, t: Table, k: Key, row: Row, p: Key)
    requires Complete(db)
  {
    match t
    case Projects => k == p
    case StepRuns => OfProjectRun(db[ProtocolRuns], row, p)
    case FeedbackEvents => OfProjectRun(db[ProtocolRuns], row, p)
    case JobRuns => OfProject(db[ProtocolRuns], row, p)
    case Events => OfProject(db[ProtocolRuns], row, p)
    case RunArtifacts => OfProjectJob(db[ProtocolRuns], db[JobRuns], row, p)
    case PolicyPacks => false
    case _ => Has(row, ProjectId, p)
  }

  /** All tables without their doomed rows, in one go. */
  function Purge(db: Db, p: Key): Db
    requires Complete(db)
  {
    map t | t in db :: Kept(db, t, p)
  }

  function Kept(db: Db, t: Table, p: Key): Rows
    requires Complete(db)
  {
    map k | k in db[t] && !Doomed(db, t, k, db[t][k], p) :: db[t][k]
  }

  function WithoutRows(rows: Rows, where: (Key, Row) -> bool): Rows {
    map k | k in rows && !where(k, rows[k]) :: rows[k]
  }

  function WithNull(rows: Rows, c: Column, where: Row -> bool): Rows {
    map k | k in rows :: if where(rows[k]) then rows[k].(refs := rows[k].refs - {c}) else rows[k]
  }

  function ByProject(p: Key): (Key, Row) -> bool {
    (k, row) => Has(row, ProjectId, p)
  }

  function OfRun(runs: Rows, p: Key): Row -> bool {
    row => OfProjectRun(runs, row, p)
  }

  function OfOwner(p: Key): Row -> bool {
    row => Has(row, ProjectId, p)
  }

  function ByKey(p: Key): (Key, Row) -> bool {
    (k, row) => k == p
  }

  function ByRun(runs: Rows, p: Key): (Key, Row) -> bool {
    (k, row) => OfProjectRun(runs, row, p)
  }

  function ByProjectOrRun(runs: Rows, p: Key): (Key, Row) -> bool {
    (k, row) => OfProject(runs, row, p)
  }

  function ByJob(runs: Rows, jobs: Rows, p: Key): (Key, Row) -> bool {
    (k, row) => OfProjectJob(runs, jobs, row, p)
  }

  /** The tables whose rows go by their own project_id alone. */
  predicate OwnedByColumn(t: Table) {
    !(t.Projects? || t.StepRuns? || t.FeedbackEvents? || t.JobRuns? || t.Events? || t.RunArtifacts? || t.PolicyPacks?)
  }

  /** Step runs and tasks with the links between them cut. */
  function Unlinked(start: Db, t: Table, p: Key): Rows
    requires Complete(start)
  {
    if t.StepRuns? then WithNull(start[t], LinkedTaskId, OfRun(start[ProtocolRuns], p))
    else if t.Tasks? then WithNull(start[t], StepRunId, OfOwner(p))
    else start[t]
  }

  /** The place of a table in the order of the deletes. */
  function Rank(t: Table): nat {
    match t
    case RunArtifacts => 0
    case JobRuns => 1
    case QaResults => 2
    case AgentOverrides => 3
    case AgentAssignments => 4
    case AgentAssignmentSettings => 5
    case FeedbackEvents => 6
    case Events => 7
    case Clarifications => 8
    case SpecRuns => 9
    case SpeckitSpecs => 10
    case SpecSprintLinks => 11
    case Tasks => 12
    case Sprints => 13
    case StepRuns => 14
    case ProtocolRuns => 15
    case Projects => 16
    case PolicyPacks => 17
  }

  ghost predicate AtStage(start: Db, now: Db, t: Table, stage: nat, p: Key)
    requires Complete(start) && Complete(now)
  {
    now[t] == if Rank(t) < stage then Kept(start, t, p) else Unlinked(start, t, p)
  }

  /** Part of the way: the tables up to a rank have lost exactly their doomed rows, the others none. */
  ghost predicate Progress(start: Db, now: Db, stage: nat, p: Key)
    requires Complete(start)
  {
    Complete(now) && forall t: Table :: AtStage(start, now, t, stage, p)
  }

  lemma RankInjective(t: Table, u: Table)
    requires Rank(t) == Rank(u)
    ensures t == u
  {
  }

  lemma Advance(start: Db, now: Db, next: Db, t: Table, p: Key)
    requires Complete(start) && Progress(start, now, Rank(t), p)
    requires next == now[t := Kept(start, t, p)]
    ensures Progress(start, next, Rank(t) + 1, p)
  {
    forall u: Table | u in now
      ensures AtStage(start, next, u, Rank(t) + 1, p)
    {
      assert AtStage(start, now, u, Rank(t), p);
      if Rank(u) == Rank(t) {
        RankInjective(t, u);
      }
    }
  }

  /** What the delete of one table leaves is what the purge leaves. */
  lemma KeptByProject(start: Db, t: Table, p: Key)
    requires Complete(start) && OwnedByColumn(t)
    ensures WithoutRows(Unlinked(start, t, p), ByProject(p)) == Kept(start, t, p)
  {
  }

  lemma KeptByRun(start: Db, t: Table, p: Key)
    requires Complete(start) && (t.StepRuns? || t.FeedbackEvents?)
    ensures WithoutRows(Unlinked(start, t, p), ByRun(start[ProtocolRuns], p)) == Kept(start, t, p)
  {
  }

  lemma KeptProjects(start: Db, p: Key)
    requires Complete(start)
    ensures WithoutRows(start[Projects], ByKey(p)) == Kept(start, Projects, p)
  {
  }

  lemma KeptEvents(start: Db, p: Key)
    requires Complete(start)
    ensures WithoutRows(WithoutRows(start[Events], ByRun(start[ProtocolRuns], p)), ByProject(p)) == Kept(start, Events, p)
  {
  }

  lemma KeptJobs(start: Db, p: Key)
    requires Complete(start)
    ensures WithoutRows(start[RunArtifacts], ByJob(start[ProtocolRuns], start[JobRuns], p)) == Kept(start, RunArtifacts, p)
    ensures WithoutRows(start[JobRuns], ByProjectOrRun(start[ProtocolRuns], p)) == Kept(start, JobRuns, p)
  {
  }

  class Database {
    var db: Db

    constructor (db: Db)
      ensures this.db == db
    {
      this.db := db;
    }

    /** An update that clears one column in the rows a condition selects. */
    method SetNull(t: Table, c: Column, where: Row -> bool)
      requires t in db
      modifies this
      ensures db == old(db)[t := WithNull(old(db)[t], c, where)]
    {
      db := db[t := WithNull(db[t], c, where)];
    }

    /** A delete of the rows a condition selects; a subquery in the condition reads the tables as they are at this statement. */
    method Delete(t: Table, where: (Key, Row) -> bool)
      requires t in db
      modifies this
      ensures db == old(db)[t := WithoutRows(old(db)[t], where)]
    {
      db := db[t := WithoutRows(db[t], where)];
    }

    method DeleteByProject(t: Table, p: Key, ghost start: Db)
      requires Complete(start) && Progress(start, db, Rank(t), p) && OwnedByColumn(t)
      modifies this
      ensures Progress(start, db, Rank(t) + 1, p)
    {
      assert AtStage(start, db, t, Rank(t), p);
      KeptByProject(start, t, p);
      Delete(t, ByProject(p));
      Advance(start, old(db), db, t, p);
    }

    method DeleteByRun(t: Table, p: Key, ghost start: Db)
      requires Complete(start) && Progress(start, db, Rank(t), p) && (t.StepRuns? || t.FeedbackEvents?)
      modifies this
      ensures Progress(start, db, Rank(t) + 1, p)
    {
      assert AtStage(start, db, t, Rank(t), p) && AtStage(start, db, ProtocolRuns, Rank(t), p);
      KeptByRun(start, t, p);
      Delete(t, ByRun(db[ProtocolRuns], p));
      Advance(start, old(db), db, t, p);
    }

    method DeleteEvents(p: Key, ghost start: Db)
      requires Complete(start) && Progress(start, db, Rank(Events), p)
      modifies this
      ensures Progress(start, db, Rank(Events) + 1, p)
    {
      assert AtStage(start, db, Events, Rank(Events), p) && AtStage(start, db, ProtocolRuns, Rank(Events), p);
      KeptEvents(start, p);
      Delete(Events, ByRun(db[ProtocolRuns], p));
      Delete(Events, ByProject(p));
      Advance(start, old(db), db, Events, p);
    }

    method DeleteJobs(p: Key, ghost start: Db)
      requires Complete(start) && Progress(start, db, Rank(RunArtifacts), p)
      modifies this
      ensures Progress(start, db, Rank(JobRuns) + 1, p)
    {
      assert AtStage(start, db, ProtocolRuns, 0, p) && AtStage(start, db, RunArtifacts, 0, p) && AtStage(start, db, JobRuns, 0, p);
      KeptJobs(start, p);
      Delete(RunArtifacts, ByJob(db[ProtocolRuns], db[JobRuns], p));
      ghost var between := db;
      Advance(start, old(db), between, RunArtifacts, p);
      Delete(JobRuns, ByProjectOrRun(db[ProtocolRuns], p));
      Advance(start, between, db, JobRuns, p);
    }

    method Unlink(p: Key)
      requires Complete(db)
      modifies this
      ensures Progress(old(db), db, 0, p)
    {
      var runs := db[ProtocolRuns];
      SetNull(StepRuns, LinkedTaskId, OfRun(runs, p));
      SetNull(Tasks, StepRunId, OfOwner(p));
    }

    method DeleteProjectRow(p: Key, ghost start: Db)
      requires Complete(start) && Progress(start, db, Rank(Projects), p)
      modifies this
      ensures Progress(start, db, Rank(Projects) + 1, p)
    {
      assert AtStage(start, db, Projects, Rank(Projects), p);
      KeptProjects(start, p);
      Delete(Projects, ByKey(p));
      Advance(start, old(db), db, Projects, p);
    }

    method DeleteRunRecords(p: Key, ghost start: Db)
      requires Complete(start) && Progress(start, db, Rank(RunArtifacts), p)
      modifies this
      ensures Progress(start, db, Rank(AgentOverrides), p)
    {
      DeleteJobs(p, start);
      DeleteByProject(QaResults, p, start);
    }

    method DeleteHistory(p: Key, ghost start: Db)
      requires Complete(start) && Progress(start, db, Rank(FeedbackEvents), p)
      modifies this
      ensures Progress(start, db, Rank(Clarifications), p)
    {
      DeleteByRun(FeedbackEvents, p, start);
      DeleteEvents(p, start);
    }

    method DeleteAgentRecords(p: Key, ghost start: Db)
      requires Complete(start) && Progress(start, db, Rank(AgentOverrides), p)
      modifies this
      ensures Progress(start, db, Rank(FeedbackEvents), p)
    {
      DeleteByProject(AgentOverrides, p, start);
      DeleteByProject(AgentAssignments, p, start);
      DeleteByProject(AgentAssignmentSettings, p, start);
    }

    method DeleteSpecs(p: Key, ghost start: Db)
      requires Complete(start) && Progress(start, db, Rank(Clarifications), p)
      modifies this
      ensures Progress(start, db, Rank(Tasks), p)
    {
      DeleteByProject(Clarifications, p, start);
      DeleteByProject(SpecRuns, p, start);
      DeleteByProject(SpeckitSpecs, p, start);
      DeleteByProject(SpecSprintLinks, p, start);
    }

    method DeleteWork(p: Key, ghost start: Db)
      requires Complete(start) && Progress(start, db, Rank(Tasks), p)
      modifies this
      ensures Progress(start, db, Rank(Projects), p)
    {
      DeleteByProject(Tasks, p, start);
      DeleteByProject(Sprints, p, start);
      DeleteByRun(StepRuns, p, start);
      DeleteByProject(ProtocolRuns, p, start);
    }

    /** The statements one after the other delete what the purge of the tables they started from deletes. */
    method DeleteProject(p: Key)
      requires Complete(db)
      modifies this
      ensures db == Purge(old(db), p)
    {
      ghost var start := db;
      Unlink(p);
      DeleteRunRecords(p, start);
      DeleteAgentRecords(p, start);
      DeleteHistory(p, start);
      DeleteSpecs(p, start);
      DeleteWork(p, start);
      DeleteProjectRow(p, start);
      AllDone(start, db, p);
    }
  }

  /** Once every table is done, the purge is. */
  lemma AllDone(start: Db, now: Db, p: Key)
    requires Complete(start) && Progress(start, now, Rank(PolicyPacks), p)
    ensures now == Purge(start, p)
  {
    forall t: Table | t in now
      ensures now[t] == Kept(start, t, p)
    {
      assert AtStage(start, now, t, Rank(PolicyPacks), p);
    }
  }

  // ----- table by table

  /** The row names some protocol run of the project that is there. */
  ghost predicate UnderRun(db: Db, row: Row, p: Key)
    requires Complete(db)
  {
    exists run :: run in db[ProtocolRuns] && (ProtocolRunId, run) in row.refs.Items && (ProjectId, p) in db[ProtocolRuns][run].refs.Items
  }

  ghost predicate UnderJob(db: Db, row: Row, p: Key)
    requires Complete(db)
  {
    exists j :: j in db[JobRuns] && (RunIdColumn, j) in row.refs.Items
      && ((ProjectId, p) in db[JobRuns][j].refs.Items || UnderRun(db, db[JobRuns][j], p))
  }

  /** Who goes, in each table: what names the project, a run of it, or a job of either; and the project. Nothing that stays changes. */
  lemma PurgeExact(db: Db, p: Key, t: Table, k: Key)
    requires Complete(db) && k in db[t]
    ensures var row, gone := db[t][k], k !in Purge(db, p)[t];
      match t
      case Projects => gone <==> k == p
      case PolicyPacks => !gone
      case StepRuns | FeedbackEvents => gone <==> UnderRun(db, row, p)
      case JobRuns | Events => gone <==> (ProjectId, p) in row.refs.Items || UnderRun(db, row, p)
      case RunArtifacts => gone <==> UnderJob(db, row, p)
      case ProtocolRuns | Tasks | Sprints | QaResults | Clarifications | SpecRuns | SpeckitSpecs | SpecSprintLinks | AgentOverrides
        | AgentAssignments | AgentAssignmentSettings => gone <==> (ProjectId, p) in row.refs.Items
    ensures forall key :: key in Purge(db, p)[t] ==> key in db[t] && Purge(db, p)[t][key] == db[t][key]
  {
    UnderRunExact(db, db[t][k], p);
    UnderJobExact(db, db[t][k], p);
  }

  lemma UnderRunExact(db: Db, row: Row, p: Key)
    requires Complete(db)
    ensures UnderRun(db, row, p) <==> OfProjectRun(db[ProtocolRuns], row, p)
  {
    if OfProjectRun(db[ProtocolRuns], row, p) {
      assert (ProtocolRunId, row.refs[ProtocolRunId]) in row.refs.Items;
    }
  }

  lemma UnderJobExact(db: Db, row: Row, p: Key)
    requires Complete(db)
    ensures UnderJob(db, row, p) <==> OfProjectJob(db[ProtocolRuns], db[JobRuns], row, p)
  {
    if RunIdColumn in row.refs && row.refs[RunIdColumn] in db[JobRuns] {
      UnderRunExact(db, db[JobRuns][row.refs[RunIdColumn]], p);
      assert (RunIdColumn, row.refs[RunIdColumn]) in row.refs.Items;
    }
  }
}
