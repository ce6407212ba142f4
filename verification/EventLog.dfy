/** The events table: normalised storage, the query for what follows an id, and the reader of the event stream. */
module EventLog {
  import opened Common
  import opened Strings
  import opened EventNames
  import opened EventNameLaws
  import opened Paging

  datatype Event = Event(id: int, protocolRunId: Option<int>, projectId: Option<int>, eventType: string, message: string)

  /** What a query asks for, and the protocol_runs table it joins with (run id to project id). */
  datatype Scope = Scope(
    protocolRunId: Option<int>, projectId: Option<int>, eventTypes: seq<string>, runs: map<int, int>)

  function ProjectOfRun(runs: map<int, int>, run: Option<int>): Option<int> {
    if run.Some? && run.value in runs then Some(runs[run.value]) else None
  }

  /** The event's own project, or else the one of its protocol run. */
  function EffectiveProject(e: Event, runs: map<int, int>): Option<int> {
    if e.projectId.Some? then e.projectId else ProjectOfRun(runs, e.protocolRunId)
  }

  function AllVariants(requested: seq<string>): set<string> {
    if requested == [] then {} else EventTypeVariants(requested[0]) + AllVariants(requested[1..])
  }

  /** The IN clause is left out when there is nothing to put in it. */
  predicate TypeSelected(requested: seq<string>, stored: string) {
    AllVariants(requested) == {} || stored in AllVariants(requested)
  }

  predicate Selected(e: Event, s: Scope) {
    && (s.protocolRunId.Some? ==> e.protocolRunId == s.protocolRunId)
    && (s.projectId.Some? ==> EffectiveProject(e, s.runs) == s.projectId)
    && TypeSelected(s.eventTypes, e.eventType)
  }

  function Selector(s: Scope): Event -> bool {
    (e: Event) => Selected(e, s)
  }

  /** Category names are normalised like types, empty ones dropped; with none left, every category is kept. */
  function Keeper(categories: seq<string>): Event -> bool {
    var cats := set c | c in categories && c != "" :: NormalizeEventType(c);
    (e: Event) => cats == {} || InferEventCategory(e.eventType) in cats
  }

  /** The nearest limit that is allowed. */
  function Clamp(limit: int): (r: nat)
    ensures 1 <= r <= 500 && (r < limit ==> r == 500) && (limit < r ==> r == 1)
  {
    if limit < 1 then 1 else if limit > 500 then 500 else limit
  }

  /** The selected rows after id since, in table order. */
  function Matching(rows: seq<Event>, since: int, selects: Event -> bool): seq<Event> {
    if rows == [] then []
    else (if rows[0].id > since && selects(rows[0]) then [rows[0]] else []) + Matching(rows[1..], since, selects)
  }

  /** One answer of list_events_since_id: the category filter runs after LIMIT. */
  function Page(rows: seq<Event>, since: int, limit: int, selects: Event -> bool, keep: Event -> bool): seq<Event> {
    Filter(Take(Matching(rows, since, selects), Clamp(limit)), keep)
  }

  ghost predicate Increasing(rows: seq<Event>) {
    forall i, j :: 0 <= i < j < |rows| ==> rows[i].id < rows[j].id
  }

  // ----- what is asked for, condition by condition

  ghost predicate OfType(requested: seq<string>, stored: string) {
    (exists t :: t in requested && t != "") ==> exists t :: t in requested && stored in EventTypeVariants(t)
  }

  ghost predicate OfCategory(categories: seq<string>, stored: string) {
    (exists c :: c in categories && c != "") ==>
      exists c :: c in categories && c != "" && InferEventCategory(stored) == NormalizeEventType(c)
  }

  /** The project is the event's own, or that of its run if it names none. */
  predicate OfProject(e: Event, project: int, runs: map<int, int>) {
    if e.projectId == None then e.protocolRunId.Some? && e.protocolRunId.value in runs && runs[e.protocolRunId.value] == project
    else e.projectId.value == project
  }

  predicate InScope(e: Event, s: Scope) {
    && (s.protocolRunId == None || s.protocolRunId == e.protocolRunId)
    && (s.projectId == None || OfProject(e, s.projectId.value, s.runs))
  }

  lemma {:induction false} AllVariantsMember(requested: seq<string>, v: string)
    ensures v in AllVariants(requested) <==> exists r :: r in requested && v in EventTypeVariants(r)
    decreases |requested|
  {
    if requested != [] {
      AllVariantsMember(requested[1..], v);
      assert forall r :: r in requested <==> r == requested[0] || r in requested[1..];
    }
  }

  lemma SomeVariant(requested: seq<string>)
    ensures AllVariants(requested) == {} <==> forall r :: r in requested ==> r == ""
  {
    forall r | r in requested && r != ""
      ensures r in AllVariants(requested)
    {
      AllVariantsMember(requested, r);
    }
    forall v | v in AllVariants(requested)
      ensures exists r :: r in requested && r != ""
    {
      AllVariantsMember(requested, v);
    }
  }

  lemma TypeSelectedExact(requested: seq<string>, stored: string)
    ensures TypeSelected(requested, stored) <==> OfType(requested, stored)
  {
    SomeVariant(requested);
    AllVariantsMember(requested, stored);
  }

  /** The query selects exactly the events in scope and of a requested type. */
  lemma SelectedExact(e: Event, s: Scope)
    ensures Selector(s)(e) <==> InScope(e, s) && OfType(s.eventTypes, e.eventType)
  {
    TypeSelectedExact(s.eventTypes, e.eventType);
  }

  lemma KeeperExact(e: Event, categories: seq<string>)
    ensures Keeper(categories)(e) <==> OfCategory(categories, e.eventType)
  {
    var cats := set c | c in categories && c != "" :: NormalizeEventType(c);
    if c :| c in categories && c != "" {
      assert NormalizeEventType(c) in cats;
    }
  }

  lemma MatchingAsked(rows: seq<Event>, since: int, s: Scope)
    ensures forall e :: e in Matching(rows, since, Selector(s)) <==>
      e in rows && e.id > since && InScope(e, s) && OfType(s.eventTypes, e.eventType)
  {
    MatchingMembers(rows, since, Selector(s));
    forall e: Event
      ensures Selector(s)(e) <==> InScope(e, s) && OfType(s.eventTypes, e.eventType)
    {
      SelectedExact(e, s);
    }
  }

  lemma KeptAsked(xs: seq<Event>, categories: seq<string>)
    ensures forall e :: e in Filter(xs, Keeper(categories)) <==> e in xs && OfCategory(categories, e.eventType)
  {
    FilterMembers(xs, Keeper(categories));
    forall e: Event
      ensures Keeper(categories)(e) <==> OfCategory(categories, e.eventType)
    {
      KeeperExact(e, categories);
    }
  }

  // ----- laws of the query

  lemma {:induction false} MatchingMembers(rows: seq<Event>, since: int, selects: Event -> bool)
    ensures forall e :: e in Matching(rows, since, selects) <==> e in rows && e.id > since && selects(e)
    decreases |rows|
  {
    if rows != [] {
      MatchingMembers(rows[1..], since, selects);
      assert forall e :: e in rows <==> e == rows[0] || e in rows[1..];
    }
  }

  lemma {:induction false} MatchingIncreasing(rows: seq<Event>, since: int, selects: Event -> bool)
    requires Increasing(rows)
    ensures Increasing(Matching(rows, since, selects))
    decreases |rows|
  {
    if rows != [] {
      var tail := Matching(rows[1..], since, selects);
      MatchingIncreasing(rows[1..], since, selects);
      MatchingMembers(rows[1..], since, selects);
      forall j | 0 <= j < |tail|
        ensures rows[0].id < tail[j].id
      {
        assert tail[j] in tail && tail[j] in rows[1..];
      }
    }
  }

  lemma {:induction false} NestedCursor(rows: seq<Event>, a: int, b: int, selects: Event -> bool)
    requires a <= b
    ensures Matching(rows, b, selects) == Matching(Matching(rows, a, selects), b, selects)
    decreases |rows|
  {
    if rows != [] {
      NestedCursor(rows[1..], a, b, selects);
      var head, rest := rows[0], Matching(rows[1..], a, selects);
      if head.id > a && selects(head) {
        assert Matching(rows, a, selects) == [head] + rest && ([head] + rest)[1..] == rest;
      } else {
        assert Matching(rows, a, selects) == [] + rest == rest;
      }
    }
  }

  lemma {:induction false} AfterIndex(all: seq<Event>, selects: Event -> bool, k: nat)
    requires Increasing(all) && k < |all| && forall i :: 0 <= i < |all| ==> selects(all[i])
    ensures Matching(all, all[k].id, selects) == all[k + 1..]
    decreases |all|
  {
    if k > 0 {
      AfterIndex(all[1..], selects, k - 1);
    } else {
      EverythingLater(all[1..], all[0].id, selects);
    }
  }

  lemma {:induction false} EverythingLater(rows: seq<Event>, since: int, selects: Event -> bool)
    requires forall i :: 0 <= i < |rows| ==> rows[i].id > since && selects(rows[i])
    ensures Matching(rows, since, selects) == rows
    decreases |rows|
  {
    if rows != [] {
      EverythingLater(rows[1..], since, selects);
    }
  }

  /** Moving the cursor to a row of the answer leaves exactly the rows after it. */
  lemma ResumeAfter(rows: seq<Event>, since: int, selects: Event -> bool, k: nat)
    requires Increasing(rows) && k < |Matching(rows, since, selects)|
    ensures Matching(rows, Matching(rows, since, selects)[k].id, selects) == Matching(rows, since, selects)[k + 1..]
  {
    var all := Matching(rows, since, selects);
    MatchingIncreasing(rows, since, selects);
    MatchingMembers(rows, since, selects);
    forall i | 0 <= i < |all|
      ensures all[i].id > since && selects(all[i])
    {
      assert all[i] in all;
    }
    NestedCursor(rows, since, all[k].id, selects);
    AfterIndex(all, selects, k);
  }

  lemma NextBatch(rows: seq<Event>, since: int, selects: Event -> bool, batch: seq<Event>)
    requires Increasing(rows) && batch != [] && batch <= Matching(rows, since, selects)
    ensures Increasing(batch) && batch[0].id > since
    ensures Matching(rows, batch[|batch| - 1].id, selects) == Matching(rows, since, selects)[|batch|..]
  {
    MatchingIncreasing(rows, since, selects);
    MatchingMembers(rows, since, selects);
    assert batch[0] in Matching(rows, since, selects);
    ResumeAfter(rows, since, selects, |batch| - 1);
  }

  lemma MatchingUnfold(rows: seq<Event>, i: nat, since: int, selects: Event -> bool)
    requires i < |rows|
    ensures Matching(rows[i..], since, selects) ==
      if rows[i].id > since && selects(rows[i]) then [rows[i]] + Matching(rows[i + 1..], since, selects)
      else Matching(rows[i + 1..], since, selects)
  {
    assert rows[i..][1..] == rows[i + 1..];
    assert [] + Matching(rows[i + 1..], since, selects) == Matching(rows[i + 1..], since, selects);
  }

  /** Without categories the pages are plain stretches of the selected rows. */
  lemma UnfilteredPage(rows: seq<Event>, since: int, limit: int, selects: Event -> bool)
    ensures Page(rows, since, limit, selects, Keeper([])) == Take(Matching(rows, since, selects), Clamp(limit))
  {
    FilterTrue(Take(Matching(rows, since, selects), Clamp(limit)), Keeper([]));
  }

  // ----- the queries, for any selection

  method Scan(rows: seq<Event>, since: int, selects: Event -> bool, bound: nat) returns (fetched: seq<Event>)
    ensures fetched == Take(Matching(rows, since, selects), bound)
  {
    fetched := [];
    var i := 0;
    while i < |rows| && |fetched| < bound
      invariant 0 <= i <= |rows| && |fetched| <= bound
      invariant fetched + Matching(rows[i..], since, selects) == Matching(rows, since, selects)
    {
      MatchingUnfold(rows, i, since, selects);
      Regroup(fetched, rows[i], Matching(rows[i + 1..], since, selects));
      if rows[i].id > since && selects(rows[i]) {
        fetched := fetched + [rows[i]];
      }
      i := i + 1;
    }
    TakeAll(fetched, Matching(rows[i..], since, selects), bound);
  }

  lemma Regroup(a: seq<Event>, e: Event, b: seq<Event>)
    ensures a + ([e] + b) == (a + [e]) + b
  {
  }

  lemma TakeAll(fetched: seq<Event>, rest: seq<Event>, bound: nat)
    requires |fetched| <= bound && (rest == [] || |fetched| == bound)
    ensures Take(fetched + rest, bound) == fetched
  {
  }

  method KeepOnly(fetched: seq<Event>, keep: Event -> bool) returns (page: seq<Event>)
    ensures page == Filter(fetched, keep)
  {
    page := [];
    var i := 0;
    while i < |fetched|
      invariant 0 <= i <= |fetched|
      invariant page == Filter(fetched[..i], keep)
    {
      FilterSnoc(fetched, i, keep);
      if keep(fetched[i]) {
        page := page + [fetched[i]];
      }
      i := i + 1;
    }
    assert fetched[..i] == fetched;
  }

  /** Sends the kept rows of one batch and moves the cursor to the highest id in it. */
  method SendBatch(batch: seq<Event>, cursor: int, keep: Event -> bool) returns (sent: seq<Event>, last: int)
    requires batch != [] && Increasing(batch) && batch[0].id > cursor
    ensures sent == Filter(batch, keep) && last == batch[|batch| - 1].id
  {
    sent, last := [], cursor;
    var i := 0;
    while i < |batch|
      invariant 0 <= i <= |batch|
      invariant sent == Filter(batch[..i], keep)
      invariant last == if i == 0 then cursor else batch[i - 1].id
    {
      FilterSnoc(batch, i, keep);
      last := if batch[i].id > last then batch[i].id else last;
      if keep(batch[i]) {
        sent := sent + [batch[i]];
      }
      i := i + 1;
    }
    assert batch[..i] == batch;
  }

  // ----- the reader of the event stream, while events keep coming

  /** The table, how far the reader has got in it, and all it has sent on. */
  datatype Reading = Reading(rows: seq<Event>, cursor: int, sent: seq<Event>)

  datatype Happening = Appended(e: Event) | Polled

  /** Whose limit, selection and categories a reader was asked for. */
  datatype Reader = Reader(start: int, limit: int, selects: Event -> bool, keep: Event -> bool)

  /** The next page, asked for without categories. */
  function Batch(s: Reading, r: Reader): seq<Event> {
    Take(Matching(s.rows, s.cursor, r.selects), Clamp(r.limit))
  }

  function CursorAfter(cursor: int, batch: seq<Event>): int {
    if batch == [] then cursor else batch[|batch| - 1].id
  }

  /** A poll sends the rows of the wanted categories and moves the cursor over the whole page. */
  function Next(s: Reading, r: Reader, h: Happening): Reading {
    match h
    case Appended(e) => s.(rows := s.rows + [e])
    case Polled => s.(cursor := CursorAfter(s.cursor, Batch(s, r)), sent := s.sent + Filter(Batch(s, r), r.keep))
  }

  /** What the reader still has to send, and what it has to send in all. */
  function Pending(s: Reading, r: Reader): seq<Event> {
    Filter(Matching(s.rows, s.cursor, r.selects), r.keep)
  }

  function Owed(s: Reading, r: Reader): seq<Event> {
    Filter(Matching(s.rows, r.start, r.selects), r.keep)
  }

  /** Nothing was lost or sent twice, and the cursor has not moved past the table. */
  ghost predicate OnTrack(s: Reading, r: Reader) {
    && Increasing(s.rows)
    && (s.cursor == r.start || (r.start < s.cursor && exists i :: 0 <= i < |s.rows| && s.rows[i].id == s.cursor))
    && s.sent + Pending(s, r) == Owed(s, r)
  }

  lemma {:induction false} MatchingSnoc(rows: seq<Event>, e: Event, since: int, selects: Event -> bool)
    ensures Matching(rows + [e], since, selects)
         == Matching(rows, since, selects) + (if e.id > since && selects(e) then [e] else [])
    decreases |rows|
  {
    if rows == [] {
      assert [] + [e] == [e];
    } else {
      assert (rows + [e])[0] == rows[0] && (rows + [e])[1..] == rows[1..] + [e];
      MatchingSnoc(rows[1..], e, since, selects);
      var h := if rows[0].id > since && selects(rows[0]) then [rows[0]] else [];
      var m, t := Matching(rows[1..], since, selects), if e.id > since && selects(e) then [e] else [];
      assert h + (m + t) == (h + m) + t;
    }
  }

  lemma AppendKeepsTrack(s: Reading, r: Reader, e: Event)
    requires OnTrack(s, r) && forall i :: 0 <= i < |s.rows| ==> s.rows[i].id < e.id
    ensures OnTrack(Next(s, r, Appended(e)), r)
  {
    MatchingSnoc(s.rows, e, s.cursor, r.selects);
    MatchingSnoc(s.rows, e, r.start, r.selects);
    var t := if e.id > r.start && r.selects(e) then [e] else [];
    FilterConcat(Matching(s.rows, s.cursor, r.selects), t, r.keep);
    FilterConcat(Matching(s.rows, r.start, r.selects), t, r.keep);
    assert s.sent + (Pending(s, r) + Filter(t, r.keep)) == s.sent + Pending(s, r) + Filter(t, r.keep);
    var next := s.rows + [e];
    assert forall i :: 0 <= i < |s.rows| ==> next[i] == s.rows[i];
  }

  lemma MoveOver<T>(sent: seq<T>, h: seq<T>, rest: seq<T>, owed: seq<T>)
    requires sent + (h + rest) == owed
    ensures (sent + h) + rest == owed
  {
  }

  lemma PollMovesCursor(s: Reading, r: Reader)
    requires OnTrack(s, r) && Batch(s, r) != []
    ensures var last := Next(s, r, Polled).cursor;
      && r.start < last && exists i :: 0 <= i < |s.rows| && s.rows[i].id == last
    ensures Matching(s.rows, Next(s, r, Polled).cursor, r.selects) == Matching(s.rows, s.cursor, r.selects)[|Batch(s, r)|..]
  {
    var batch, all := Batch(s, r), Matching(s.rows, s.cursor, r.selects);
    NextBatch(s.rows, s.cursor, r.selects, batch);
    MatchingMembers(s.rows, s.cursor, r.selects);
    assert batch[|batch| - 1] == all[|batch| - 1] && all[|batch| - 1] in all;
  }

  lemma PollKeepsTrack(s: Reading, r: Reader)
    requires OnTrack(s, r)
    ensures OnTrack(Next(s, r, Polled), r)
    ensures Matching(s.rows, Next(s, r, Polled).cursor, r.selects) == Matching(s.rows, s.cursor, r.selects)[|Batch(s, r)|..]
    ensures Batch(s, r) == [] ==> s.sent == Owed(s, r)
  {
    var batch, all := Batch(s, r), Matching(s.rows, s.cursor, r.selects);
    if batch != [] {
      PollMovesCursor(s, r);
      FilterSplit(all, |batch|, r.keep);
      MoveOver(s.sent, Filter(batch, r.keep), Filter(all[|batch|..], r.keep), Owed(s, r));
    } else {
      assert s.sent + [] == s.sent;
    }
  }

  lemma StartsOnTrack(rows: seq<Event>, r: Reader)
    requires Increasing(rows)
    ensures OnTrack(Reading(rows, r.start, []), r)
  {
    var pending := Pending(Reading(rows, r.start, []), r);
    assert [] + pending == pending;
  }

  function Follow(s: Reading, r: Reader, hs: seq<Happening>): Reading
    decreases |hs|
  {
    if hs == [] then s else Follow(Next(s, r, hs[0]), r, hs[1..])
  }

  /** Events are appended with ids above all earlier ones. */
  ghost predicate RisingIds(s: Reading, r: Reader, hs: seq<Happening>)
    decreases |hs|
  {
    hs != [] ==>
      && (hs[0].Appended? ==> forall i :: 0 <= i < |s.rows| ==> s.rows[i].id < hs[0].e.id)
      && RisingIds(Next(s, r, hs[0]), r, hs[1..])
  }

  /**
   Under every interleaving of appends and polls, what was sent and what is still to come together are the selected events
   of the wanted categories after the start, in id order and once each, for every limit.
   */
  lemma {:induction false} StreamStaysOnTrack(s: Reading, r: Reader, hs: seq<Happening>)
    requires OnTrack(s, r) && RisingIds(s, r, hs)
    ensures OnTrack(Follow(s, r, hs), r)
    decreases |hs|
  {
    if hs != [] {
      match hs[0] {
        case Appended(e) => AppendKeepsTrack(s, r, e);
        case Polled => PollKeepsTrack(s, r);
      }
      StreamStaysOnTrack(Next(s, r, hs[0]), r, hs[1..]);
    }
  }

  /** A poll that brings nothing finds the reader complete, whatever happened before. */
  lemma EmptyPollMeansComplete(s: Reading, r: Reader, hs: seq<Happening>)
    requires OnTrack(s, r) && RisingIds(s, r, hs)
    ensures var t := Follow(s, r, hs); Batch(t, r) == [] ==> t.sent == Owed(t, r)
  {
    StreamStaysOnTrack(s, r, hs);
    PollKeepsTrack(Follow(s, r, hs), r);
  }

  // ----- the table as an object

  predicate WellStored(e: Event, next: int) {
    0 < e.id < next && NoUpper(e.eventType)
  }

  class Events {
    var rows: seq<Event>
    var next: int
    var runs: map<int, int>

    ghost predicate Valid()
      reads this
    {
      && Increasing(rows) && 0 < next
      && forall i :: 0 <= i < |rows| ==> WellStored(rows[i], next)
    }

    constructor (runs: map<int, int>)
      ensures Valid() && rows == [] && this.runs == runs
    {
      rows, next, this.runs := [], 1, runs;
    }

    method AppendEvent(protocolRunId: Option<int>, eventType: string, message: string, projectId: Option<int>)
      returns (r: Result<Event, string>)
      requires Valid()
      modifies this
      ensures Valid() && runs == old(runs)
      ensures r.Err? <==> protocolRunId.None? && projectId.None?
      ensures r.Err? ==> rows == old(rows)
      ensures r.Ok? ==> rows == old(rows) + [r.value] && r.value == Event(old(next), protocolRunId,
        if projectId.Some? then projectId else ProjectOfRun(runs, protocolRunId), NormalizeEventType(eventType), message)
      ensures r.Ok? ==> next == old(next) + 1 && r.value.id == old(next)
      // without a project of its own the event gets that of its run, if the run exists
      ensures r.Ok? && projectId.None? ==>
        r.value.projectId == if protocolRunId.value in runs then Some(runs[protocolRunId.value]) else None
    {
      var stored := NormalizeEventType(eventType);
      NormalizeNoUpper(eventType);
      assert NoUpper(stored);
      if protocolRunId.None? && projectId.None? {
        return Err("append_event requires protocol_run_id or project_id");
      }
      var project := projectId;
      if project.None? && protocolRunId.Some? {
        project := ProjectOfRun(runs, protocolRunId);
      }
      var e := Event(next, protocolRunId, project, stored, message);
      assert WellStored(e, next + 1);
      rows := rows + [e];
      next := next + 1;
      return Ok(e);
    }

    method ListEventsSinceId(sinceId: int, limit: int, s: Scope, categories: seq<string>) returns (page: seq<Event>)
      requires s.runs == runs
      ensures page == Page(rows, sinceId, limit, Selector(s), Keeper(categories))
      // what is returned follows the id and meets every condition asked for
      ensures forall e :: e in page ==> e in rows && e.id > sinceId
      ensures s.protocolRunId.Some? ==> forall e :: e in page ==> e.protocolRunId == s.protocolRunId
      ensures s.projectId.Some? ==> forall e :: e in page ==> OfProject(e, s.projectId.value, runs)
      ensures forall e :: e in page ==> OfType(s.eventTypes, e.eventType) && OfCategory(categories, e.eventType)
      // every row that does is among the selected ones, and returned unless the limit cuts those short
      ensures forall e :: e in rows && e.id > sinceId && InScope(e, s) && OfType(s.eventTypes, e.eventType) ==>
        e in Matching(rows, sinceId, Selector(s))
      ensures |Matching(rows, sinceId, Selector(s))| <= Clamp(limit) ==>
        forall e :: e in Matching(rows, sinceId, Selector(s)) && OfCategory(categories, e.eventType) ==> e in page
    {
      var fetched := Scan(rows, sinceId, Selector(s), Clamp(limit));
      page := KeepOnly(fetched, Keeper(categories));
      MatchingAsked(rows, sinceId, s);
      KeptAsked(fetched, categories);
    }

    /** One round of the reader: ask for a page without categories, send on what is wanted. */
    method Poll(cursor: int, limit: int, s: Scope, categories: seq<string>)
      returns (batch: seq<Event>, sent: seq<Event>, last: int)
      requires Valid() && s.runs == runs
      ensures batch == Take(Matching(rows, cursor, Selector(s)), Clamp(limit))
      ensures sent == Filter(batch, Keeper(categories)) && last == CursorAfter(cursor, batch)
      ensures forall e :: e in batch ==> e in rows && e.id > cursor && InScope(e, s) && OfType(s.eventTypes, e.eventType)
      ensures forall e :: e in sent <==> e in batch && OfCategory(categories, e.eventType)
    {
      batch := ListEventsSinceId(cursor, limit, s, []);
      KeptAsked(batch, categories);
      UnfilteredPage(rows, cursor, limit, Selector(s));
      sent, last := [], cursor;
      if batch != [] {
        NextBatch(rows, cursor, Selector(s), batch);
        sent, last := SendBatch(batch, cursor, Keeper(categories));
      }
    }

    /** Polling until nothing comes ends, and has then sent every selected event of the categories after the start. */
    method Stream(sinceId: int, limit: int, s: Scope, categories: seq<string>) returns (sent: seq<Event>)
      requires Valid() && s.runs == runs
      ensures sent == Filter(Matching(rows, if sinceId < 0 then 0 else sinceId, Selector(s)), Keeper(categories))
      ensures forall e :: e in sent <==>
        e in rows && e.id > sinceId && InScope(e, s) && OfType(s.eventTypes, e.eventType) && OfCategory(categories, e.eventType)
    {
      var last := if sinceId < 0 then 0 else sinceId;
      ghost var r := Reader(last, limit, Selector(s), Keeper(categories));
      StartsOnTrack(rows, r);
      sent := [];
      var batch, more, next := Poll(last, limit, s, categories);
      while batch != []
        invariant OnTrack(Reading(rows, last, sent), r)
        invariant batch == Batch(Reading(rows, last, sent), r) && more == Filter(batch, r.keep) && next == CursorAfter(last, batch)
        decreases |Matching(rows, last, r.selects)|
      {
        PollKeepsTrack(Reading(rows, last, sent), r);
        sent, last := sent + more, next;
        batch, more, next := Poll(last, limit, s, categories);
      }
      PollKeepsTrack(Reading(rows, last, sent), r);
      MatchingAsked(rows, r.start, s);
      KeptAsked(Matching(rows, r.start, Selector(s)), categories);
    }
  }

  // ----- paging

  /** A caller that pages with a category filter in the query sees Pull of the rows still to come. */
  lemma PagesFollowPull(rows: seq<Event>, since: int, limit: int, selects: Event -> bool, keep: Event -> bool)
    requires Increasing(rows)
    ensures var all, page := Matching(rows, since, selects), Page(rows, since, limit, selects, keep);
      Pull(all, Clamp(limit), keep) ==
        if page == [] then [] else page + Pull(Matching(rows, page[|page| - 1].id, selects), Clamp(limit), keep)
  {
    var all := Matching(rows, since, selects);
    var fetched := Take(all, Clamp(limit));
    FilterEmpty(fetched, keep);
    match LastKept(fetched, keep)
    case None =>
    case Some(k) =>
      PageSplits(all, Clamp(limit), keep, k);
      ResumeAfter(rows, since, selects, k);
  }

  /** Such a caller misses events of its category exactly when LIMIT or more other selected events stand in a row before one. */
  lemma CategoryPagingExact(rows: seq<Event>, since: int, limit: int, selects: Event -> bool, keep: Event -> bool)
    ensures var all := Matching(rows, since, selects);
      Pull(all, Clamp(limit), keep) == Filter(all, keep) <==> NoGap(all, Clamp(limit), keep)
  {
    PullExact(Matching(rows, since, selects), Clamp(limit), keep);
  }

  lemma FailedIsExecution()
    ensures InferEventCategory("protocol_failed") == "execution"
  {
    NoUpperIsNormal("protocol_failed");
  }

  lemma StartedIsPlanning()
    ensures InferEventCategory("protocol_started") == "planning"
  {
    NoUpperIsNormal("protocol_started");
  }

  lemma PlanningIsNormal()
    ensures NormalizeEventType("planning") == "planning"
  {
    NoUpperIsNormal("planning");
  }

  lemma KeeperOfOne(category: string, e: Event)
    requires category != ""
    ensures Keeper([category])(e) <==> InferEventCategory(e.eventType) == NormalizeEventType(category)
  {
    var cats := set c | c in [category] && c != "" :: NormalizeEventType(c);
    assert category in [category] && NormalizeEventType(category) in cats;
    assert forall c :: c in cats ==> c == NormalizeEventType(category);
  }

  lemma StopsBefore(a: Event, b: Event, selects: Event -> bool, keep: Event -> bool)
    requires 0 < a.id && 0 < b.id && selects(a) && selects(b) && !keep(a) && keep(b)
    ensures Page([a, b], 0, 1, selects, keep) == [] && Filter(Matching([a, b], 0, selects), keep) == [b]
  {
    EverythingLater([a, b], 0, selects);
    assert [a, b][..1] == [a] && [a, b][1..] == [b];
    FilterEmpty([a], keep);
    FilterSplit([a, b], 1, keep);
    FilterTrue([b], keep);
  }

  /** Pages of one event: asked for planning events, the first page is empty and the caller stops before the event it wants. */
  lemma CategoryPagingStops(failed: Event, started: Event, selects: Event -> bool)
    requires failed.eventType == "protocol_failed" && started.eventType == "protocol_started"
    requires 0 < failed.id < started.id && selects(failed) && selects(started)
    ensures Page([failed, started], 0, 1, selects, Keeper(["planning"])) == []
    ensures Filter(Matching([failed, started], 0, selects), Keeper(["planning"])) == [started]
  {
    var planning := "planning";
    FailedIsExecution();
    StartedIsPlanning();
    PlanningIsNormal();
    KeeperOfOne(planning, failed);
    KeeperOfOne(planning, started);
    StopsBefore(failed, started, selects, Keeper([planning]));
  }
}
