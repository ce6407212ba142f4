/** Status columns updated by compare-and-set: update_step_status and update_protocol_status with expected_status. */
module StatusUpdates {
  import opened Common

  datatype Cell = Text(s: string) | Number(n: int)

  /** The columns an update may fill in beside the status. */
  datatype Column = Summary | Model | EngineId | RuntimeState | Retries

  /** A step or protocol run; columns holds its non-NULL columns. */
  datatype Row = Row(status: string, columns: map<Column, Cell>)

  /** One call; supplied holds the arguments that are not None. */
  datatype Write = Write(id: int, status: string, supplied: map<Column, Cell>, expected: Option<string>)

  datatype UpdateError = Conflict(id: int) | NotFound(id: int)

  type Rows = map<int, Row>

  /** None and the empty string both mean: no expectation. */
  predicate Guarded(w: Write) {
    w.expected.Some? && w.expected.value != ""
  }

  /** The update finds its row. */
  predicate Succeeds(rows: Rows, w: Write) {
    w.id in rows && (Guarded(w) ==> rows[w.id].status == w.expected.value)
  }

  /** The new status, and in every column the supplied value or else the old one. */
  function Written(row: Row, w: Write): Row {
    Row(w.status, row.columns + w.supplied)
  }

  function Applied(rows: Rows, w: Write): Rows {
    if Succeeds(rows, w) then rows[w.id := Written(rows[w.id], w)] else rows
  }

  class Storage {
    var steps: Rows
    var protocols: Rows

    constructor (steps: Rows, protocols: Rows)
      ensures this.steps == steps && this.protocols == protocols
    {
      this.steps, this.protocols := steps, protocols;
    }

    method UpdateStepStatus(w: Write) returns (r: Result<Row, UpdateError>)
      modifies this`steps
      ensures steps == Applied(old(steps), w)
      ensures r.Ok? <==> Succeeds(old(steps), w)
      ensures r.Ok? ==> r.value == Written(old(steps)[w.id], w)
      ensures r.Err? ==> r.error == if Guarded(w) then Conflict(w.id) else NotFound(w.id)
      // it succeeds if and only if the row is there, and in the expected status if one is named
      ensures r.Ok? <==>
        w.id in old(steps) && (w.expected == None || w.expected == Some("") || w.expected == Some(old(steps)[w.id].status))
      // then the row has the new status, each column the supplied value or the old one, and no other row changes
      ensures steps.Keys == old(steps).Keys && forall i :: i in steps && (i != w.id || r.Err?) ==> steps[i] == old(steps)[i]
      ensures r.Ok? ==> steps[w.id].status == w.status
      ensures r.Ok? ==> forall c ::
        CellOf(steps, w.id, c) == if c in w.supplied then Some(w.supplied[c]) else CellOf(old(steps), w.id, c)
    {
      if w.expected.Some? && w.expected.value != "" {
        var matched := w.id in steps && steps[w.id].status == w.expected.value;
        if matched {
          steps := steps[w.id := Row(w.status, steps[w.id].columns + w.supplied)];
        } else {
          return Err(Conflict(w.id));
        }
      } else if w.id in steps {
        steps := steps[w.id := Row(w.status, steps[w.id].columns + w.supplied)];
      }
      if w.id !in steps {
        return Err(NotFound(w.id));
      }
      return Ok(steps[w.id]);
    }

    method UpdateProtocolStatus(id: int, status: string, expected: Option<string>) returns (r: Result<Row, UpdateError>)
      modifies this`protocols
      ensures var w := Write(id, status, map[], expected);
        && protocols == Applied(old(protocols), w)
        && (r.Ok? <==> Succeeds(old(protocols), w))
        && (r.Ok? ==> r.value == Written(old(protocols)[id], w))
        && (r.Err? ==> r.error == if Guarded(w) then Conflict(id) else NotFound(id))
      ensures r.Ok? <==>
        id in old(protocols) && (expected == None || expected == Some("") || expected == Some(old(protocols)[id].status))
      ensures protocols.Keys == old(protocols).Keys
      ensures forall i :: i in protocols && (i != id || r.Err?) ==> protocols[i] == old(protocols)[i]
      ensures r.Ok? ==> protocols[id].status == status && protocols[id].columns == old(protocols)[id].columns
    {
      assert forall row: Row :: Written(row, Write(id, status, map[], expected)).columns == row.columns;
      if expected.Some? && expected.value != "" {
        if id in protocols && protocols[id].status == expected.value {
          protocols := protocols[id := protocols[id].(status := status)];
        } else {
          return Err(Conflict(id));
        }
      } else if id in protocols {
        protocols := protocols[id := protocols[id].(status := status)];
      }
      if id !in protocols {
        return Err(NotFound(id));
      }
      return Ok(protocols[id]);
    }
  }

  // ----- whole runs, in the order the database serialises the writes

  function Run(rows: Rows, ws: seq<Write>): Rows
    decreases |ws|
  {
    if ws == [] then rows else Run(Applied(rows, ws[0]), ws[1..])
  }

  /** The writes of a run that found their row. */
  function Successes(rows: Rows, ws: seq<Write>): seq<Write>
    decreases |ws|
  {
    if ws == [] then []
    else (if Succeeds(rows, ws[0]) then [ws[0]] else []) + Successes(Applied(rows, ws[0]), ws[1..])
  }

  /** How many of the writes move row id into status s. */
  function Entries(ws: seq<Write>, id: int, s: string): nat {
    if ws == [] then 0 else (if ws[0].id == id && ws[0].status == s then 1 else 0) + Entries(ws[1..], id, s)
  }

  /** How many of the writes take row id out of status s knowingly: they are guarded and expect it. */
  function Exits(ws: seq<Write>, id: int, s: string): nat {
    if ws == [] then 0 else (if Claims(ws[0], id, s) then 1 else 0) + Exits(ws[1..], id, s)
  }

  predicate Claims(w: Write, id: int, s: string) {
    Guarded(w) && w.id == id && w.expected.value == s
  }

  /** How many unguarded writes of the run hit row id while it is in status s. */
  function Silent(rows: Rows, ws: seq<Write>, id: int, s: string): nat
    decreases |ws|
  {
    if ws == [] then 0
    else
      (if !Guarded(ws[0]) && ws[0].id == id && InStatus(rows, id, s) == 1 then 1 else 0)
      + Silent(Applied(rows, ws[0]), ws[1..], id, s)
  }

  function InStatus(rows: Rows, id: int, s: string): nat {
    if id in rows && rows[id].status == s then 1 else 0
  }

  predicate AllGuarded(ws: seq<Write>) {
    forall w :: w in ws ==> Guarded(w)
  }

  lemma SuccessesUnfold(rows: Rows, ws: seq<Write>, id: int, s: string)
    requires ws != []
    ensures var w, rest := ws[0], Successes(Applied(rows, ws[0]), ws[1..]);
      if Succeeds(rows, w) then
        && Entries(Successes(rows, ws), id, s) == (if w.id == id && w.status == s then 1 else 0) + Entries(rest, id, s)
        && Exits(Successes(rows, ws), id, s) == (if Claims(w, id, s) then 1 else 0) + Exits(rest, id, s)
      else Successes(rows, ws) == rest
  {
    var w, rest := ws[0], Successes(Applied(rows, ws[0]), ws[1..]);
    if Succeeds(rows, w) {
      assert Successes(rows, ws) == [w] + rest && ([w] + rest)[1..] == rest;
    } else {
      assert Successes(rows, ws) == [] + rest == rest;
    }
  }

  /** Over every run, guarded or not: what enters a status is still in it, was claimed out of it, or was overwritten silently. */
  lemma {:induction false} StatusLedger(rows: Rows, ws: seq<Write>, id: int, s: string)
    ensures InStatus(rows, id, s) + Entries(Successes(rows, ws), id, s)
         == InStatus(Run(rows, ws), id, s) + Exits(Successes(rows, ws), id, s) + Silent(rows, ws, id, s)
    decreases |ws|
  {
    if ws != [] {
      SuccessesUnfold(rows, ws, id, s);
      StatusLedger(Applied(rows, ws[0]), ws[1..], id, s);
    }
  }

  lemma {:induction false} GuardedIsNotSilent(rows: Rows, ws: seq<Write>, id: int, s: string)
    requires AllGuarded(ws)
    ensures Silent(rows, ws, id, s) == 0
    decreases |ws|
  {
    if ws != [] {
      assert ws[0] in ws && forall x :: x in ws[1..] ==> x in ws;
      GuardedIsNotSilent(Applied(rows, ws[0]), ws[1..], id, s);
    }
  }

  /**
   Entries into a status minus exits from it is the change in whether the row is in it, always 0 or 1 more than at the start,
   exactly when no unguarded write hit the row in that status; in particular when all writes are guarded.
   */
  lemma StatusBalance(rows: Rows, ws: seq<Write>, id: int, s: string)
    ensures InStatus(rows, id, s) + Entries(Successes(rows, ws), id, s)
         == InStatus(Run(rows, ws), id, s) + Exits(Successes(rows, ws), id, s)
       <==> Silent(rows, ws, id, s) == 0
    ensures AllGuarded(ws) ==> Silent(rows, ws, id, s) == 0
  {
    StatusLedger(rows, ws, id, s);
    if AllGuarded(ws) {
      GuardedIsNotSilent(rows, ws, id, s);
    }
  }

  /** A write that takes the row out of status s if it finds it there. */
  predicate Takes(w: Write, id: int, s: string) {
    w.id == id && (Guarded(w) ==> w.expected.value == s)
  }

  /**
   Racing writes: while nothing puts a row back into the status it is taken from, at most one takes it out, and exactly one
   does if the row was in that status and anyone tried. The one is a claim, unless an unguarded write came first.
   */
  lemma OneWinner(rows: Rows, ws: seq<Write>, id: int, s: string)
    requires Entries(Successes(rows, ws), id, s) == 0
    ensures var taken := Exits(Successes(rows, ws), id, s) + Silent(rows, ws, id, s);
      taken <= 1 && (taken == 1 <==> InStatus(rows, id, s) == 1 && exists w :: w in ws && Takes(w, id, s))
    ensures AllGuarded(ws) ==> Silent(rows, ws, id, s) == 0
  {
    StatusLedger(rows, ws, id, s);
    StatusBalance(rows, ws, id, s);
    if InStatus(rows, id, s) == 1 {
      FirstTakerWins(rows, ws, id, s);
    }
  }

  /** A row in status s stays there exactly until someone takes it out. */
  lemma {:induction false} FirstTakerWins(rows: Rows, ws: seq<Write>, id: int, s: string)
    requires InStatus(rows, id, s) == 1
    ensures Exits(Successes(rows, ws), id, s) + Silent(rows, ws, id, s) > 0 <==> exists w :: w in ws && Takes(w, id, s)
    decreases |ws|
  {
    if ws != [] {
      assert ws[0] in ws && forall x :: x in ws <==> x == ws[0] || x in ws[1..];
      SuccessesUnfold(rows, ws, id, s);
      if !Takes(ws[0], id, s) {
        FirstTakerWins(Applied(rows, ws[0]), ws[1..], id, s);
      }
    }
  }

  /** The last value the writes supply for a column of row id. */
  function LastSupplied(ws: seq<Write>, id: int, c: Column): Option<Cell> {
    if ws == [] then None
    else
      var later := LastSupplied(ws[1..], id, c);
      if later.Some? then later else if ws[0].id == id && c in ws[0].supplied then Some(ws[0].supplied[c]) else None
  }

  function CellOf(rows: Rows, id: int, c: Column): Option<Cell> {
    if id in rows && c in rows[id].columns then Some(rows[id].columns[c]) else None
  }

  /** After any run a column holds the last value a successful write supplied, or what it held before; guards or not. */
  lemma {:induction false} ColumnsKeepLastValue(rows: Rows, ws: seq<Write>, id: int, c: Column)
    ensures var last := LastSupplied(Successes(rows, ws), id, c);
      CellOf(Run(rows, ws), id, c) == if last.Some? then last else CellOf(rows, id, c)
    decreases |ws|
  {
    if ws != [] {
      var w, next := ws[0], Applied(rows, ws[0]);
      ColumnsKeepLastValue(next, ws[1..], id, c);
      var rest := Successes(next, ws[1..]);
      if Succeeds(rows, w) {
        assert Successes(rows, ws) == [w] + rest && ([w] + rest)[1..] == rest;
      } else {
        assert Successes(rows, ws) == [] + rest == rest;
      }
    }
  }

  /** One write without an expectation, hitting the row in the status it was claimed into, lets two callers win that status. */
  lemma UnguardedBreaks()
    ensures var rows: Rows, a, b := map[1 := Row("pending", map[])],
        Write(1, "running", map[], Some("pending")), Write(1, "pending", map[], None);
      InStatus(rows, 1, "running") == 0 && Silent(rows, [a, b, a], 1, "running") == 1
      && Entries(Successes(rows, [a, b, a]), 1, "running") == 2 && Exits(Successes(rows, [a, b, a]), 1, "running") == 0
  {
    var r0: Rows := map[1 := Row("pending", map[])];
    var a, b := Write(1, "running", map[], Some("pending")), Write(1, "pending", map[], None);
    var ws := [a, b, a];
    assert ws[1..] == [b, a] && [b, a][1..] == [a] && [a][1..] == [];
    var r1 := Applied(r0, a);
    var r2 := Applied(r1, b);
    SuccessesUnfold(r0, ws, 1, "running");
    SuccessesUnfold(r1, [b, a], 1, "running");
    SuccessesUnfold(r2, [a], 1, "running");
    assert Silent(r2, [a], 1, "running") == Silent(Applied(r2, a), [], 1, "running");
    assert Silent(r1, [b, a], 1, "running") == 1 + Silent(r2, [a], 1, "running");
    assert Silent(r0, ws, 1, "running") == Silent(r1, [b, a], 1, "running");
  }
}
