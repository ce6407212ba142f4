/** The bounded log buffer against the full history of what was logged, and a reader that polls it. */
module LogBuffer {
  import opened Common
  import opened Paging
  import opened Strings

  datatype Record = Record(level: string, source: string, message: string)

  datatype Entry = Entry(id: int, record: Record)

  /** No level, or the empty one, means any level; likewise for the source, which is matched in part. */
  function Logged(level: string, source: string): Entry -> bool {
    (e: Entry) => (level == "" || e.record.level == level) && (source == "" || Contains(e.record.source, source))
  }

  ghost predicate Fits(e: Entry, level: string, source: string) {
    (level != "" ==> e.record.level == level) && (source != "" ==> exists a, b :: e.record.source == a + source + b)
  }

  lemma LoggedExact(e: Entry, level: string, source: string)
    ensures Logged(level, source)(e) <==> Fits(e, level, source)
  {
    ContainsExact(e.record.source, source);
  }

  lemma AllLoggedExact(level: string, source: string)
    ensures forall e: Entry :: Logged(level, source)(e) <==> Fits(e, level, source)
  {
    forall e: Entry
      ensures Logged(level, source)(e) <==> Fits(e, level, source)
    {
      LoggedExact(e, level, source);
    }
  }

  function After(since: int, logged: Entry -> bool): Entry -> bool {
    (e: Entry) => e.id > since && logged(e)
  }

  /** Ids count the entries from 1. */
  ghost predicate Numbered(history: seq<Entry>) {
    forall i :: 0 <= i < |history| ==> history[i].id == i + 1
  }

  /** The last n entries. */
  function Last<T>(xs: seq<T>, n: nat): seq<T> {
    if |xs| <= n then xs else xs[|xs| - n..]
  }

  /** Python's slice from the negated limit on. */
  function TailSlice<T>(xs: seq<T>, limit: int): seq<T> {
    if limit > 0 then Last(xs, limit)
    else if -limit <= |xs| then xs[-limit..]
    else []
  }

  class RingBufferHandler {
    const capacity: nat
    var buffer: seq<Entry>
    var counter: nat
    ghost var history: seq<Entry>

    ghost predicate Valid()
      reads this
    {
      counter == |history| && Numbered(history) && buffer == Last(history, capacity)
    }

    constructor (capacity: nat)
      ensures Valid() && history == [] && this.capacity == capacity
    {
      this.capacity := capacity;
      buffer, counter, history := [], 0, [];
    }

    method Emit(r: Record)
      requires Valid()
      modifies this
      ensures Valid() && history == old(history) + [Entry(old(counter) + 1, r)]
    {
      LastOfLonger(history, Entry(counter + 1, r), capacity);
      counter := counter + 1;
      var entry := Entry(counter, r);
      buffer := buffer + [entry];
      if |buffer| > capacity {
        buffer := buffer[1..];
      }
      history := history + [entry];
    }

    /** The buffered entries that meet a condition, in order. */
    method Select(keep: Entry -> bool) returns (logs: seq<Entry>)
      ensures logs == Filter(buffer, keep)
    {
      logs := [];
      var i := 0;
      while i < |buffer|
        invariant 0 <= i <= |buffer|
        invariant logs == Filter(buffer[..i], keep)
      {
        FilterSnoc(buffer, i, keep);
        if keep(buffer[i]) {
          logs := logs + [buffer[i]];
        }
        i := i + 1;
      }
      assert buffer[..i] == buffer;
    }

    method GetLogsSince(sinceId: int, level: string, source: string) returns (logs: seq<Entry>)
      ensures logs == Filter(buffer, After(sinceId, Logged(level, source)))
      // the buffered entries after the id, of the level and source asked for, in order
      ensures forall e :: e in logs <==> e in buffer && e.id > sinceId && Fits(e, level, source)
      ensures Rising(buffer) ==> Rising(logs)
    {
      logs := Select(After(sinceId, Logged(level, source)));
      AllLoggedExact(level, source);
      FilterMembers(buffer, After(sinceId, Logged(level, source)));
      FilterKeepsOrder(buffer, After(sinceId, Logged(level, source)));
    }

    /** A limit of zero returns everything, a negative one leaves out that many of the oldest. */
    method GetRecent(limit: int, level: string, source: string) returns (logs: seq<Entry>)
      ensures logs == TailSlice(Filter(buffer, Logged(level, source)), limit)
      ensures var n := |Filter(buffer, Logged(level, source))|;
        |logs| == if limit > 0 then Min(limit, n) else Max(0, n + limit)
      // entries asked for, in order, and those left out are older
      ensures forall e :: e in logs ==> e in buffer && Fits(e, level, source)
      ensures Rising(buffer) ==> Rising(logs)
      ensures Rising(buffer) ==> forall e, x :: e in buffer && Fits(e, level, source) && e !in logs && x in logs ==> e.id < x.id
    {
      var filtered := Select(Logged(level, source));
      AllLoggedExact(level, source);
      FilterMembers(buffer, Logged(level, source));
      FilterKeepsOrder(buffer, Logged(level, source));
      logs := TailSlice(filtered, limit);
      TailIsNewest(filtered, limit);
    }

    method GetLastId() returns (id: nat)
      requires Valid()
      ensures id == |history|
    {
      return counter;
    }

    /** One round of the stream's reader: fetch, then move the cursor over what came. */
    method Poll(cursor: int, level: string, source: string) returns (logs: seq<Entry>, last: int)
      requires Valid()
      ensures logs == Fetch(history, capacity, cursor, Logged(level, source))
      ensures last == NextCursor(cursor, logs)
    {
      logs := GetLogsSince(cursor, level, source);
      FetchRises(history, capacity, cursor, Logged(level, source));
      last := cursor;
      var i := 0;
      while i < |logs|
        invariant 0 <= i <= |logs|
        invariant last == if i == 0 then cursor else logs[i - 1].id
      {
        last := if logs[i].id > last then logs[i].id else last;
        i := i + 1;
      }
    }
  }

  /** What a reader with the given cursor is handed. */
  function Fetch(history: seq<Entry>, capacity: nat, cursor: int, logged: Entry -> bool): seq<Entry> {
    Filter(Last(history, capacity), After(cursor, logged))
  }

  function NextCursor(cursor: int, logs: seq<Entry>): int {
    if logs == [] then cursor else logs[|logs| - 1].id
  }

  // ----- what a query returns, in terms of the history

  ghost predicate Rising(xs: seq<Entry>) {
    forall i, j :: 0 <= i < j < |xs| ==> xs[i].id < xs[j].id
  }

  lemma {:induction false} FilterRises(xs: seq<Entry>, keep: Entry -> bool)
    requires Rising(xs)
    ensures Rising(Filter(xs, keep))
    decreases |xs|
  {
    if xs != [] {
      var tail := Filter(xs[1..], keep);
      FilterRises(xs[1..], keep);
      FilterMembers(xs[1..], keep);
      forall j | 0 <= j < |tail|
        ensures xs[0].id < tail[j].id
      {
        assert tail[j] in tail && tail[j] in xs[1..];
      }
    }
  }

  lemma {:induction false} FilterAgrees(xs: seq<Entry>, keep: Entry -> bool, other: Entry -> bool)
    requires forall i :: 0 <= i < |xs| ==> (keep(xs[i]) <==> other(xs[i]))
    ensures Filter(xs, keep) == Filter(xs, other)
    decreases |xs|
  {
    if xs != [] {
      FilterAgrees(xs[1..], keep, other);
    }
  }

  lemma LastOfLonger(history: seq<Entry>, e: Entry, capacity: nat)
    ensures var buffer := Last(history, capacity) + [e];
      Last(history + [e], capacity) == if |buffer| > capacity then buffer[1..] else buffer
  {
  }

  lemma LastIsSuffix(history: seq<Entry>, capacity: nat)
    ensures Last(history, capacity) == history[Max(0, |history| - capacity)..]
  {
  }

  lemma SuffixAt(history: seq<Entry>, a: nat, i: nat)
    requires Numbered(history) && a + i < |history|
    ensures history[a..][i] == history[a + i] && history[a..][i].id == a + i + 1
  {
  }

  lemma FilterKeepsOrder(xs: seq<Entry>, keep: Entry -> bool)
    ensures Rising(xs) ==> Rising(Filter(xs, keep))
  {
    if Rising(xs) {
      FilterRises(xs, keep);
    }
  }

  lemma SuffixSplits(xs: seq<Entry>, k: nat)
    requires k <= |xs|
    ensures forall e :: e in xs[k..] ==> e in xs
    ensures Rising(xs) ==> Rising(xs[k..]) && forall e, x :: e in xs && e !in xs[k..] && x in xs[k..] ==> e.id < x.id
  {
    forall i | k <= i < |xs|
      ensures xs[i] in xs[k..]
    {
      assert xs[k..][i - k] == xs[i];
    }
    forall e, x | Rising(xs) && e in xs && e !in xs[k..] && x in xs[k..]
      ensures e.id < x.id
    {
      var i :| 0 <= i < |xs| && xs[i] == e;
      var j :| 0 <= j < |xs| - k && xs[k..][j] == x;
      assert i < k && xs[k + j] == x;
    }
  }

  lemma TailIsNewest(xs: seq<Entry>, limit: int)
    ensures var t := TailSlice(xs, limit);
      && |t| == (if limit > 0 then Min(limit, |xs|) else Max(0, |xs| + limit))
      && (forall e :: e in t ==> e in xs)
      && (Rising(xs) ==> Rising(t) && forall e, x :: e in xs && e !in t && x in t ==> e.id < x.id)
  {
    var t := TailSlice(xs, limit);
    assert t == xs[|xs| - |t|..];
    SuffixSplits(xs, |xs| - |t|);
  }

  lemma FetchRises(history: seq<Entry>, capacity: nat, cursor: int, logged: Entry -> bool)
    requires Numbered(history)
    ensures var logs := Fetch(history, capacity, cursor, logged);
      Rising(logs) && forall i :: 0 <= i < |logs| ==> logs[i].id > cursor
  {
    var logs := Fetch(history, capacity, cursor, logged);
    assert Rising(Last(history, capacity));
    FilterRises(Last(history, capacity), After(cursor, logged));
    FilterMembers(Last(history, capacity), After(cursor, logged));
    forall i | 0 <= i < |logs|
      ensures logs[i].id > cursor
    {
      assert logs[i] in logs;
    }
  }

  lemma SuffixDrops(xs: seq<Entry>, a: nat, k: nat, keep: Entry -> bool, other: Entry -> bool)
    requires a <= k <= |xs|
    requires forall i :: a <= i < k ==> !keep(xs[i])
    requires forall i :: k <= i < |xs| ==> (keep(xs[i]) <==> other(xs[i]))
    ensures Filter(xs[a..], keep) == Filter(xs[k..], other)
  {
    assert xs[a..] == xs[a..k] + xs[k..];
    FilterConcat(xs[a..k], xs[k..], keep);
    FilterEmpty(xs[a..k], keep);
    FilterAgrees(xs[k..], keep, other);
  }

  /** From an index on, filtering by cursor and condition is dropping what the cursor has passed and filtering by the condition. */
  lemma SuffixAfter(history: seq<Entry>, a: nat, cursor: int, logged: Entry -> bool)
    requires Numbered(history) && a <= |history|
    ensures var k := Max(a, Min(cursor, |history|));
      Filter(history[a..], After(cursor, logged)) == Filter(history[k..], logged)
  {
    SuffixDrops(history, a, Max(a, Min(cursor, |history|)), After(cursor, logged), logged);
  }

  /** For every cursor and filter: a query returns what the filter wants of all that follows the cursor and is not overwritten. */
  lemma FetchExact(history: seq<Entry>, capacity: nat, cursor: int, logged: Entry -> bool)
    requires Numbered(history)
    ensures var n := |history|; var k := Max(Max(0, n - capacity), Min(cursor, n));
      Fetch(history, capacity, cursor, logged) == Filter(history[k..], logged)
  {
    LastIsSuffix(history, capacity);
    SuffixAfter(history, Max(0, |history| - capacity), cursor, logged);
  }

  // ----- a reader among writers

  datatype Event = Logging(record: Record) | Polling

  /** received is all the reader got; polled is how much had been logged when it last asked. */
  datatype Reading = Reading(history: seq<Entry>, cursor: int, received: seq<Entry>, polled: nat)

  /** The cursor the reader came with, its filter, and the size of the buffer it reads. */
  datatype Reader = Reader(start: int, logged: Entry -> bool, capacity: nat)

  function Step(s: Reading, r: Reader, e: Event): Reading {
    match e
    case Logging(record) => s.(history := s.history + [Entry(|s.history| + 1, record)])
    case Polling =>
      var logs := Fetch(s.history, r.capacity, s.cursor, r.logged);
      Reading(s.history, NextCursor(s.cursor, logs), s.received + logs, |s.history|)
  }

  function Run(s: Reading, r: Reader, events: seq<Event>): Reading
    decreases |events|
  {
    if events == [] then s else Run(Step(s, r, events[0]), r, events[1..])
  }

  /** All that was logged after the start, up to the last poll, and is wanted. */
  function Owed(s: Reading, r: Reader): seq<Entry>
    requires s.polled <= |s.history|
  {
    Filter(s.history[..s.polled], After(r.start, r.logged))
  }

  predicate UpToDate(s: Reading, r: Reader) {
    s.polled <= |s.history| && s.received == Owed(s, r)
  }

  /** The first index a poll can still return that earlier polls did not cover. */
  function Resume(s: Reading, r: Reader): nat {
    Max(s.polled, |s.history| - r.capacity)
  }

  /** What polling now comes too late for. */
  function Overwritten(s: Reading, r: Reader): seq<Entry>
    requires s.polled <= |s.history|
  {
    Filter(s.history[s.polled..Resume(s, r)], After(r.start, r.logged))
  }

  /** The cursor lies behind nothing wanted that was still buffered at the last poll. */
  ghost predicate Consistent(s: Reading, r: Reader) {
    && Numbered(s.history) && s.polled <= |s.history|
    && (s.cursor == r.start || r.start <= s.cursor <= s.polled)
    && forall i :: Max(0, s.polled - r.capacity) <= i < s.polled && r.logged(s.history[i]) ==> i < s.cursor
  }

  /** A poll returns what was logged since the last one, is wanted, and is not overwritten. */
  lemma PollGets(s: Reading, r: Reader)
    requires Consistent(s, r)
    ensures Fetch(s.history, r.capacity, s.cursor, r.logged) == Filter(s.history[Resume(s, r)..], After(r.start, r.logged))
  {
    var b := Max(0, |s.history| - r.capacity);
    LastIsSuffix(s.history, r.capacity);
    SuffixDrops(s.history, b, Resume(s, r), After(s.cursor, r.logged), After(r.start, r.logged));
  }

  /** What is owed after a poll: what was owed before, what was overwritten since, and what the poll returns. */
  lemma PollOwes(s: Reading, r: Reader)
    requires Consistent(s, r)
    ensures Owed(Step(s, r, Polling), r)
         == Owed(s, r) + Overwritten(s, r) + Fetch(s.history, r.capacity, s.cursor, r.logged)
  {
    var h, m, wanted := s.history, Resume(s, r), After(r.start, r.logged);
    PollGets(s, r);
    FilterSplit(h, m, wanted);
    FilterSplit(h[..m], s.polled, wanted);
    assert h[..m][..s.polled] == h[..s.polled] && h[..m][s.polled..] == h[s.polled..m];
    assert h[..|h|] == h;
  }

  lemma PollReaches(s: Reading, r: Reader, i: nat)
    requires Consistent(s, r) && Max(0, |s.history| - r.capacity) <= i < |s.history| && r.logged(s.history[i])
    ensures i < Step(s, r, Polling).cursor
  {
    var b := Max(0, |s.history| - r.capacity);
    var logs := Fetch(s.history, r.capacity, s.cursor, r.logged);
    FetchRises(s.history, r.capacity, s.cursor, r.logged);
    if i >= s.cursor {
      LastIsSuffix(s.history, r.capacity);
      SuffixAt(s.history, b, i - b);
      var e := s.history[i];
      assert e in Last(s.history, r.capacity);
      FilterMembers(Last(s.history, r.capacity), After(s.cursor, r.logged));
      assert e in logs;
    }
  }

  lemma PollCursor(s: Reading, r: Reader)
    requires Consistent(s, r)
    ensures var t := Step(s, r, Polling); t.cursor == s.cursor || s.cursor < t.cursor <= t.polled
  {
    var logs := Fetch(s.history, r.capacity, s.cursor, r.logged);
    FetchRises(s.history, r.capacity, s.cursor, r.logged);
    FilterMembers(Last(s.history, r.capacity), After(s.cursor, r.logged));
    if logs != [] {
      assert logs[|logs| - 1] in logs;
      assert forall e :: e in s.history ==> e.id <= |s.history|;
    }
  }

  lemma StepConsistent(s: Reading, r: Reader, e: Event)
    requires Consistent(s, r)
    ensures Consistent(Step(s, r, e), r)
  {
    match e
    case Logging(_) =>
      assert forall i :: 0 <= i < |s.history| ==> Step(s, r, e).history[i] == s.history[i];
    case Polling =>
      PollCursor(s, r);
      forall i | Max(0, |s.history| - r.capacity) <= i < |s.history| && r.logged(s.history[i])
        ensures i < Step(s, r, Polling).cursor
      {
        PollReaches(s, r, i);
      }
  }

  lemma LoggingOwes(s: Reading, r: Reader, record: Record)
    requires s.polled <= |s.history|
    ensures Owed(Step(s, r, Logging(record)), r) == Owed(s, r)
  {
    assert Step(s, r, Logging(record)).history[..s.polled] == s.history[..s.polled];
  }

  /** Everything wanted that the polls of a run came too late for. */
  function Lost(s: Reading, r: Reader, events: seq<Event>): seq<Entry>
    requires s.polled <= |s.history|
    decreases |events|
  {
    if events == [] then []
    else (if events[0].Polling? then Overwritten(s, r) else []) + Lost(Step(s, r, events[0]), r, events[1..])
  }

  /** Each entry owed at the end was received or lost, once; absent is what was missing at the start. */
  lemma {:induction false} ReceivedOrLost(s: Reading, r: Reader, events: seq<Event>, absent: multiset<Entry>)
    requires Consistent(s, r) && multiset(Owed(s, r)) == multiset(s.received) + absent
    ensures var t := Run(s, r, events);
      Consistent(t, r) && multiset(Owed(t, r)) == multiset(t.received) + absent + multiset(Lost(s, r, events))
    decreases |events|
  {
    if events != [] {
      var t := Step(s, r, events[0]);
      StepConsistent(s, r, events[0]);
      match events[0] {
        case Logging(record) =>
          LoggingOwes(s, r, record);
          assert Lost(s, r, events) == Lost(t, r, events[1..]);
          ReceivedOrLost(t, r, events[1..], absent);
        case Polling =>
          PollOwes(s, r);
          ReceivedOrLost(t, r, events[1..], absent + multiset(Overwritten(s, r)));
      }
    }
  }

  /** A run that loses nothing leaves nothing out and changes no order. */
  lemma {:induction false} NothingLost(s: Reading, r: Reader, events: seq<Event>)
    requires Consistent(s, r) && UpToDate(s, r) && Lost(s, r, events) == []
    ensures UpToDate(Run(s, r, events), r)
    decreases |events|
  {
    if events != [] {
      var e := events[0];
      var t := Step(s, r, e);
      StepConsistent(s, r, e);
      match e {
        case Logging(record) =>
          LoggingOwes(s, r, record);
          assert Lost(s, r, events) == Lost(t, r, events[1..]);
        case Polling =>
          PollOwes(s, r);
          assert Owed(s, r) + [] == Owed(s, r);
      }
      NothingLost(t, r, events[1..]);
    }
  }

  /**
   Under every interleaving of logging and polling, for every filter, start and capacity: at its last poll the reader has got
   each wanted entry, once and in order, exactly when none was overwritten between two polls.
   */
  lemma ReaderExact(s: Reading, r: Reader, events: seq<Event>)
    requires Consistent(s, r) && UpToDate(s, r)
    ensures UpToDate(Run(s, r, events), r) <==> Lost(s, r, events) == []
  {
    ReceivedOrLost(s, r, events, multiset{});
    if Lost(s, r, events) == [] {
      NothingLost(s, r, events);
    } else {
      assert Lost(s, r, events)[0] in multiset(Lost(s, r, events));
    }
  }

  /** Whenever the reader asks, at most capacity entries were logged since it last asked. */
  predicate KeepsUp(events: seq<Event>, capacity: nat, pending: nat) {
    if events == [] then true
    else if events[0].Logging? then KeepsUp(events[1..], capacity, pending + 1)
    else pending <= capacity && KeepsUp(events[1..], capacity, 0)
  }

  lemma UnfilteredOverwritten(s: Reading, r: Reader)
    requires Numbered(s.history) && s.polled <= |s.history| && r.start <= s.polled && forall e :: r.logged(e)
    ensures Overwritten(s, r) == [] <==> |s.history| - s.polled <= r.capacity
  {
    var xs := s.history[s.polled..Resume(s, r)];
    assert forall i :: 0 <= i < |xs| ==> xs[i] == s.history[s.polled + i];
    FilterEmpty(xs, After(r.start, r.logged));
  }

  lemma LostUnfold(s: Reading, r: Reader, events: seq<Event>)
    requires s.polled <= |s.history| && events != []
    ensures var t := Step(s, r, events[0]);
      t.polled <= |t.history|
      && (Lost(s, r, events) == [] <==> (events[0].Polling? ==> Overwritten(s, r) == []) && Lost(t, r, events[1..]) == [])
  {
    var t := Step(s, r, events[0]);
    if events[0].Polling? {
      assert Lost(s, r, events) == Overwritten(s, r) + Lost(t, r, events[1..]);
    } else {
      assert Lost(s, r, events) == [] + Lost(t, r, events[1..]) == Lost(t, r, events[1..]);
    }
  }

  lemma {:induction false} UnfilteredLost(s: Reading, r: Reader, events: seq<Event>)
    requires Consistent(s, r) && r.start <= s.polled && forall e :: r.logged(e)
    ensures Lost(s, r, events) == [] <==> KeepsUp(events, r.capacity, |s.history| - s.polled)
    decreases |events|
  {
    if events != [] {
      var t := Step(s, r, events[0]);
      StepConsistent(s, r, events[0]);
      UnfilteredLost(t, r, events[1..]);
      UnfilteredOverwritten(s, r);
      LostUnfold(s, r, events);
    }
  }

  /** A reader of everything is complete exactly when at most capacity entries come between its polls. */
  lemma ReaderFromStart(capacity: nat, events: seq<Event>)
    ensures var t := Run(Reading([], 0, [], 0), Reader(0, Logged("", ""), capacity), events);
      t.polled <= |t.history| && (t.received == t.history[..t.polled] <==> KeepsUp(events, capacity, 0))
  {
    var s, r := Reading([], 0, [], 0), Reader(0, Logged("", ""), capacity);
    var t := Run(s, r, events);
    ReaderExact(s, r, events);
    ReceivedOrLost(s, r, events, multiset{});
    UnfilteredLost(s, r, events);
    SuffixAfter(t.history[..t.polled], 0, 0, r.logged);
    FilterTrue(t.history[..t.polled], r.logged);
    assert t.history[..t.polled][0..] == t.history[..t.polled];
  }

  lemma SplitAtCursor(history: seq<Entry>, cursor: nat, logged: Entry -> bool)
    requires Numbered(history)
    ensures Filter(history, logged) == Filter(history[..Min(|history|, cursor)], logged) + Filter(history, After(cursor, logged))
  {
    var k := Min(|history|, cursor);
    FilterSplit(history, k, logged);
    SuffixDrops(history, 0, k, After(cursor, logged), logged);
    WholeSuffix(history);
  }

  lemma WholeSuffix<T>(xs: seq<T>)
    ensures xs[0..] == xs
  {
  }

  /** The wanted entries with ids up to the cursor the reader came with. */
  function Withheld(s: Reading, r: Reader): seq<Entry>
    requires s.polled <= |s.history| && r.start >= 0
  {
    Filter(s.history[..Min(s.polled, r.start)], r.logged)
  }

  lemma OwedIds(s: Reading, r: Reader)
    requires s.polled <= |s.history|
    ensures forall e :: e in multiset(Owed(s, r)) ==> e.id > r.start
  {
    var owed := Owed(s, r);
    FilterMembers(s.history[..s.polled], After(r.start, r.logged));
    assert forall e :: e in multiset(owed) ==> e in owed;
  }

  lemma WithheldOrOwed(s: Reading, r: Reader)
    requires Numbered(s.history) && s.polled <= |s.history| && r.start >= 0
    ensures multiset(Filter(s.history[..s.polled], r.logged)) == multiset(Withheld(s, r)) + multiset(Owed(s, r))
    ensures forall e :: e in multiset(Owed(s, r)) ==> e.id > r.start
  {
    var h := s.history[..s.polled];
    SplitAtCursor(h, r.start, r.logged);
    OwedIds(s, r);
    assert h[..Min(s.polled, r.start)] == s.history[..Min(s.polled, r.start)];
  }

  /**
   A reader whose cursor comes from before a restart: of the wanted entries logged up to its last poll, those numbered up to
   that cursor are withheld, and each other one is received or was overwritten.
   */
  lemma StaleCursorLoses(r: Reader, events: seq<Event>)
    requires r.start >= 0
    ensures var s := Reading([], r.start, [], 0);
      var t := Run(s, r, events);
      && t.polled <= |t.history|
      && (forall e :: e in multiset(t.received) ==> e.id > r.start)
      && multiset(Filter(t.history[..t.polled], r.logged))
         == multiset(Withheld(t, r)) + multiset(t.received) + multiset(Lost(s, r, events))
  {
    var s := Reading([], r.start, [], 0);
    var t := Run(s, r, events);
    ReceivedOrLost(s, r, events, multiset{});
    WithheldOrOwed(t, r);
    ThreeParts(multiset(Withheld(t, r)), multiset(t.received), multiset(Lost(s, r, events)));
  }

  lemma ThreeParts(a: multiset<Entry>, b: multiset<Entry>, c: multiset<Entry>)
    ensures a + (b + multiset{} + c) == a + b + c
    ensures forall e :: e in b ==> e in b + multiset{} + c
  {
  }
}
