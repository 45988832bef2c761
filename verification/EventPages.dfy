/** The paged read of a run's audit events: a walk over the pages, each read from the log as it is
    by then, is the one full read of the log that the last page saw. */
module EventPages {
  import opened Wrappers

  datatype Event = Event(seqInRun: int, eventType: string, body: string)

  /** The events of one run in `seq_in_run` order, which the table keeps unique. */
  type Log = seq<Event>

  ghost predicate Sorted(log: Log) {
    forall i, j :: 0 <= i < j < |log| ==> log[i].seqInRun < log[j].seqInRun
  }

  /** The filter of the query: an empty event type and an absent cursor filter nothing. */
  predicate Matches(e: Event, eventType: string, cursor: Option<int>) {
    (eventType == "" || e.eventType == eventType) && (cursor.Some? ==> e.seqInRun > cursor.value)
  }

  function Select(log: Log, eventType: string, cursor: Option<int>): Log {
    if log == [] then []
    else (if Matches(log[0], eventType, cursor) then [log[0]] else []) + Select(log[1..], eventType, cursor)
  }

  /** The cursor as it arrives: missing or empty, not a number, or a number. */
  datatype Cursor = NoCursor | Malformed | After(seqInRun: int)

  datatype Status = NotFound | BadRequest | Unprocessable

  datatype Page = Page(events: Log, next: Option<int>)

  function PageOf(log: Log, eventType: string, cursor: Option<int>, limit: nat): Page
    requires limit >= 1
  {
    Cut(Select(log, eventType, cursor), limit)
  }

  /** One more row than the limit is fetched, to tell whether another page follows. */
  function Cut(matching: Log, limit: nat): Page
    requires limit >= 1
  {
    var fetched := if |matching| > limit + 1 then matching[..limit + 1] else matching;
    var hasNext := |fetched| > limit;
    var events := if hasNext then fetched[..limit] else fetched;
    Page(events, if hasNext && events != [] then Some(events[|events| - 1].seqInRun) else None)
  }

  function GetEvents(runs: map<nat, Log>, run: nat, eventType: string, cursor: Cursor, limit: int)
    : Result<Page, Status>
  {
    if !(1 <= limit <= 200) then Err(Unprocessable)
    else if run !in runs then Err(NotFound)
    else match cursor
      case Malformed => Err(BadRequest)
      case NoCursor => Ok(PageOf(runs[run], eventType, None, limit))
      case After(n) => Ok(PageOf(runs[run], eventType, Some(n), limit))
  }

  // ---------- the selection ----------

  /** A selection holds exactly the matching events, each once, in order. */
  lemma {:induction false} SelectExact(log: Log, eventType: string, cursor: Option<int>)
    requires Sorted(log)
    ensures forall e :: e in Select(log, eventType, cursor) <==>
      e in log && (eventType == "" || e.eventType == eventType) && (cursor.Some? ==> e.seqInRun > cursor.value)
    ensures Sorted(Select(log, eventType, cursor))
  {
    if log != [] {
      SelectExact(log[1..], eventType, cursor);
      forall e ensures e in log <==> e == log[0] || e in log[1..] {
        assert log == [log[0]] + log[1..];
      }
      var rest := Select(log[1..], eventType, cursor);
      forall i | 0 <= i < |rest| ensures log[0].seqInRun < rest[i].seqInRun {
        assert rest[i] in log[1..];
      }
    }
  }

  lemma {:induction false} SelectHead(log: Log, eventType: string, cursor: Option<int>)
    requires log != []
    ensures Select(log, eventType, cursor)
            == (if Matches(log[0], eventType, cursor) then [log[0]] else []) + Select(log[1..], eventType, cursor)
  {
  }

  lemma Associative(a: Log, b: Log, c: Log)
    ensures a + (b + c) == (a + b) + c
  {
  }

  lemma {:induction false} SelectAppend(a: Log, b: Log, eventType: string, cursor: Option<int>)
    ensures Select(a + b, eventType, cursor) == Select(a, eventType, cursor) + Select(b, eventType, cursor)
  {
    if a == [] {
      assert a + b == b;
    } else {
      SelectAppend(a[1..], b, eventType, cursor);
      assert (a + b)[0] == a[0] && (a + b)[1..] == a[1..] + b;
      SelectHead(a + b, eventType, cursor);
      SelectHead(a, eventType, cursor);
      hide Select, Matches;
      Associative(if Matches(a[0], eventType, cursor) then [a[0]] else [], Select(a[1..], eventType, cursor),
                  Select(b, eventType, cursor));
    }
  }

  /** A cursor below every event of the log filters nothing. */
  lemma {:induction false} SelectAbove(log: Log, eventType: string, c: int)
    requires forall e <- log :: e.seqInRun > c
    ensures Select(log, eventType, Some(c)) == Select(log, eventType, None)
  {
    if log != [] { SelectAbove(log[1..], eventType, c); }
  }

  /** Selecting after the m-th selected event gives the rest of the selection. */
  lemma {:induction false} SelectResumes(log: Log, eventType: string, m: nat)
    requires Sorted(log) && 0 < m <= |Select(log, eventType, None)|
    ensures var all := Select(log, eventType, None); Select(log, eventType, Some(all[m - 1].seqInRun)) == all[m..]
  {
    var rest := Select(log[1..], eventType, None);
    var c := Select(log, eventType, None)[m - 1].seqInRun;
    SelectHead(log, eventType, None);
    SelectHead(log, eventType, Some(c));
    TailSorted(log);
    hide Select, Sorted;
    if !Matches(log[0], eventType, None) {
      assert Select(log, eventType, None) == rest;
      SelectResumes(log[1..], eventType, m);
    } else {
      ConsSlices(log[0], rest, m);
      hide Matches;
      if m == 1 {
        SelectAbove(log[1..], eventType, c);
      } else {
        SelectExact(log[1..], eventType, None);
        assert rest[m - 2] in rest;
        SelectResumes(log[1..], eventType, m - 1);
      }
    }
  }

  lemma ConsSlices(e: Event, rest: Log, m: nat)
    requires 0 < m <= |rest| + 1
    ensures var all := [e] + rest; all[m - 1] == (if m == 1 then e else rest[m - 2]) && all[m..] == rest[m - 1..]
  {
  }

  lemma TailSorted(log: Log)
    requires Sorted(log) && log != []
    ensures Sorted(log[1..]) && forall e <- log[1..] :: e.seqInRun > log[0].seqInRun
  {
  }

  // ---------- walks ----------

  ghost predicate GrowsAt(logs: seq<Log>, i: nat)
    requires i + 1 < |logs|
  {
    logs[i] <= logs[i + 1]
  }

  /** The logs that successive reads see: events are only ever appended, with higher numbers. */
  ghost predicate Growing(logs: seq<Log>) {
    && (forall i :: 0 <= i < |logs| ==> Sorted(logs[i]))
    && (forall i :: 0 <= i < |logs| - 1 ==> GrowsAt(logs, i))
  }

  /** The i-th page comes from logs[i], with the cursor of the page before. */
  ghost predicate ReadAt(logs: seq<Log>, pages: seq<Page>, eventType: string, limit: nat, i: nat)
    requires limit >= 1 && i < |pages| == |logs|
  {
    pages[i] == PageOf(logs[i], eventType, CursorBefore(pages, i), limit)
  }

  /** Pages read one after the other, as long as there is a next one. */
  ghost predicate Walk(logs: seq<Log>, pages: seq<Page>, eventType: string, limit: nat)
    requires limit >= 1
  {
    && |pages| == |logs| >= 1
    && (forall i :: 0 <= i < |pages| ==> ReadAt(logs, pages, eventType, limit, i))
    && (forall i :: 0 <= i < |pages| - 1 ==> pages[i].next.Some?)
  }

  /** The cursor with which the i-th page is asked for. */
  function CursorBefore(pages: seq<Page>, i: nat): Option<int>
    requires i <= |pages|
  {
    if i == 0 then None else pages[i - 1].next
  }

  /** The events of the first n pages. */
  function Events(pages: seq<Page>, n: nat): Log
    requires n <= |pages|
  {
    if n == 0 then [] else Events(pages, n - 1) + pages[n - 1].events
  }

  /** One page read at position m of the full selection of its log. */
  lemma {:induction false} PageAt(log: Log, eventType: string, cursor: Option<int>, limit: nat, m: nat)
    requires limit >= 1 && Sorted(log) && m <= |Select(log, eventType, None)|
    requires cursor == if m == 0 then None else Some(Select(log, eventType, None)[m - 1].seqInRun)
    ensures var all, page := Select(log, eventType, None), PageOf(log, eventType, cursor, limit);
      if |all| <= m + limit then page == Page(all[m..], None)
      else page == Page(all[m..m + limit], Some(all[m + limit - 1].seqInRun))
  {
    hide Select, Cut, Sorted;
    var all := Select(log, eventType, None);
    if m > 0 { SelectResumes(log, eventType, m); } else { assert all[0..] == all; }
    CutForm(all[m..], limit);
    SliceTwice(all, m, limit);
  }

  lemma SliceTwice(all: Log, m: nat, limit: nat)
    requires limit >= 1 && m <= |all|
    ensures |all| > m + limit ==> all[m..][..limit] == all[m..m + limit] && all[m..][limit - 1] == all[m + limit - 1]
  {
  }

  lemma CutForm(matching: Log, limit: nat)
    requires limit >= 1
    ensures Cut(matching, limit)
            == if |matching| <= limit then Page(matching, None)
               else Page(matching[..limit], Some(matching[limit - 1].seqInRun))
  {
    assert |matching| > limit + 1 ==> matching[..limit + 1][..limit] == matching[..limit];
  }

  /** How many events n pages can hold: n * limit, counted up. */
  function Room(n: nat, limit: nat): (r: nat) {
    if n == 0 then 0 else Room(n - 1, limit) + limit
  }

  lemma {:induction false} RoomIsProduct(n: nat, limit: nat)
    ensures Room(n, limit) == n * limit
  {
    if n > 0 {
      RoomIsProduct(n - 1, limit);
      assert n * limit == (n - 1) * limit + limit;
    }
  }

  /** A reader who asked for m events so far has the first m matching events of the log, or all of
      them, and is told there is more exactly when there is. */
  ghost predicate HasRead(events: Log, next: Option<int>, log: Log, eventType: string, m: int) {
    var all := Select(log, eventType, None);
    if |all| <= m then events == all && next.None?
    else m > 0 && events == all[..m] && next == Some(all[m - 1].seqInRun)
  }

  /** The next page of a log that may have grown takes up where the last one stopped. */
  lemma NextPage(events: Log, next: Option<int>, log: Log, log': Log, eventType: string, m: int, limit: nat)
    requires limit >= 1 && Sorted(log') && log <= log'
    requires HasRead(events, next, log, eventType, m) && next.Some?
    ensures var page := PageOf(log', eventType, next, limit);
      HasRead(events + page.events, page.next, log', eventType, m + limit)
  {
    var later := log'[|log|..];
    assert log' == log + later;
    SelectAppend(log, later, eventType, None);
    var all := Select(log', eventType, None);
    assert all[..m] == events;
    PageAt(log', eventType, next, limit, m);
    hide Select, PageOf;
    assert all[..m] + all[m..] == all;
  }

  /** After n pages of a walk the reader has exactly the first Room(n, limit) matching events of the
      log as it then is. */
  lemma {:induction false} WalkSoFar(logs: seq<Log>, pages: seq<Page>, eventType: string, limit: nat, n: nat)
    requires limit >= 1 && Walk(logs, pages, eventType, limit) && Growing(logs) && 1 <= n <= |pages|
    ensures HasRead(Events(pages, n), pages[n - 1].next, logs[n - 1], eventType, Room(n, limit))
    decreases n
  {
    hide Select, PageOf, HasRead, Sorted;
    assert ReadAt(logs, pages, eventType, limit, n - 1);
    if n == 1 {
      FirstPage(logs[0], eventType, limit);
      assert Events(pages, 1) == [] + pages[0].events == pages[0].events;
    } else {
      WalkSoFar(logs, pages, eventType, limit, n - 1);
      assert GrowsAt(logs, n - 2);
      NextPage(Events(pages, n - 1), pages[n - 2].next, logs[n - 2], logs[n - 1], eventType, Room(n - 1, limit), limit);
    }
  }

  lemma {:induction false} FirstPage(log: Log, eventType: string, limit: nat)
    requires limit >= 1 && Sorted(log)
    ensures var page := PageOf(log, eventType, None, limit);
      HasRead(page.events, page.next, log, eventType, Room(1, limit))
  {
    PageAt(log, eventType, None, limit, 0);
    hide Select, PageOf;
  }

  /** A walk that has come to its end has read every matching event of the log exactly once, in
      order, whatever was appended between its reads. */
  lemma {:induction false} WalkIsFullRead(logs: seq<Log>, pages: seq<Page>, eventType: string, limit: nat)
    requires limit >= 1 && Walk(logs, pages, eventType, limit) && Growing(logs) && pages[|pages| - 1].next.None?
    ensures Events(pages, |pages|) == Select(logs[|logs| - 1], eventType, None)
    ensures Sorted(Events(pages, |pages|))
    ensures forall e :: e in Events(pages, |pages|) <==>
      e in logs[|logs| - 1] && (eventType == "" || e.eventType == eventType)
  {
    WalkSoFar(logs, pages, eventType, limit, |pages|);
    SelectExact(logs[|logs| - 1], eventType, None);
    hide Select, PageOf, Matches, Sorted, Events, Room;
  }

  /** How many pages a log of so many matching events takes: one at least, and no empty page after it. */
  function PagesNeeded(matching: nat, limit: nat): (n: nat)
    requires limit >= 1
    ensures n >= 1 && matching <= Room(n, limit) && (n == 1 || Room(n - 1, limit) < matching)
  {
    if matching <= limit then 1 else
      PagesNeeded(matching - limit, limit) + 1
  }

  /** A walk is told of another page exactly while its pages do not hold all that matches, so it
      only grew longer when they did not. */
  lemma {:induction false} WalkTellsMore(logs: seq<Log>, pages: seq<Page>, eventType: string, limit: nat)
    requires limit >= 1 && Walk(logs, pages, eventType, limit) && Growing(logs)
    ensures pages[|pages| - 1].next.None? <==> |Select(logs[|pages| - 1], eventType, None)| <= Room(|pages|, limit)
    ensures |pages| > 1 ==> Room(|pages| - 1, limit) < |Select(logs[|pages| - 2], eventType, None)|
  {
    hide Select, PageOf, Events, Sorted;
    WalkSoFar(logs, pages, eventType, limit, |pages|);
    if |pages| > 1 { WalkSoFar(logs, pages, eventType, limit, |pages| - 1); }
  }

  /** Every walk over a log that no longer grows ends, after exactly the pages needed: as long as it
      is shorter it can go on, and no walk is longer. */
  lemma {:induction false} WalkLength(log: Log, logs: seq<Log>, pages: seq<Page>, eventType: string, limit: nat)
    requires limit >= 1 && Sorted(log) && Walk(logs, pages, eventType, limit)
    requires forall i :: 0 <= i < |logs| ==> logs[i] == log
    ensures var needed := PagesNeeded(|Select(log, eventType, None)|, limit);
      |pages| <= needed && (pages[|pages| - 1].next.None? <==> |pages| == needed)
  {
    hide Select, PageOf, PagesNeeded;
    WalkTellsMore(logs, pages, eventType, limit);
    PagesNeededUnique(|Select(log, eventType, None)|, limit, |pages|);
  }

  lemma {:induction false} PagesNeededUnique(total: nat, limit: nat, n: nat)
    requires limit >= 1 && n >= 1 && (n == 1 || Room(n - 1, limit) < total)
    ensures n <= PagesNeeded(total, limit)
    ensures total <= Room(n, limit) <==> n == PagesNeeded(total, limit)
  {
    if n > 1 {
      PagesNeededUnique(total - limit, limit, n - 1);
    }
  }

  // ---------- the requests ----------

  function AsCursor(next: Option<int>): Cursor {
    if next.Some? then After(next.value) else NoCursor
  }

  /** A client asking the endpoint for page after page, the i-th answered from tables[i]. */
  ghost predicate Client(tables: seq<map<nat, Log>>, run: nat, pages: seq<Page>, eventType: string, limit: int) {
    && |pages| == |tables| >= 1
    && (forall i :: 0 <= i < |pages| ==> AnsweredAt(tables, run, pages, eventType, limit, i))
    && (forall i :: 0 <= i < |pages| - 1 ==> pages[i].next.Some?)
  }

  ghost predicate AnsweredAt(tables: seq<map<nat, Log>>, run: nat, pages: seq<Page>, eventType: string, limit: int,
                             i: nat)
    requires i < |pages| == |tables|
  {
    GetEvents(tables[i], run, eventType, AsCursor(CursorBefore(pages, i)), limit) == Ok(pages[i])
  }

  lemma AnsweredRead(tables: seq<map<nat, Log>>, run: nat, pages: seq<Page>, eventType: string, limit: int, i: nat)
    requires Client(tables, run, pages, eventType, limit) && i < |pages|
    ensures limit >= 1 && |LogsOf(tables, run)| == |tables|
    ensures run in tables[i] && LogsOf(tables, run)[i] == tables[i][run]
    ensures ReadAt(LogsOf(tables, run), pages, eventType, limit, i)
  {
    hide PageOf;
    assert AnsweredAt(tables, run, pages, eventType, limit, i);
  }

  /** The events of the run in each table. */
  function LogsOf(tables: seq<map<nat, Log>>, run: nat): seq<Log>
  {
    seq(|tables|, i requires 0 <= i < |tables| => if run in tables[i] then tables[i][run] else [])
  }

  /** Whatever the other runs do, a client that follows the cursors until there is none has read
      the run's matching events, each once and in order. */
  lemma {:induction false} ClientReadsAll(tables: seq<map<nat, Log>>, run: nat, pages: seq<Page>, eventType: string,
                                          limit: int)
    requires Client(tables, run, pages, eventType, limit) && Growing(LogsOf(tables, run))
    requires pages[|pages| - 1].next.None?
    ensures run in tables[|tables| - 1] && Events(pages, |pages|) == Select(tables[|tables| - 1][run], eventType, None)
  {
    var logs := LogsOf(tables, run);
    hide Select, ReadAt, Growing, AnsweredAt, GetEvents, PageOf, LogsOf, Sorted, Events;
    assert |logs| == |tables| by { AnsweredRead(tables, run, pages, eventType, limit, 0); }
    AnsweredRead(tables, run, pages, eventType, limit, |pages| - 1);
    forall i: nat | i < |pages| ensures ReadAt(logs, pages, eventType, limit, i) {
      AnsweredRead(tables, run, pages, eventType, limit, i);
    }
    WalkIsFullRead(logs, pages, eventType, limit);
  }

  /** Which requests are answered: 422 for a limit outside 1..200, then 404 without the run, then 400 for
      a malformed cursor; an answer holds the first `limit` matching events past the cursor, and a next
      cursor, the number of the last of them, exactly when there are more. */
  lemma {:induction false} GetEventsReplies(runs: map<nat, Log>, run: nat, eventType: string, cursor: Cursor,
                                            limit: int)
    ensures var r := GetEvents(runs, run, eventType, cursor, limit);
      && (r == Err(Unprocessable) <==> limit < 1 || limit > 200)
      && (r == Err(NotFound) <==> 1 <= limit <= 200 && run !in runs)
      && (r == Err(BadRequest) <==> 1 <= limit <= 200 && run in runs && cursor == Malformed)
      && (r.Ok? ==>
            var all := Select(runs[run], eventType, if cursor.After? then Some(cursor.seqInRun) else None);
            if |all| <= limit then r.value == Page(all, None)
            else r.value == Page(all[..limit], Some(all[limit - 1].seqInRun)))
  {
    if 1 <= limit <= 200 && run in runs && cursor != Malformed {
      CutForm(Select(runs[run], eventType, if cursor.After? then Some(cursor.seqInRun) else None), limit);
    }
    hide Select, Cut;
  }
}
