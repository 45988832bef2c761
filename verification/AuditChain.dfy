/** The audit hash chain: append, replay order, and the verifier, for any hash function. */
module AuditChain {
  import opened Wrappers
  import opened Lists
  import opened CanonicalJson
  import opened AuditHash

  type HashFunction = Bytes -> Digest

  /** A row of the audit table. Only `hashed` goes into the hash. */
  datatype Event = Event(hashed: Hashed, seqInRun: int, hash: Digest,
                         stepId: Option<Uuid>, stepAttemptId: Option<Uuid>)

  const LIMIT: nat := 1000

  // ---------- the verifier ----------

  function PrevOf(events: seq<Event>, i: nat): Option<Digest>
    requires i <= |events|
  {
    if i == 0 then None else Some(events[i - 1].hash)
  }

  /** Event i links to its predecessor and carries the hash of its own fields. */
  predicate GoodAt(h: HashFunction, events: seq<Event>, i: nat)
    requires i < |events|
  {
    events[i].hashed.prev == PrevOf(events, i) && events[i].hash == h(Preimage(events[i].hashed))
  }

  ghost predicate Accepted(h: HashFunction, events: seq<Event>) {
    forall i :: 0 <= i < |events| ==> GoodAt(h, events, i)
  }

  datatype Verdict = Intact | Mismatch(index: nat)

  /** The verifier accepts exactly the well linked and well hashed lists, and otherwise names
      the first bad index. */
  method VerifyChain(h: HashFunction, events: seq<Event>) returns (v: Verdict)
    ensures v.Intact? <==> Accepted(h, events)
    ensures v.Mismatch? ==> v.index < |events| && !GoodAt(h, events, v.index)
    ensures v.Mismatch? ==> forall j :: 0 <= j < v.index ==> GoodAt(h, events, j)
  {
    hide Preimage;
    var prev: Option<Digest> := None;
    for i := 0 to |events|
      invariant prev == PrevOf(events, i)
      invariant forall j :: 0 <= j < i ==> GoodAt(h, events, j)
    {
      var event := events[i];
      if event.hashed.prev != prev {
        assert !GoodAt(h, events, i);
        return Mismatch(i);
      }
      var expected := h(Preimage(event.hashed));
      if event.hash != expected {
        assert !GoodAt(h, events, i);
        return Mismatch(i);
      }
      prev := Some(event.hash);
    }
    v := Intact;
  }

  // ---------- tampering shows ----------

  /** Two different inputs of the hash function with one digest. */
  ghost predicate Collision(h: HashFunction, x: Hashed, y: Hashed) {
    Preimage(x) != Preimage(y) && h(Preimage(x)) == h(Preimage(y))
  }

  ghost predicate CollisionAmong(h: HashFunction, a: seq<Event>, b: seq<Event>) {
    exists i, j :: 0 <= i < |a| && 0 <= j < |b| && Collision(h, a[i].hashed, b[j].hashed)
  }

  ghost predicate SameHashed(a: seq<Event>, b: seq<Event>) {
    |a| == |b| && forall i :: 0 <= i < |a| ==> a[i].hashed == b[i].hashed
  }

  ghost predicate AllWellformed(events: seq<Event>, types: set<Bytes>) {
    forall i :: 0 <= i < |events| ==> Wellformed(events[i].hashed, types)
  }

  /** The last hash fixes the whole list: two accepted lists that end in the same hash agree in
      length and in every hashed field at every index, or they exhibit a hash collision. */
  lemma {:induction false} LastHashFixesChain(h: HashFunction, a: seq<Event>, b: seq<Event>, types: set<Bytes>)
    requires SuffixFree(types) && AllWellformed(a, types) && AllWellformed(b, types)
    requires a != [] && b != [] && Accepted(h, a) && Accepted(h, b)
    requires a[|a| - 1].hash == b[|b| - 1].hash
    ensures SameHashed(a, b) || CollisionAmong(h, a, b)
  {
    hide SuffixFree, Preimage, Wellformed;
    var n, m := |a| - 1, |b| - 1;
    assert GoodAt(h, a, n) && GoodAt(h, b, m);
    if Preimage(a[n].hashed) != Preimage(b[m].hashed) {
      assert Collision(h, a[n].hashed, b[m].hashed);
    } else {
      PreimageInjective(a[n].hashed, b[m].hashed, types);
      if n > 0 && m > 0 {
        AcceptedPrefix(h, a, n);
        AcceptedPrefix(h, b, m);
        LastHashFixesChain(h, a[..n], b[..m], types);
        if CollisionAmong(h, a[..n], b[..m]) {
          var i, j :| 0 <= i < n && 0 <= j < m && Collision(h, a[..n][i].hashed, b[..m][j].hashed);
          assert Collision(h, a[i].hashed, b[j].hashed);
        } else {
          assert forall i :: 0 <= i < n ==> a[..n][i].hashed == b[..m][i].hashed;
        }
      }
    }
  }

  lemma AcceptedPrefix(h: HashFunction, events: seq<Event>, n: nat)
    requires Accepted(h, events) && n <= |events|
    ensures Accepted(h, events[..n])
  {
    hide Preimage;
    forall i | 0 <= i < n ensures GoodAt(h, events[..n], i) {
      assert GoodAt(h, events, i);
    }
  }

  // ---------- replay order ----------

  /** A number written in base m with b as its last digit. */
  function Pack(a: nat, b: nat, m: nat): nat { a * m + b }

  function DayOf(t: Time): nat { Pack(Pack(t.year, t.month, 100), t.day, 100) }

  function SecondOf(t: Time): nat { Pack(Pack(Pack(DayOf(t), t.hour, 100), t.minute, 100), t.second, 100) }

  /** Chronological rank of a UTC timestamp. */
  function Rank(t: Time): nat { Pack(SecondOf(t), t.micro, 1000000) }

  /** ORDER BY occurred_at, seq_in_run */
  predicate NotAfter(x: Event, y: Event) {
    var a, b := Rank(x.hashed.occurredAt), Rank(y.hashed.occurredAt);
    a < b || (a == b && x.seqInRun <= y.seqInRun)
  }

  function Insert(e: Event, sorted: seq<Event>): seq<Event> {
    if sorted == [] || NotAfter(e, sorted[0]) then [e] + sorted
    else [sorted[0]] + Insert(e, sorted[1..])
  }

  function Sorted(events: seq<Event>): seq<Event> {
    if events == [] then [] else Insert(events[0], Sorted(events[1..]))
  }

  ghost predicate InOrder(events: seq<Event>) {
    forall i, j :: 0 <= i < j < |events| ==> NotAfter(events[i], events[j])
  }

  lemma {:induction false} InsertSorts(e: Event, sorted: seq<Event>)
    requires InOrder(sorted)
    ensures InOrder(Insert(e, sorted))
    ensures multiset(Insert(e, sorted)) == multiset{e} + multiset(sorted)
  {
    hide Rank;
    if sorted == [] || NotAfter(e, sorted[0]) {
    } else {
      var rest := sorted[1..];
      assert sorted == [sorted[0]] + rest;
      InsertSorts(e, rest);
      var ins := Insert(e, rest);
      forall j | 0 <= j < |ins| ensures NotAfter(sorted[0], ins[j]) {
        assert ins[j] in multiset(ins);
        if ins[j] != e {
          assert ins[j] in multiset(rest);
          var k :| 0 <= k < |rest| && rest[k] == ins[j];
          assert NotAfter(sorted[0], sorted[k + 1]);
        }
      }
      var all := [sorted[0]] + ins;
      forall i, j | 0 <= i < j < |all| ensures NotAfter(all[i], all[j]) {
        if i > 0 { assert NotAfter(ins[i - 1], ins[j - 1]); }
      }
    }
  }

  lemma {:induction false} SortedSorts(events: seq<Event>)
    ensures InOrder(Sorted(events)) && multiset(Sorted(events)) == multiset(events)
  {
    if events != [] {
      SortedSorts(events[1..]);
      InsertSorts(events[0], Sorted(events[1..]));
      assert events == [events[0]] + events[1..];
    }
  }

  // ---------- lists in the same order ----------

  /** Each of the first n events is not after any later one. */
  ghost predicate OrderedUpTo(events: seq<Event>, n: nat) {
    forall i, j :: 0 <= i < j < |events| && i < n ==> NotAfter(events[i], events[j])
  }

  ghost predicate IdsDistinct(rows: seq<Event>) {
    forall i, j :: 0 <= i < j < |rows| ==> rows[i].hashed.id != rows[j].hashed.id
  }

  /** No two different rows have one number. */
  ghost predicate NumbersDiffer(rows: seq<Event>) {
    forall x <- rows, y <- rows :: x.seqInRun == y.seqInRun ==> x == y
  }

  lemma SameSize(p: seq<Event>, rows: seq<Event>)
    requires multiset(p) == multiset(rows)
    ensures |p| == |rows|
  {
    assert |multiset(p)| == |p| && |multiset(rows)| == |rows|;
  }

  lemma SameMembers(p: seq<Event>, rows: seq<Event>, e: Event)
    requires multiset(p) == multiset(rows)
    ensures e in p <==> e in rows
  {
    assert e in p <==> e in multiset(p);
    assert e in rows <==> e in multiset(rows);
  }

  /** Two lists of the same events that are ordered up to n start with the same n events. */
  lemma {:induction false} SamePrefix(p: seq<Event>, q: seq<Event>, n: nat)
    requires multiset(p) == multiset(q) && NumbersDiffer(q)
    requires OrderedUpTo(p, n) && OrderedUpTo(q, n) && n <= |q|
    ensures n <= |p| == |q| && p[..n] == q[..n]
  {
    hide Rank;
    SameSize(p, q);
    if n > 0 {
      var i := n - 1;
      SamePrefix(p, q, i);
      RestSame(p, q, i);
      SameMembers(p[i..], q[i..], p[i]);
      SameMembers(p[i..], q[i..], q[i]);
      assert p[i] in p[i..] && q[i] in q[i..];
      var a :| 0 <= a < |q[i..]| && q[i..][a] == p[i];
      var b :| 0 <= b < |p[i..]| && p[i..][b] == q[i];
      assert q[i + a] == p[i] && q[i + a] in q && q[i] in q;
      assert a > 0 ==> NotAfter(q[i], q[i + a]);
      assert b > 0 ==> NotAfter(p[i], p[i + b]);
      assert p[..n] == p[..i] + [p[i]] && q[..n] == q[..i] + [q[i]];
    }
  }

  lemma RestSame(p: seq<Event>, q: seq<Event>, i: nat)
    requires multiset(p) == multiset(q) && i <= |p| && i <= |q| && p[..i] == q[..i]
    ensures multiset(p[i..]) == multiset(q[i..])
  {
    assert p == p[..i] + p[i..] && q == q[..i] + q[i..];
    assert multiset(p[i..]) == multiset(p) - multiset(p[..i]);
    assert multiset(q[i..]) == multiset(q) - multiset(q[..i]);
  }

  // ---------- what is replayed ----------

  function ForRun(table: seq<Event>, run: Uuid): seq<Event> {
    if table == [] then []
    else
      var front, e := ForRun(table[..|table| - 1], run), table[|table| - 1];
      if e.hashed.run == run then front + [e] else front
  }

  lemma {:induction false} ForRunFilters(table: seq<Event>, run: Uuid)
    ensures ForRun(table, run) == Filter(table, (e: Event) => e.hashed.run == run)
  {
    if table != [] { ForRunFilters(table[..|table| - 1], run); }
  }

  /** Exactly the rows of the run, each as often as in the table, and in table order. */
  lemma {:induction false} ForRunExact(table: seq<Event>, run: Uuid) returns (at: seq<nat>)
    ensures forall e :: e in ForRun(table, run) <==> e in table && e.hashed.run == run
    ensures forall e :: multiset(ForRun(table, run))[e] == if e.hashed.run == run then multiset(table)[e] else 0
    ensures |at| == |ForRun(table, run)| && forall i, j :: 0 <= i < j < |at| ==> at[i] < at[j]
    ensures forall i :: 0 <= i < |at| ==> at[i] < |table| && ForRun(table, run)[i] == table[at[i]]
  {
    ForRunFilters(table, run);
    hide ForRun, Filter;
    var p := (e: Event) => e.hashed.run == run;
    forall e ensures e in ForRun(table, run) <==> e in table && e.hashed.run == run { FilterMember(table, p, e); }
    forall e ensures multiset(ForRun(table, run))[e] == if e.hashed.run == run then multiset(table)[e] else 0 {
      FilterMember(table, p, e);
    }
    at := FilterPlaces(table, p);
  }

  /** An event of another run changes nothing of what this one reads. */
  lemma {:induction false} OtherRunUntouched(table: seq<Event>, e: Event, run: Uuid)
    requires e.hashed.run != run
    ensures ForRun(table + [e], run) == ForRun(table, run) && Replay(table + [e], run) == Replay(table, run)
    ensures Latest(table + [e], run) == Latest(table, run)
  {
    assert (table + [e])[..|table|] == table;
  }

  /** What the verifier reads: the rows of the run in replay order, at most 1000 of them. */
  function Replay(table: seq<Event>, run: Uuid): seq<Event> {
    var rows := Sorted(ForRun(table, run));
    if |rows| <= LIMIT then rows else rows[..LIMIT]
  }

  // ---------- append ----------

  /** The row of the run with the highest sequence number. */
  function Latest(table: seq<Event>, run: Uuid): Option<Event> {
    var rows := ForRun(table, run);
    if rows == [] then None else Some(Highest(rows))
  }

  function Highest(rows: seq<Event>): Event
    requires rows != []
  {
    if |rows| == 1 then rows[0]
    else
      var best, last := Highest(rows[..|rows| - 1]), rows[|rows| - 1];
      if last.seqInRun >= best.seqInRun then last else best
  }

  lemma {:induction false} HighestExact(rows: seq<Event>)
    requires rows != []
    ensures Highest(rows) in rows && forall e <- rows :: e.seqInRun <= Highest(rows).seqInRun
  {
    var n := |rows| - 1;
    if n > 0 {
      HighestExact(rows[..n]);
      assert rows == rows[..n] + [rows[n]];
    }
  }

  /** The latest row of a run: there is none exactly when the table holds no row of the run, and
      otherwise it is a row of the run that no other one exceeds in number. */
  lemma {:induction false} LatestExact(table: seq<Event>, run: Uuid)
    ensures Latest(table, run).None? <==> forall e <- table :: e.hashed.run != run
    ensures Latest(table, run).Some? ==>
      var top := Latest(table, run).value;
      top in table && top.hashed.run == run && forall e <- table :: e.hashed.run == run ==> e.seqInRun <= top.seqInRun
  {
    var at := ForRunExact(table, run);
    var rows := ForRun(table, run);
    hide ForRun;
    if rows != [] {
      assert rows[0] in rows;
      HighestExact(rows);
    }
  }

  /** The row that append_audit_event inserts. */
  function Appended(h: HashFunction, table: seq<Event>, id: Uuid, run: Uuid, actor: Bytes, eventType: Bytes,
                    payload: Members, occurredAt: Time, stepId: Option<Uuid>, stepAttemptId: Option<Uuid>): Event {
    var latest := Latest(table, run);
    var prev := if latest.Some? then Some(latest.value.hash) else None;
    var hashed := Hashed(id, run, actor, eventType, payload, occurredAt, prev);
    Event(hashed, if latest.Some? then latest.value.seqInRun + 1 else 1, h(Preimage(hashed)), stepId, stepAttemptId)
  }

  class AuditLog {
    var table: seq<Event>

    method AppendAuditEvent(h: HashFunction, id: Uuid, run: Uuid, actor: Bytes, eventType: Bytes, payload: Members,
                            occurredAt: Time, stepId: Option<Uuid>, stepAttemptId: Option<Uuid>)
      returns (e: Event)
      modifies this
      ensures e == Appended(h, old(table), id, run, actor, eventType, payload, occurredAt, stepId, stepAttemptId)
      ensures table == old(table) + [e]
      ensures e.hashed == Hashed(id, run, actor, eventType, payload, occurredAt, e.hashed.prev)
      ensures e.hash == h(Preimage(e.hashed)) && e.stepId == stepId && e.stepAttemptId == stepAttemptId
      ensures (forall r <- old(table) :: r.hashed.run != run) ==> e.seqInRun == 1 && e.hashed.prev.None?
      ensures (exists r :: r in old(table) && r.hashed.run == run) ==>
        exists top :: && top in old(table) && top.hashed.run == run
                      && (forall r <- old(table) :: r.hashed.run == run ==> r.seqInRun <= top.seqInRun)
                      && e.seqInRun == top.seqInRun + 1 && e.hashed.prev == Some(top.hash)
    {
      LatestExact(table, run);
      hide Preimage, Latest;
      var latest := Latest(table, run);
      var seqInRun := 1;
      var prev: Option<Digest> := None;
      if latest.Some? {
        seqInRun := latest.value.seqInRun + 1;
        prev := Some(latest.value.hash);
      }
      var hashed := Hashed(id, run, actor, eventType, payload, occurredAt, prev);
      e := Event(hashed, seqInRun, h(Preimage(hashed)), stepId, stepAttemptId);
      table := table + [e];
    }
  }

  /** A table that only append_audit_event wrote, with whatever arguments. */
  ghost predicate Built(h: HashFunction, table: seq<Event>) {
    table == [] ||
    (var front, e := table[..|table| - 1], table[|table| - 1];
     && Built(h, front)
     && e == Appended(h, front, e.hashed.id, e.hashed.run, e.hashed.actor, e.hashed.eventType, e.hashed.payload,
                      e.hashed.occurredAt, e.stepId, e.stepAttemptId))
  }

  ghost predicate Numbered(rows: seq<Event>) {
    forall i :: 0 <= i < |rows| ==> rows[i].seqInRun == i + 1
  }

  lemma {:induction false} HighestIsLast(rows: seq<Event>)
    requires rows != [] && Numbered(rows)
    ensures Highest(rows) == rows[|rows| - 1]
  {
    if |rows| > 1 { HighestIsLast(rows[..|rows| - 1]); }
  }

  /** In append order every run's chain is numbered from one and intact. */
  lemma {:induction false} BuiltIsIntact(h: HashFunction, table: seq<Event>, run: Uuid)
    requires Built(h, table)
    ensures Numbered(ForRun(table, run)) && Accepted(h, ForRun(table, run))
  {
    hide Preimage;
    if table != [] {
      var front, e := table[..|table| - 1], table[|table| - 1];
      BuiltIsIntact(h, front, run);
      if e.hashed.run == run {
        var rows := ForRun(front, run);
        assert ForRun(table, run) == rows + [e];
        if rows != [] { HighestIsLast(rows); }
        IntactGrows(h, rows, e);
      }
    }
  }

  lemma IntactGrows(h: HashFunction, rows: seq<Event>, e: Event)
    requires Numbered(rows) && Accepted(h, rows)
    requires e.seqInRun == |rows| + 1 && e.hash == h(Preimage(e.hashed)) && e.hashed.prev == PrevOf(rows, |rows|)
    ensures Numbered(rows + [e]) && Accepted(h, rows + [e])
  {
    hide Preimage;
    var all := rows + [e];
    forall i | 0 <= i < |all| ensures GoodAt(h, all, i) {
      if i < |rows| { assert GoodAt(h, rows, i); }
    }
  }

  // ---------- honest chains ----------

  /** None of the first n rows was written at a later time than a row after it. */
  ghost predicate ClockKept(rows: seq<Event>, n: nat) {
    forall i, j :: 0 <= i < j < |rows| && i < n ==> Rank(rows[i].hashed.occurredAt) <= Rank(rows[j].hashed.occurredAt)
  }

  /** A chain that only append wrote verifies when no row that is read was written at a later time
      than a row after it. */
  lemma {:induction false} HonestChainAccepted(h: HashFunction, table: seq<Event>, run: Uuid)
    requires Built(h, table) && ClockKept(ForRun(table, run), LIMIT)
    ensures Accepted(h, Replay(table, run))
  {
    hide Preimage, Rank, Built;
    var rows := ForRun(table, run);
    var n := if |rows| <= LIMIT then |rows| else LIMIT;
    BuiltIsIntact(h, table, run);
    SortedSorts(rows);
    SamePrefix(Sorted(rows), rows, n);
    assert Replay(table, run) == Sorted(rows)[..n];
    AcceptedPrefix(h, rows, n);
  }

  /** Only a chain's own order verifies: any other list of its rows breaks a link, or two different
      rows have one hash. */
  lemma {:induction false} OnlyChainOrder(h: HashFunction, chain: seq<Event>, p: seq<Event>, n: nat)
    requires Accepted(h, chain) && IdsDistinct(chain) && Accepted(h, p)
    requires (forall e <- p :: e in chain) && n <= |p|
    ensures (n <= |chain| && p[..n] == chain[..n]) || CollisionAmong(h, chain, chain)
  {
    hide Preimage;
    if n > 0 {
      OnlyChainOrder(h, chain, p, n - 1);
      if !CollisionAmong(h, chain, chain) {
        NextIsNext(h, chain, p, n - 1);
        assert p[..n] == p[..n - 1] + [p[n - 1]] && chain[..n] == chain[..n - 1] + [chain[n - 1]];
      }
    }
  }

  lemma NextIsNext(h: HashFunction, chain: seq<Event>, p: seq<Event>, i: nat)
    requires Accepted(h, chain) && IdsDistinct(chain) && Accepted(h, p) && !CollisionAmong(h, chain, chain)
    requires (forall e <- p :: e in chain) && i < |p| && i <= |chain| && p[..i] == chain[..i]
    ensures i < |chain| && p[i] == chain[i]
  {
    hide Preimage;
    assert p[i] in p;
    var k :| 0 <= k < |chain| && chain[k] == p[i];
    assert GoodAt(h, chain, k) && GoodAt(h, p, i);
    if i > 0 && k > 0 {
      assert p[..i][i - 1] == chain[..i][i - 1];
      assert chain[k - 1].hash == chain[i - 1].hash;
      SameHashSameRow(h, chain, k - 1, i - 1);
    }
  }

  lemma SameHashSameRow(h: HashFunction, rows: seq<Event>, i: nat, j: nat)
    requires Accepted(h, rows) && IdsDistinct(rows) && !CollisionAmong(h, rows, rows)
    requires i < |rows| && j < |rows| && rows[i].hash == rows[j].hash
    ensures i == j
  {
    assert GoodAt(h, rows, i) && GoodAt(h, rows, j);
    var x, y := rows[i].hashed, rows[j].hashed;
    assert Preimage(x) == Preimage(y) by { assert !Collision(h, x, y); }
    HeadSplit(x, y);
    hide Preimage;
  }

  /** A sorted list that starts like `rows` puts none of those first rows before an earlier one. */
  lemma SortedStart(p: seq<Event>, rows: seq<Event>, n: nat)
    requires InOrder(p) && multiset(p) == multiset(rows) && n <= |rows| == |p| && p[..n] == rows[..n]
    ensures OrderedUpTo(rows, n)
  {
    hide Rank;
    RestSame(p, rows, n);
    forall i, j | 0 <= i < j < |rows| && i < n ensures NotAfter(rows[i], rows[j]) {
      assert p[..n][i] == rows[..n][i];
      if j < n {
        assert p[..n][j] == rows[..n][j];
      } else {
        SameMembers(p[n..], rows[n..], rows[j]);
        assert rows[n..][j - n] in rows[n..];
        var k :| 0 <= k < |p[n..]| && p[n..][k] == rows[j];
        assert NotAfter(p[i], p[n + k]);
      }
    }
  }

  /** Exactly when an honest chain verifies, whatever its length: none of the rows that are read was
      written at a later time than a row after it, unless two different rows hash alike. */
  lemma {:induction false} HonestChainAcceptedIff(h: HashFunction, table: seq<Event>, run: Uuid)
    requires Built(h, table) && IdsDistinct(ForRun(table, run))
    requires !CollisionAmong(h, ForRun(table, run), ForRun(table, run))
    ensures Accepted(h, Replay(table, run)) <==> ClockKept(ForRun(table, run), LIMIT)
  {
    hide Preimage, Rank, Built;
    var rows := ForRun(table, run);
    if ClockKept(rows, LIMIT) {
      HonestChainAccepted(h, table, run);
    }
    if Accepted(h, Replay(table, run)) {
      var p, n := Replay(table, run), if |rows| <= LIMIT then |rows| else LIMIT;
      BuiltIsIntact(h, table, run);
      SortedSorts(rows);
      SameSize(Sorted(rows), rows);
      assert p == Sorted(rows)[..n];
      forall e | e in p ensures e in rows { SameMembers(Sorted(rows), rows, e); }
      OnlyChainOrder(h, rows, p, n);
      SortedStart(Sorted(rows), rows, n);
    }
  }

  // ---------- the limit ----------

  lemma {:induction false} InsertLast(e: Event, sorted: seq<Event>, x: Event)
    requires NotAfter(e, x)
    ensures Insert(e, sorted + [x]) == Insert(e, sorted) + [x]
  {
    hide Rank;
    if sorted == [] {
      assert sorted + [x] == [x];
    } else if !NotAfter(e, sorted[0]) {
      assert (sorted + [x])[1..] == sorted[1..] + [x];
      InsertLast(e, sorted[1..], x);
    }
  }

  lemma {:induction false} SortLast(rows: seq<Event>, x: Event)
    requires forall i :: 0 <= i < |rows| ==> NotAfter(rows[i], x)
    ensures Sorted(rows + [x]) == Sorted(rows) + [x]
  {
    hide Rank;
    if rows == [] {
      assert rows + [x] == [x];
    } else {
      assert (rows + [x])[1..] == rows[1..] + [x];
      SortLast(rows[1..], x);
      InsertLast(rows[0], Sorted(rows[1..]), x);
    }
  }

  /** Past the limit the verifier is blind: a run with 1000 rows takes any later row, forged or
      not, without a change of what is checked. */
  lemma {:induction false} BeyondLimitUnchecked(table: seq<Event>, run: Uuid, forged: Event)
    requires |ForRun(table, run)| >= LIMIT && forged.hashed.run == run
    requires forall i :: 0 <= i < |ForRun(table, run)| ==> NotAfter(ForRun(table, run)[i], forged)
    ensures Replay(table + [forged], run) == Replay(table, run)
  {
    hide Rank, Sorted;
    var rows := ForRun(table, run);
    assert (table + [forged])[..|table|] == table;
    assert ForRun(table + [forged], run) == rows + [forged];
    SortLast(rows, forged);
    SortedSorts(rows);
    SameSize(Sorted(rows), rows);
  }

  /** The last digit decides only when the rest is equal. */
  lemma PackOrder(a: nat, b: nat, c: nat, d: nat, m: nat)
    requires b < m && d < m && (m == 100 || m == 1000000)
    ensures Pack(a, b, m) < Pack(c, d, m) <==> a < c || (a == c && b < d)
    ensures Pack(a, b, m) == Pack(c, d, m) <==> a == c && b == d
  {
  }

  lemma DayOrder(t: Time, u: Time)
    ensures DayOf(t) < DayOf(u) <==>
      t.year < u.year || (t.year == u.year && (t.month < u.month || (t.month == u.month && t.day < u.day)))
    ensures DayOf(t) == DayOf(u) <==> t.year == u.year && t.month == u.month && t.day == u.day
  {
    hide Pack;
    PackOrder(t.year, t.month, u.year, u.month, 100);
    PackOrder(Pack(t.year, t.month, 100), t.day, Pack(u.year, u.month, 100), u.day, 100);
  }

  lemma SecondOrder(t: Time, u: Time)
    ensures SecondOf(t) < SecondOf(u) <==>
      || DayOf(t) < DayOf(u)
      || (DayOf(t) == DayOf(u)
          && (t.hour < u.hour
              || (t.hour == u.hour && (t.minute < u.minute || (t.minute == u.minute && t.second < u.second)))))
    ensures SecondOf(t) == SecondOf(u) <==>
      DayOf(t) == DayOf(u) && t.hour == u.hour && t.minute == u.minute && t.second == u.second
  {
    hide Pack, DayOf;
    var hour, hour' := Pack(DayOf(t), t.hour, 100), Pack(DayOf(u), u.hour, 100);
    PackOrder(DayOf(t), t.hour, DayOf(u), u.hour, 100);
    PackOrder(hour, t.minute, hour', u.minute, 100);
    PackOrder(Pack(hour, t.minute, 100), t.second, Pack(hour', u.minute, 100), u.second, 100);
  }

  /** The rank orders timestamps by day, which is by year, month and day, then by second, which is by hour,
      minute and second, and then by microsecond. */
  lemma RankOrder(t: Time, u: Time)
    ensures Rank(t) < Rank(u) <==> SecondOf(t) < SecondOf(u) || (SecondOf(t) == SecondOf(u) && t.micro < u.micro)
    ensures Rank(t) == Rank(u) <==> t == u
  {
    hide Pack, DayOf, SecondOf;
    DayOrder(t, u);
    SecondOrder(t, u);
    PackOrder(SecondOf(t), t.micro, SecondOf(u), u.micro, 1000000);
  }

  /** What is read of a run: at most 1000 of its rows, in order of time and then of number, and none that
      is left out comes before one that is read. */
  lemma {:induction false} ReplayExact(table: seq<Event>, run: Uuid) returns (rest: seq<Event>)
    ensures var rows, read := ForRun(table, run), Replay(table, run);
      && |read| == (if |rows| <= 1000 then |rows| else 1000)
      && multiset(read + rest) == multiset(rows)
      && (forall i, j :: 0 <= i < j < |read| ==>
            var a, b := Rank(read[i].hashed.occurredAt), Rank(read[j].hashed.occurredAt);
            a < b || (a == b && read[i].seqInRun <= read[j].seqInRun))
      && (forall x <- read, y <- rest :: NotAfter(x, y))
  {
    var rows := ForRun(table, run);
    var sorted := Sorted(rows);
    SortedSorts(rows);
    SameSize(sorted, rows);
    var n := if |rows| <= LIMIT then |rows| else LIMIT;
    hide Sorted, ForRun, Rank;
    rest := sorted[n..];
    assert Replay(table, run) == sorted[..n] && sorted[..n] + rest == sorted;
    OrderSplit(sorted, n);
  }

  lemma OrderSplit(sorted: seq<Event>, n: nat)
    requires InOrder(sorted) && n <= |sorted|
    ensures forall x <- sorted[..n], y <- sorted[n..] :: NotAfter(x, y)
  {
    hide Rank, NotAfter;
    forall x, y | x in sorted[..n] && y in sorted[n..] ensures NotAfter(x, y) {
      var i :| 0 <= i < n && sorted[..n][i] == x;
      var j :| 0 <= j < |sorted| - n && sorted[n..][j] == y;
      assert NotAfter(sorted[i], sorted[n + j]);
    }
  }
}
