/** Every relay batch, committed or broken, is a run of the task protocol: begin, one push for each
    task that gets through, and a commit or a stop. So what holds of every interleaving of the
    protocol holds with the relay's own loop in it. */
module OutboxRefinement {
  import opened Wrappers
  import opened TaskProtocol
  import opened OutboxRelay
  import opened OutboxRelayProofs

  /** Each row of the outbox is a row of the protocol, and row identifiers are unique. */
  ghost predicate Agrees(table: seq<Entry>, rows: map<nat, Row>) {
    && (forall i :: 0 <= i < |table| ==>
          table[i].id in rows && rows[table[i].id] == Row(table[i].due, table[i].enqueued))
    && (forall i, j :: 0 <= i < j < |table| ==> table[i].id != table[j].id)
  }

  /** The tasks that the first k rows of a batch pushed. */
  ghost function SentIds(table: seq<Entry>, batch: seq<nat>, k: nat, luck: nat -> Luck): set<nat>
    requires k <= |batch| && Picks(batch, table)
  {
    if k == 0 then {}
    else
      var e := table[batch[k - 1]];
      SentIds(table, batch, k - 1, luck) + if luck(e.id).fails then {} else {e.id}
  }

  /** The clock after the first k rows. */
  ghost function ClockAfter(table: seq<Entry>, batch: seq<nat>, k: nat, now: int, luck: nat -> Luck): int
    requires k <= |batch| && Picks(batch, table)
  {
    if k == 0 then now
    else
      var e := table[batch[k - 1]];
      if luck(e.id).fails then ClockAfter(table, batch, k - 1, now, luck) else luck(e.id).clock
  }

  /** The clock never goes back during the batch. */
  ghost predicate Steady(table: seq<Entry>, batch: seq<nat>, now: int, luck: nat -> Luck)
    requires Picks(batch, table)
  {
    forall k :: 0 <= k < |batch| && !luck(table[batch[k]].id).fails ==>
      ClockAfter(table, batch, k, now, luck) <= luck(table[batch[k]].id).clock
  }

  /** The protocol state in the middle of a batch. */
  ghost function Midway(s: State, k: nat, now: int, clock: int, ids: set<nat>, q: Queues): State
    requires k < |s.procs|
  {
    s.(clock := clock, ready := q.ready, delayed := q.delayed, pushed := s.pushed + ids,
       procs := s.procs[k := Relaying(now, ids)])
  }

  /** One row that gets through is a tick and a push of the protocol. */
  lemma PushStep(s: State, k: nat, now: int, clock: int, ids: set<nat>, q: Queues, e: Entry, luck: nat -> Luck)
    requires k < |s.procs| && e.id in s.rows && s.rows[e.id] == Row(e.due, false)
    requires !luck(e.id).fails && clock <= luck(e.id).clock
    ensures var t, c := Midway(s, k, now, clock, ids, q), luck(e.id).clock;
      && Enabled(t, Tick(c)) && Enabled(Step(t, Tick(c)), RelayPush(k, e.id))
      && Step(Step(t, Tick(c)), RelayPush(k, e.id))
         == Midway(s, k, now, c, ids + {e.id},
                   q.(ready := ReadyOf(e, now, luck) + q.ready, delayed := q.delayed + DelayedOf(e, now, luck)))
  {
    var t, c := Midway(s, k, now, clock, ids, q), luck(e.id).clock;
    var u := Step(t, Tick(c));
    assert u == Midway(s, k, now, c, ids, q);
    var v := Step(u, RelayPush(k, e.id));
    assert v == RelayPushed(u, k, e.id);
    assert v.pushed == s.pushed + (ids + {e.id});
    assert v.procs == s.procs[k := Relaying(now, ids + {e.id})];
    assert v.ready == ReadyOf(e, now, luck) + q.ready;
    assert v.delayed == q.delayed + DelayedOf(e, now, luck);
  }

  /** The protocol and the relay stand at the same point of the same batch. */
  ghost predicate InStep(s: State, k: nat, q: Queues) {
    && k < |s.procs| && s.procs[k].Idle? && s.ready == q.ready && s.delayed == q.delayed && Agrees(q.table, s.rows)
  }

  /** The protocol state that the first j rows of the batch lead to. */
  ghost function After(s: State, k: nat, q: Queues, batch: seq<nat>, j: nat, luck: nat -> Luck): State
    requires k < |s.procs| && j <= |batch| && Picks(batch, q.table)
  {
    Midway(s, k, s.clock, ClockAfter(q.table, batch, j, s.clock, luck), SentIds(q.table, batch, j, luck),
           RelayAll(q, batch, j, s.clock, luck).q)
  }

  lemma {:induction false} AfterOneMore(s: State, k: nat, q: Queues, batch: seq<nat>, j: nat, luck: nat -> Luck)
    requires InStep(s, k, q) && j < |batch| && Picks(batch, q.table) && Clean(q.table, batch, j, luck)
    ensures var e, p := q.table[batch[j]], RelayAll(q, batch, j, s.clock, luck);
      && e.id in s.rows && s.rows[e.id] == Row(e.due, false)
      && After(s, k, q, batch, j + 1, luck)
         == Midway(s, k, s.clock,
                   if luck(e.id).fails then ClockAfter(q.table, batch, j, s.clock, luck) else luck(e.id).clock,
                   SentIds(q.table, batch, j, luck) + (if luck(e.id).fails then {} else {e.id}),
                   p.q.(ready := ReadyOf(e, s.clock, luck) + p.q.ready,
                        delayed := p.q.delayed + DelayedOf(e, s.clock, luck)))
  {
    var e, p := q.table[batch[j]], RelayAll(q, batch, j, s.clock, luck);
    RelayedRows(q, batch, j, s.clock, luck);
    assert p.q.table[batch[j]] == e;
    OneRowPushes(p, batch[j], s.clock, luck);
    hide RelayOne, ReadyOf, DelayedOf, Clean;
  }

  /** One more row of the batch at the end of a run. */
  lemma RowRuns(s: State, k: nat, q: Queues, batch: seq<nat>, j: nat, luck: nat -> Luck, front: seq<Action>)
    returns (actions: seq<Action>)
    requires InStep(s, k, q) && j < |batch| && Picks(batch, q.table) && Steady(q.table, batch, s.clock, luck)
    requires Clean(q.table, batch, j, luck) && Run(s, front) == Some(After(s, k, q, batch, j, luck))
    ensures Run(s, actions) == Some(After(s, k, q, batch, j + 1, luck))
  {
    hide Run;
    var e, p := q.table[batch[j]], RelayAll(q, batch, j, s.clock, luck);
    var clock, ids := ClockAfter(q.table, batch, j, s.clock, luck), SentIds(q.table, batch, j, luck);
    var t := After(s, k, q, batch, j, luck);
    assert !luck(e.id).fails ==> clock <= luck(e.id).clock;
    AfterOneMore(s, k, q, batch, j, luck);
    hide Step, Enabled, RelayAll, ClockAfter, SentIds, Steady, Picks, Clean, Agrees;
    if luck(e.id).fails {
      actions := front;
      assert [] + p.q.ready == p.q.ready && p.q.delayed + map[] == p.q.delayed && ids + {} == ids;
    } else {
      var tick, push := Tick(luck(e.id).clock), RelayPush(k, e.id);
      PushStep(s, k, s.clock, clock, ids, p.q, e, luck);
      RunOn(s, front, t, tick);
      RunOn(s, front + [tick], Step(t, tick), push);
      actions := front + [tick] + [push];
    }
  }

  lemma {:induction false} BatchRuns(s: State, k: nat, q: Queues, batch: seq<nat>, j: nat, luck: nat -> Luck)
    returns (actions: seq<Action>)
    requires InStep(s, k, q) && j <= |batch| && Picks(batch, q.table) && Steady(q.table, batch, s.clock, luck)
    requires j > 0 ==> Clean(q.table, batch, j - 1, luck)
    ensures Run(s, actions) == Some(After(s, k, q, batch, j, luck))
  {
    if j == 0 {
      actions := [RelayBegin(k)];
      BatchBegins(s, k, q);
    } else {
      hide Run, InStep, After, Picks, Steady;
      var front := BatchRuns(s, k, q, batch, j - 1, luck);
      actions := RowRuns(s, k, q, batch, j - 1, luck, front);
    }
  }

  lemma {:induction false} BatchBegins(s: State, k: nat, q: Queues)
    requires InStep(s, k, q)
    ensures Run(s, [RelayBegin(k)]) == Some(Midway(s, k, s.clock, s.clock, {}, q))
  {
    assert Run(s, []) == Some(s);
    RunOn(s, [], s, RelayBegin(k));
    assert [] + [RelayBegin(k)] == [RelayBegin(k)];
    assert s.pushed + {} == s.pushed;
  }

  lemma {:induction false} SentIdsExact(table: seq<Entry>, batch: seq<nat>, k: nat, luck: nat -> Luck, id: nat)
    requires k <= |batch| && Picks(batch, table)
    ensures id in SentIds(table, batch, k, luck) <==>
      exists a :: 0 <= a < k && table[batch[a]].id == id && !luck(id).fails
  {
    if k > 0 {
      SentIdsExact(table, batch, k - 1, luck, id);
      var e := table[batch[k - 1]];
      if e.id == id && !luck(id).fails { assert 0 <= k - 1 < k && table[batch[k - 1]].id == id; }
    }
  }

  /** The marks of a committed batch are those the protocol makes. */
  lemma {:induction false} MarksAgree(q: Queues, rows: map<nat, Row>, batch: seq<nat>, now: int, luck: nat -> Luck)
    requires Agrees(q.table, rows) && Picks(batch, q.table) && Clean(q.table, batch, |batch|, luck)
    ensures Agrees(RelayAll(q, batch, |batch|, now, luck).q.table, Marked(rows, SentIds(q.table, batch, |batch|, luck)))
  {
    RelayedRows(q, batch, |batch|, now, luck);
    var after, ids := RelayAll(q, batch, |batch|, now, luck).q.table, SentIds(q.table, batch, |batch|, luck);
    hide RelayAll, SentIds;
    forall i | 0 <= i < |after|
      ensures after[i].id == q.table[i].id && after[i].due == q.table[i].due
      ensures after[i].enqueued <==> q.table[i].enqueued || q.table[i].id in ids
    {
      SentIdsExact(q.table, batch, |batch|, luck, q.table[i].id);
      if i in batch {
        var a :| 0 <= a < |batch| && batch[a] == i;
        assert after[batch[a]] == Handled(q.table[batch[a]], luck);
      }
    }
  }

  /** The protocol state after a batch that pushed `ids`; `rows` are its outbox rows by then. */
  ghost function Ended(s: State, clock: int, ids: set<nat>, q: Queues, rows: map<nat, Row>): State {
    s.(clock := clock, ready := q.ready, delayed := q.delayed, pushed := s.pushed + ids, rows := rows)
  }

  lemma BatchEnds(s: State, k: nat, now: int, clock: int, ids: set<nat>, q: Queues)
    requires k < |s.procs| && s.procs[k].Idle?
    ensures var m := Midway(s, k, now, clock, ids, q);
      && Enabled(m, RelayCommit(k)) && Step(m, RelayCommit(k)) == Ended(s, clock, ids, q, Marked(s.rows, ids))
      && Enabled(m, Stop(k)) && Step(m, Stop(k)) == Ended(s, clock, ids, q, s.rows)
  {
    var m := Midway(s, k, now, clock, ids, q);
    assert m.procs[k := Idle] == s.procs;
  }

  /** From any protocol state that agrees with the relay's tables, the actions below lead the
      protocol to a state that agrees with what the batch leaves; nothing else is touched. */
  lemma BatchIsProtocolRun(s: State, k: nat, q: Queues, luck: nat -> Luck)
    returns (actions: seq<Action>, t: State)
    requires InStep(s, k, q) && Picks(Batch(q.table), q.table) && Steady(q.table, Batch(q.table), s.clock, luck)
    ensures Run(s, actions) == Some(t) && InStep(t, k, Settled(q, BatchOutcome(q, s.clock, luck)))
    ensures exists clock, ids, rows :: t == Ended(s, clock, ids, Settled(q, BatchOutcome(q, s.clock, luck)), rows)
  {
    hide Batch;
    if Clean(q.table, Batch(q.table), |Batch(q.table)|, luck) {
      actions, t := CommittedBatch(s, k, q, Batch(q.table), luck);
    } else {
      var a := FirstBreak(q.table, Batch(q.table), luck);
      actions, t := BrokenBatchRuns(s, k, q, Batch(q.table), a, luck);
    }
  }

  lemma CommittedBatch(s: State, k: nat, q: Queues, batch: seq<nat>, luck: nat -> Luck)
    returns (actions: seq<Action>, t: State)
    requires InStep(s, k, q) && Picks(batch, q.table) && Steady(q.table, batch, s.clock, luck)
    requires Clean(q.table, batch, |batch|, luck)
    ensures Run(s, actions) == Some(t) && RelayAll(q, batch, |batch|, s.clock, luck).Going?
    ensures InStep(t, k, RelayAll(q, batch, |batch|, s.clock, luck).q)
    ensures exists clock, ids, rows :: t == Ended(s, clock, ids, RelayAll(q, batch, |batch|, s.clock, luck).q, rows)
  {
    var n := |batch|;
    RelayedRows(q, batch, n, s.clock, luck);
    MarksAgree(q, s.rows, batch, s.clock, luck);
    actions := BatchRuns(s, k, q, batch, n, luck);
    hide Run, Step, Enabled, RelayAll, SentIds, ClockAfter, Clean, Picks, Steady, Agrees, Marked;
    var clock, ids, after := ClockAfter(q.table, batch, n, s.clock, luck), SentIds(q.table, batch, n, luck),
                             RelayAll(q, batch, n, s.clock, luck).q;
    BatchEnds(s, k, s.clock, clock, ids, after);
    RunOn(s, actions, After(s, k, q, batch, n, luck), RelayCommit(k));
    actions, t := actions + [RelayCommit(k)], Ended(s, clock, ids, after, Marked(s.rows, ids));
  }

  lemma BrokenBatchRuns(s: State, k: nat, q: Queues, batch: seq<nat>, a: nat, luck: nat -> Luck)
    returns (actions: seq<Action>, t: State)
    requires InStep(s, k, q) && Picks(batch, q.table) && Steady(q.table, batch, s.clock, luck)
    requires a < |batch| && Clean(q.table, batch, a, luck) && Breaks(q.table[batch[a]], luck)
    ensures var p := RelayAll(q, batch, |batch|, s.clock, luck);
      && p.Broken? && Run(s, actions) == Some(t) && InStep(t, k, Settled(q, p))
      && exists clock, ids, rows :: t == Ended(s, clock, ids, Settled(q, p), rows)
  {
    var n := a + 1;
    BreaksBatch(q, batch, a, s.clock, luck);
    var after := RelayAll(q, batch, n, s.clock, luck).q;
    actions := BatchRuns(s, k, q, batch, n, luck);
    hide Run, Step, Enabled, RelayAll, SentIds, ClockAfter, Clean, Picks, Steady, Agrees, Marked;
    var clock, ids := ClockAfter(q.table, batch, n, s.clock, luck), SentIds(q.table, batch, n, luck);
    BatchEnds(s, k, s.clock, clock, ids, after);
    RunOn(s, actions, After(s, k, q, batch, n, luck), Stop(k));
    actions, t := actions + [Stop(k)], Ended(s, clock, ids, after, s.rows);
    assert t == Ended(s, clock, ids, Settled(q, Broken(after)), s.rows);
  }

  lemma FirstBreak(table: seq<Entry>, batch: seq<nat>, luck: nat -> Luck) returns (a: nat)
    requires Picks(batch, table) && !Clean(table, batch, |batch|, luck)
    ensures a < |batch| && Clean(table, batch, a, luck) && Breaks(table[batch[a]], luck)
  {
    a := 0;
    while !Breaks(table[batch[a]], luck)
      invariant a < |batch| && Clean(table, batch, a, luck)
      decreases |batch| - a
    {
      a := a + 1;
    }
  }
}
