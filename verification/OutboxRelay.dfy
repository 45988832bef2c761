/** One relay batch: the first hundred pending outbox rows, in row order, are pushed to Redis and
    marked, all marks in one transaction. A push that fails counts against its row, which the table
    allows ten times; the eleventh failure breaks the transaction, and so does a row that cannot be
    marked after its push. */
module OutboxRelay {
  import opened TaskProtocol

  const BATCH_LIMIT: nat := 100
  const MAX_FAILURES: nat := 10

  datatype Entry = Entry(id: nat, due: int, enqueued: bool, attempts: nat)

  /** What happens when a row is pushed: the clock it is stamped with, whether the push fails, and
      whether a row that was pushed cannot be marked. */
  datatype Luck = Luck(clock: int, fails: bool, unmarked: bool)

  /** The outbox in row order, with the lists that the relay pushes to. */
  datatype Queues = Queues(table: seq<Entry>, ready: seq<Payload>, delayed: map<Payload, int>)

  datatype Progress = Going(q: Queues, relayed: nat) | Broken(q: Queues)

  // ---------- the rows of a batch ----------

  /** The positions of the pending rows among the first n, in order. */
  function Pending(table: seq<Entry>, n: nat): seq<nat>
    requires n <= |table|
  {
    if n == 0 then [] else Pending(table, n - 1) + if table[n - 1].enqueued then [] else [n - 1]
  }

  function Batch(table: seq<Entry>): seq<nat> {
    var pending := Pending(table, |table|);
    if |pending| <= BATCH_LIMIT then pending else pending[..BATCH_LIMIT]
  }

  lemma {:induction false} PendingExact(table: seq<Entry>, n: nat)
    requires n <= |table|
    ensures forall i :: i in Pending(table, n) <==> 0 <= i < n && !table[i].enqueued
    ensures forall a, b :: 0 <= a < b < |Pending(table, n)| ==> Pending(table, n)[a] < Pending(table, n)[b]
  {
    if n > 0 {
      PendingExact(table, n - 1);
      var front := Pending(table, n - 1);
      assert forall a :: 0 <= a < |front| ==> front[a] in front;
    }
  }

  /** Marking one pending row takes it off the pending ones. */
  lemma {:induction false} PendingMarked(table: seq<Entry>, after: seq<Entry>, i: nat, n: nat)
    requires |after| == |table| && n <= |table| && i < |table| && !table[i].enqueued
    requires forall j :: 0 <= j < |table| && j != i ==> after[j].enqueued == table[j].enqueued
    ensures |Pending(after, n)| == |Pending(table, n)| - (if i < n && after[i].enqueued then 1 else 0)
  {
    if n > 0 { PendingMarked(table, after, i, n - 1); }
  }

  // ---------- one row, and a batch ----------

  /** The row breaks the transaction: its counter cannot be raised once more, or its mark fails. */
  predicate Breaks(e: Entry, luck: nat -> Luck) {
    if luck(e.id).fails then e.attempts >= MAX_FAILURES else luck(e.id).unmarked
  }

  function RelayOne(p: Progress, i: nat, now: int, luck: nat -> Luck): Progress
    requires p.Going? ==> i < |p.q.table|
  {
    if p.Broken? then p
    else
      var e := p.q.table[i];
      if luck(e.id).fails then
        if Breaks(e, luck) then Broken(p.q)
        else Going(p.q.(table := p.q.table[i := e.(attempts := e.attempts + 1)]), p.relayed)
      else
        var task := Task(e.id, luck(e.id).clock);
        var pushed := if e.due <= now then p.q.(ready := Push(p.q.ready, task))
                      else p.q.(delayed := p.q.delayed[task := e.due]);
        if Breaks(e, luck) then Broken(pushed)
        else Going(pushed.(table := pushed.table[i := e.(enqueued := true)]), p.relayed + 1)
  }

  /** Positions of a table, each named once, in order. */
  ghost predicate Picks(batch: seq<nat>, table: seq<Entry>) {
    && (forall a :: 0 <= a < |batch| ==> batch[a] < |table| && !table[batch[a]].enqueued)
    && (forall a, b :: 0 <= a < b < |batch| ==> batch[a] < batch[b])
  }

  /** The first k rows of the batch relayed. */
  ghost function RelayAll(q: Queues, batch: seq<nat>, k: nat, now: int, luck: nat -> Luck): (p: Progress)
    requires k <= |batch| && Picks(batch, q.table)
    ensures |p.q.table| == |q.table|
  {
    if k == 0 then Going(q, 0) else RelayOne(RelayAll(q, batch, k - 1, now, luck), batch[k - 1], now, luck)
  }

  /** A broken transaction loses the marks and counters, but not what was pushed. */
  function Settled(q: Queues, p: Progress): Queues {
    if p.Going? then p.q else p.q.(table := q.table)
  }

  lemma BatchPicks(table: seq<Entry>)
    ensures Picks(Batch(table), table)
  {
    PendingExact(table, |table|);
    forall a | 0 <= a < |Batch(table)| ensures Batch(table)[a] < |table| && !table[Batch(table)[a]].enqueued {
      assert Batch(table)[a] == Pending(table, |table|)[a];
      assert Batch(table)[a] in Pending(table, |table|);
    }
  }

  ghost function BatchOutcome(q: Queues, now: int, luck: nat -> Luck): Progress {
    BatchPicks(q.table);
    RelayAll(q, Batch(q.table), |Batch(q.table)|, now, luck)
  }

  // ---------- the advisory lock ----------

  /** The lock belongs to a database connection, which may take it again and has to release it as
      often as it took it. */
  datatype Lock = Unlocked | Locked(owner: nat, depth: nat)

  predicate Free(lock: Lock, connection: nat) {
    lock.Locked? ==> lock.owner == connection
  }

  function Acquired(lock: Lock, connection: nat): Lock
    requires Free(lock, connection)
  {
    if lock.Unlocked? then Locked(connection, 1) else Locked(connection, lock.depth + 1)
  }

  /** A release on a connection that does not own the lock changes nothing. */
  function Released(lock: Lock, connection: nat): Lock {
    if lock.Unlocked? || lock.owner != connection then lock
    else if lock.depth <= 1 then Unlocked
    else Locked(lock.owner, lock.depth - 1)
  }

  datatype Site = Site(q: Queues, lock: Lock)

  /** One batch: nothing without the lock, which is taken on one connection. The commit hands that
      connection back to the pool, so the release may run on another one. In a broken transaction the
      release fails, and the lock stays with the connection that took it. */
  datatype Round = Round(takes: nat, releases: nat, now: int, luck: nat -> Luck)

  ghost function RoundOutcome(site: Site, r: Round): Site {
    if !Free(site.lock, r.takes) then site
    else
      var p, taken := BatchOutcome(site.q, r.now, r.luck), Acquired(site.lock, r.takes);
      Site(Settled(site.q, p), if p.Going? then Released(taken, r.releases) else taken)
  }

  // ---------- the relay ----------

  class Relay {
    var table: seq<Entry>
    var ready: seq<Payload>
    var delayed: map<Payload, int>
    var lock: Lock

    ghost function Snapshot(): Queues
      reads this
    {
      Queues(table, ready, delayed)
    }

    method GetPending(limit: nat) returns (batch: seq<nat>)
      ensures var pending := Pending(table, |table|);
        batch == if |pending| <= limit then pending else pending[..limit]
    {
      batch := [];
      for i := 0 to |table|
        invariant batch == Pending(table, i)
      {
        if !table[i].enqueued { batch := batch + [i]; }
      }
      if |batch| > limit { batch := batch[..limit]; }
    }

    /** One row: pushed and marked, or its failure counted, unless that breaks the transaction. */
    method RelayEntry(i: nat, relayed: nat, now: int, luck: nat -> Luck) returns (ok: bool, total: nat)
      requires i < |table| && !table[i].enqueued
      modifies this`table, this`ready, this`delayed
      ensures |table| == |old(table)| && forall j :: 0 <= j < |table| && j != i ==> table[j] == old(table)[j]
      ensures ok ==> total + |Pending(table, |table|)| == relayed + |Pending(old(table), |old(table)|)|
      ensures RelayOne(Going(old(Snapshot()), relayed), i, now, luck)
              == if ok then Going(Snapshot(), total) else Broken(Snapshot())
    {
      hide Pending;
      var e := table[i];
      if luck(e.id).fails {
        if e.attempts >= MAX_FAILURES { return false, relayed; }
        table := table[i := e.(attempts := e.attempts + 1)];
        PendingMarked(old(table), table, i, |table|);
        return true, relayed;
      }
      var task := Task(e.id, luck(e.id).clock);
      if e.due <= now { ready := Push(ready, task); } else { delayed := delayed[task := e.due]; }
      if luck(e.id).unmarked { return false, relayed; }
      table := table[i := e.(enqueued := true)];
      PendingMarked(old(table), table, i, |table|);
      return true, relayed + 1;
    }

    /** The rows of the batch in turn, up to the one that breaks the transaction. */
    method RelayRows(batch: seq<nat>, now: int, luck: nat -> Luck) returns (ok: bool, relayed: nat)
      requires Picks(batch, table)
      modifies this`table, this`ready, this`delayed
      ensures RelayAll(old(Snapshot()), batch, |batch|, now, luck)
              == if ok then Going(Snapshot(), relayed) else Broken(Snapshot())
      ensures ok ==> relayed == |Pending(old(table), |old(table)|)| - |Pending(table, |table|)|
    {
      ok, relayed := true, 0;
      hide RelayOne, Pending;
      for k := 0 to |batch|
        invariant ok && |table| == |old(table)| && Picks(batch, old(table))
        invariant forall a :: k <= a < |batch| ==> table[batch[a]] == old(table)[batch[a]]
        invariant relayed + |Pending(table, |table|)| == |Pending(old(table), |old(table)|)|
        invariant RelayAll(old(Snapshot()), batch, k, now, luck) == Going(Snapshot(), relayed)
      {
        ok, relayed := RelayEntry(batch[k], relayed, now, luck);
        if !ok {
          StaysBroken(old(Snapshot()), batch, k + 1, |batch|, now, luck);
          return;
        }
      }
    }

    /** `ok` tells that no exception was raised. */
    method RelayBatch(r: Round) returns (ok: bool, relayed: nat)
      modifies this
      ensures Site(Snapshot(), lock) == RoundOutcome(Site(old(Snapshot()), old(lock)), r)
      ensures var p, free := BatchOutcome(old(Snapshot()), r.now, r.luck), Free(old(lock), r.takes);
        ok == (!free || p.Going?) && (ok ==> relayed == if free then p.relayed else 0)
      ensures ok ==> relayed == |Pending(old(table), |old(table)|)| - |Pending(table, |table|)|
    {
      if !Free(lock, r.takes) { return true, 0; }
      lock := Acquired(lock, r.takes);
      var before := table;
      var batch := GetPending(BATCH_LIMIT);
      BatchPicks(table);
      assert batch == Batch(table);
      hide Batch, Pending, Picks, RelayAll;
      ok, relayed := RelayRows(batch, r.now, r.luck);
      if ok { lock := Released(lock, r.releases); } else { table := before; }
    }
  }

  /** Once broken, the rest of the batch is not looked at. */
  lemma {:induction false} StaysBroken(q: Queues, batch: seq<nat>, k: nat, n: nat, now: int, luck: nat -> Luck)
    requires k <= n <= |batch| && Picks(batch, q.table) && RelayAll(q, batch, k, now, luck).Broken?
    ensures RelayAll(q, batch, n, now, luck) == RelayAll(q, batch, k, now, luck)
    decreases n
  {
    if k < n { StaysBroken(q, batch, k, n - 1, now, luck); }
  }
}
