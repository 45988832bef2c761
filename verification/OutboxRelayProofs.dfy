/** What a relay batch does to the outbox and the queues, when it is broken, how batches drain the
    outbox or fail to, and that every batch is a run of the task protocol. */
module OutboxRelayProofs {
  import opened TaskProtocol
  import opened OutboxRelay

  // ---------- what a batch does ----------

  /** The row after its turn in a batch that is not broken. */
  function Handled(e: Entry, luck: nat -> Luck): Entry {
    if luck(e.id).fails then e.(attempts := e.attempts + 1) else e.(enqueued := true)
  }

  /** Where the row's task goes, if its push succeeds. */
  function ReadyOf(e: Entry, now: int, luck: nat -> Luck): seq<Payload> {
    if !luck(e.id).fails && e.due <= now then [Task(e.id, luck(e.id).clock)] else []
  }

  function DelayedOf(e: Entry, now: int, luck: nat -> Luck): map<Payload, int> {
    if !luck(e.id).fails && e.due > now then map[Task(e.id, luck(e.id).clock) := e.due] else map[]
  }

  /** The tasks pushed to ready by the first k rows, newest first. */
  ghost function SentReady(table: seq<Entry>, batch: seq<nat>, k: nat, now: int, luck: nat -> Luck): seq<Payload>
    requires k <= |batch| && Picks(batch, table)
  {
    if k == 0 then [] else ReadyOf(table[batch[k - 1]], now, luck) + SentReady(table, batch, k - 1, now, luck)
  }

  /** The tasks added to the delayed set by the first k rows, under their due times. */
  ghost function SentDelayed(table: seq<Entry>, batch: seq<nat>, k: nat, now: int, luck: nat -> Luck): map<Payload, int>
    requires k <= |batch| && Picks(batch, table)
  {
    if k == 0 then map[] else SentDelayed(table, batch, k - 1, now, luck) + DelayedOf(table[batch[k - 1]], now, luck)
  }

  lemma OneRow(p: Progress, i: nat, now: int, luck: nat -> Luck)
    requires p.Going? && i < |p.q.table| && !Breaks(p.q.table[i], luck)
    ensures var after, e := RelayOne(p, i, now, luck), p.q.table[i];
      && after.Going?
      && after.q == Queues(p.q.table[i := Handled(e, luck)], ReadyOf(e, now, luck) + p.q.ready,
                           p.q.delayed + DelayedOf(e, now, luck))
  {
    OneRowPushes(p, i, now, luck);
  }

  /** One row in full: a task whose push succeeds goes to ready when it is due by the batch's time, and to
      the delayed set under its due time otherwise; the row is marked, or its failure counted, and counts
      as relayed exactly if it is marked. */
  lemma OneRowExact(p: Progress, i: nat, now: int, luck: nat -> Luck)
    requires p.Going? && i < |p.q.table|
    ensures var after, e, l := RelayOne(p, i, now, luck), p.q.table[i], luck(p.q.table[i].id);
      && after.q.ready == (if !l.fails && e.due <= now then [Task(e.id, l.clock)] + p.q.ready else p.q.ready)
      && after.q.delayed == (if !l.fails && e.due > now then p.q.delayed[Task(e.id, l.clock) := e.due] else p.q.delayed)
      && (after.Broken? <==> if l.fails then e.attempts >= 10 else l.unmarked)
      && (after.Going? ==>
            && after.q.table == p.q.table[i := if l.fails then e.(attempts := e.attempts + 1) else e.(enqueued := true)]
            && after.relayed == p.relayed + if l.fails then 0 else 1)
  {
  }

  /** Whether or not it breaks the batch, a row pushes what it pushes. */
  lemma OneRowPushes(p: Progress, i: nat, now: int, luck: nat -> Luck)
    requires p.Going? && i < |p.q.table|
    ensures var after, e := RelayOne(p, i, now, luck), p.q.table[i];
      && after.q.ready == ReadyOf(e, now, luck) + p.q.ready
      && after.q.delayed == p.q.delayed + DelayedOf(e, now, luck)
      && (after.Broken? <==> Breaks(e, luck))
  {
    var e := p.q.table[i];
    if luck(e.id).fails || e.due > now { assert [] + p.q.ready == p.q.ready; }
    if luck(e.id).fails || e.due <= now { assert p.q.delayed + map[] == p.q.delayed; }
  }

  /** No row of the batch before position k breaks it. */
  ghost predicate Clean(table: seq<Entry>, batch: seq<nat>, k: nat, luck: nat -> Luck)
    requires k <= |batch| && Picks(batch, table)
  {
    forall a :: 0 <= a < k ==> !Breaks(table[batch[a]], luck)
  }

  /** A batch goes through exactly when none of its rows breaks it; then each of them has been handled
      once and no other row is touched. */
  lemma {:induction false} RelayedRows(q: Queues, batch: seq<nat>, k: nat, now: int, luck: nat -> Luck)
    requires k <= |batch| && Picks(batch, q.table)
    ensures var p := RelayAll(q, batch, k, now, luck);
      && (p.Going? <==> Clean(q.table, batch, k, luck))
      && (p.Going? ==>
            && (forall a :: 0 <= a < k ==>
                  var e := q.table[batch[a]];
                  p.q.table[batch[a]]
                  == if luck(e.id).fails then e.(attempts := e.attempts + 1) else e.(enqueued := true))
            && (forall a :: k <= a < |batch| ==> p.q.table[batch[a]] == q.table[batch[a]])
            && (forall i :: 0 <= i < |q.table| && i !in batch ==> p.q.table[i] == q.table[i]))
  {
    if k > 0 {
      RelayedRows(q, batch, k - 1, now, luck);
      var p := RelayAll(q, batch, k - 1, now, luck);
      if Clean(q.table, batch, k, luck) { OneRow(p, batch[k - 1], now, luck); }
      assert batch[k - 1] in batch;
    }
  }

  lemma QueuesAppend(a: seq<Payload>, b: seq<Payload>, c: seq<Payload>,
                     x: map<Payload, int>, y: map<Payload, int>, z: map<Payload, int>)
    ensures a + (b + c) == (a + b) + c && (x + y) + z == x + (y + z)
  {
  }

  /** Each row that is pushed goes to exactly one queue, chosen by its due time; this holds up to and
      with the row that breaks the batch. */
  lemma {:induction false} RelayedQueues(q: Queues, batch: seq<nat>, k: nat, now: int, luck: nat -> Luck)
    requires k <= |batch| && Picks(batch, q.table) && (k > 0 ==> Clean(q.table, batch, k - 1, luck))
    ensures var p := RelayAll(q, batch, k, now, luck);
      && p.q.ready == SentReady(q.table, batch, k, now, luck) + q.ready
      && p.q.delayed == q.delayed + SentDelayed(q.table, batch, k, now, luck)
  {
    if k > 0 {
      var p, e := RelayAll(q, batch, k - 1, now, luck), q.table[batch[k - 1]];
      RelayedQueues(q, batch, k - 1, now, luck);
      RelayedRows(q, batch, k - 1, now, luck);
      assert p.Going? && p.q.table[batch[k - 1]] == e;
      hide RelayOne, Clean, Picks, Breaks, ReadyOf, DelayedOf, Handled;
      OneRowPushes(p, batch[k - 1], now, luck);
      QueuesAppend(ReadyOf(e, now, luck), SentReady(q.table, batch, k - 1, now, luck), q.ready,
                   q.delayed, SentDelayed(q.table, batch, k - 1, now, luck), DelayedOf(e, now, luck));
    }
  }

  /** A broken batch leaves the outbox as it was, yet all rows up to the first that breaks it have been
      pushed, as far as their pushes succeed, and will be again; the rows behind it have not. */
  lemma {:induction false} BrokenBatch(q: Queues, a: nat, now: int, luck: nat -> Luck)
    requires a < |Batch(q.table)| && Picks(Batch(q.table), q.table)
    requires Clean(q.table, Batch(q.table), a, luck) && Breaks(q.table[Batch(q.table)[a]], luck)
    ensures var p := BatchOutcome(q, now, luck);
      && p.Broken?
      && Settled(q, p) == Queues(q.table, SentReady(q.table, Batch(q.table), a + 1, now, luck) + q.ready,
                                 q.delayed + SentDelayed(q.table, Batch(q.table), a + 1, now, luck))
  {
    hide Batch, RelayAll, SentReady, SentDelayed, Clean, Breaks;
    BreaksBatch(q, Batch(q.table), a, now, luck);
    RelayedQueues(q, Batch(q.table), a + 1, now, luck);
  }

  /** The first row that breaks the batch ends it. */
  lemma {:induction false} BreaksBatch(q: Queues, batch: seq<nat>, a: nat, now: int, luck: nat -> Luck)
    requires a < |batch| && Picks(batch, q.table) && Clean(q.table, batch, a, luck) && Breaks(q.table[batch[a]], luck)
    ensures RelayAll(q, batch, a + 1, now, luck).Broken?
    ensures RelayAll(q, batch, |batch|, now, luck) == RelayAll(q, batch, a + 1, now, luck)
  {
    RelayedRows(q, batch, a, now, luck);
    OneRowPushes(RelayAll(q, batch, a, now, luck), batch[a], now, luck);
    hide RelayOne;
    StaysBroken(q, batch, a + 1, |batch|, now, luck);
  }

  // ---------- batch after batch ----------

  ghost function Rounds(site: Site, rounds: seq<Round>): Site {
    if rounds == [] then site
    else RoundOutcome(Rounds(site, rounds[..|rounds| - 1]), rounds[|rounds| - 1])
  }

  /** While a row in the batch has used up its failures and keeps failing, no batch ever marks any
      row: the relay makes no progress at all. */
  lemma {:induction false} PoisonBlocksRelay(site: Site, rounds: seq<Round>, a: nat)
    requires var table := site.q.table;
      && a < |Batch(table)| && Picks(Batch(table), table)
      && var e := table[Batch(table)[a]];
         e.attempts >= MAX_FAILURES && forall i :: 0 <= i < |rounds| ==> rounds[i].luck(e.id).fails
    ensures Rounds(site, rounds).q.table == site.q.table
  {
    hide Batch;
    if rounds != [] {
      var n := |rounds| - 1;
      PoisonBlocksRelay(site, rounds[..n], a);
      var before := Rounds(site, rounds[..n]).q;
      RelayedRows(before, Batch(before.table), |Batch(before.table)|, rounds[n].now, rounds[n].luck);
      assert Breaks(site.q.table[Batch(site.q.table)[a]], rounds[n].luck);
    }
  }

  /** What the first a rows push in each of these rounds, latest first. */
  ghost function RepeatedReady(table: seq<Entry>, a: nat, rounds: seq<Round>): seq<Payload>
    requires Picks(Batch(table), table) && a <= |Batch(table)|
  {
    if rounds == [] then []
    else
      var r := rounds[|rounds| - 1];
      SentReady(table, Batch(table), a, r.now, r.luck) + RepeatedReady(table, a, rounds[..|rounds| - 1])
  }

  ghost function RepeatedDelayed(table: seq<Entry>, a: nat, rounds: seq<Round>): map<Payload, int>
    requires Picks(Batch(table), table) && a <= |Batch(table)|
  {
    if rounds == [] then map[]
    else
      var r := rounds[|rounds| - 1];
      RepeatedDelayed(table, a, rounds[..|rounds| - 1]) + SentDelayed(table, Batch(table), a, r.now, r.luck)
  }

  /** The round is on this connection, and row a of the batch is the first that breaks it. */
  ghost predicate BreaksRound(table: seq<Entry>, a: nat, r: Round, connection: nat)
    requires Picks(Batch(table), table) && a < |Batch(table)|
  {
    r.takes == connection && Clean(table, Batch(table), a, r.luck) && Breaks(table[Batch(table)[a]], r.luck)
  }

  lemma {:induction false} BrokenRound(site: Site, a: nat, r: Round, connection: nat)
    requires Picks(Batch(site.q.table), site.q.table) && a < |Batch(site.q.table)| && Free(site.lock, connection)
    requires BreaksRound(site.q.table, a, r, connection)
    ensures var table, batch := site.q.table, Batch(site.q.table);
      && RoundOutcome(site, r).lock == Acquired(site.lock, connection)
      && RoundOutcome(site, r).q == Queues(table, SentReady(table, batch, a + 1, r.now, r.luck) + site.q.ready,
                                           site.q.delayed + SentDelayed(table, batch, a + 1, r.now, r.luck))
  {
    hide Batch, BatchOutcome, SentReady, SentDelayed, Clean, Breaks, Picks;
    BrokenBatch(site.q, a, r.now, r.luck);
  }

  /** The connection that has the lock pushes the rows up to the one that breaks the batch again in
      every round, and piles up the lock. */
  lemma {:induction false} PoisonRepeatsPushes(site: Site, rounds: seq<Round>, a: nat, connection: nat)
    requires var table := site.q.table;
      && a < |Batch(table)| && Picks(Batch(table), table) && Free(site.lock, connection)
      && forall i :: 0 <= i < |rounds| ==> BreaksRound(table, a, rounds[i], connection)
    ensures var after := Rounds(site, rounds);
      && after.q == Queues(site.q.table, RepeatedReady(site.q.table, a + 1, rounds) + site.q.ready,
                           site.q.delayed + RepeatedDelayed(site.q.table, a + 1, rounds))
      && (rounds != [] ==>
            after.lock == Locked(connection, |rounds| + if site.lock.Locked? then site.lock.depth else 0))
    decreases |rounds|
  {
    hide Batch, BreaksRound, RoundOutcome, SentReady, SentDelayed, Picks;
    if rounds == [] {
      assert [] + site.q.ready == site.q.ready && site.q.delayed + map[] == site.q.delayed;
    } else {
      var n := |rounds| - 1;
      var front, r := rounds[..n], rounds[n];
      PoisonRepeatsPushes(site, front, a, connection);
      BrokenRound(Rounds(site, front), a, r, connection);
      QueuesAppend(SentReady(site.q.table, Batch(site.q.table), a + 1, r.now, r.luck),
                   RepeatedReady(site.q.table, a + 1, front), site.q.ready,
                   site.q.delayed, RepeatedDelayed(site.q.table, a + 1, front),
                   SentDelayed(site.q.table, Batch(site.q.table), a + 1, r.now, r.luck));
    }
  }

  /** A lock left behind is never released. */
  lemma {:induction false} LockNeverReleased(site: Site, rounds: seq<Round>)
    requires site.lock.Locked? && site.lock.depth >= 1
    ensures var after := Rounds(site, rounds).lock;
      after.Locked? && after.owner == site.lock.owner && after.depth >= site.lock.depth
  {
    hide BatchOutcome;
    if rounds != [] { LockNeverReleased(site, rounds[..|rounds| - 1]); }
  }

  /** From then on every other connection is shut out: its batches change nothing. */
  lemma {:induction false} OthersShutOut(site: Site, rounds: seq<Round>)
    requires site.lock.Locked? && forall i :: 0 <= i < |rounds| ==> rounds[i].takes != site.lock.owner
    ensures Rounds(site, rounds) == site
  {
    if rounds != [] { OthersShutOut(site, rounds[..|rounds| - 1]); }
  }

  /** Round i got the lock and left it behind: it broke, or its release ran on another connection. */
  ghost predicate LeaksAt(site: Site, rounds: seq<Round>, i: nat)
    requires i < |rounds|
  {
    var before, r := Rounds(site, rounds[..i]), rounds[i];
    Free(before.lock, r.takes) && (BatchOutcome(before.q, r.now, r.luck).Broken? || r.releases != r.takes)
  }

  ghost predicate NoneLeaks(site: Site, rounds: seq<Round>) {
    forall i :: 0 <= i < |rounds| ==> !LeaksAt(site, rounds, i)
  }

  lemma RoundLock(site: Site, r: Round)
    requires site.lock.Locked? ==> site.lock.depth >= 1
    ensures var after := RoundOutcome(site, r).lock;
      && (after.Unlocked? <==>
            site.lock.Unlocked? && BatchOutcome(site.q, r.now, r.luck).Going? && r.releases == r.takes)
      && (after.Locked? ==> after.depth >= 1)
  {
    hide BatchOutcome;
  }

  /** The lock is free after any rounds exactly when every round that took it committed, and released it
      on the connection that took it. */
  lemma {:induction false} LockFreeExactly(site: Site, rounds: seq<Round>)
    requires site.lock.Unlocked?
    ensures Rounds(site, rounds).lock.Unlocked? <==> NoneLeaks(site, rounds)
    ensures Rounds(site, rounds).lock.Locked? ==> Rounds(site, rounds).lock.depth >= 1
  {
    if rounds != [] {
      var n := |rounds| - 1;
      LockFreeExactly(site, rounds[..n]);
      LeaksSplit(site, rounds);
      RoundLock(Rounds(site, rounds[..n]), rounds[n]);
      hide RoundOutcome, BatchOutcome;
    }
  }

  lemma LeaksSplit(site: Site, rounds: seq<Round>)
    requires rounds != []
    ensures NoneLeaks(site, rounds) <==>
      NoneLeaks(site, rounds[..|rounds| - 1]) && !LeaksAt(site, rounds, |rounds| - 1)
  {
    LeaksAlike(site, rounds, |rounds| - 1);
    hide LeaksAt;
  }

  lemma LeaksAlike(site: Site, rounds: seq<Round>, n: nat)
    requires n <= |rounds|
    ensures forall i :: 0 <= i < n ==> (LeaksAt(site, rounds[..n], i) <==> LeaksAt(site, rounds, i))
  {
    hide BatchOutcome, Rounds;
    forall i | 0 <= i < n ensures LeaksAt(site, rounds[..n], i) <==> LeaksAt(site, rounds, i) {
      assert rounds[..n][..i] == rounds[..i];
    }
  }

  /** One healthy batch is enough: when its release runs on another connection, the lock stays, and no
      batch on any other connection than the one that took it does anything from then on. */
  lemma {:induction false} SplitReleaseShutsOthersOut(site: Site, r: Round, rounds: seq<Round>)
    requires site.lock.Unlocked? && r.releases != r.takes && BatchOutcome(site.q, r.now, r.luck).Going?
    requires forall i :: 0 <= i < |rounds| ==> rounds[i].takes != r.takes
    ensures RoundOutcome(site, r).lock == Locked(r.takes, 1)
    ensures Rounds(RoundOutcome(site, r), rounds) == RoundOutcome(site, r)
  {
    hide BatchOutcome;
    OthersShutOut(RoundOutcome(site, r), rounds);
  }

  // ---------- draining ----------

  ghost predicate Increasing(s: seq<nat>) {
    forall i, j :: 0 <= i < j < |s| ==> s[i] < s[j]
  }

  lemma TailMembers(s: seq<nat>, x: nat)
    requires Increasing(s) && s != []
    ensures x in s[1..] <==> x in s && x != s[0]
    ensures x in s ==> s[0] <= x
  {
    assert s == [s[0]] + s[1..];
  }

  ghost predicate SameElements(a: seq<nat>, b: seq<nat>) {
    forall x :: x in a <==> x in b
  }

  lemma HeadSame(a: seq<nat>, b: seq<nat>)
    requires Increasing(a) && Increasing(b) && SameElements(a, b) && a != [] && b != []
    ensures a[0] == b[0]
  {
    assert a[0] in a && b[0] in b;
    TailMembers(a, b[0]);
    TailMembers(b, a[0]);
  }

  lemma TailSame(a: seq<nat>, b: seq<nat>)
    requires Increasing(a) && Increasing(b) && SameElements(a, b) && a != [] && b != [] && a[0] == b[0]
    ensures Increasing(a[1..]) && Increasing(b[1..]) && SameElements(a[1..], b[1..])
  {
    forall x: nat ensures x in a[1..] <==> x in b[1..] {
      TailMembers(a, x);
      TailMembers(b, x);
    }
  }

  lemma EmptySame(a: seq<nat>, b: seq<nat>)
    requires SameElements(a, b)
    ensures a == [] <==> b == []
  {
    if a != [] { assert a[0] in b; }
    if b != [] { assert b[0] in a; }
  }

  lemma {:induction false} SameIncreasing(a: seq<nat>, b: seq<nat>)
    requires Increasing(a) && Increasing(b) && SameElements(a, b)
    ensures a == b
  {
    hide Increasing, SameElements;
    EmptySame(a, b);
    if a != [] {
      HeadSame(a, b);
      TailSame(a, b);
      SameIncreasing(a[1..], b[1..]);
      assert a == [a[0]] + a[1..] && b == [b[0]] + b[1..];
    }
  }

  /** The list without its first m elements. */
  function Without(s: seq<nat>, m: nat): seq<nat> { if |s| <= m then [] else s[m..] }

  ghost predicate NeverFails(luck: nat -> Luck) {
    forall id: nat :: !luck(id).fails && !luck(id).unmarked
  }

  /** Exactly the rows of the batch have been marked. */
  ghost predicate BatchMarked(table: seq<Entry>, after: seq<Entry>) {
    && |after| == |table| && Picks(Batch(table), table)
    && (forall a :: 0 <= a < |Batch(table)| ==> after[Batch(table)[a]].enqueued)
    && (forall i :: 0 <= i < |table| && i !in Batch(table) ==> after[i] == table[i])
  }

  lemma NoFailureMarks(q: Queues, now: int, luck: nat -> Luck)
    requires NeverFails(luck)
    ensures BatchOutcome(q, now, luck).Going?
    ensures BatchMarked(q.table, Settled(q, BatchOutcome(q, now, luck)).table)
  {
    BatchPicks(q.table);
    hide Batch;
    RelayedRows(q, Batch(q.table), |Batch(q.table)|, now, luck);
  }

  lemma {:induction false} MarkedDrains(table: seq<Entry>, after: seq<Entry>)
    requires BatchMarked(table, after)
    ensures var pending := Pending(table, |table|);
      Pending(after, |after|) == Without(pending, BATCH_LIMIT)
  {
    var pending, m := Pending(table, |table|), |Batch(table)|;
    PendingExact(table, |table|);
    PendingExact(after, |after|);
    assert Batch(table) == pending[..m];
    hide Batch, Pending;
    PendingRest(table, after, pending, m);
    SameIncreasing(Pending(after, |after|), pending[m..]);
  }

  /** A batch without failures takes exactly its own rows off the pending ones. */
  lemma BatchDrains(q: Queues, now: int, luck: nat -> Luck)
    requires NeverFails(luck)
    ensures BatchOutcome(q, now, luck).Going?
    ensures var pending, after := Pending(q.table, |q.table|), Settled(q, BatchOutcome(q, now, luck)).table;
      Pending(after, |after|) == Without(pending, BATCH_LIMIT)
  {
    NoFailureMarks(q, now, luck);
    hide BatchOutcome, BatchMarked, Settled, Pending;
    MarkedDrains(q.table, Settled(q, BatchOutcome(q, now, luck)).table);
  }

  lemma PendingRest(table: seq<Entry>, after: seq<Entry>, pending: seq<nat>, m: nat)
    requires m <= |pending| && |after| == |table| && Picks(pending[..m], table)
    requires forall i :: i in pending <==> 0 <= i < |table| && !table[i].enqueued
    requires forall a, b :: 0 <= a < b < |pending| ==> pending[a] < pending[b]
    requires forall a :: 0 <= a < m ==> after[pending[..m][a]].enqueued
    requires forall i :: 0 <= i < |table| && i !in pending[..m] ==> after[i] == table[i]
    ensures forall i :: i in pending[m..] <==> 0 <= i < |after| && !after[i].enqueued
  {
    assert pending == pending[..m] + pending[m..];
    forall i ensures i in pending[m..] <==> i in pending && i !in pending[..m] { }
  }

  lemma RoundDrains(site: Site, r: Round)
    requires NeverFails(r.luck)
    ensures var pending, after := Pending(site.q.table, |site.q.table|), RoundOutcome(site, r);
      Pending(after.q.table, |after.q.table|) == Without(pending, if Free(site.lock, r.takes) then BATCH_LIMIT else 0)
  {
    hide BatchOutcome, Pending, Settled;
    BatchDrains(site.q, r.now, r.luck);
  }

  /** How many of the rounds got the lock. */
  ghost function Got(site: Site, rounds: seq<Round>): nat {
    if rounds == [] then 0
    else
      var n := |rounds| - 1;
      Got(site, rounds[..n]) + if Free(Rounds(site, rounds[..n]).lock, rounds[n].takes) then 1 else 0
  }

  /** Without failures the batches that get the lock, n of them, mark exactly the first 100 n pending
      rows. */
  lemma {:induction false} RelayDrains(site: Site, rounds: seq<Round>)
    requires forall i :: 0 <= i < |rounds| ==> NeverFails(rounds[i].luck)
    ensures var pending, after := Pending(site.q.table, |site.q.table|), Rounds(site, rounds);
      Pending(after.q.table, |after.q.table|) == Without(pending, 100 * Got(site, rounds))
  {
    if rounds != [] {
      var n := |rounds| - 1;
      var before := Rounds(site, rounds[..n]);
      RelayDrains(site, rounds[..n]);
      RoundDrains(before, rounds[n]);
      hide RoundOutcome, Pending, NeverFails, Without;
      WithoutTwice(Pending(site.q.table, |site.q.table|), BATCH_LIMIT * Got(site, rounds[..n]),
                   if Free(before.lock, rounds[n].takes) then BATCH_LIMIT else 0);
    }
  }

  /** Every batch gets the lock when each release runs on the connection that took it, so that n batches
      mark the first 100 n pending rows. */
  lemma {:induction false} AllBatchesDrain(site: Site, rounds: seq<Round>)
    requires site.lock.Unlocked?
    requires forall i :: 0 <= i < |rounds| ==> NeverFails(rounds[i].luck) && rounds[i].releases == rounds[i].takes
    ensures Rounds(site, rounds).lock.Unlocked? && Got(site, rounds) == |rounds|
    ensures var pending, after := Pending(site.q.table, |site.q.table|), Rounds(site, rounds);
      Pending(after.q.table, |after.q.table|) == Without(pending, 100 * |rounds|)
  {
    RelayDrains(site, rounds);
    if rounds != [] {
      var n := |rounds| - 1;
      AllBatchesDrain(site, rounds[..n]);
      BatchDrains(Rounds(site, rounds[..n]).q, rounds[n].now, rounds[n].luck);
      hide BatchOutcome, Pending, NeverFails, Without, Settled;
      RoundLock(Rounds(site, rounds[..n]), rounds[n]);
    }
  }

  lemma WithoutTwice(s: seq<nat>, m: nat, k: nat)
    ensures Without(Without(s, m), k) == Without(s, m + k)
  {
  }

  // ---------- what is counted ----------

  /** The number a batch returns is the number of rows it took off the pending ones. */
  lemma {:induction false} RelayedCounts(q: Queues, batch: seq<nat>, k: nat, now: int, luck: nat -> Luck)
    requires k <= |batch| && Picks(batch, q.table) && Clean(q.table, batch, k, luck)
    ensures var p := RelayAll(q, batch, k, now, luck);
      p.Going? && p.relayed + |Pending(p.q.table, |p.q.table|)| == |Pending(q.table, |q.table|)|
  {
    RelayedRows(q, batch, k, now, luck);
    if k > 0 {
      RelayedCounts(q, batch, k - 1, now, luck);
      RelayedRows(q, batch, k - 1, now, luck);
      var p, i := RelayAll(q, batch, k - 1, now, luck), batch[k - 1];
      OneRowExact(p, i, now, luck);
      hide RelayOne, Clean, Pending, Breaks;
      PendingMarked(p.q.table, RelayOne(p, i, now, luck).q.table, i, |q.table|);
    }
  }

  /** Row i is in the batch and its push fails, and the batch goes through all the same. */
  ghost predicate FailsIn(site: Site, r: Round, i: nat) {
    && i in Batch(site.q.table) && i < |site.q.table| && r.luck(site.q.table[i].id).fails
    && Free(site.lock, r.takes) && BatchOutcome(site.q, r.now, r.luck).Going?
  }

  /** Each batch in which its push fails adds one to a row's failures and leaves it pending, so that it
      breaks the batch in which it would fail for the eleventh time. */
  lemma {:induction false} FailuresCounted(site: Site, rounds: seq<Round>, i: nat)
    requires i < |site.q.table| && !site.q.table[i].enqueued
    requires forall j :: 0 <= j < |rounds| ==> FailsIn(Rounds(site, rounds[..j]), rounds[j], i)
    ensures var after := Rounds(site, rounds).q.table;
      && |after| == |site.q.table|
      && after[i] == site.q.table[i].(attempts := site.q.table[i].attempts + |rounds|)
    ensures rounds != [] ==> site.q.table[i].attempts + |rounds| <= 10
  {
    if rounds != [] {
      var n := |rounds| - 1;
      var front := rounds[..n];
      forall j | 0 <= j < n ensures FailsIn(Rounds(site, front[..j]), front[j], i) {
        assert front[..j] == rounds[..j];
        assert FailsIn(Rounds(site, rounds[..j]), rounds[j], i);
      }
      FailuresCounted(site, front, i);
      assert FailsIn(Rounds(site, rounds[..n]), rounds[n], i);
      FailedOnce(Rounds(site, front), rounds[n], i);
      hide RoundOutcome, FailsIn;
    }
  }

  lemma FailedOnce(site: Site, r: Round, i: nat)
    requires FailsIn(site, r, i)
    ensures var after := RoundOutcome(site, r).q.table;
      && |after| == |site.q.table| && site.q.table[i].attempts < 10
      && after[i] == site.q.table[i].(attempts := site.q.table[i].attempts + 1)
  {
    var batch := Batch(site.q.table);
    BatchPicks(site.q.table);
    hide Batch;
    var a :| 0 <= a < |batch| && batch[a] == i;
    RelayedRows(site.q, batch, |batch|, r.now, r.luck);
    assert !Breaks(site.q.table[batch[a]], r.luck);
  }
}
