/** The scheduler's promotion loop and the reaper's sweep of a list are runs of the task protocol: from
    any protocol state that mirrors their queues, some actions lead to a state that mirrors what
    they leave, and touch nothing else. */
module QueueRefinement {
  import opened Wrappers
  import opened Lists
  import opened TaskProtocol
  import D = DelayedQueue
  import R = Reaper

  // ---------- the scheduler ----------

  /** The protocol's delayed set and ready list, with every payload as its bytes. */
  ghost predicate Mirrors(s: State, delayed: map<D.Member, int>, ready: seq<D.Member>, bytes: Payload -> D.Member) {
    && (forall p :: p in s.delayed ==> bytes(p) in delayed && delayed[bytes(p)] == s.delayed[p])
    && (forall x :: x in delayed ==> exists p :: p in s.delayed && bytes(p) == x)
    && ready == Image(bytes, s.ready)
  }

  /** The first member in pop order is a payload that the protocol may pop. */
  lemma FirstPops(s: State, k: nat, delayed: map<D.Member, int>, ready: seq<D.Member>, bytes: Payload -> D.Member,
                                     x: D.Member) returns (p: Payload)
    requires Mirrors(s, delayed, ready, bytes) && D.First(delayed, x) && k < |s.procs| && s.procs[k].Scheduling?
    ensures p in s.delayed && bytes(p) == x && s.delayed[p] == delayed[x] && Enabled(s, SchedulePop(k, p))
  {
    hide D.LexLess;
    p :| p in s.delayed && bytes(p) == x;
    forall q | q in s.delayed ensures s.delayed[p] <= s.delayed[q] {
      if bytes(q) != x { assert D.Before(delayed, x, bytes(q)); }
    }
  }

  lemma RemoveMirrors(s: State, t: State, delayed: map<D.Member, int>, ready: seq<D.Member>,
                                         bytes: Payload -> D.Member, p: Payload)
    requires Injective(bytes) && Mirrors(s, delayed, ready, bytes) && p in s.delayed
    requires t.delayed == s.delayed - {p} && t.ready == [p] + s.ready
    ensures Mirrors(t, delayed - {bytes(p)}, [bytes(p)] + ready, bytes)
  {
    forall x | x in delayed - {bytes(p)} ensures exists q :: q in t.delayed && bytes(q) == x {
      var q :| q in s.delayed && bytes(q) == x;
      assert q in t.delayed;
    }
    assert Image(bytes, t.ready) == [bytes(p)] + Image(bytes, s.ready);
  }

  /** Promoting a due member is a pop and a push of the protocol. */
  lemma PopAndPush(s: State, k: nat, p: Payload)
    requires Enabled(s, SchedulePop(k, p)) && s.delayed[p] <= s.procs[k].now
    ensures var u := Step(s, SchedulePop(k, p));
      && Enabled(u, ScheduleReturn(k))
      && Step(u, ScheduleReturn(k)) == s.(delayed := s.delayed - {p}, ready := [p] + s.ready)
  {
    var u := Step(s, SchedulePop(k, p));
    assert Step(u, ScheduleReturn(k)).procs == s.procs;
  }

  /** A member popped before its time is put back, and the scheduler is done. */
  lemma PopAndPutBack(s: State, k: nat, p: Payload)
    requires Enabled(s, SchedulePop(k, p)) && s.delayed[p] > s.procs[k].now
    ensures var u := Step(s, SchedulePop(k, p));
      && Enabled(u, ScheduleReturn(k)) && Step(u, ScheduleReturn(k)) == s.(procs := s.procs[k := Idle])
  {
    var u := Step(s, SchedulePop(k, p));
    assert u.delayed[p := s.delayed[p]] == s.delayed;
    assert Step(u, ScheduleReturn(k)).procs == s.procs[k := Idle];
  }

  /** One more member promoted at the end of a run. */
  lemma PromoteNext(s: State, actions: seq<Action>, t: State, k: nat, left: map<D.Member, int>,
                                       ready: seq<D.Member>, bytes: Payload -> D.Member, x: D.Member)
    returns (more: seq<Action>, t': State)
    requires Run(s, actions) == Some(t) && Injective(bytes) && Mirrors(t, left, ready, bytes)
    requires k < |t.procs| && t.procs[k].Scheduling? && D.First(left, x) && left[x] <= t.procs[k].now
    ensures Run(s, more) == Some(t') && t' == t.(delayed := t'.delayed, ready := t'.ready)
    ensures Mirrors(t', left - {x}, [x] + ready, bytes)
  {
    hide Step, Enabled, Run, Mirrors, D.First;
    var p := FirstPops(t, k, left, ready, bytes, x);
    PopAndPush(t, k, p);
    RunOn(s, actions, t, SchedulePop(k, p));
    RunOn(s, actions + [SchedulePop(k, p)], Step(t, SchedulePop(k, p)), ScheduleReturn(k));
    more := actions + [SchedulePop(k, p)] + [ScheduleReturn(k)];
    t' := t.(delayed := t.delayed - {p}, ready := [p] + t.ready);
    RemoveMirrors(t, t', left, ready, bytes, p);
  }

  /** The first m members in pop order have been taken. */
  ghost predicate Took(delayed: map<D.Member, int>, m: nat, left: map<D.Member, int>) {
    && m <= |D.Ordered(delayed)| && left == delayed - D.Elements(D.Ordered(delayed)[..m])
    && D.Ordered(delayed) == D.Ordered(delayed)[..m] + D.Ordered(left)
  }

  lemma {:induction false} TookOneMore(delayed: map<D.Member, int>, m: nat, left: map<D.Member, int>, now: int)
    requires Took(delayed, m, left) && m < |D.Ordered(delayed)|
    requires D.TakenDue(delayed, D.Ordered(delayed)[..m + 1], now)
    ensures var order := D.Ordered(delayed);
      && D.First(left, order[m]) && left[order[m]] <= now
      && Took(delayed, m + 1, left - {order[m]}) && Reverse(order[..m + 1]) == [order[m]] + Reverse(order[..m])
  {
    var order := D.Ordered(delayed);
    var taken, x := order[..m], order[m];
    assert order[..m + 1] == taken + [x];
    assert D.Ordered(left)[0] == x;
    assert x in order[..m + 1];
    hide Reverse, D.LexLess;
    D.PopNext(left, x);
    assert D.TakenDue(delayed, taken, now) by { assert forall y :: y in taken ==> y in order[..m + 1]; }
    D.TakeOne(delayed, taken, x, now);
    ReverseAppend(taken, x);
  }

  /** The first m members in pop order, all due, promoted one by one. */
  lemma {:induction false} PromoteMany(s: State, k: nat, delayed: map<D.Member, int>, ready: seq<D.Member>,
                                       bytes: Payload -> D.Member, m: nat)
    returns (actions: seq<Action>, t: State, left: map<D.Member, int>)
    requires Injective(bytes) && Mirrors(s, delayed, ready, bytes) && k < |s.procs| && s.procs[k].Scheduling?
    requires m <= |D.Ordered(delayed)| && D.TakenDue(delayed, D.Ordered(delayed)[..m], s.procs[k].now)
    ensures Run(s, actions) == Some(t) && t == s.(delayed := t.delayed, ready := t.ready)
    ensures Took(delayed, m, left) && Mirrors(t, left, Reverse(D.Ordered(delayed)[..m]) + ready, bytes)
  {
    hide Step, Enabled, Mirrors, D.Ordered, D.First;
    if m == 0 {
      actions, t, left := [], s, delayed;
      assert delayed - D.Elements([]) == delayed && Reverse<D.Member>([]) + ready == ready;
    } else {
      var order := D.Ordered(delayed);
      assert forall y :: y in order[..m - 1] ==> y in order[..m];
      actions, t, left := PromoteMany(s, k, delayed, ready, bytes, m - 1);
      hide Run, D.TakenDue, Took;
      TookOneMore(delayed, m - 1, left, s.procs[k].now);
      var before := t;
      actions, t := PromoteNext(s, actions, t, k, left, Reverse(order[..m - 1]) + ready, bytes, order[m - 1]);
      left := left - {order[m - 1]};
      assert [order[m - 1]] + (Reverse(order[..m - 1]) + ready) == Reverse(order[..m]) + ready;
    }
  }

  /** How many members one call promotes. */
  function Promotes(delayed: map<D.Member, int>, now: int, batchSize: int): (m: nat) {
    var due := |D.DueMembers(delayed, now)|;
    if batchSize <= 0 then 0 else if batchSize <= due then batchSize else due
  }

  /** The due members come first in pop order. */
  lemma {:induction false} DueFirst(delayed: map<D.Member, int>, now: int, m: nat)
    requires m <= |D.DueMembers(delayed, now)|
    ensures m <= |D.Ordered(delayed)| && D.TakenDue(delayed, D.Ordered(delayed)[..m], now)
  {
    var order, due := D.Ordered(delayed), D.DueMembers(delayed, now);
    D.OrderedExact(delayed);
    hide D.Ordered, D.LexLess;
    D.SubsetCount(due, delayed.Keys);
    forall i | 0 <= i < m ensures delayed[order[i]] <= now {
      if delayed[order[i]] > now {
        assert forall j :: i < j < |order| ==> D.Before(delayed, order[i], order[j]);
        forall y | y in due ensures y in order[..i] {
          var j :| 0 <= j < |order| && order[j] == y;
          assert j < i;
        }
        D.DistinctCount(delayed, order[..i]);
        D.SubsetCount(due, D.Elements(order[..i]));
        assert false;
      }
    }
  }

  /** When everything due was taken, nothing that is left is due. */
  lemma {:induction false} NothingDueLeft(delayed: map<D.Member, int>, m: nat, left: map<D.Member, int>, now: int)
    requires Took(delayed, m, left) && D.TakenDue(delayed, D.Ordered(delayed)[..m], now)
    requires m == |D.DueMembers(delayed, now)|
    ensures forall x :: x in left ==> left[x] > now
  {
    var taken, due := D.Ordered(delayed)[..m], D.DueMembers(delayed, now);
    D.OrderedExact(delayed);
    hide D.Ordered, D.LexLess;
    D.DistinctCount(delayed, taken);
    hide D.Before;
    assert D.Elements(taken) <= due;
    SameCount(D.Elements(taken), due);
  }

  lemma SameCount(a: set<D.Member>, b: set<D.Member>)
    requires a <= b && |a| == |b|
    ensures a == b
  {
    assert b == a + (b - a) && |b| == |a| + |b - a|;
  }

  /** How the loop ends: the batch is full, the set is empty, or the next member is popped before its
      time and put back. Either way the queues stay as they are and the scheduler is done. */
  lemma LoopEnds(s: State, k: nat, left: map<D.Member, int>, ready: seq<D.Member>, bytes: Payload -> D.Member,
                 full: bool)
    returns (last: seq<Action>)
    requires Mirrors(s, left, ready, bytes) && k < |s.procs| && s.procs[k].Scheduling?
    requires !full ==> forall x :: x in left ==> left[x] > s.procs[k].now
    ensures Run(s, last) == Some(s.(procs := s.procs[k := Idle]))
    ensures last != [Stop(k)] <==> !full && left != map[]
  {
    hide Run, Mirrors, Enabled, Step;
    if full || left == map[] {
      last := [Stop(k)];
      assert Enabled(s, Stop(k)) && Step(s, Stop(k)) == s.(procs := s.procs[k := Idle]) by { StopsIdle(s, k); }
      RunOne(s, Stop(k));
    } else {
      var x := D.FirstExists(left);
      var p := FirstPops(s, k, left, ready, bytes, x);
      PopAndPutBack(s, k, p);
      last := [SchedulePop(k, p)] + [ScheduleReturn(k)];
      RunOne(s, SchedulePop(k, p));
      RunOn(s, [SchedulePop(k, p)], Step(s, SchedulePop(k, p)), ScheduleReturn(k));
    }
  }

  lemma StopsIdle(s: State, k: nat)
    requires k < |s.procs|
    ensures Enabled(s, Stop(k)) && Step(s, Stop(k)) == s.(procs := s.procs[k := Idle])
  {
  }

  lemma Begins(s: State, k: nat)
    requires k < |s.procs| && s.procs[k].Idle?
    ensures Enabled(s, ScheduleBegin(k)) && Step(s, ScheduleBegin(k)) == s.(procs := s.procs[k := Scheduling(s.clock)])
  {
  }

  lemma SameQueues(s: State, t: State, delayed: map<D.Member, int>, ready: seq<D.Member>, bytes: Payload -> D.Member)
    requires Mirrors(s, delayed, ready, bytes) && t.delayed == s.delayed && t.ready == s.ready
    ensures Mirrors(t, delayed, ready, bytes)
  {
  }

  /** Every call of mature_tasks is a run of the protocol. */
  lemma MatureIsProtocolRun(s: State, k: nat, delayed: map<D.Member, int>, ready: seq<D.Member>,
                                               bytes: Payload -> D.Member, batchSize: int)
    returns (actions: seq<Action>, t: State)
    requires Injective(bytes) && Mirrors(s, delayed, ready, bytes) && k < |s.procs| && s.procs[k].Idle?
    ensures Run(s, actions) == Some(t) && t == s.(delayed := t.delayed, ready := t.ready)
    ensures var m := Promotes(delayed, s.clock, batchSize);
      && m <= |D.Ordered(delayed)|
      && Mirrors(t, delayed - D.Elements(D.Ordered(delayed)[..m]), Reverse(D.Ordered(delayed)[..m]) + ready, bytes)
  {
    var m, b := Promotes(delayed, s.clock, batchSize), s.(procs := s.procs[k := Scheduling(s.clock)]);
    DueFirst(delayed, s.clock, m);
    Begins(s, k);
    RunOne(s, ScheduleBegin(k));
    hide Step, Enabled, Run, Mirrors, D.Ordered, D.TakenDue;
    SameQueues(s, b, delayed, ready, bytes);
    var front, u, left := PromoteMany(b, k, delayed, ready, bytes, m);
    var after := Reverse(D.Ordered(delayed)[..m]) + ready;
    if batchSize > m { NothingDueLeft(delayed, m, left, s.clock); }
    var last := LoopEnds(u, k, left, after, bytes, batchSize <= m);
    t := u.(procs := u.procs[k := Idle]);
    SameQueues(u, t, left, after, bytes);
    RunConcat(b, front, u, last);
    RunConcat(s, [ScheduleBegin(k)], b, front + last);
    actions := [ScheduleBegin(k)] + (front + last);
    assert t.procs == s.procs;
  }

  // ---------- the reaper ----------

  /** The protocol's lists as the reaper reads them, with worker w's inflight list under `key`. */
  ghost predicate Reads(s: State, w: nat, q: R.Queues, key: string, item: Payload -> R.Item) {
    && w < |s.inflight| && R.ListOf(q.inflight, key) == Image(item, s.inflight[w])
    && q.ready == Image(item, s.ready) && q.dlq == Image(item, s.dlq)
  }

  /** The same state but for the lists that a sweep of worker w's list writes. */
  ghost predicate OnlyLists(s: State, t: State, w: nat) {
    && w < |s.inflight| == |t.inflight|
    && t == s.(ready := t.ready, dlq := t.dlq, inflight := s.inflight[w := t.inflight[w]])
  }

  /** One stuck item moved is a remove and a push of the protocol. */
  lemma RemoveAndPush(s: State, k: nat, dest: Dest)
    requires Enabled(s, SweepRemove(k, dest))
    ensures var u, w, p := Step(s, SweepRemove(k, dest)), s.procs[k].worker, s.procs[k].items[0];
      && Enabled(u, SweepPush(k))
      && Step(u, SweepPush(k))
         == s.(inflight := s.inflight[w := RemoveFirst(s.inflight[w], p)],
               ready := if dest.ToReady? then [p] + s.ready else s.ready,
               dlq := if dest.ToReady? then s.dlq else [p] + s.dlq,
               procs := s.procs[k := Sweeping(w, s.procs[k].items[1..])])
  {
    hide RemoveFirst;
    var u := Step(s, SweepRemove(k, dest));
    assert Step(u, SweepPush(k)).procs == s.procs[k := Sweeping(s.procs[k].worker, s.procs[k].items[1..])];
  }

  lemma ImagePush(item: Payload -> R.Item, p: Payload, l: seq<Payload>)
    ensures Image(item, [p] + l) == [item(p)] + Image(item, l)
  {
  }

  lemma {:induction false} MovedReads(s: State, t: State, w: nat, q: R.Queues, key: string, item: Payload -> R.Item,
                                      p: Payload, toDlq: bool)
    requires Injective(item) && Reads(s, w, q, key, item) && |t.inflight| == |s.inflight|
    requires t.inflight[w] == RemoveFirst(s.inflight[w], p)
    requires t.ready == (if toDlq then s.ready else [p] + s.ready) && t.dlq == (if toDlq then [p] + s.dlq else s.dlq)
    ensures Reads(t, w, R.Moved(q, key, item(p), toDlq), key, item)
  {
    hide RemoveFirst, Image;
    ImageRemove(item, s.inflight[w], p);
    ImagePush(item, p, s.ready);
    ImagePush(item, p, s.dlq);
    hide Injective;
  }

  /** One item of the list, kept or moved. */
  lemma SweepNext(s: State, k: nat, w: nat, q: R.Queues, key: string, item: Payload -> R.Item, verdict: R.Verdict)
    returns (actions: seq<Action>, t: State)
    requires Injective(item) && Reads(s, w, q, key, item) && k < |s.procs| && verdict != R.Raise
    requires s.procs[k].Sweeping? && s.procs[k].worker == w && s.procs[k].items != []
    ensures Run(s, actions) == Some(t) && OnlyLists(s.(procs := t.procs), t, w)
    ensures t.procs == s.procs[k := Sweeping(w, s.procs[k].items[1..])]
    ensures var moved := R.Moved(q, key, item(s.procs[k].items[0]), verdict == R.ToDlq);
      Reads(t, w, if verdict == R.Keep then q else moved, key, item)
  {
    hide Run, RemoveFirst, R.Moved;
    if verdict == R.Keep {
      actions, t := [SweepSkip(k)], Step(s, SweepSkip(k));
      RunOne(s, SweepSkip(k));
      assert s.inflight[w := s.inflight[w]] == s.inflight;
    } else {
      var dest := if verdict == R.ToDlq then ToDlq else ToReady;
      var p := s.procs[k].items[0];
      RemoveAndPush(s, k, dest);
      assert Enabled(s, SweepRemove(k, dest));
      RunOne(s, SweepRemove(k, dest));
      RunOn(s, [SweepRemove(k, dest)], Step(s, SweepRemove(k, dest)), SweepPush(k));
      actions, t := [SweepRemove(k, dest)] + [SweepPush(k)], Step(Step(s, SweepRemove(k, dest)), SweepPush(k));
      hide Step, Enabled;
      MovedReads(s, t, w, q, key, item, p, verdict == R.ToDlq);
    }
  }

  lemma SweepBegins(s: State, k: nat, w: nat, q: R.Queues, key: string, item: Payload -> R.Item, now: real,
                    timeout: int)
    requires Reads(s, w, q, key, item) && k < |s.procs| && s.procs[k].Idle?
    ensures Enabled(s, SweepBegin(k, w))
    ensures var t := Step(s, SweepBegin(k, w));
      && t == s.(procs := s.procs[k := Sweeping(w, s.inflight[w][0..])]) && OnlyLists(s.(procs := t.procs), t, w)
      && Reads(t, w, R.Midway(q, key, R.ListOf(q.inflight, key), 0, now, timeout), key, item)
  {
    var items := R.ListOf(q.inflight, key);
    assert s.inflight[w][0..] == s.inflight[w] && s.inflight[w := s.inflight[w]] == s.inflight;
    assert [] + items[0..] == items && [] + q.ready == q.ready && [] + q.dlq == q.dlq;
  }

  /** The first i items of the list swept. */
  lemma {:induction false} SweepMany(s: State, k: nat, w: nat, q: R.Queues, key: string, item: Payload -> R.Item,
                                     now: real, timeout: int, i: nat)
    returns (actions: seq<Action>, t: State)
    requires Injective(item) && Reads(s, w, q, key, item) && k < |s.procs| && s.procs[k].Idle?
    requires i <= R.Stop(R.ListOf(q.inflight, key), now, timeout)
    ensures Run(s, actions) == Some(t) && OnlyLists(s.(procs := t.procs), t, w)
    ensures t.procs == s.procs[k := Sweeping(w, s.inflight[w][i..])]
    ensures Reads(t, w, R.Midway(q, key, R.ListOf(q.inflight, key), i, now, timeout), key, item)
  {
    var items := R.ListOf(q.inflight, key);
    hide Step, Enabled, R.Judge, R.Stop;
    if i == 0 {
      SweepBegins(s, k, w, q, key, item, now, timeout);
      RunOne(s, SweepBegin(k, w));
      actions, t := [SweepBegin(k, w)], Step(s, SweepBegin(k, w));
    } else {
      var front, u := SweepMany(s, k, w, q, key, item, now, timeout, i - 1);
      ItemSwept(q, key, items, i - 1, now, timeout);
      assert items[i - 1] == item(s.inflight[w][i - 1]);
      hide R.Midway, R.Moved, Run, Reads, R.ListOf;
      var last;
      last, t := SweepNext(u, k, w, R.Midway(q, key, items, i - 1, now, timeout), key, item,
                           R.Judge(items[i - 1], now, timeout));
      RunConcat(s, front, u, last);
      actions := front + last;
      assert s.inflight[w][i - 1..][1..] == s.inflight[w][i..];
    }
  }

  lemma {:induction false} ItemSwept(q: R.Queues, key: string, items: seq<R.Item>, i: nat, now: real, timeout: int)
    requires i < |items| && i < R.Stop(items, now, timeout)
    ensures var mid, verdict := R.Midway(q, key, items, i, now, timeout), R.Judge(items[i], now, timeout);
      && verdict != R.Raise
      && R.Midway(q, key, items, i + 1, now, timeout)
         == if verdict == R.Keep then mid else R.Moved(mid, key, items[i], verdict == R.ToDlq)
  {
    hide R.Midway, R.Moved, R.Judge, R.Stop;
    if R.Judge(items[i], now, timeout) == R.Keep { R.KeptStays(q, key, items, i, now, timeout); }
    else { R.StuckMoves(q, key, items, i, now, timeout); }
  }

  /** Every sweep of a list, whether it comes to its end or raises, is a run of the
      protocol. */
  lemma SweepIsProtocolRun(s: State, k: nat, w: nat, q: R.Queues, key: string, item: Payload -> R.Item, now: real,
                           timeout: int)
    returns (actions: seq<Action>, t: State)
    requires Injective(item) && Reads(s, w, q, key, item) && k < |s.procs| && s.procs[k].Idle?
    ensures Run(s, actions) == Some(t) && OnlyLists(s, t, w)
    ensures Reads(t, w, R.SweptOne(q, key, now, timeout).q, key, item)
  {
    var n := R.Stop(R.ListOf(q.inflight, key), now, timeout);
    var front, u := SweepMany(s, k, w, q, key, item, now, timeout, n);
    StopsIdle(u, k);
    hide R.Midway, R.Judge, R.Stop, Step, Enabled, Run;
    RunOn(s, front, u, Stop(k));
    actions, t := front + [Stop(k)], u.(procs := u.procs[k := Idle]);
    assert t.procs == s.procs;
  }
}
