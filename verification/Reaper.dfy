/** One uninterrupted reaper sweep over the inflight lists. */
module Reaper {
  import opened Wrappers
  import opened Lists

  /** The attempt number and its limit, each with a default, or values that cannot be compared. */
  datatype Counts = Counts(attempt: Option<int>, max: Option<int>) | Incomparable

  /** A payload as the reaper reads it; `raw` stands for the bytes themselves and `utf8` says whether
      they are UTF-8, which they have to be to be moved. An odd item is JSON that is no object, or
      whose `claimed_at` is no number. */
  datatype Item =
    | Malformed(raw: nat, utf8: bool)
    | Parsed(raw: nat, utf8: bool, claimedAt: Option<real>, counts: Counts)
    | Odd(raw: nat)

  /** What the reaper does with an item; `Raise` is an exception that ends the sweep. */
  datatype Verdict = Keep | ToReady | ToDlq | Raise

  function GetOr(o: Option<int>, default: int): int {
    if o.Some? then o.value else default
  }

  /** The item has been out for longer than the timeout, as far as it tells. */
  predicate Stuck(claimedAt: Option<real>, now: real, timeout: int) {
    claimedAt.Some? ==> now - claimedAt.value > timeout as real
  }

  /** The reaper's rule for one item. */
  function Judge(item: Item, now: real, timeout: int): Verdict {
    match item
    case Malformed(_, utf8) => if utf8 then ToDlq else Raise
    case Odd(_) => Raise
    case Parsed(_, utf8, claimedAt, counts) =>
      if !Stuck(claimedAt, now, timeout) then Keep
      else if claimedAt.Some? && counts.Incomparable? then Raise
      else if !utf8 then Raise
      else if claimedAt.Some? && GetOr(counts.attempt, 1) >= GetOr(counts.max, 3) then ToDlq
      else ToReady
  }

  // ---------- the rule on an item's own fields ----------

  /** Claimed no longer ago than the timeout. */
  predicate IsFresh(x: Item, now: real, timeout: int) {
    x.Parsed? && x.claimedAt.Some? && now - x.claimedAt.value <= timeout as real
  }

  /** Claimed too long ago, with the attempts used up; an attempt counts as 1 and a limit as 3 by
      default. */
  predicate IsSpent(x: Item, now: real, timeout: int) {
    && x.Parsed? && x.claimedAt.Some? && now - x.claimedAt.value > timeout as real && x.counts.Counts?
    && (if x.counts.attempt.Some? then x.counts.attempt.value else 1)
       >= (if x.counts.max.Some? then x.counts.max.value else 3)
  }

  /** Not known to be claimed, or claimed too long ago with attempts left. */
  predicate IsReclaimable(x: Item, now: real, timeout: int) {
    && x.Parsed?
    && (|| x.claimedAt.None?
        || (&& now - x.claimedAt.value > timeout as real && x.counts.Counts?
            && (if x.counts.attempt.Some? then x.counts.attempt.value else 1)
               < (if x.counts.max.Some? then x.counts.max.value else 3)))
  }

  /** Where each item goes, in full. An item claimed no longer ago than the timeout is kept. Bytes that
      are no JSON go to the dead letter queue. An item without a claim time goes back to ready; one
      claimed too long ago goes to the dead letter queue when its attempts are used up, and back to ready
      otherwise. Whatever has to be moved must be UTF-8. */
  lemma RuleExact(x: Item, now: real, timeout: int)
    ensures var v := Judge(x, now, timeout);
      match x
      case Malformed(_, utf8) => v == if utf8 then ToDlq else Raise
      case Odd(_) => v == Raise
      case Parsed(_, utf8, claimedAt, counts) =>
        && (v == Keep <==> claimedAt.Some? && now - claimedAt.value <= timeout as real)
        && (v == ToReady <==>
              && utf8
              && (|| claimedAt.None?
                  || (&& now - claimedAt.value > timeout as real && counts.Counts?
                      && (if counts.attempt.Some? then counts.attempt.value else 1)
                         < (if counts.max.Some? then counts.max.value else 3))))
        && (v == ToDlq <==>
              && utf8 && claimedAt.Some? && now - claimedAt.value > timeout as real && counts.Counts?
              && (if counts.attempt.Some? then counts.attempt.value else 1)
                 >= (if counts.max.Some? then counts.max.value else 3))
        && (v == Raise <==>
              && (claimedAt.Some? ==> now - claimedAt.value > timeout as real)
              && (!utf8 || (claimedAt.Some? && counts.Incomparable?)))
  {
  }

  lemma RuleNamed(x: Item, now: real, timeout: int)
    ensures Judge(x, now, timeout) == Keep <==> IsFresh(x, now, timeout)
    ensures Judge(x, now, timeout) == ToDlq <==> (x.Malformed? && x.utf8) || (IsSpent(x, now, timeout) && x.utf8)
    ensures Judge(x, now, timeout) == ToReady <==> IsReclaimable(x, now, timeout) && x.utf8
    ensures Judge(x, now, timeout) == Raise <==> IsFatal(x, now, timeout)
  {
    RuleExact(x, now, timeout);
    hide Judge;
  }

  /** An item on which the sweep raises. */
  predicate IsFatal(x: Item, now: real, timeout: int) {
    || x.Odd?
    || (x.Malformed? && !x.utf8)
    || (x.Parsed? && !IsFresh(x, now, timeout) && (!x.utf8 || (x.claimedAt.Some? && x.counts.Incomparable?)))
  }

  /** The items with a given verdict, in their order. */
  function Select(items: seq<Item>, v: Verdict, now: real, timeout: int): seq<Item> {
    if items == [] then []
    else
      var n := |items| - 1;
      Select(items[..n], v, now, timeout) + if Judge(items[n], now, timeout) == v then [items[n]] else []
  }

  datatype Queues = Queues(inflight: map<string, seq<Item>>, ready: seq<Item>, dlq: seq<Item>)

  function ListOf(inflight: map<string, seq<Item>>, key: string): seq<Item> {
    if key in inflight then inflight[key] else []
  }

  // ---------- one list ----------

  lemma {:induction false} SelectAppend(items: seq<Item>, x: Item, v: Verdict, now: real, timeout: int)
    ensures Select(items + [x], v, now, timeout)
            == if Judge(x, now, timeout) == v then Select(items, v, now, timeout) + [x]
               else Select(items, v, now, timeout)
  {
    assert (items + [x])[..|items|] == items;
  }

  lemma {:induction false} SelectOnly(items: seq<Item>, v: Verdict, now: real, timeout: int, x: Item)
    requires x in Select(items, v, now, timeout)
    ensures Judge(x, now, timeout) == v && x in items
  {
    var n := |items| - 1;
    if x in Select(items[..n], v, now, timeout) { SelectOnly(items[..n], v, now, timeout, x); }
  }

  /** A list in the middle of its sweep: the first i items judged, the rest still there. */
  function Midway(q: Queues, key: string, items: seq<Item>, i: nat, now: real, timeout: int): Queues
    requires i <= |items|
  {
    Queues(q.inflight[key := Select(items[..i], Keep, now, timeout) + items[i..]],
          Reverse(Select(items[..i], ToReady, now, timeout)) + q.ready,
          Reverse(Select(items[..i], ToDlq, now, timeout)) + q.dlq)
  }

  /** LREM from the inflight list, then LPUSH. */
  function Moved(q: Queues, key: string, item: Item, toDlq: bool): Queues {
    var inflight := q.inflight[key := RemoveFirst(ListOf(q.inflight, key), item)];
    if toDlq then Queues(inflight, q.ready, [item] + q.dlq) else Queues(inflight, [item] + q.ready, q.dlq)
  }

  lemma KeptStays(q: Queues, key: string, items: seq<Item>, i: nat, now: real, timeout: int)
    requires i < |items| && Judge(items[i], now, timeout) == Keep
    ensures Midway(q, key, items, i + 1, now, timeout) == Midway(q, key, items, i, now, timeout)
  {
    JudgedOne(items, i, now, timeout);
    hide Select, Reverse, Judge;
    var kept := Select(items[..i], Keep, now, timeout);
    assert kept + items[i..] == kept + [items[i]] + items[i + 1..];
  }

  lemma {:induction false} JudgedOne(items: seq<Item>, i: nat, now: real, timeout: int)
    requires i < |items|
    ensures forall v :: Select(items[..i + 1], v, now, timeout)
                        == if Judge(items[i], now, timeout) == v then Select(items[..i], v, now, timeout) + [items[i]]
                           else Select(items[..i], v, now, timeout)
  {
    hide Select;
    assert items[..i + 1] == items[..i] + [items[i]];
    forall v ensures Select(items[..i + 1], v, now, timeout)
                     == if Judge(items[i], now, timeout) == v then Select(items[..i], v, now, timeout) + [items[i]]
                        else Select(items[..i], v, now, timeout)
    {
      SelectAppend(items[..i], items[i], v, now, timeout);
    }
  }

  lemma StuckMoves(q: Queues, key: string, items: seq<Item>, i: nat, now: real, timeout: int)
    requires i < |items| && (Judge(items[i], now, timeout) == ToReady || Judge(items[i], now, timeout) == ToDlq)
    ensures Midway(q, key, items, i + 1, now, timeout)
            == Moved(Midway(q, key, items, i, now, timeout), key, items[i], Judge(items[i], now, timeout) == ToDlq)
  {
    hide Select, Reverse, RemoveFirst, Judge;
    var item := items[i];
    JudgedOne(items, i, now, timeout);
    var kept := Select(items[..i], Keep, now, timeout);
    if item in kept { SelectOnly(items[..i], Keep, now, timeout, item); }
    assert kept + items[i..] == kept + [item] + items[i + 1..];
    RemoveAfter(kept, item, items[i + 1..]);
    ReverseAppend(Select(items[..i], ToReady, now, timeout), item);
    ReverseAppend(Select(items[..i], ToDlq, now, timeout), item);
    var before, after := Midway(q, key, items, i, now, timeout), Midway(q, key, items, i + 1, now, timeout);
    assert after.inflight == before.inflight[key := kept + items[i + 1..]];
    if Judge(item, now, timeout) == ToDlq {
      assert after.dlq == [item] + before.dlq;
    } else {
      assert after.ready == [item] + before.ready;
    }
  }

  // ---------- the sweep ----------

  /** The first item on which the sweep raises, or the end of the list. */
  function Stop(items: seq<Item>, now: real, timeout: int, from: nat := 0): (n: nat)
    requires from <= |items|
    ensures from <= n <= |items| && (n < |items| ==> Judge(items[n], now, timeout) == Raise)
    ensures forall i :: from <= i < n ==> Judge(items[i], now, timeout) != Raise
    decreases |items| - from
  {
    if from == |items| || Judge(items[from], now, timeout) == Raise then from else Stop(items, now, timeout, from + 1)
  }

  /** The queues after a sweep, and whether it came to its end. */
  datatype Sweep = Sweep(q: Queues, done: bool)

  /** One list swept as far as the sweep gets: its items that are not stuck are left, in their old
      order, and the others were pushed one by one to where their verdict sends them. */
  function SweptOne(q: Queues, key: string, now: real, timeout: int): Sweep {
    var items := ListOf(q.inflight, key);
    var n := Stop(items, now, timeout);
    Sweep(Midway(q, key, items, n, now, timeout), n == |items|)
  }

  /** The lists in turn, up to the one that stops the sweep. */
  function SweptAll(q: Queues, keys: seq<string>, now: real, timeout: int): Sweep {
    if keys == [] then Sweep(q, true)
    else
      var before := SweptAll(q, keys[..|keys| - 1], now, timeout);
      if before.done then SweptOne(before.q, keys[|keys| - 1], now, timeout) else before
  }

  class Redis {
    var inflight: map<string, seq<Item>>
    var ready: seq<Item>
    var dlq: seq<Item>

    ghost function Snapshot(): Queues
      reads this
    {
      Queues(inflight, ready, dlq)
    }

    /** move_to_ready, and the reaper's own move to the dead letter queue. */
    method Move(key: string, item: Item, toDlq: bool)
      modifies this
      ensures Snapshot() == Moved(old(Snapshot()), key, item, toDlq)
      ensures |ready| + |dlq| == old(|ready| + |dlq|) + 1
    {
      inflight := inflight[key := RemoveFirst(ListOf(inflight, key), item)];
      if toDlq { dlq := [item] + dlq; } else { ready := [item] + ready; }
    }

    method SweepList(key: string, now: real, timeout: int) returns (done: bool, moved: nat)
      modifies this
      ensures Sweep(Snapshot(), done) == SweptOne(old(Snapshot()), key, now, timeout)
      ensures |ready| + |dlq| == old(|ready| + |dlq|) + moved
    {
      var items := ListOf(inflight, key);
      inflight := inflight[key := items];
      done, moved := true, 0;
      assert [] + items[0..] == items && [] + ready == ready && [] + dlq == dlq;
      assert Snapshot() == Midway(old(Snapshot()), key, items, 0, now, timeout);
      hide Midway, Moved, Judge;
      for i := 0 to |items|
        invariant Stop(items, now, timeout) == Stop(items, now, timeout, i)
        invariant Snapshot() == Midway(old(Snapshot()), key, items, i, now, timeout)
        invariant |ready| + |dlq| == old(|ready| + |dlq|) + moved
      {
        var verdict := Judge(items[i], now, timeout);
        if verdict == Raise { return false, moved; }
        if verdict == Keep {
          KeptStays(old(Snapshot()), key, items, i, now, timeout);
        } else {
          StuckMoves(old(Snapshot()), key, items, i, now, timeout);
          Move(key, items[i], verdict == ToDlq);
          moved := moved + 1;
        }
      }
    }

    method ReapStuckTasks(keys: seq<string>, now: real, timeout: int) returns (done: bool, reclaimed: nat)
      modifies this
      ensures Sweep(Snapshot(), done) == SweptAll(old(Snapshot()), keys, now, timeout)
      ensures |ready| + |dlq| == old(|ready| + |dlq|) + reclaimed
      ensures done <==> forall k <- keys, x <- ListOf(old(inflight), k) :: !IsFatal(x, now, timeout)
      ensures done ==> forall key ::
        var items := ListOf(old(inflight), key);
        ListOf(inflight, key) == if key in keys then Filter(items, (x: Item) => IsFresh(x, now, timeout)) else items
      ensures exists toReady, toDlq ::
        && ready == toReady + old(ready) && (forall x <- toReady :: IsReclaimable(x, now, timeout))
        && dlq == toDlq + old(dlq) && (forall x <- toDlq :: x.Malformed? || IsSpent(x, now, timeout))
    {
      ghost var q := Snapshot();
      done, reclaimed := SweepKeys(keys, now, timeout);
      SweepEndsExactly(q, keys, now, timeout);
      ghost var toReady, toDlq := SweepSendsByRule(q, keys, now, timeout);
      hide SweptAll, IsFresh, IsSpent, IsReclaimable, IsFatal, Filter;
      if done {
        forall key ensures ListOf(inflight, key)
            == if key in keys then Filter(ListOf(q.inflight, key), (x: Item) => IsFresh(x, now, timeout))
               else ListOf(q.inflight, key)
        {
          SweepKeepsFresh(q, keys, now, timeout, key);
        }
      }
    }

    method SweepKeys(keys: seq<string>, now: real, timeout: int) returns (done: bool, reclaimed: nat)
      modifies this
      ensures Sweep(Snapshot(), done) == SweptAll(old(Snapshot()), keys, now, timeout)
      ensures |ready| + |dlq| == old(|ready| + |dlq|) + reclaimed
    {
      done, reclaimed := true, 0;
      hide SweptOne;
      for i := 0 to |keys|
        invariant done && Sweep(Snapshot(), true) == SweptAll(old(Snapshot()), keys[..i], now, timeout)
        invariant |ready| + |dlq| == old(|ready| + |dlq|) + reclaimed
      {
        assert keys[..i + 1][..i] == keys[..i];
        var moved;
        done, moved := SweepList(keys[i], now, timeout);
        reclaimed := reclaimed + moved;
        if !done {
          StaysStopped(old(Snapshot()), keys, i + 1, now, timeout);
          return;
        }
      }
      assert keys[..|keys|] == keys;
    }
  }

  /** Once stopped, the sweep does not look at the remaining lists. */
  lemma {:induction false} StaysStopped(q: Queues, keys: seq<string>, i: nat, now: real, timeout: int)
    requires i <= |keys| && !SweptAll(q, keys[..i], now, timeout).done
    ensures SweptAll(q, keys, now, timeout) == SweptAll(q, keys[..i], now, timeout)
    decreases |keys|
  {
    if i < |keys| {
      var front := keys[..|keys| - 1];
      assert front[..i] == keys[..i];
      StaysStopped(q, front, i, now, timeout);
    } else {
      assert keys[..i] == keys;
    }
  }

  // ---------- what a sweep does ----------

  /** The sweep raises on no item of the list. */
  ghost predicate Sound(items: seq<Item>, now: real, timeout: int) {
    forall x <- items :: Judge(x, now, timeout) != Raise
  }

  lemma {:induction false} StopExact(items: seq<Item>, now: real, timeout: int)
    ensures Stop(items, now, timeout) == |items| <==> Sound(items, now, timeout)
  {
    hide Judge;
    assert forall i :: 0 <= i < |items| ==> items[i] in items;
  }

  /** Judging the kept items again keeps them all. */
  lemma {:induction false} SelectAll(items: seq<Item>, v: Verdict, w: Verdict, now: real, timeout: int)
    requires forall x :: x in items ==> Judge(x, now, timeout) == w
    ensures Select(items, v, now, timeout) == if v == w then items else []
  {
    if items != [] {
      var n := |items| - 1;
      assert items == items[..n] + [items[n]];
      SelectAll(items[..n], v, w, now, timeout);
    }
  }

  lemma {:induction false} KeptAgain(items: seq<Item>, now: real, timeout: int)
    ensures var kept := Select(items, Keep, now, timeout);
      Select(kept, Keep, now, timeout) == kept && Sound(kept, now, timeout)
  {
    var kept := Select(items, Keep, now, timeout);
    forall x | x in kept ensures Judge(x, now, timeout) == Keep { SelectOnly(items, Keep, now, timeout, x); }
    SelectAll(kept, Keep, Keep, now, timeout);
  }

  lemma {:induction false} WholeList(q: Queues, last: string, now: real, timeout: int, key: string)
    requires Sound(ListOf(q.inflight, last), now, timeout)
    ensures SweptOne(q, last, now, timeout).done
    ensures ListOf(SweptOne(q, last, now, timeout).q.inflight, key)
            == if key == last then Select(ListOf(q.inflight, last), Keep, now, timeout) else ListOf(q.inflight, key)
  {
    var items := ListOf(q.inflight, last);
    StopExact(items, now, timeout);
    hide Select, Reverse, Stop;
    assert items[..|items|] == items;
    assert Select(items, Keep, now, timeout) + items[|items|..] == Select(items, Keep, now, timeout);
  }

  lemma {:induction false} SweptLast(q: Queues, keys: seq<string>, now: real, timeout: int)
    requires keys != []
    ensures var before := SweptAll(q, keys[..|keys| - 1], now, timeout);
      SweptAll(q, keys, now, timeout)
      == if before.done then SweptOne(before.q, keys[|keys| - 1], now, timeout) else before
  {
  }

  /** As long as it raises on no item of its lists, a sweep goes on and leaves every list it visited with
      exactly its items that are not stuck, in their old order; a list that it did not visit is
      untouched, and a second visit changes nothing. */
  lemma {:induction false} SweepSelects(q: Queues, keys: seq<string>, now: real, timeout: int, key: string)
    requires forall k <- keys :: Sound(ListOf(q.inflight, k), now, timeout)
    ensures SweptAll(q, keys, now, timeout).done
    ensures ListOf(SweptAll(q, keys, now, timeout).q.inflight, key)
            == if key in keys then Select(ListOf(q.inflight, key), Keep, now, timeout) else ListOf(q.inflight, key)
  {
    if keys != [] {
      var front, last := keys[..|keys| - 1], keys[|keys| - 1];
      assert last in keys;
      assert key in keys <==> key in front || key == last by { assert keys == front + [last]; }
      SweptLast(q, keys, now, timeout);
      hide SweptAll, SweptOne, Select, Sound, ListOf;
      SweepSelects(q, front, now, timeout, key);
      SweepSelects(q, front, now, timeout, last);
      KeptAgain(ListOf(q.inflight, last), now, timeout);
      WholeList(SweptAll(q, front, now, timeout).q, last, now, timeout, key);
    }
  }

  /** A sweep comes to its end exactly when it raises on no item of the lists it visits. In the first
      list with such an item it stops there: the lists before are swept, what comes after that item
      and every list that only comes later stay as they were. */
  lemma {:induction false} SweepStopsAtRaise(q: Queues, keys: seq<string>, i: nat, now: real, timeout: int, key: string)
    requires i < |keys| && forall k <- keys[..i] :: Sound(ListOf(q.inflight, k), now, timeout)
    requires !Sound(ListOf(q.inflight, keys[i]), now, timeout)
    ensures var items, n := ListOf(q.inflight, keys[i]), Stop(ListOf(q.inflight, keys[i]), now, timeout);
      && !SweptAll(q, keys, now, timeout).done && n < |items|
      && ListOf(SweptAll(q, keys, now, timeout).q.inflight, key)
         == if key == keys[i] then Select(items[..n], Keep, now, timeout) + items[n..]
            else if key in keys[..i] then Select(ListOf(q.inflight, key), Keep, now, timeout)
            else ListOf(q.inflight, key)
  {
    var items := ListOf(q.inflight, keys[i]);
    var before := SweptAll(q, keys[..i], now, timeout);
    StopExact(items, now, timeout);
    assert keys[..i + 1][..i] == keys[..i];
    SweptLast(q, keys[..i + 1], now, timeout);
    hide SweptAll, Select, Stop, Reverse, Sound, Judge;
    SweepSelects(q, keys[..i], now, timeout, keys[i]);
    SweepSelects(q, keys[..i], now, timeout, key);
    StaysStopped(q, keys, i + 1, now, timeout) by { NotYetSwept(q, keys, i, now, timeout); }
    NotYetSwept(q, keys, i, now, timeout);
    hide ListOf;
    StoppedList(before.q, keys[i], now, timeout, key);
  }

  /** The list that stops the sweep was not visited before. */
  lemma {:induction false} NotYetSwept(q: Queues, keys: seq<string>, i: nat, now: real, timeout: int)
    requires i < |keys| && forall k <- keys[..i] :: Sound(ListOf(q.inflight, k), now, timeout)
    requires !Sound(ListOf(q.inflight, keys[i]), now, timeout)
    ensures keys[i] !in keys[..i] && SweptAll(q, keys[..i], now, timeout).done
    ensures ListOf(SweptAll(q, keys[..i], now, timeout).q.inflight, keys[i]) == ListOf(q.inflight, keys[i])
    ensures !SweptAll(q, keys[..i + 1], now, timeout).done
  {
    SweepSelects(q, keys[..i], now, timeout, keys[i]);
    StopExact(ListOf(q.inflight, keys[i]), now, timeout);
    assert keys[..i + 1][..i] == keys[..i];
    SweptLast(q, keys[..i + 1], now, timeout);
    hide SweptAll, Select, Stop, Sound, ListOf, Midway;
  }

  lemma {:induction false} StoppedList(q: Queues, last: string, now: real, timeout: int, key: string)
    ensures var items := ListOf(q.inflight, last);
      var n := Stop(items, now, timeout);
      ListOf(SweptOne(q, last, now, timeout).q.inflight, key)
      == if key == last then Select(items[..n], Keep, now, timeout) + items[n..] else ListOf(q.inflight, key)
  {
    hide Select, Stop, Reverse;
  }

  /** What the sweep of one list, as far as it got, sent away. */
  lemma OneSendsByRule(q: Queues, key: string, now: real, timeout: int)
    returns (toReady: seq<Item>, toDlq: seq<Item>)
    ensures SweptOne(q, key, now, timeout).q.ready == toReady + q.ready
    ensures SweptOne(q, key, now, timeout).q.dlq == toDlq + q.dlq
    ensures forall x :: x in toReady ==> Judge(x, now, timeout) == ToReady
    ensures forall x :: x in toDlq ==> Judge(x, now, timeout) == ToDlq
  {
    var all := ListOf(q.inflight, key);
    var items := all[..Stop(all, now, timeout)];
    var sr, sd := Select(items, ToReady, now, timeout), Select(items, ToDlq, now, timeout);
    ReverseSame(sr);
    ReverseSame(sd);
    toReady, toDlq := Reverse(sr), Reverse(sd);
    hide Select, Reverse, Judge;
    forall x | x in toReady ensures Judge(x, now, timeout) == ToReady {
      assert x in multiset(sr);
      SelectOnly(items, ToReady, now, timeout, x);
    }
    forall x | x in toDlq ensures Judge(x, now, timeout) == ToDlq {
      assert x in multiset(sd);
      SelectOnly(items, ToDlq, now, timeout, x);
    }
  }

  /** What the sweep, as far as it got, sent away. */
  lemma {:induction false} SweepSends(q: Queues, keys: seq<string>, now: real, timeout: int)
    returns (toReady: seq<Item>, toDlq: seq<Item>)
    ensures SweptAll(q, keys, now, timeout).q.ready == toReady + q.ready
    ensures SweptAll(q, keys, now, timeout).q.dlq == toDlq + q.dlq
    ensures forall x :: x in toReady ==> Judge(x, now, timeout) == ToReady
    ensures forall x :: x in toDlq ==> Judge(x, now, timeout) == ToDlq
  {
    hide SweptOne, Judge;
    toReady, toDlq := [], [];
    if keys != [] {
      var front, key := keys[..|keys| - 1], keys[|keys| - 1];
      toReady, toDlq := SweepSends(q, front, now, timeout);
      if SweptAll(q, front, now, timeout).done {
        var r, d := OneSendsByRule(SweptAll(q, front, now, timeout).q, key, now, timeout);
        toReady, toDlq := r + toReady, d + toDlq;
      }
    }
  }

  lemma {:induction false} SelectPartitions(items: seq<Item>, now: real, timeout: int)
    requires forall x <- items :: Judge(x, now, timeout) != Raise
    ensures multiset(items) == multiset(Select(items, Keep, now, timeout))
                               + multiset(Select(items, ToReady, now, timeout))
                               + multiset(Select(items, ToDlq, now, timeout))
  {
    if items != [] {
      var n := |items| - 1;
      assert items == items[..n] + [items[n]];
      assert items[n] in items;
      SelectPartitions(items[..n], now, timeout);
      hide Select, Judge;
      SelectAppend(items[..n], items[n], Keep, now, timeout);
      SelectAppend(items[..n], items[n], ToReady, now, timeout);
      SelectAppend(items[..n], items[n], ToDlq, now, timeout);
    }
  }

  /** All payloads of the lists named, with the ready list and the dead letter queue. */
  function Payloads(q: Queues, domain: seq<string>): multiset<Item> {
    if domain == [] then multiset(q.ready) + multiset(q.dlq)
    else Payloads(q, domain[1..]) + multiset(ListOf(q.inflight, domain[0]))
  }

  predicate Distinct(domain: seq<string>) {
    forall i, j :: 0 <= i < j < |domain| ==> domain[i] != domain[j]
  }

  lemma {:induction false} MidwayOthers(q: Queues, domain: seq<string>, key: string, i: nat, now: real, timeout: int)
    requires key !in domain && i <= |ListOf(q.inflight, key)|
    ensures var items := ListOf(q.inflight, key);
      Payloads(Midway(q, key, items, i, now, timeout), domain)
      == Payloads(q, domain) + multiset(Select(items[..i], ToReady, now, timeout))
         + multiset(Select(items[..i], ToDlq, now, timeout))
  {
    var items := ListOf(q.inflight, key);
    if domain == [] {
      ReverseSame(Select(items[..i], ToReady, now, timeout));
      ReverseSame(Select(items[..i], ToDlq, now, timeout));
    } else {
      MidwayOthers(q, domain[1..], key, i, now, timeout);
    }
  }

  lemma {:induction false} PayloadsHead(q: Queues, domain: seq<string>)
    requires domain != []
    ensures Payloads(q, domain) == Payloads(q, domain[1..]) + multiset(ListOf(q.inflight, domain[0]))
  {
  }

  lemma {:induction false} SplitList(items: seq<Item>, i: nat, now: real, timeout: int)
    requires i <= Stop(items, now, timeout)
    ensures multiset(items) == multiset(Select(items[..i], Keep, now, timeout) + items[i..])
                               + multiset(Select(items[..i], ToReady, now, timeout))
                               + multiset(Select(items[..i], ToDlq, now, timeout))
  {
    hide Select, Judge, Stop;
    assert forall k :: 0 <= k < i ==> items[..i][k] == items[k];
    SelectPartitions(items[..i], now, timeout);
    assert items == items[..i] + items[i..];
  }

  lemma {:induction false} MidwayConserves(q: Queues, domain: seq<string>, key: string, i: nat, now: real, timeout: int)
    requires Distinct(domain) && key in domain && i <= Stop(ListOf(q.inflight, key), now, timeout)
    ensures Payloads(Midway(q, key, ListOf(q.inflight, key), i, now, timeout), domain) == Payloads(q, domain)
  {
    var items := ListOf(q.inflight, key);
    var mid := Midway(q, key, items, i, now, timeout);
    PayloadsHead(q, domain);
    PayloadsHead(mid, domain);
    hide Payloads, Select, Judge, Stop, Reverse;
    if key == domain[0] {
      assert key !in domain[1..];
      MidwayOthers(q, domain[1..], key, i, now, timeout);
      assert ListOf(mid.inflight, key) == Select(items[..i], Keep, now, timeout) + items[i..];
      hide Midway, ListOf;
      SplitList(items, i, now, timeout);
    } else {
      assert ListOf(mid.inflight, domain[0]) == ListOf(q.inflight, domain[0]);
      assert Distinct(domain[1..]) && key in domain[1..];
      hide Midway, ListOf, Distinct;
      MidwayConserves(q, domain[1..], key, i, now, timeout);
    }
  }

  /** A sweep, whether or not it comes to its end, neither loses nor makes a payload. */
  lemma {:induction false} SweepConserves(q: Queues, domain: seq<string>, keys: seq<string>, now: real, timeout: int)
    requires Distinct(domain) && forall k :: k in keys ==> k in domain
    ensures Payloads(SweptAll(q, keys, now, timeout).q, domain) == Payloads(q, domain)
  {
    hide Midway, Stop;
    if keys != [] {
      var front, key := keys[..|keys| - 1], keys[|keys| - 1];
      SweepConserves(q, domain, front, now, timeout);
      var before := SweptAll(q, front, now, timeout);
      if before.done {
        MidwayConserves(before.q, domain, key, Stop(ListOf(before.q.inflight, key), now, timeout), now, timeout);
      }
    }
  }

  // ---------- the sweep by the rule ----------

  lemma SoundExact(items: seq<Item>, now: real, timeout: int)
    ensures Sound(items, now, timeout) <==> forall x <- items :: !IsFatal(x, now, timeout)
  {
    hide Judge;
    forall x ensures Judge(x, now, timeout) == Raise <==> IsFatal(x, now, timeout) { RuleNamed(x, now, timeout); }
  }

  lemma {:induction false} KeptAreFresh(items: seq<Item>, now: real, timeout: int)
    ensures Select(items, Keep, now, timeout) == Filter(items, (x: Item) => IsFresh(x, now, timeout))
  {
    hide Judge;
    if items != [] {
      var n := |items| - 1;
      RuleNamed(items[n], now, timeout);
      KeptAreFresh(items[..n], now, timeout);
    }
  }

  /** As long as it meets no fatal item, a sweep comes to its end and leaves every list it visited with
      exactly its fresh items, in their old order; a list that it did not visit is untouched. */
  lemma {:induction false} SweepKeepsFresh(q: Queues, keys: seq<string>, now: real, timeout: int, key: string)
    requires forall k <- keys, x <- ListOf(q.inflight, k) :: !IsFatal(x, now, timeout)
    ensures SweptAll(q, keys, now, timeout).done
    ensures var items := ListOf(q.inflight, key);
      ListOf(SweptAll(q, keys, now, timeout).q.inflight, key)
      == if key in keys then Filter(items, (x: Item) => IsFresh(x, now, timeout)) else items
  {
    hide SweptAll, Select, Sound, ListOf, Filter, IsFatal;
    forall k | k in keys ensures Sound(ListOf(q.inflight, k), now, timeout) {
      SoundExact(ListOf(q.inflight, k), now, timeout);
    }
    SweepSelects(q, keys, now, timeout, key);
    KeptAreFresh(ListOf(q.inflight, key), now, timeout);
  }

  /** A sweep comes to its end exactly when it meets no fatal item. */
  lemma {:induction false} SweepEndsExactly(q: Queues, keys: seq<string>, now: real, timeout: int)
    ensures SweptAll(q, keys, now, timeout).done <==>
      forall k <- keys, x <- ListOf(q.inflight, k) :: !IsFatal(x, now, timeout)
  {
    hide SweptAll, Select, Sound, ListOf, IsFatal;
    if forall k <- keys, x <- ListOf(q.inflight, k) :: !IsFatal(x, now, timeout) {
      SweepKeepsFresh(q, keys, now, timeout, "");
    } else {
      var i := FirstUnsound(q, keys, now, timeout);
      SweepStopsAtRaise(q, keys, i, now, timeout, "");
    }
  }

  lemma FirstUnsound(q: Queues, keys: seq<string>, now: real, timeout: int) returns (i: nat)
    requires exists k, x :: k in keys && x in ListOf(q.inflight, k) && IsFatal(x, now, timeout)
    ensures i < |keys| && !Sound(ListOf(q.inflight, keys[i]), now, timeout)
    ensures forall k <- keys[..i] :: Sound(ListOf(q.inflight, k), now, timeout)
  {
    hide ListOf, Sound, IsFatal;
    var k, x :| k in keys && x in ListOf(q.inflight, k) && IsFatal(x, now, timeout);
    SoundExact(ListOf(q.inflight, k), now, timeout);
    i := 0;
    while Sound(ListOf(q.inflight, keys[i]), now, timeout)
      invariant i < |keys| && forall j :: 0 <= j < i ==> Sound(ListOf(q.inflight, keys[j]), now, timeout)
      decreases |keys| - i
    {
      i := i + 1;
    }
  }

  /** The ready list and the dead letter queue keep what they had behind what they got. Ready got only
      reclaimable items, the dead letter queue only malformed and spent ones. */
  lemma SweepSendsByRule(q: Queues, keys: seq<string>, now: real, timeout: int)
    returns (toReady: seq<Item>, toDlq: seq<Item>)
    ensures SweptAll(q, keys, now, timeout).q.ready == toReady + q.ready
    ensures SweptAll(q, keys, now, timeout).q.dlq == toDlq + q.dlq
    ensures forall x <- toReady :: IsReclaimable(x, now, timeout)
    ensures forall x <- toDlq :: x.Malformed? || IsSpent(x, now, timeout)
  {
    hide SweptAll, Judge;
    toReady, toDlq := SweepSends(q, keys, now, timeout);
    forall x ensures (Judge(x, now, timeout) == ToReady ==> IsReclaimable(x, now, timeout))
                     && (Judge(x, now, timeout) == ToDlq ==> x.Malformed? || IsSpent(x, now, timeout))
    {
      RuleNamed(x, now, timeout);
    }
  }
}
