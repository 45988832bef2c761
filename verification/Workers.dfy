/** The queue functions and one turn of the worker loop as the code runs them, on the lists they change
    in place, with contracts on the lists' contents; and that a turn is a run of the task protocol. */
module Workers {
  import opened Wrappers
  import opened Lists
  import opened TaskProtocol

  /** The lists, the attempts and the log as a worker sees them. */
  datatype View = View(ready: seq<Payload>, inflight: seq<seq<Payload>>, dlq: seq<Payload>,
                       attempts: map<nat, AttemptState>, audit: seq<Event>)

  class Site {
    var ready: seq<Payload>
    var inflight: seq<seq<Payload>>
    var dlq: seq<Payload>
    var attempts: map<nat, AttemptState>
    var audit: seq<Event>

    ghost function Snapshot(): View
      reads this
    {
      View(ready, inflight, dlq, attempts, audit)
    }

    // ---------- reliable queue ----------

    method Enqueue(p: Payload) returns (length: nat)
      modifies `ready
      ensures ready == [p] + old(ready) && length == |old(ready)| + 1
    {
      ready := [p] + ready;
      length := |ready|;
    }

    /** Takes the oldest payload, if any, to the head of the worker's list, in one command. */
    method ClaimTask(k: nat) returns (task: Option<Payload>)
      requires k < |inflight|
      modifies `ready, `inflight
      ensures task.None? <==> old(ready) == []
      ensures task.None? ==> ready == old(ready) && inflight == old(inflight)
      ensures task.Some? ==>
        && old(ready) == ready + [task.value]
        && inflight == old(inflight)[k := [task.value] + old(inflight)[k]]
    {
      if ready == [] { return None; }
      var n := |ready| - 1;
      task := Some(ready[n]);
      inflight := inflight[k := [ready[n]] + inflight[k]];
      ready := ready[..n];
    }

    /** Removes one occurrence of the payload, and says how many it removed. */
    method AckTask(k: nat, p: Payload) returns (removed: nat)
      requires k < |inflight|
      modifies `inflight
      ensures removed == if p in old(inflight)[k] then 1 else 0
      ensures |inflight| == |old(inflight)| && inflight == old(inflight)[k := inflight[k]]
      ensures multiset(inflight[k]) == multiset(old(inflight)[k]) - multiset{p}
      ensures inflight[k] == RemoveFirst(old(inflight)[k], p)
    {
      RemovesOne(inflight[k], p);
      removed := if p in inflight[k] then 1 else 0;
      inflight := inflight[k := RemoveFirst(inflight[k], p)];
    }

    // ---------- dead letter queue ----------

    method MoveToDlq(p: Payload) returns (length: nat)
      modifies `dlq
      ensures dlq == [p] + old(dlq) && length == |old(dlq)| + 1
    {
      dlq := [p] + dlq;
      length := |dlq|;
    }

    /** Moves one occurrence back to ready, exactly if there is one. */
    method RequeueFromDlq(p: Payload) returns (found: bool)
      modifies `dlq, `ready
      ensures found <==> p in old(dlq)
      ensures multiset(dlq) == multiset(old(dlq)) - multiset{p}
      ensures ready == if found then [p] + old(ready) else old(ready)
      ensures multiset(ready) + multiset(dlq) == multiset(old(ready)) + multiset(old(dlq))
    {
      RemovesOne(dlq, p);
      found := p in dlq;
      dlq := RemoveFirst(dlq, p);
      if found { ready := [p] + ready; }
    }

    method DropFromDlq(p: Payload) returns (found: bool)
      modifies `dlq
      ensures found <==> p in old(dlq)
      ensures multiset(dlq) == multiset(old(dlq)) - multiset{p}
    {
      RemovesOne(dlq, p);
      found := p in dlq;
      dlq := RemoveFirst(dlq, p);
    }

    // ---------- the worker ----------

    /** The transaction of _process_task: a terminal attempt is left alone; any other gets the state that
        the outcome names, and the log one event with that outcome. */
    method RecordOutcome(id: nat, outcome: Outcome)
      requires id in attempts
      modifies `attempts, `audit
      ensures old(attempts)[id] in {Succeeded, FailedTerminal, Skipped} ==>
        attempts == old(attempts) && audit == old(audit)
      ensures old(attempts)[id] !in {Succeeded, FailedTerminal, Skipped} ==>
        && attempts == old(attempts)[id := match outcome
                                           case Success => Succeeded
                                           case RetryableFailure => FailedRetryable
                                           case TerminalFailure => FailedTerminal]
        && audit == old(audit) + [Event(id, outcome)]
    {
      if attempts[id] in {Succeeded, FailedTerminal, Skipped} { return; }
      match outcome {
        case Success => attempts := attempts[id := Succeeded];
        case RetryableFailure => attempts := attempts[id := FailedRetryable];
        case TerminalFailure => attempts := attempts[id := FailedTerminal];
      }
      audit := audit + [Event(id, outcome)];
    }

    /** One turn of the worker loop with the outcome that the handler reports. The oldest payload leaves
        the ready list and the worker's list is as before. Bytes that name no attempt end in the dead
        letter queue; for a task the outcome is recorded. */
    method WorkOnce(k: nat, outcome: Outcome) returns (worked: bool)
      requires k < |inflight| && forall p: Payload :: p in ready && p.Task? ==> p.id in attempts
      modifies this
      ensures worked <==> old(ready) != []
      ensures !worked ==> Snapshot() == old(Snapshot())
      ensures worked ==>
        && ready == old(ready)[..|old(ready)| - 1] && inflight == old(inflight)
        && var p := old(ready)[|old(ready)| - 1];
           if p.Foreign? then dlq == [p] + old(dlq) && attempts == old(attempts) && audit == old(audit)
           else && dlq == old(dlq)
                && attempts == (if old(attempts)[p.id] in {Succeeded, FailedTerminal, Skipped} then old(attempts)
                                else old(attempts)[p.id := match outcome
                                                           case Success => Succeeded
                                                           case RetryableFailure => FailedRetryable
                                                           case TerminalFailure => FailedTerminal])
                && audit == (if old(attempts)[p.id] in {Succeeded, FailedTerminal, Skipped} then old(audit)
                             else old(audit) + [Event(p.id, outcome)])
    {
      hide RemoveFirst;
      var task := ClaimTask(k);
      if task.None? { return false; }
      var p := task.value;
      assert p == old(ready)[|old(ready)| - 1] && p in old(ready);
      assert ready == old(ready)[..|old(ready)| - 1];
      if p.Foreign? {
        var length := MoveToDlq(p);
      } else {
        RecordOutcome(p.id, outcome);
      }
      var removed := AckTask(k, p);
      HeadRemoved(old(inflight)[k], p);
      assert inflight == old(inflight);
      worked := true;
    }
  }

  lemma {:induction false} HeadRemoved(l: seq<Payload>, p: Payload)
    ensures RemoveFirst([p] + l, p) == l
  {
  }

  // ---------- first in, first out ----------

  /** The ready list after these payloads were enqueued one after the other. */
  function Enqueued(ready: seq<Payload>, ps: seq<Payload>): seq<Payload> {
    if ps == [] then ready else [ps[|ps| - 1]] + Enqueued(ready, ps[..|ps| - 1])
  }

  /** What n claims in a row take, in their order. */
  function Claimed(ready: seq<Payload>, n: nat): seq<Payload>
    requires n <= |ready|
  {
    if n == 0 then [] else [ready[|ready| - 1]] + Claimed(ready[..|ready| - 1], n - 1)
  }

  lemma {:induction false} EnqueuedForm(ready: seq<Payload>, ps: seq<Payload>)
    ensures Enqueued(ready, ps) == Reverse(ps) + ready
  {
    if ps != [] { EnqueuedForm(ready, ps[..|ps| - 1]); }
  }

  lemma {:induction false} ClaimedAt(ready: seq<Payload>, n: nat, i: nat)
    requires i < n <= |ready|
    ensures |Claimed(ready, n)| == n && Claimed(ready, n)[i] == ready[|ready| - 1 - i]
  {
    if n > 1 { ClaimedAt(ready[..|ready| - 1], n - 1, if i > 0 then i - 1 else 0); }
  }

  /** Payloads enqueued on an empty ready list are claimed in the order in which they were enqueued. */
  lemma {:induction false} FirstInFirstOut(ps: seq<Payload>)
    ensures |Enqueued([], ps)| == |ps| && Claimed(Enqueued([], ps), |ps|) == ps
  {
    EnqueuedForm([], ps);
    if ps != [] { ReverseAt(ps, 0); }
    hide Enqueued, Claimed, Reverse;
    if ps == [] {
      assert Claimed([], 0) == [] by { NothingClaimed(); }
    } else {
      ClaimedAt(Enqueued([], ps), |ps|, 0);
      forall i: nat | i < |ps| ensures Claimed(Enqueued([], ps), |ps|)[i] == ps[i] {
        ClaimedAt(Enqueued([], ps), |ps|, i);
        ReverseAt(ps, |ps| - 1 - i);
      }
    }
  }

  lemma NothingClaimed()
    ensures Claimed([], 0) == []
  {
  }
}
