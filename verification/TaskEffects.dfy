/** What the worker's, the operator's and the environment's actions of the task protocol do, in full, and
    what over a whole run decides the state of an attempt. */
module TaskEffects {
  import opened Wrappers
  import opened Lists
  import opened TaskProtocol
  import opened TaskDelivery

  // ---------- single actions ----------

  /** A commit on an attempt that is not terminal records exactly the outcome, in its state and as one
      event; on a terminal attempt it records nothing. Nothing else changes but the worker's own place. */
  lemma CommitEffect(s: State, k: nat, o: Outcome)
    requires Enabled(s, Commit(k, o))
    ensures var p, t := s.procs[k].p, Step(s, Commit(k, o));
      && t.procs == s.procs[k := Acking(p)]
      && (if s.attempts[p.id] == Succeeded || s.attempts[p.id] == FailedTerminal || s.attempts[p.id] == Skipped
          then t == s.(procs := t.procs)
          else t == s.(procs := t.procs, audit := s.audit + [Event(p.id, o)],
                       attempts := s.attempts[p.id := match o
                                                      case Success => Succeeded
                                                      case RetryableFailure => FailedRetryable
                                                      case TerminalFailure => FailedTerminal]))
  {
  }

  /** An ack takes one occurrence of the payload off the worker's own list, and nothing else. */
  lemma AckEffect(s: State, k: nat)
    requires Enabled(s, Ack(k))
    ensures var t := Step(s, Ack(k));
      && |t.inflight| == |s.inflight|
      && t == s.(inflight := s.inflight[k := t.inflight[k]], procs := s.procs[k := Idle])
      && multiset(t.inflight[k]) == multiset(s.inflight[k]) - multiset{s.procs[k].p}
  {
    RemovesOne(s.inflight[k], s.procs[k].p);
    hide RemoveFirst;
  }

  /** A claim takes the oldest payload of the ready list to the worker's own list. */
  lemma ClaimEffect(s: State, k: nat)
    requires Enabled(s, Claim(k))
    ensures var n := |s.ready| - 1;
      Step(s, Claim(k)) == s.(ready := s.ready[..n], inflight := s.inflight[k := [s.ready[n]] + s.inflight[k]],
                              procs := s.procs[k := Working(s.ready[n])])
  {
  }

  /** Bytes that name no attempt go to the dead letter queue. */
  lemma DeadLetterEffect(s: State, k: nat)
    requires Enabled(s, DeadLetter(k))
    ensures Step(s, DeadLetter(k)) == s.(dlq := [s.procs[k].p] + s.dlq, procs := s.procs[k := Acking(s.procs[k].p)])
  {
  }

  /** What happens outside the queues: time passes, a task is created with its due time and a queued
      attempt, foreign bytes arrive, a process dies. */
  lemma EnvironmentEffect(s: State, a: Action)
    requires Enabled(s, a) && (a.Tick? || a.NewTask? || a.Inject? || a.Stop?)
    ensures Step(s, a) == match a
                          case Tick(time) => s.(clock := time)
                          case NewTask(id, due) => s.(rows := s.rows[id := Row(due, false)],
                                                      attempts := s.attempts[id := Queued])
                          case Inject(raw) => s.(ready := [Foreign(raw)] + s.ready)
                          case Stop(k) => s.(procs := s.procs[k := Idle])
                          case _ => s
  {
  }

  /** When these can happen: time never goes back, a task is created once, anything may arrive, and any
      process may die. */
  lemma EnvironmentEnabled(s: State, time: int, id: nat, due: int, raw: nat, k: nat)
    ensures Enabled(s, Tick(time)) <==> s.clock <= time
    ensures Enabled(s, NewTask(id, due)) <==> id !in s.rows && id !in s.attempts
    ensures Enabled(s, Inject(raw)) && (Enabled(s, Stop(k)) <==> k < |s.procs|)
  {
  }

  /** An operator drops one occurrence from the dead letter queue. */
  lemma DropEffect(s: State, p: Payload)
    ensures Enabled(s, Drop(p)) <==> p in s.dlq
    ensures Enabled(s, Drop(p)) ==>
      var t := Step(s, Drop(p));
      t == s.(dlq := t.dlq) && multiset(t.dlq) == multiset(s.dlq) - multiset{p}
  {
    RemovesOne(s.dlq, p);
    hide RemoveFirst;
  }

  /** A requeue takes one occurrence from the dead letter queue to ready, in two commands. */
  lemma {:induction false} RequeueIsRun(s: State, k: nat, p: Payload)
    requires k < |s.procs| && s.procs[k] == Idle && p in s.dlq
    ensures var t := Run(s, [RequeueRemove(k, p), RequeuePush(k)]);
      && t.Some? && t.value == s.(dlq := t.value.dlq, ready := [p] + s.ready)
      && multiset(t.value.dlq) == multiset(s.dlq) - multiset{p}
  {
    hide Run, RemoveFirst;
    var u := Step(s, RequeueRemove(k, p));
    RequeueForms(s, k, p);
    hide Step, Enabled;
    RemovesOne(s.dlq, p);
    RunOne(s, RequeueRemove(k, p));
    RunOn(s, [RequeueRemove(k, p)], u, RequeuePush(k));
    assert [RequeueRemove(k, p)] + [RequeuePush(k)] == [RequeueRemove(k, p), RequeuePush(k)];
  }

  lemma {:induction false} RequeueForms(s: State, k: nat, p: Payload)
    requires Enabled(s, RequeueRemove(k, p))
    ensures var u := Step(s, RequeueRemove(k, p));
      && Enabled(u, RequeuePush(k))
      && Step(u, RequeuePush(k)) == s.(dlq := RemoveFirst(s.dlq, p), ready := [p] + s.ready)
  {
    hide RemoveFirst;
    var u := Step(s, RequeueRemove(k, p));
    assert Step(u, RequeuePush(k)).procs == s.procs;
  }

  // ---------- one turn of a worker ----------

  /** A worker that is not disturbed claims the oldest payload, records the outcome or sends foreign bytes
      to the dead letter queue, and takes the payload off its list again. */
  lemma TurnIsProtocolRun(s: State, k: nat, o: Outcome) returns (actions: seq<Action>, t: State)
    requires k < |s.procs| && s.procs[k] == Idle && k < |s.inflight| && s.ready != []
    requires forall p: Payload :: p in s.ready && p.Task? ==> p.id in s.attempts
    ensures Run(s, actions) == Some(t)
    ensures var n, p := |s.ready| - 1, s.ready[|s.ready| - 1];
      && t == s.(ready := s.ready[..n], dlq := t.dlq, attempts := t.attempts, audit := t.audit)
      && (if p.Foreign? then t.dlq == [p] + s.dlq && t.attempts == s.attempts && t.audit == s.audit
          else && t.dlq == s.dlq
               && t.attempts == (if s.attempts[p.id] in {Succeeded, FailedTerminal, Skipped} then s.attempts
                                 else s.attempts[p.id := match o
                                                         case Success => Succeeded
                                                         case RetryableFailure => FailedRetryable
                                                         case TerminalFailure => FailedTerminal])
               && t.audit == (if s.attempts[p.id] in {Succeeded, FailedTerminal, Skipped} then s.audit
                              else s.audit + [Event(p.id, o)]))
  {
    hide Run, Step;
    var p := s.ready[|s.ready| - 1];
    assert p in s.ready;
    var u := Step(s, Claim(k));
    ClaimEffect(s, k);
    RunOne(s, Claim(k));
    var a := if p.Foreign? then DeadLetter(k) else Commit(k, o);
    var v := Step(u, a);
    if p.Foreign? { DeadLetterEffect(u, k); } else { CommitEffect(u, k, o); }
    RunOn(s, [Claim(k)], u, a);
    AckForm(v, k, s.inflight[k], p);
    RunOn(s, [Claim(k)] + [a], v, Ack(k));
    actions, t := [Claim(k)] + [a] + [Ack(k)], Step(v, Ack(k));
    hide Enabled;
    assert v.inflight[k := s.inflight[k]] == s.inflight && v.procs[k := Idle] == s.procs;
  }

  /** The payload just claimed is at the head of the list, so the ack takes that very one. */
  lemma AckForm(s: State, k: nat, l: seq<Payload>, p: Payload)
    requires Enabled(s, Ack(k)) && s.procs[k].p == p && s.inflight[k] == [p] + l
    ensures Step(s, Ack(k)) == s.(inflight := s.inflight[k := l], procs := s.procs[k := Idle])
  {
    assert RemoveFirst([p] + l, p) == l;
  }

  // ---------- what decides an attempt ----------

  /** Action j is a commit for the attempt, which is not terminal by then. */
  ghost predicate EffectiveAt(n: nat, actions: seq<Action>, j: nat, id: nat) {
    && j < |actions| && actions[j].Commit? && Run(Init(n), actions[..j]).Some?
    && var s := Run(Init(n), actions[..j]).value;
       && Enabled(s, actions[j]) && s.procs[actions[j].k].p.id == id
       && s.attempts[id] != Succeeded && s.attempts[id] != FailedTerminal && s.attempts[id] != Skipped
  }

  /** The last effective commit for the attempt. */
  ghost function LastCommit(n: nat, actions: seq<Action>, id: nat): Option<nat> {
    if actions == [] then None
    else
      var last := |actions| - 1;
      if EffectiveAt(n, actions, last, id) then Some(last) else LastCommit(n, actions[..last], id)
  }

  lemma EffectiveInPrefix(n: nat, actions: seq<Action>, m: nat, j: nat, id: nat)
    requires j < m <= |actions|
    ensures EffectiveAt(n, actions[..m], j, id) <==> EffectiveAt(n, actions, j, id)
  {
    hide Run, Enabled;
    assert actions[..m][..j] == actions[..j];
  }

  lemma {:induction false} LastCommitExact(n: nat, actions: seq<Action>, id: nat)
    ensures var last := LastCommit(n, actions, id);
      && (last.Some? ==> EffectiveAt(n, actions, last.value, id))
      && forall j: nat :: EffectiveAt(n, actions, j, id) ==> last.Some? && j <= last.value
  {
    if actions != [] {
      var m := |actions| - 1;
      LastCommitExact(n, actions[..m], id);
      hide EffectiveAt;
      var last := LastCommit(n, actions, id);
      forall j: nat | EffectiveAt(n, actions, j, id) ensures last.Some? && j <= last.value {
        EffectiveWithin(n, actions, j, id);
        if j < m { EffectiveInPrefix(n, actions, m, j, id); }
      }
      if last.Some? && last.value < m { EffectiveInPrefix(n, actions, m, last.value, id); }
      if last.Some? { LastWithin(n, actions, id); }
    }
  }

  lemma EffectiveWithin(n: nat, actions: seq<Action>, j: nat, id: nat)
    requires EffectiveAt(n, actions, j, id)
    ensures j < |actions|
  {
  }

  lemma {:induction false} LastWithin(n: nat, actions: seq<Action>, id: nat)
    ensures LastCommit(n, actions, id).Some? ==> LastCommit(n, actions, id).value < |actions|
  {
    hide EffectiveAt;
    if actions != [] { LastWithin(n, actions[..|actions| - 1], id); }
  }

  /** An attempt that a commit was for is in the table from then on. */
  lemma {:induction false} CommittedIsKnown(n: nat, actions: seq<Action>, id: nat)
    requires Run(Init(n), actions).Some? && LastCommit(n, actions, id).Some?
    ensures id in Run(Init(n), actions).value.attempts
  {
    hide Step, Enabled, Init;
    var m := |actions| - 1;
    RunLast(Init(n), actions);
    assert actions[..m] == actions[..|actions| - 1];
    if EffectiveAt(n, actions, m, id) {
      AttemptsKept(Run(Init(n), actions[..m]).value, actions[m], id);
    } else {
      CommittedIsKnown(n, actions[..m], id);
      AttemptsKept(Run(Init(n), actions[..m]).value, actions[m], id);
    }
  }

  lemma AttemptsKept(s: State, a: Action, id: nat)
    requires Enabled(s, a) && (id in s.attempts || (a.Commit? && s.procs[a.k].p.id == id))
    ensures id in Step(s, a).attempts
  {
    hide Step;
    match a {
      case Commit(k, o) => CommitEffect(s, k, o);
      case NewTask(i, due) => EnvironmentEffect(s, a);
      case _ => DatabaseUntouched(s, a);
    }
  }

  /** One step of an attempt: a commit that is effective for it sets its state, a new task makes it
      queued, and nothing else touches it. */
  lemma AttemptStep(s: State, a: Action, id: nat)
    requires Enabled(s, a) && id in Step(s, a).attempts
    ensures var t := Step(s, a);
      if a.Commit? && s.procs[a.k].p.id == id && id in s.attempts
         && s.attempts[id] != Succeeded && s.attempts[id] != FailedTerminal && s.attempts[id] != Skipped
      then t.attempts[id] == match a.outcome
                             case Success => Succeeded
                             case RetryableFailure => FailedRetryable
                             case TerminalFailure => FailedTerminal
      else if id in s.attempts then t.attempts[id] == s.attempts[id]
      else t.attempts[id] == Queued
  {
    hide Step;
    match a {
      case Commit(k, o) => CommitEffect(s, k, o);
      case NewTask(i, due) => EnvironmentEffect(s, a);
      case _ => DatabaseUntouched(s, a);
    }
  }

  /** The state of an attempt is what its last effective commit reported, or queued. */
  lemma {:induction false} StateIsLastCommit(n: nat, actions: seq<Action>, id: nat)
    requires Run(Init(n), actions).Some? && id in Run(Init(n), actions).value.attempts
    ensures var last := LastCommit(n, actions, id);
      && (last.Some? ==> last.value < |actions| && actions[last.value].Commit?)
      && Run(Init(n), actions).value.attempts[id]
         == if last.None? then Queued
            else match actions[last.value].outcome
                 case Success => Succeeded
                 case RetryableFailure => FailedRetryable
                 case TerminalFailure => FailedTerminal
  {
    LastCommitExact(n, actions, id);
    NothingKnown(n);
    hide Init;
    assert actions != [];
    var m := |actions| - 1;
    RunLast(Init(n), actions);
    var s := Run(Init(n), actions[..m]).value;
    hide Run, Step;
    AttemptStep(s, actions[m], id);
    assert EffectiveAt(n, actions, m, id) <==>
      actions[m].Commit? && s.procs[actions[m].k].p.id == id && id in s.attempts
      && s.attempts[id] != Succeeded && s.attempts[id] != FailedTerminal && s.attempts[id] != Skipped;
    hide EffectiveAt, Enabled;
    if !EffectiveAt(n, actions, m, id) {
      if id in s.attempts {
        StateIsLastCommit(n, actions[..m], id);
      } else if LastCommit(n, actions[..m], id).Some? {
        CommittedIsKnown(n, actions[..m], id);
      }
    }
  }

  lemma NothingKnown(n: nat)
    ensures Run(Init(n), []) == Some(Init(n)) && Init(n).attempts == map[]
  {
  }

  /** The commit at j reported o and is effective for the attempt, and no later one is. */
  ghost predicate DecidesAt(n: nat, actions: seq<Action>, j: nat, id: nat, o: Outcome) {
    && EffectiveAt(n, actions, j, id) && actions[j].outcome == o
    && forall i: nat :: EffectiveAt(n, actions, i, id) ==> i <= j
  }

  lemma {:induction false} DecidedAs(n: nat, actions: seq<Action>, id: nat, o: Outcome)
    ensures var last := LastCommit(n, actions, id);
      && (last.Some? ==> last.value < |actions| && actions[last.value].Commit?)
      && ((exists j: nat :: DecidesAt(n, actions, j, id, o)) <==> last.Some? && actions[last.value].outcome == o)
  {
    LastCommitExact(n, actions, id);
    hide LastCommit, Run, Enabled;
    var last := LastCommit(n, actions, id);
    if last.Some? && actions[last.value].outcome == o { assert DecidesAt(n, actions, last.value, id, o); }
    if exists j: nat :: DecidesAt(n, actions, j, id, o) {
      var j: nat :| DecidesAt(n, actions, j, id, o);
      assert j == last.value;
    }
  }

  /** Over every run: an attempt is succeeded, failed for a retry or failed for good exactly when its last
      effective commit reported success, a retryable or a terminal failure, and queued exactly when it
      has had none. */
  lemma {:induction false} AttemptStateExact(n: nat, actions: seq<Action>, id: nat)
    requires Run(Init(n), actions).Some? && id in Run(Init(n), actions).value.attempts
    ensures var state := Run(Init(n), actions).value.attempts[id];
      && (state == Succeeded <==> exists j: nat :: DecidesAt(n, actions, j, id, Success))
      && (state == FailedRetryable <==> exists j: nat :: DecidesAt(n, actions, j, id, RetryableFailure))
      && (state == FailedTerminal <==> exists j: nat :: DecidesAt(n, actions, j, id, TerminalFailure))
      && (state == Queued <==> forall j: nat :: !EffectiveAt(n, actions, j, id))
  {
    hide Run, LastCommit, DecidesAt, EffectiveAt, Init;
    StateIsLastCommit(n, actions, id);
    LastCommitExact(n, actions, id);
    DecidedAs(n, actions, id, Success);
    DecidedAs(n, actions, id, RetryableFailure);
    DecidedAs(n, actions, id, TerminalFailure);
  }
}
