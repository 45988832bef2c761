/** The task queue as a protocol: relay, scheduler, workers, reapers and operator interleave,
    one Redis command or one database transaction at a time. What a process holds between two
    commands is explicit in its `Proc`. Which process acts, and which item the reaper picks and
    where it sends it, is left open; the relay's batch, the scheduler's promotion and the reaper's
    sweep of a list are proved to be runs of it. */
module TaskProtocol {
  import opened Wrappers
  import opened Lists

  /** A task of an outbox row, or bytes that name no attempt (malformed, or unknown ids). */
  datatype Payload = Task(id: nat, claimedAt: int) | Foreign(raw: nat)

  datatype Row = Row(scheduledFor: int, enqueued: bool)

  datatype AttemptState = Queued | Succeeded | FailedRetryable | FailedTerminal | Skipped

  predicate Terminal(a: AttemptState) { a.Succeeded? || a.FailedTerminal? || a.Skipped? }

  datatype Outcome = Success | RetryableFailure | TerminalFailure

  function StateOf(o: Outcome): AttemptState {
    match o
    case Success => Succeeded
    case RetryableFailure => FailedRetryable
    case TerminalFailure => FailedTerminal
  }

  datatype Event = Event(id: nat, outcome: Outcome)

  datatype Dest = ToReady | ToDlq

  datatype Proc =
    | Idle
    | Relaying(now: int, ids: set<nat>)
    | Working(p: Payload)
    | Acking(p: Payload)
    | Scheduling(now: int)
    | Holding(now: int, p: Payload, score: int)
    | Sweeping(worker: nat, items: seq<Payload>)
    | Moving(p: Payload, dest: Dest, worker: nat, items: seq<Payload>)
    | Requeuing(p: Payload)

  /** `pushed` are the tasks ever pushed to Redis. */
  datatype State = State(
    clock: int,
    rows: map<nat, Row>, attempts: map<nat, AttemptState>, audit: seq<Event>,
    ready: seq<Payload>, delayed: map<Payload, int>, inflight: seq<seq<Payload>>, dlq: seq<Payload>,
    procs: seq<Proc>,
    pushed: set<nat>)

  datatype Action =
    | Tick(t: int)
    | NewTask(id: nat, scheduledFor: int)
    | Inject(raw: nat)
    | RelayBegin(k: nat)
    | RelayPush(k: nat, id: nat)
    | RelayCommit(k: nat)
    | Claim(k: nat)
    | Commit(k: nat, outcome: Outcome)
    | DeadLetter(k: nat)
    | Ack(k: nat)
    | ScheduleBegin(k: nat)
    | SchedulePop(k: nat, p: Payload)
    | ScheduleReturn(k: nat)
    | SweepBegin(k: nat, worker: nat)
    | SweepSkip(k: nat)
    | SweepRemove(k: nat, dest: Dest)
    | SweepPush(k: nat)
    | RequeueRemove(k: nat, p: Payload)
    | RequeuePush(k: nat)
    | Drop(p: Payload)
    | Stop(k: nat)

  // ---------- list commands ----------

  /** LPUSH */
  function Push(l: seq<Payload>, p: Payload): (r: seq<Payload>)
    ensures forall q :: q in r <==> q == p || q in l
  {
    [p] + l
  }

  /** RPOPLPUSH takes from the tail. */
  function Front(l: seq<Payload>): (r: seq<Payload>)
    requires l != []
    ensures forall q :: q in l <==> q == l[|l| - 1] || q in r
  {
    assert l == l[..|l| - 1] + [l[|l| - 1]];
    l[..|l| - 1]
  }

  // ---------- steps ----------

  function Init(n: nat): State {
    State(0, map[], map[], [], [], map[], seq(n, _ => []), [], seq(n, _ => Idle), {})
  }

  function SetProc(s: State, k: nat, pr: Proc): State
    requires k < |s.procs|
  {
    s.(procs := s.procs[k := pr])
  }

  /** The task a process would lose by dying now: it has been removed and not pushed again. */
  function InHand(pr: Proc): Option<Payload> {
    match pr
    case Holding(_, p, _) => Some(p)
    case Moving(p, _, _, _) => Some(p)
    case Requeuing(p) => Some(p)
    case _ => None
  }

  predicate Enabled(s: State, a: Action) {
    match a
    case Tick(t) => s.clock <= t
    case NewTask(id, _) => id !in s.rows && id !in s.attempts
    case Inject(_) => true
    case RelayBegin(k) => k < |s.procs| && s.procs[k].Idle?
    case RelayPush(k, id) => k < |s.procs| && s.procs[k].Relaying? && id in s.rows && !s.rows[id].enqueued
    case RelayCommit(k) => k < |s.procs| && s.procs[k].Relaying?
    case Claim(k) => k < |s.procs| && s.procs[k].Idle? && k < |s.inflight| && s.ready != []
    case Commit(k, _) => k < |s.procs| && s.procs[k].Working? && s.procs[k].p.Task? && s.procs[k].p.id in s.attempts
    case DeadLetter(k) => k < |s.procs| && s.procs[k].Working? && s.procs[k].p.Foreign?
    case Ack(k) => k < |s.procs| && s.procs[k].Acking? && k < |s.inflight|
    case ScheduleBegin(k) => k < |s.procs| && s.procs[k].Idle?
    case SchedulePop(k, p) =>
      && k < |s.procs| && s.procs[k].Scheduling? && p in s.delayed
      && forall q :: q in s.delayed ==> s.delayed[p] <= s.delayed[q]
    case ScheduleReturn(k) => k < |s.procs| && s.procs[k].Holding?
    case SweepBegin(k, w) => k < |s.procs| && s.procs[k].Idle? && w < |s.inflight|
    case SweepSkip(k) => k < |s.procs| && s.procs[k].Sweeping? && s.procs[k].items != []
    case SweepRemove(k, _) =>
      k < |s.procs| && s.procs[k].Sweeping? && s.procs[k].items != [] && s.procs[k].worker < |s.inflight|
    case SweepPush(k) => k < |s.procs| && s.procs[k].Moving?
    case RequeueRemove(k, p) => k < |s.procs| && s.procs[k].Idle? && p in s.dlq
    case RequeuePush(k) => k < |s.procs| && s.procs[k].Requeuing?
    case Drop(p) => p in s.dlq
    case Stop(k) => k < |s.procs|
  }

  /** The state after an enabled action. */
  function Step(s: State, a: Action): State
    requires Enabled(s, a)
  {
    match a
    case Tick(t) => s.(clock := t)
    case NewTask(id, due) => s.(rows := s.rows[id := Row(due, false)], attempts := s.attempts[id := Queued])
    case Inject(raw) => s.(ready := Push(s.ready, Foreign(raw)))
    case RelayBegin(k) => SetProc(s, k, Relaying(s.clock, {}))
    case RelayPush(k, id) => RelayPushed(s, k, id)
    case RelayCommit(k) => SetProc(s.(rows := Marked(s.rows, s.procs[k].ids)), k, Idle)
    case Claim(k) =>
      var p := s.ready[|s.ready| - 1];
      SetProc(s.(ready := Front(s.ready), inflight := s.inflight[k := Push(s.inflight[k], p)]), k, Working(p))
    case Commit(k, o) => Committed(s, k, o)
    case DeadLetter(k) => SetProc(s.(dlq := Push(s.dlq, s.procs[k].p)), k, Acking(s.procs[k].p))
    case Ack(k) => SetProc(s.(inflight := s.inflight[k := RemoveFirst(s.inflight[k], s.procs[k].p)]), k, Idle)
    case ScheduleBegin(k) => SetProc(s, k, Scheduling(s.clock))
    case SchedulePop(k, p) => SetProc(s.(delayed := s.delayed - {p}), k, Holding(s.procs[k].now, p, s.delayed[p]))
    case ScheduleReturn(k) =>
      var h := s.procs[k];
      if h.score > h.now then SetProc(s.(delayed := s.delayed[h.p := h.score]), k, Idle)
      else SetProc(s.(ready := Push(s.ready, h.p)), k, Scheduling(h.now))
    case SweepBegin(k, w) => SetProc(s, k, Sweeping(w, s.inflight[w]))
    case SweepSkip(k) => SetProc(s, k, Sweeping(s.procs[k].worker, s.procs[k].items[1..]))
    case SweepRemove(k, dest) =>
      var w, items := s.procs[k].worker, s.procs[k].items;
      SetProc(s.(inflight := s.inflight[w := RemoveFirst(s.inflight[w], items[0])]), k,
              Moving(items[0], dest, w, items[1..]))
    case SweepPush(k) =>
      var m := s.procs[k];
      var after := if m.dest.ToReady? then s.(ready := Push(s.ready, m.p)) else s.(dlq := Push(s.dlq, m.p));
      SetProc(after, k, Sweeping(m.worker, m.items))
    case RequeueRemove(k, p) => SetProc(s.(dlq := RemoveFirst(s.dlq, p)), k, Requeuing(p))
    case RequeuePush(k) => SetProc(s.(ready := Push(s.ready, s.procs[k].p)), k, Idle)
    case Drop(p) => s.(dlq := RemoveFirst(s.dlq, p))
    case Stop(k) => SetProc(s, k, Idle)
  }

  /** The relay pushes a pending row: ready when due at the batch's own time, delayed otherwise. */
  function RelayPushed(s: State, k: nat, id: nat): State
    requires k < |s.procs| && s.procs[k].Relaying? && id in s.rows
  {
    var p := Task(id, s.clock);
    var due := s.rows[id].scheduledFor;
    var after := if due <= s.procs[k].now then s.(ready := Push(s.ready, p)) else s.(delayed := s.delayed[p := due]);
    SetProc(after.(pushed := s.pushed + {id}), k, Relaying(s.procs[k].now, s.procs[k].ids + {id}))
  }

  function Marked(rows: map<nat, Row>, ids: set<nat>): map<nat, Row> {
    map id | id in rows :: if id in ids then rows[id].(enqueued := true) else rows[id]
  }

  /** One _process_task transaction: a terminal attempt is left alone, any other gets the outcome. */
  function Committed(s: State, k: nat, o: Outcome): State
    requires k < |s.procs| && s.procs[k].Working? && s.procs[k].p.Task? && s.procs[k].p.id in s.attempts
  {
    var id := s.procs[k].p.id;
    var after := if Terminal(s.attempts[id]) then s
                 else s.(attempts := s.attempts[id := StateOf(o)], audit := s.audit + [Event(id, o)]);
    SetProc(after, k, Acking(s.procs[k].p))
  }

  /** The state after a list of actions, if each was enabled in its turn. */
  function Run(s: State, actions: seq<Action>): Option<State> {
    if actions == [] then Some(s)
    else
      var before := Run(s, actions[..|actions| - 1]);
      var a := actions[|actions| - 1];
      if before.Some? && Enabled(before.value, a) then Some(Step(before.value, a)) else None
  }

  /** A run goes on with any action that is enabled at its end. */
  lemma {:induction false} RunOn(s: State, actions: seq<Action>, t: State, a: Action)
    requires Run(s, actions) == Some(t) && Enabled(t, a)
    ensures Run(s, actions + [a]) == Some(Step(t, a))
  {
    assert (actions + [a])[..|actions|] == actions;
  }

  /** Runs one after the other are a run. */
  lemma {:induction false} RunConcat(s: State, a: seq<Action>, t: State, b: seq<Action>)
    requires Run(s, a) == Some(t) && Run(t, b).Some?
    ensures Run(s, a + b) == Run(t, b)
  {
    hide Step, Enabled;
    if b == [] {
      assert a + b == a;
    } else {
      var front := b[..|b| - 1];
      RunConcat(s, a, t, front);
      assert (a + b)[..|a + b| - 1] == a + front;
    }
  }

  lemma {:induction false} RunOne(s: State, a: Action)
    requires Enabled(s, a)
    ensures Run(s, [a]) == Some(Step(s, a))
  {
    RunOn(s, [], s, a) by { assert Run(s, []) == Some(s); }
    hide Step, Enabled;
    assert [] + [a] == [a];
  }
}
