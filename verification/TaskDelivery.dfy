/** What every interleaving of the task protocol keeps: no relayed task disappears before it
    is discharged, none shows up before it is due, and no attempt is decided twice. */
module TaskDelivery {
  import opened Wrappers
  import opened Lists
  import opened TaskProtocol

  // ---------- the invariant ----------

  /** p may be worked on: a task whose row exists and is due. */
  predicate Due(p: Payload, rows: map<nat, Row>, clock: int) {
    p.Task? ==> p.id in rows && rows[p.id].scheduledFor <= clock
  }

  ghost predicate AllDue(l: seq<Payload>, rows: map<nat, Row>, clock: int) {
    forall p :: p in l ==> Due(p, rows, clock)
  }

  ghost predicate ProcOk(pr: Proc, s: State) {
    match pr
    case Idle => true
    case Relaying(now, ids) => now <= s.clock && ids <= s.pushed
    case Working(p) => Due(p, s.rows, s.clock)
    case Acking(p) => Due(p, s.rows, s.clock) && (p.Task? ==> Decided(s, p.id))
    case Scheduling(now) => now <= s.clock
    case Holding(now, p, score) =>
      now <= s.clock && p.Task? && p.id in s.rows && s.rows[p.id].scheduledFor == score
    case Sweeping(_, items) => AllDue(items, s.rows, s.clock)
    case Moving(p, _, _, items) => Due(p, s.rows, s.clock) && AllDue(items, s.rows, s.clock)
    case Requeuing(p) => Due(p, s.rows, s.clock)
  }

  /** An outcome has been committed for the attempt. */
  predicate Decided(s: State, id: nat) {
    id in s.attempts && !s.attempts[id].Queued?
  }

  ghost predicate Inv(s: State) {
    && |s.inflight| == |s.procs|
    && RowsOk(s)
    && ListsDue(s)
    && DelayedOk(s)
    && (forall k :: 0 <= k < |s.procs| ==> ProcOk(s.procs[k], s))
  }

  // ---------- every step keeps it ----------

  /** Rows keep their due time, the clock and the discharged sets only grow. */
  ghost predicate Later(s: State, t: State) {
    && s.clock <= t.clock
    && s.pushed <= t.pushed
    && (forall id :: id in s.rows ==> id in t.rows && t.rows[id].scheduledFor == s.rows[id].scheduledFor)
    && (forall id :: Decided(s, id) ==> Decided(t, id))
  }

  lemma RowsLater(s: State, a: Action)
    requires Enabled(s, a)
    ensures s.clock <= Step(s, a).clock
    ensures forall id :: id in s.rows ==>
      id in Step(s, a).rows && Step(s, a).rows[id].scheduledFor == s.rows[id].scheduledFor
  {
    hide Push, RemoveFirst, Front;
  }

  lemma DecidedLater(s: State, a: Action)
    requires Enabled(s, a)
    ensures forall id :: Decided(s, id) ==> Decided(Step(s, a), id)
  {
    hide Step;
    match a {
      case Commit(k, o) => CommitForm(s, k, o);
      case NewTask(n, due) => NewTaskForm(s, n, due);
      case _ => DatabaseUntouched(s, a);
    }
  }

  lemma StepIsLater(s: State, a: Action)
    requires Enabled(s, a)
    ensures Later(s, Step(s, a))
  {
    hide Step, Enabled;
    RowsLater(s, a);
    PushedGrows(s, a);
    DecidedLater(s, a);
  }

  lemma DueLater(s: State, t: State, l: seq<Payload>)
    requires Later(s, t) && AllDue(l, s.rows, s.clock)
    ensures AllDue(l, t.rows, t.clock)
  {
  }

  lemma ProcLater(s: State, t: State, pr: Proc)
    requires Later(s, t) && ProcOk(pr, s)
    ensures ProcOk(pr, t)
  {
    match pr
    case Sweeping(_, items) => DueLater(s, t, items);
    case Moving(_, _, _, items) => DueLater(s, t, items);
    case _ =>
  }

  /** The lists of a state, all holding due payloads. */
  ghost predicate ListsDue(s: State) {
    && AllDue(s.ready, s.rows, s.clock)
    && AllDue(s.dlq, s.rows, s.clock)
    && (forall w :: 0 <= w < |s.inflight| ==> AllDue(s.inflight[w], s.rows, s.clock))
  }

  /** What a process holds that it may push to a list. */
  ghost predicate HandDue(s: State) {
    forall k :: 0 <= k < |s.procs| ==> ProcOk(s.procs[k], s)
  }

  /** What may come into the ready list: foreign bytes, a row that is due, or what a hand held. */
  lemma ReadyGains(s: State, a: Action, p: Payload)
    requires Enabled(s, a) && p in Step(s, a).ready && p !in s.ready
    ensures || p.Foreign?
            || (a.RelayPush? && p.id == a.id && s.rows[a.id].scheduledFor <= s.procs[a.k].now)
            || (a.ScheduleReturn? && s.procs[a.k].p == p && s.procs[a.k].score <= s.procs[a.k].now)
            || (a.SweepPush? && s.procs[a.k].p == p)
            || (a.RequeuePush? && s.procs[a.k].p == p)
  {
    hide RemoveFirst, Marked;
  }

  lemma ReadyDue(s: State, a: Action)
    requires HandDue(s) && Enabled(s, a) && Later(s, Step(s, a))
    requires AllDue(s.ready, Step(s, a).rows, Step(s, a).clock)
    ensures AllDue(Step(s, a).ready, Step(s, a).rows, Step(s, a).clock)
  {
    hide Step;
    var t := Step(s, a);
    forall p | p in t.ready ensures Due(p, t.rows, t.clock) {
      if p !in s.ready {
        ReadyGains(s, a, p);
        if p.Task? { assert ProcOk(s.procs[a.k], s); }
      }
    }
  }

  lemma DlqDue(s: State, a: Action)
    requires HandDue(s) && Enabled(s, a)
    requires AllDue(s.dlq, Step(s, a).rows, Step(s, a).clock)
    ensures AllDue(Step(s, a).dlq, Step(s, a).rows, Step(s, a).clock)
  {
    hide Front, Marked;
  }

  lemma InflightDue(s: State, a: Action, w: nat)
    requires AllDue(s.ready, s.rows, s.clock) && Enabled(s, a) && w < |s.inflight|
    requires AllDue(s.inflight[w], Step(s, a).rows, Step(s, a).clock)
    ensures w < |Step(s, a).inflight| == |s.inflight|
    ensures AllDue(Step(s, a).inflight[w], Step(s, a).rows, Step(s, a).clock)
  {
    hide Front, Marked;
  }

  lemma StepKeepsLists(s: State, a: Action)
    requires Inv(s) && Enabled(s, a)
    ensures ListsDue(Step(s, a))
  {
    var t := Step(s, a);
    StepIsLater(s, a);
    InflightCount(s, a);
    hide Step, Enabled, AllDue, ProcOk, Later;
    DueLater(s, t, s.ready);
    ReadyDue(s, a);
    DueLater(s, t, s.dlq);
    DlqDue(s, a);
    forall w | 0 <= w < |t.inflight| ensures AllDue(t.inflight[w], t.rows, t.clock) {
      DueLater(s, t, s.inflight[w]);
      InflightDue(s, a, w);
    }
  }

  lemma InflightCount(s: State, a: Action)
    requires Enabled(s, a)
    ensures |Step(s, a).inflight| == |s.inflight|
  {
    hide Push, RemoveFirst, Front, Marked;
  }

  /** Only the acting process changes its state. */
  lemma StepKeepsProcs(s: State, a: Action, k: nat)
    requires Inv(s) && Enabled(s, a) && k < |s.procs|
    ensures |Step(s, a).procs| == |s.procs|
    ensures ProcOk(Step(s, a).procs[k], Step(s, a))
  {
    var t := Step(s, a);
    StepIsLater(s, a);
    ProcsForm(s, a);
    hide Step, Later, NextProc, ProcOk, ListsDue, RowsOk, DelayedOk;
    if NextProc(s, a).Some? && a.k == k {
      NextProcOk(s, a, t);
    } else {
      ProcLater(s, t, s.procs[k]);
    }
  }

  /** What the acting process becomes. */
  ghost function NextProc(s: State, a: Action): (pr: Option<Proc>)
    requires Enabled(s, a)
  {
    match a
    case RelayBegin(k) => Some(Relaying(s.clock, {}))
    case RelayPush(k, id) => Some(Relaying(s.procs[k].now, s.procs[k].ids + {id}))
    case Claim(k) => Some(Working(s.ready[|s.ready| - 1]))
    case Commit(k, _) => Some(Acking(s.procs[k].p))
    case DeadLetter(k) => Some(Acking(s.procs[k].p))
    case ScheduleBegin(k) => Some(Scheduling(s.clock))
    case SchedulePop(k, p) => Some(Holding(s.procs[k].now, p, s.delayed[p]))
    case ScheduleReturn(k) => Some(if s.procs[k].score > s.procs[k].now then Idle else Scheduling(s.procs[k].now))
    case SweepBegin(k, w) => Some(Sweeping(w, s.inflight[w]))
    case SweepSkip(k) => Some(Sweeping(s.procs[k].worker, s.procs[k].items[1..]))
    case SweepRemove(k, dest) => Some(Moving(s.procs[k].items[0], dest, s.procs[k].worker, s.procs[k].items[1..]))
    case SweepPush(k) => Some(Sweeping(s.procs[k].worker, s.procs[k].items))
    case RequeueRemove(k, p) => Some(Requeuing(p))
    case Tick(_) => None
    case NewTask(_, _) => None
    case Inject(_) => None
    case Drop(_) => None
    case _ => Some(Idle)
  }

  lemma ProcsForm(s: State, a: Action)
    requires Enabled(s, a)
    ensures var pr := NextProc(s, a);
      Step(s, a).procs == if pr.Some? then s.procs[a.k := pr.value] else s.procs
  {
    hide Push, RemoveFirst, Front, Marked;
  }

  /** The process that acts keeps its own part of the invariant. */
  lemma NextProcOk(s: State, a: Action, t: State)
    requires Inv(s) && Enabled(s, a) && t == Step(s, a) && NextProc(s, a).Some?
    ensures ProcOk(NextProc(s, a).value, t)
  {
    StepIsLater(s, a);
    PushedGrows(s, a);
    if a.Commit? { CommitForm(s, a.k, a.outcome); }
    hide Step;
    assert ProcOk(s.procs[a.k], s);
    ProcLater(s, t, s.procs[a.k]);
    if a.SweepBegin? { DueLater(s, t, s.inflight[a.worker]); }
  }

  ghost predicate RowsOk(s: State) {
    && s.attempts.Keys == s.rows.Keys
    && s.pushed <= s.rows.Keys
    && forall id :: id in s.rows && s.rows[id].enqueued ==> id in s.pushed
  }

  ghost predicate DelayedOk(s: State) {
    forall p :: p in s.delayed ==> p.Task? && p.id in s.rows && s.rows[p.id].scheduledFor == s.delayed[p]
  }

  lemma StepKeepsRows(s: State, a: Action)
    requires Inv(s) && Enabled(s, a)
    ensures RowsOk(Step(s, a)) && |Step(s, a).inflight| == |Step(s, a).procs|
  {
    hide AllDue, DelayedOk, Push, RemoveFirst, Front, Due;
    if a.RelayCommit? || a.Commit? {
      assert ProcOk(s.procs[a.k], s);
    }
  }

  lemma StepKeepsDelayed(s: State, a: Action)
    requires Inv(s) && Enabled(s, a)
    ensures DelayedOk(Step(s, a))
  {
    StepIsLater(s, a);
    hide AllDue, RowsOk, Push, RemoveFirst, Front, Due;
    if a.ScheduleReturn? {
      assert ProcOk(s.procs[a.k], s);
    }
  }

  lemma StepKeepsInv(s: State, a: Action)
    requires Inv(s) && Enabled(s, a)
    ensures Inv(Step(s, a))
  {
    var t := Step(s, a);
    StepKeepsRows(s, a);
    StepKeepsDelayed(s, a);
    StepKeepsLists(s, a);
    forall k | 0 <= k < |t.procs| ensures ProcOk(t.procs[k], t) {
      ProcCount(s, a);
      StepKeepsProcs(s, a, k);
    }
    hide Step, AllDue, ProcOk, Enabled, RowsOk, DelayedOk;
  }

  lemma ProcCount(s: State, a: Action)
    requires Enabled(s, a)
    ensures |Step(s, a).procs| == |s.procs|
  {
    ProcsForm(s, a);
    hide Step, NextProc;
  }

  // ---------- at least once ----------

  ghost predicate Inflight(s: State, p: Payload) {
    exists w :: 0 <= w < |s.inflight| && p in s.inflight[w]
  }

  ghost predicate Held(s: State, p: Payload) {
    exists k :: 0 <= k < |s.procs| && InHand(s.procs[k]) == Some(p)
  }

  /** p is somewhere: in a list, in the delayed set, or between a remove and a push. */
  ghost predicate Copy(s: State, p: Payload) {
    p in s.ready || p in s.dlq || p in s.delayed || Inflight(s, p) || Held(s, p)
  }

  ghost predicate HasCopy(s: State, id: nat) {
    exists p: Payload :: p.Task? && p.id == id && Copy(s, p)
  }

  /** The two actions that take a payload away: an operator drops it, or its holder dies. */
  predicate Loses(s: State, a: Action, p: Payload) {
    a == Drop(p) || (a.Stop? && a.k < |s.procs| && InHand(s.procs[a.k]) == Some(p))
  }

  lemma InflightKept(s: State, a: Action, p: Payload, w: nat)
    requires Inv(s) && Enabled(s, a) && p.Task?
    requires w < |s.inflight| && p in s.inflight[w]
    ensures Copy(Step(s, a), p) || Decided(Step(s, a), p.id)
  {
    var t := Step(s, a);
    if a.Ack? && a.k == w && s.procs[w].p == p {
      assert ProcOk(s.procs[w], s);
      assert Decided(t, p.id);
    } else if a.SweepRemove? && s.procs[a.k].worker == w && s.procs[a.k].items[0] == p {
      assert InHand(t.procs[a.k]) == Some(p);
    } else {
      assert w < |t.inflight| && p in t.inflight[w];
    }
  }

  lemma HeldKept(s: State, a: Action, p: Payload, k: nat)
    requires Inv(s) && Enabled(s, a)
    requires k < |s.procs| && InHand(s.procs[k]) == Some(p)
    ensures Copy(Step(s, a), p) || Loses(s, a, p)
  {
    var t := Step(s, a);
    ProcCount(s, a);
    if t.procs[k] == s.procs[k] {
      assert InHand(t.procs[k]) == Some(p);
    } else {
      HandMoves(s, a, p, k);
    }
  }

  /** A process leaves the hand state only by pushing what it holds, or by stopping. */
  lemma HandMoves(s: State, a: Action, p: Payload, k: nat)
    requires Enabled(s, a) && k < |s.procs| && InHand(s.procs[k]) == Some(p)
    requires |Step(s, a).procs| == |s.procs| && Step(s, a).procs[k] != s.procs[k]
    ensures var t := Step(s, a);
      p in t.ready || p in t.dlq || p in t.delayed || (a.Stop? && a.k == k)
  {
    hide Push, RemoveFirst, Front;
  }

  lemma ReadyKept(s: State, a: Action, p: Payload)
    requires Enabled(s, a) && p in s.ready
    ensures p in Step(s, a).ready || (a.Claim? && p in Step(s, a).inflight[a.k])
  {
    hide RemoveFirst, Marked;
  }

  lemma DlqKept(s: State, a: Action, p: Payload)
    requires Enabled(s, a) && p in s.dlq
    ensures p in Step(s, a).dlq || (a.RequeueRemove? && InHand(Step(s, a).procs[a.k]) == Some(p)) || a == Drop(p)
  {
    hide Front, Marked;
  }

  lemma DelayedKept(s: State, a: Action, p: Payload)
    requires Enabled(s, a) && p in s.delayed
    ensures p in Step(s, a).delayed || (a.SchedulePop? && InHand(Step(s, a).procs[a.k]) == Some(p))
  {
    hide Push, RemoveFirst, Front, Marked;
  }

  lemma ListedKept(s: State, a: Action, p: Payload)
    requires Inv(s) && Enabled(s, a)
    requires p in s.ready || p in s.dlq || p in s.delayed
    ensures Copy(Step(s, a), p) || Loses(s, a, p)
  {
    if p in s.ready { ReadyKept(s, a, p); }
    else if p in s.dlq { DlqKept(s, a, p); }
    else { DelayedKept(s, a, p); }
    ProcCount(s, a);
    InflightCount(s, a);
    hide Step, InHand;
  }

  /** After any step a payload is still somewhere, unless its task is decided, or this very payload
      was dropped by an operator or died with its holder. */
  lemma CopyKept(s: State, a: Action, p: Payload)
    requires Inv(s) && Enabled(s, a) && p.Task? && Copy(s, p)
    ensures Copy(Step(s, a), p) || Decided(Step(s, a), p.id) || Loses(s, a, p)
  {
    hide Step, Enabled, Inv;
    if Inflight(s, p) {
      var w :| 0 <= w < |s.inflight| && p in s.inflight[w];
      InflightKept(s, a, p, w);
    } else if Held(s, p) {
      var k :| 0 <= k < |s.procs| && InHand(s.procs[k]) == Some(p);
      HeldKept(s, a, p, k);
    } else {
      ListedKept(s, a, p);
    }
  }

  /** A push puts a copy of the task somewhere. */
  lemma PushCovers(s: State, a: Action)
    requires Enabled(s, a) && a.RelayPush?
    ensures HasCopy(Step(s, a), a.id)
  {
    var p := Task(a.id, s.clock);
    assert Copy(Step(s, a), p);
  }

  lemma PushedGrows(s: State, a: Action)
    requires Enabled(s, a)
    ensures Step(s, a).pushed == s.pushed + if a.RelayPush? then {a.id} else {}
  {
    hide RemoveFirst, Front, Push;
  }

  // ---------- decided once ----------

  /** The events that decide an attempt for good. */
  function FinalEvents(audit: seq<Event>, id: nat): seq<Event> {
    if audit == [] then []
    else
      var front, e := audit[..|audit| - 1], audit[|audit| - 1];
      FinalEvents(front, id) + if e.id == id && !e.outcome.RetryableFailure? then [e] else []
  }

  /** An attempt has one final event, and it tells its state; or it has none and is open. */
  ghost predicate DecidedOnce(s: State, id: nat) {
    id in s.attempts ==>
      match s.attempts[id]
      case Succeeded => FinalEvents(s.audit, id) == [Event(id, Success)]
      case FailedTerminal => FinalEvents(s.audit, id) == [Event(id, TerminalFailure)]
      case _ => FinalEvents(s.audit, id) == []
  }

  lemma {:induction false} FinalEventsAppend(audit: seq<Event>, e: Event, id: nat)
    ensures FinalEvents(audit + [e], id)
            == FinalEvents(audit, id) + if e.id == id && !e.outcome.RetryableFailure? then [e] else []
  {
    assert (audit + [e])[..|audit|] == audit;
  }

  /** An attempt that is not in the table yet has no events. */
  ghost predicate EventsKnown(s: State) {
    forall i :: 0 <= i < |s.audit| ==> s.audit[i].id in s.attempts
  }

  lemma {:induction false} NoEvents(audit: seq<Event>, id: nat)
    requires forall i :: 0 <= i < |audit| ==> audit[i].id != id
    ensures FinalEvents(audit, id) == []
  {
    if audit != [] { NoEvents(audit[..|audit| - 1], id); }
  }

  /** Outside a commit nothing touches attempts and audit, but for a new task. */
  lemma DatabaseUntouched(s: State, a: Action)
    requires Enabled(s, a) && !a.Commit? && !a.NewTask?
    ensures Step(s, a).attempts == s.attempts && Step(s, a).audit == s.audit
  {
    hide RemoveFirst, Front, Push;
  }

  /** The two actions that write attempts, in full. */
  lemma CommitForm(s: State, k: nat, o: Outcome)
    requires Enabled(s, Commit(k, o))
    ensures Step(s, Commit(k, o)) == Committed(s, k, o)
  {
    hide Committed;
  }

  lemma NewTaskForm(s: State, n: nat, due: int)
    requires Enabled(s, NewTask(n, due))
    ensures Step(s, NewTask(n, due)).attempts == s.attempts[n := Queued]
    ensures Step(s, NewTask(n, due)).audit == s.audit && n !in s.attempts
  {
  }

  lemma CommitDecidesOnce(s: State, k: nat, o: Outcome, id: nat)
    requires Enabled(s, Commit(k, o)) && DecidedOnce(s, id)
    ensures DecidedOnce(Committed(s, k, o), id)
  {
    hide FinalEvents;
    FinalEventsAppend(s.audit, Event(s.procs[k].p.id, o), id);
  }

  lemma StepDecidesOnce(s: State, a: Action, id: nat)
    requires Enabled(s, a) && EventsKnown(s) && DecidedOnce(s, id)
    ensures DecidedOnce(Step(s, a), id)
  {
    hide Step, Enabled, Committed, FinalEvents;
    match a {
      case Commit(k, o) =>
        CommitForm(s, k, o);
        CommitDecidesOnce(s, k, o, id);
      case NewTask(n, due) =>
        NewTaskForm(s, n, due);
        if n == id { NoEvents(s.audit, id); }
      case _ => DatabaseUntouched(s, a);
    }
  }

  lemma StepKnowsEvents(s: State, a: Action)
    requires Enabled(s, a) && EventsKnown(s)
    ensures EventsKnown(Step(s, a))
  {
    hide Step;
    match a {
      case Commit(k, o) => CommitForm(s, k, o);
      case NewTask(n, due) => NewTaskForm(s, n, due);
      case _ => DatabaseUntouched(s, a);
    }
  }

  /** A terminal attempt never changes, however often its task is delivered. */
  lemma TerminalIsFinal(s: State, a: Action, id: nat)
    requires Enabled(s, a) && id in s.attempts && Terminal(s.attempts[id])
    ensures id in Step(s, a).attempts && Step(s, a).attempts[id] == s.attempts[id]
  {
    hide Step;
    match a {
      case Commit(k, o) => CommitForm(s, k, o);
      case NewTask(n, due) => NewTaskForm(s, n, due);
      case _ => DatabaseUntouched(s, a);
    }
  }

  /** Whatever is delivered afterwards, and however often, a terminal attempt stays as it is. */
  lemma {:induction false} TerminalForever(s: State, actions: seq<Action>, id: nat)
    requires Run(s, actions).Some? && id in s.attempts && Terminal(s.attempts[id])
    ensures id in Run(s, actions).value.attempts && Run(s, actions).value.attempts[id] == s.attempts[id]
  {
    if actions != [] {
      hide Step, Enabled;
      var front := actions[..|actions| - 1];
      TerminalForever(s, front, id);
      TerminalIsFinal(Run(s, front).value, actions[|actions| - 1], id);
    }
  }

  // ---------- every run ----------

  ghost predicate Good(s: State) {
    && Inv(s)
    && EventsKnown(s)
    && (forall id :: DecidedOnce(s, id))
  }

  lemma {:induction false} RunIsGood(n: nat, actions: seq<Action>)
    requires Run(Init(n), actions).Some?
    ensures Good(Run(Init(n), actions).value)
  {
    if actions != [] {
      var a := actions[|actions| - 1];
      RunIsGood(n, actions[..|actions| - 1]);
      var s := Run(Init(n), actions[..|actions| - 1]).value;
      hide Step, Enabled, Inv, EventsKnown, DecidedOnce;
      StepKeepsInv(s, a);
      StepKnowsEvents(s, a);
      forall id ensures DecidedOnce(Step(s, a), id) { StepDecidesOnce(s, a, id); }
    }
  }

  /** Before action k one occurrence of one payload of the task is left, and action k takes it away: an
      operator drops it, or the process that holds it dies. */
  ghost predicate LostAt(n: nat, actions: seq<Action>, k: nat, id: nat)
    requires k < |actions|
  {
    var before := Run(Init(n), actions[..k]);
    && before.Some?
    && exists p: Payload :: LastCopy(before.value, p, id) && TakesLast(before.value, actions[k], p)
  }

  ghost predicate LastCopy(s: State, p: Payload, id: nat) {
    p.Task? && p.id == id && Copy(s, p) && forall q: Payload :: q.Task? && q.id == id && Copy(s, q) ==> q == p
  }

  /** A step after which an undecided task has no copy takes away its last one. */
  lemma OnlyLossesLose(s: State, a: Action, id: nat)
    requires Inv(s) && Enabled(s, a) && HasCopy(s, id)
    requires !HasCopy(Step(s, a), id) && !Decided(Step(s, a), id)
    ensures exists p: Payload :: LastCopy(s, p, id) && Loses(s, a, p)
  {
    hide Step, Inv, Copy, Enabled;
    var p: Payload :| p.Task? && p.id == id && Copy(s, p);
    CopyKept(s, a, p);
    forall q: Payload | q.Task? && q.id == id && Copy(s, q) ensures q == p { CopyKept(s, a, q); }
    assert LastCopy(s, p, id);
  }

  /** Action a takes the one occurrence of p that is left anywhere. */
  ghost predicate TakesLast(s: State, a: Action, p: Payload) {
    && p !in s.ready && p !in s.delayed && !Inflight(s, p)
    && (if a == Drop(p) then p !in RemoveFirst(s.dlq, p) && !Held(s, p)
        else && a.Stop? && a.k < |s.procs| && InHand(s.procs[a.k]) == Some(p) && p !in s.dlq
             && forall j :: 0 <= j < |s.procs| && j != a.k ==> InHand(s.procs[j]) != Some(p))
  }

  lemma {:induction false} DropForm(s: State, p: Payload)
    requires Enabled(s, Drop(p))
    ensures Step(s, Drop(p)) == s.(dlq := RemoveFirst(s.dlq, p))
  {
  }

  lemma StopForm(s: State, k: nat)
    requires Enabled(s, Stop(k))
    ensures Step(s, Stop(k)) == s.(procs := s.procs[k := Idle])
  {
  }

  /** A drop or a stop leaves no occurrence of p exactly when it took the last one. */
  lemma {:induction false} LossExact(s: State, a: Action, p: Payload)
    requires Enabled(s, a) && Loses(s, a, p)
    ensures !Copy(Step(s, a), p) <==> TakesLast(s, a, p)
  {
    var t := Step(s, a);
    if a == Drop(p) {
      DropForm(s, p);
      hide Step, RemoveFirst;
      assert Inflight(t, p) <==> Inflight(s, p);
      assert Held(t, p) <==> Held(s, p);
    } else {
      StopForm(s, a.k);
      hide Step;
      assert Inflight(t, p) <==> Inflight(s, p);
      if Held(t, p) {
        var j :| 0 <= j < |t.procs| && InHand(t.procs[j]) == Some(p);
        assert j != a.k && InHand(s.procs[j]) == Some(p);
      } else {
        forall j | 0 <= j < |s.procs| && j != a.k ensures InHand(s.procs[j]) != Some(p) {
          assert t.procs[j] == s.procs[j];
        }
      }
    }
  }

  /** A drop or a stop makes no copy. */
  lemma {:induction false} LossesAddNothing(s: State, a: Action, p: Payload, q: Payload)
    requires Enabled(s, a) && Loses(s, a, p) && Copy(Step(s, a), q)
    ensures Copy(s, q)
  {
    var t := Step(s, a);
    if a == Drop(p) {
      DropForm(s, p);
      hide Step;
      assert Inflight(t, q) ==> Inflight(s, q);
      assert Held(t, q) ==> Held(s, q);
    } else {
      StopForm(s, a.k);
      hide Step;
      assert Inflight(t, q) ==> Inflight(s, q);
      if Held(t, q) {
        var j :| 0 <= j < |t.procs| && InHand(t.procs[j]) == Some(q);
        assert t.procs[j] == s.procs[j];
      }
    }
  }

  /** A step leaves an undecided task without a copy exactly when it drops, or stops the holder of, the
      one occurrence of its one payload that is left. */
  lemma LostExactly(s: State, a: Action, id: nat)
    requires Inv(s) && Enabled(s, a) && HasCopy(s, id) && !Decided(Step(s, a), id)
    ensures !HasCopy(Step(s, a), id) <==> exists p: Payload :: LastCopy(s, p, id) && TakesLast(s, a, p)
  {
    hide Step, Inv, Enabled, Copy, Decided;
    var t := Step(s, a);
    if !HasCopy(t, id) {
      OnlyLossesLose(s, a, id);
      var p: Payload :| LastCopy(s, p, id) && Loses(s, a, p);
      LossExact(s, a, p);
      assert LastCopy(s, p, id) && TakesLast(s, a, p);
    }
    if exists p: Payload :: LastCopy(s, p, id) && TakesLast(s, a, p) {
      var p: Payload :| LastCopy(s, p, id) && TakesLast(s, a, p);
      LossExact(s, a, p);
      forall q: Payload | q.Task? && q.id == id ensures !Copy(t, q) {
        if Copy(t, q) { LossesAddNothing(s, a, p, q); }
      }
    }
  }

  /** A task without a copy was pushed before this step, and is not decided by taking the step back. */
  lemma PushedBefore(s: State, a: Action, id: nat)
    requires Enabled(s, a) && id in Step(s, a).pushed && !Decided(Step(s, a), id) && !HasCopy(Step(s, a), id)
    ensures id in s.pushed && !Decided(s, id)
  {
    hide Step, Enabled, HasCopy;
    PushedGrows(s, a);
    DecidedLater(s, a);
    if a.RelayPush? { PushCovers(s, a); }
  }

  lemma NothingPushed(n: nat)
    ensures Run(Init(n), []) == Some(Init(n)) && Init(n).pushed == {}
  {
  }

  lemma RunLast(s: State, actions: seq<Action>)
    requires actions != [] && Run(s, actions).Some?
    ensures var front, a := actions[..|actions| - 1], actions[|actions| - 1];
      && Run(s, front).Some? && Enabled(Run(s, front).value, a)
      && Run(s, actions) == Some(Step(Run(s, front).value, a))
  {
    hide Step, Enabled;
  }

  /** The loss of an undecided task that was pushed and has no copy any more. */
  lemma {:induction false} LossFound(n: nat, actions: seq<Action>, id: nat) returns (k: nat)
    requires Run(Init(n), actions).Some? && id in Run(Init(n), actions).value.pushed
    requires !Decided(Run(Init(n), actions).value, id) && !HasCopy(Run(Init(n), actions).value, id)
    ensures k < |actions| && LostAt(n, actions, k, id)
    ensures forall m: nat :: k < m <= |actions| ==> NoCopyAt(n, actions, m, id)
  {
    hide Run, Step, Enabled, HasCopy, Inv, Init, Decided, LostAt, NoCopyAt;
    NothingPushed(n);
    var last := |actions| - 1;
    assert actions != [];
    var front, a := actions[..last], actions[last];
    RunLast(Init(n), actions);
    RunIsGood(n, front);
    var before := Run(Init(n), front).value;
    PushedBefore(before, a, id);
    NoCopyNow(n, actions, id);
    if HasCopy(before, id) {
      k := last;
      LostNow(n, actions, before, id);
    } else {
      k := LossFound(n, front, id);
      LostInPrefix(n, actions, last, k, id);
    }
  }

  lemma {:induction false} NoCopyNow(n: nat, actions: seq<Action>, id: nat)
    requires Run(Init(n), actions).Some? && !HasCopy(Run(Init(n), actions).value, id)
    ensures NoCopyAt(n, actions, |actions|, id)
  {
    hide Run, HasCopy;
    assert actions[..|actions|] == actions;
  }

  lemma LostNow(n: nat, actions: seq<Action>, before: State, id: nat)
    requires actions != [] && Run(Init(n), actions[..|actions| - 1]) == Some(before)
    requires var a := actions[|actions| - 1];
      && Inv(before) && Enabled(before, a) && HasCopy(before, id)
      && !HasCopy(Step(before, a), id) && !Decided(Step(before, a), id)
    ensures LostAt(n, actions, |actions| - 1, id)
  {
    hide Run, Inv, HasCopy, Step, Enabled, Decided, LastCopy, TakesLast;
    LostExactly(before, actions[|actions| - 1], id);
  }

  lemma LostInPrefix(n: nat, actions: seq<Action>, last: nat, k: nat, id: nat)
    requires k < last <= |actions| && LostAt(n, actions[..last], k, id)
    requires forall m: nat :: k < m <= last ==> NoCopyAt(n, actions[..last], m, id)
    ensures LostAt(n, actions, k, id) && forall m: nat :: k < m <= last ==> NoCopyAt(n, actions, m, id)
  {
    hide Run, HasCopy, LastCopy, TakesLast;
    assert actions[..last][..k] == actions[..k];
    forall m: nat | k < m <= last ensures NoCopyAt(n, actions, m, id) {
      assert NoCopyAt(n, actions[..last], m, id) && actions[..last][..m] == actions[..m];
    }
  }

  /** At least once: in every interleaving a task that the relay pushed, and so every task whose row
      is marked enqueued, is decided, or has a copy somewhere, or lost its last copy at one action k,
      a drop of it or the death of its holder, and has had none since. */
  lemma AtLeastOnce(n: nat, actions: seq<Action>, id: nat) returns (k: nat)
    requires Run(Init(n), actions).Some?
    requires var s := Run(Init(n), actions).value; id in s.pushed || (id in s.rows && s.rows[id].enqueued)
    ensures var s := Run(Init(n), actions).value;
      || Decided(s, id)
      || HasCopy(s, id)
      || (&& k < |actions| && LostAt(n, actions, k, id)
          && forall m: nat :: k < m <= |actions| ==> NoCopyAt(n, actions, m, id))
  {
    RunIsGood(n, actions);
    var s := Run(Init(n), actions).value;
    hide Run, HasCopy, LostAt, NoCopyAt;
    k := 0;
    if !Decided(s, id) && !HasCopy(s, id) { k := LossFound(n, actions, id); }
  }

  ghost predicate NoCopyAt(n: nat, actions: seq<Action>, m: nat, id: nat)
    requires m <= |actions|
  {
    Run(Init(n), actions[..m]).Some? && !HasCopy(Run(Init(n), actions[..m]).value, id)
  }

  /** Never early: a task in the ready list, an inflight list or the dead letter queue is due. */
  lemma {:induction false} NeverEarly(n: nat, actions: seq<Action>, p: Payload)
    requires Run(Init(n), actions).Some? && p.Task?
    ensures var s := Run(Init(n), actions).value;
      p in s.ready || p in s.dlq || Inflight(s, p) ==>
        p.id in s.rows && s.rows[p.id].scheduledFor <= s.clock
  {
    RunIsGood(n, actions);
    hide Run;
    var s := Run(Init(n), actions).value;
    if Inflight(s, p) {
      var w :| 0 <= w < |s.inflight| && p in s.inflight[w];
      assert AllDue(s.inflight[w], s.rows, s.clock);
    }
  }

  /** Decided once: under any redelivery an attempt gets at most one event that it succeeded
      or failed for good, never both, and its state says which. */
  lemma {:induction false} AttemptDecidedOnce(n: nat, actions: seq<Action>, id: nat)
    requires Run(Init(n), actions).Some?
    ensures var s := Run(Init(n), actions).value;
      |FinalEvents(s.audit, id)| <= 1 && DecidedOnce(s, id)
  {
    RunIsGood(n, actions);
    var s := Run(Init(n), actions).value;
    assert DecidedOnce(s, id);
    if id !in s.attempts { NoEvents(s.audit, id); }
  }

  // ---------- where a crash loses a task ----------

  /** The death of a holder does lose the task when no other copy is left: the scheduler between
      ZPOPMIN and LPUSH, the reaper and the requeue between LREM and LPUSH. */
  lemma HandLoses(s: State, k: nat, p: Payload)
    requires k < |s.procs| && InHand(s.procs[k]) == Some(p) && p.Task? && !Decided(s, p.id)
    requires forall q: Payload :: q.Task? && q.id == p.id ==>
      q !in s.ready && q !in s.dlq && q !in s.delayed && !Inflight(s, q)
    requires forall j, q :: 0 <= j < |s.procs| && InHand(s.procs[j]) == Some(q) && q.Task? && q.id == p.id ==> j == k
    ensures Enabled(s, Stop(k)) && !HasCopy(Step(s, Stop(k)), p.id) && !Decided(Step(s, Stop(k)), p.id)
  {
    var t := Step(s, Stop(k));
    forall q: Payload | q.Task? && q.id == p.id ensures !Copy(t, q) {
      assert t.inflight == s.inflight;
      assert !Inflight(s, q);
      forall j | 0 <= j < |t.procs| ensures InHand(t.procs[j]) != Some(q) {
        if j != k { assert t.procs[j] == s.procs[j]; }
      }
    }
  }

  /** The relay marked task 0 as enqueued; nobody decided it, and it is gone. */
  ghost predicate Vanished(s: State) {
    0 in s.rows && s.rows[0].enqueued && !Decided(s, 0) && !HasCopy(s, 0)
  }

  predicate NobodyDrops(actions: seq<Action>) {
    forall i :: 0 <= i < |actions| ==> !actions[i].Drop?
  }

  /** Reachable states in which task 0 is the only payload, between steps of the run below. */
  ghost predicate OnlyTask(actions: seq<Action>, s: State, pr: Proc, enqueued: bool, delayed: set<Payload>) {
    && Run(Init(1), actions) == Some(s)
    && s.procs == [pr] && s.inflight == [[]] && s.ready == [] && s.dlq == []
    && 0 in s.rows && s.rows[0] == Row(1, enqueued) && 0 in s.attempts && s.attempts[0].Queued?
    && s.delayed.Keys == delayed && forall p :: p in s.delayed ==> s.delayed[p] == 1
  }

  lemma RelayedAsDelayed() returns (actions: seq<Action>, s: State)
    ensures OnlyTask(actions, s, Idle, true, {Task(0, 0)}) && s.clock == 0 && NobodyDrops(actions)
  {
    hide Run;
    assert Run(Init(1), []) == Some(Init(1)) by { RunNothing(); }
    RunOn(Init(1), [], Init(1), NewTask(0, 1));
    actions, s := [] + [NewTask(0, 1)], Step(Init(1), NewTask(0, 1));
    RunOn(Init(1), actions, s, RelayBegin(0));
    actions, s := actions + [RelayBegin(0)], Step(s, RelayBegin(0));
    RunOn(Init(1), actions, s, RelayPush(0, 0));
    actions, s := actions + [RelayPush(0, 0)], Step(s, RelayPush(0, 0));
    assert s.procs[0].ids == {0};
    RunOn(Init(1), actions, s, RelayCommit(0));
    actions, s := actions + [RelayCommit(0)], Step(s, RelayCommit(0));
  }

  lemma RunNothing()
    ensures Run(Init(1), []) == Some(Init(1))
  {
  }

  lemma PoppedWhenDue() returns (actions: seq<Action>, s: State)
    ensures OnlyTask(actions, s, Holding(1, Task(0, 0), 1), true, {}) && NobodyDrops(actions)
  {
    actions, s := RelayedAsDelayed();
    RunOn(Init(1), actions, s, Tick(1));
    actions, s := actions + [Tick(1)], Step(s, Tick(1));
    RunOn(Init(1), actions, s, ScheduleBegin(0));
    actions, s := actions + [ScheduleBegin(0)], Step(s, ScheduleBegin(0));
    assert s.delayed[Task(0, 0)] == 1;
    RunOn(Init(1), actions, s, SchedulePop(0, Task(0, 0)));
    actions, s := actions + [SchedulePop(0, Task(0, 0))], Step(s, SchedulePop(0, Task(0, 0)));
  }

  /** A run that loses a task: relayed as delayed, popped when due, and the scheduler dies
      before it pushes. */
  lemma SchedulerDeathLosesTask() returns (actions: seq<Action>, s: State)
    ensures Run(Init(1), actions) == Some(s) && Vanished(s) && NobodyDrops(actions)
  {
    actions, s := PoppedWhenDue();
    hide Run;
    HandLoses(s, 0, Task(0, 0));
    RunOn(Init(1), actions, s, Stop(0));
    actions, s := actions + [Stop(0)], Step(s, Stop(0));
  }
}
