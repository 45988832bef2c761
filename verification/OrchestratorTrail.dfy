/** What the audit log of a disciplined run tells, how long its retries wait, and exactly
    which undisciplined calls leave the domain tables. */
module OrchestratorTrail {
  import opened Wrappers
  import opened Lifecycle
  import opened Backoff
  import opened Orchestrator
  import opened OrchestratorInvariant
  import opened OrchestratorRuns

  // ---------- the order in which steps are left ----------

  /** The events that say a step has been left behind. */
  function Milestones(audit: seq<Event>): seq<Event> {
    if audit == [] then []
    else
      var front, e := audit[..|audit| - 1], audit[|audit| - 1];
      Milestones(front) + if e.StepAdvanced? || e.RunCompleted? then [e] else []
  }

  /** One move per step, in definition order. */
  function Moves(n: nat): seq<Event> {
    if n == 0 then [] else Moves(n - 1) + [StepAdvanced(n - 1, n)]
  }

  ghost predicate TrailOk(db: Db) {
    Milestones(db.audit) == Moves(db.current) + if db.state.Completed? then [RunCompleted(db.current)] else []
  }

  /** The log leaves each of n steps once, in order, and ends with the completion on the last. */
  ghost predicate LeftAll(audit: seq<Event>, n: nat) {
    n > 0 && Milestones(audit) == Moves(n - 1) + [RunCompleted(n - 1)]
  }

  lemma {:induction false} MilestonesAppend(audit: seq<Event>, e: Event)
    ensures Milestones(audit + [e])
            == Milestones(audit) + if e.StepAdvanced? || e.RunCompleted? then [e] else []
  {
    assert (audit + [e])[..|audit|] == audit;
  }

  lemma SuccessTrail(db: Db, now: real)
    requires Shape(db) && db.state.Running? && TrailOk(db)
    ensures HandleSucceeded(db, db.current, now).Ok? && TrailOk(HandleSucceeded(db, db.current, now).value)
  {
    hide AttemptsOk, OutboxOk, CasesOk, HistoryOk, Insertable, HandleSucceeded;
    if db.current + 1 < |db.steps| {
      MoveOnAudit(db, now);
      MilestonesAppend(db.audit, StepAdvanced(db.current, db.current + 1));
    } else {
      CompleteForm(db, now);
      MilestonesAppend(db.audit, RunCompleted(db.current));
    }
  }

  lemma MoveOnAudit(db: Db, now: real)
    requires Shape(db) && db.current + 1 < |db.steps|
    ensures HandleSucceeded(db, db.current, now).Ok?
    ensures var after := HandleSucceeded(db, db.current, now).value;
      && after.audit == db.audit + [StepAdvanced(db.current, db.current + 1)]
      && after.current == db.current + 1 && after.state == db.state
  {
    hide Tries, OutboxOk, CasesOk, HistoryOk, Insertable, HandleSucceeded;
    MoveOnForm(db, now, AttemptRow(db.current + 1, 1, System, Queued, now, None));
  }

  lemma CallTrail(db: Db, c: Call)
    requires Inv(db) && Disciplined(db, c) && TrailOk(db)
    ensures TrailOk(Next(db, c))
  {
    hide StepsMatch, HistoryOk, AttemptsOk, OutboxOk, CasesOk, Insertable, WellFormed,
         HandleSucceeded, Rows, NumberTaken, CaseTaken, Delay, FindName, Milestones, Moves;
    match c {
      case AdvanceCall(name, status, now, draw) =>
        CurrentByName(db);
        SuccessTrail(db, now);
        MilestonesAppend(db.audit, RetryScheduled(db.current, |Rows(db.attempts, db.current)| + 1));
        MilestonesAppend(db.audit, EscalationCreated(db.current));
        MilestonesAppend(db.audit, RunFailed(db.current));
      case ResumeCall(id, now) =>
        if id < |db.cases| {
          var x := AttemptRow(db.current, |Rows(db.attempts, db.current)| + 1, Human, Succeeded, now, None);
          ResumedShape(db, id, now, x);
          MilestonesAppend(db.audit, EscalationResolved(db.current, |db.attempts|));
          SuccessTrail(ResumedRun(db, id, now), now);
        }
      case CancelCall => MilestonesAppend(db.audit, RunCancelled(db.state));
      case ClaimCall(id) => if id < |db.cases| { MilestonesAppend(db.audit, EscalationClaimed(db.cases[id].step)); }
    }
  }

  lemma {:induction false} RunTrail(defn: seq<StepDef>, now: real, calls: seq<Call>, start: Db)
    requires WellFormed(defn) && Start(Some(defn), now) == Ok(start)
    requires AllDisciplined(start, calls)
    ensures TrailOk(RunCalls(start, calls))
  {
    if calls == [] {
      MilestonesAppend([], RunStarted);
      assert start.audit == [] + [RunStarted];
    } else {
      hide Shape, StepsOk, Start, Milestones, Insertable;
      var front := calls[..|calls| - 1];
      RunTrail(defn, now, front, start);
      RunKeepsInvariant(defn, now, front);
      CallTrail(RunCalls(start, front), calls[|calls| - 1]);
    }
  }

  /** The audit log of every disciplined run leaves the steps one by one in definition order,
      and a completed run's log ends them with its last step. */
  lemma {:induction false} RunLeavesStepsInOrder(defn: seq<StepDef>, now: real, calls: seq<Call>, start: Db)
    requires WellFormed(defn) && Start(Some(defn), now) == Ok(start)
    requires AllDisciplined(start, calls)
    ensures TrailOk(RunCalls(start, calls))
    ensures RunCalls(start, calls).state.Completed? ==> LeftAll(RunCalls(start, calls).audit, |defn|)
  {
    StartDefinition(defn, now, start);
    hide RunCalls, Milestones, Moves, WellFormed, Start, AllDisciplined, Inv;
    RunTrail(defn, now, calls, start);
    DefinitionKept(start, calls);
    RunKeepsInvariant(defn, now, calls);
    if RunCalls(start, calls).state.Completed? { CompletedAtLast(RunCalls(start, calls)); }
  }

  lemma StartDefinition(defn: seq<StepDef>, now: real, start: Db)
    requires Start(Some(defn), now) == Ok(start)
    ensures start.defn == defn && |start.steps| == |defn|
  {
    hide Insertable, HandlerFor;
  }

  lemma CompletedAtLast(db: Db)
    requires Inv(db) && db.state.Completed?
    ensures db.current == |db.steps| - 1
  {
    hide Shape, Rows, AllResolved;
  }

  // ---------- waiting ----------

  function Wait(row: AttemptRow): real {
    if row.scheduledFor.Some? then row.scheduledFor.value - row.createdAt else 0.0
  }

  /** How long each retry of a step was put off. */
  function RetryWaits(rows: seq<AttemptRow>): seq<real> {
    var k := if EndsHuman(rows) then |rows| - 1 else |rows|;
    if k < 1 then [] else seq(k - 1, i requires 0 <= i < k - 1 => Wait(rows[i + 1]))
  }

  /** The retries of any step of a disciplined run together wait at most
      base * (2^(m-1) - 1) and at most (m - 1) * cap, where m is how often it was tried. */
  lemma {:induction false} RetriesWaitBounded(db: Db, j: nat, waits: seq<real>)
    requires Inv(db) && j <= db.current && waits == RetryWaits(Rows(db.attempts, j))
    ensures |waits| <= db.defn[j].maxAttempts - 1
    ensures 0.0 <= Sum(waits)
    ensures Sum(waits) <= db.defn[j].policy.baseDelay * (Pow2(|waits|) - 1) as real
    ensures Sum(waits) <= db.defn[j].policy.cap * |waits| as real
  {
    hide OutboxOk, CasesOk, HistoryOk, Insertable, StepsMatch, StepsOk, Possible, Rows, Tries;
    assert Tries(Rows(db.attempts, j), db.defn[j]);
    TriesWaits(Rows(db.attempts, j), db.defn[j], waits);
    TotalDelayBounded(db.defn[j].policy, waits);
  }

  lemma TriesWaits(rows: seq<AttemptRow>, d: StepDef, waits: seq<real>)
    requires Tries(rows, d) && waits == RetryWaits(rows)
    ensures |waits| <= d.maxAttempts - 1
    ensures forall i :: 0 <= i < |waits| ==> Possible(d.policy, i + 1, waits[i])
  {
    hide Possible;
    forall i | 0 <= i < |waits| ensures Possible(d.policy, i + 1, waits[i]) {
      assert Backed(rows[i + 1], d.policy, i + 1);
    }
  }

  // ---------- calls outside the discipline ----------

  /** advance_workflow does not look at the run state. Whatever the rows, when it writes the
      run state the edge is in the domain table exactly when the run was running; when it
      does not write, the version stays too. */
  lemma AdvanceEdgeExact(db: Db, name: string, status: Status, now: real, draw: real)
    requires Advance(db, name, status, now, draw).Ok?
    ensures var after := Advance(db, name, status, now, draw).value;
      if after.version == db.version then after.state == db.state
      else after.version == db.version + 1 && (RunEdge(db.state, after.state) <==> db.state.Running?)
  {
    hide FindName, FindIndex, Rows, NumberTaken, CaseTaken, Delay, HandlerFor;
  }

  /** A success reported after a cancellation completes the cancelled run. */
  lemma LateSuccessCompletesCancelledRun(db: Db, now: real, draw: real)
    requires Inv(db) && db.state.Cancelled? && db.current == |db.steps| - 1
    ensures var r := Advance(db, db.steps[db.current].name, Success, now, draw);
      r.Ok? && r.value.state.Completed? && !RunEdge(db.state, r.value.state)
  {
    hide AttemptsOk, OutboxOk, CasesOk, HistoryOk, StepsOk;
    CurrentByName(db);
    CompleteForm(db, now);
  }

  /** resume_after_escalation does not look at the run state either. Whatever the rows, it writes
      running and, after the last step, completed; the first of these edges is in the run table exactly
      when the run was waiting or pending, so resuming a case of a terminal run revives it. */
  lemma ResumeRunEdgeExact(db: Db, id: nat, now: real)
    requires Resume(db, id, now).Ok?
    ensures var after := Resume(db, id, now).value;
      && (after.state.Running? || after.state.Completed?)
      && after.history == db.history + [Running] + (if after.state.Completed? then [Completed] else [])
      && after.version == db.version + (if after.state.Completed? then 2 else 1)
      && (RunEdge(db.state, Running) <==> db.state.AwaitingHuman? || db.state.Pending?)
  {
    hide FindIndex, Rows, NumberTaken, HandlerFor;
  }

  /** resume_after_escalation does not look at the case state. Whatever the rows, the edge it
      writes is in the case table exactly when the case was claimed. */
  lemma ResumeCaseEdgeExact(db: Db, id: nat, now: real)
    requires Resume(db, id, now).Ok?
    ensures var after := Resume(db, id, now).value;
      && id < |db.cases| == |after.cases|
      && after.cases[id].state.Resolved?
      && (CaseEdge(db.cases[id].state, after.cases[id].state) <==> db.cases[id].state.Claimed?)
  {
    hide FindIndex, Rows, NumberTaken, HandlerFor;
  }
}
