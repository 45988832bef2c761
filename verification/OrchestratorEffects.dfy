/** What each call of the orchestrator does to the rows of its run, field by field. The disciplined
    advance, resume and cancel are given in full: no row, number, state or event is left open. */
module OrchestratorEffects {
  import opened Wrappers
  import opened Lifecycle
  import opened Backoff
  import opened Orchestrator
  import opened OrchestratorInvariant
  import opened OrchestratorRuns

  // ---------- start ----------

  /** Which definitions start, and with which error the others are refused. */
  lemma StartReplies(definition: Option<seq<StepDef>>, now: real)
    ensures Start(definition, now) == Err(DefinitionNotFound) <==> definition.None?
    ensures Start(definition, now) == Err(ConstraintViolated) <==> definition.Some? && !Insertable(definition.value)
    ensures Start(definition, now) == Err(NoSteps) <==> definition == Some([])
    ensures Start(definition, now).Ok? <==> definition.Some? && Insertable(definition.value) && definition.value != []
  {
    hide HandlerFor;
  }

  /** A started run is running at version 1 with all its steps queued, one system attempt numbered 1 on
      its first step, due at once, and one event. */
  lemma StartEffect(defn: seq<StepDef>, now: real)
    requires Start(Some(defn), now).Ok?
    ensures var db := Start(Some(defn), now).value;
      && db.defn == defn && db.state == Running && db.version == 1 && db.current == 0
      && db.history == [Pending, Running] && db.cases == [] && db.audit == [RunStarted]
      && |db.steps| == |defn|
      && (forall i :: 0 <= i < |defn| ==>
            db.steps[i] == StepRow(defn[i].name, defn[i].index, defn[i].maxAttempts, defn[i].escalateOnFailure,
                                   defn[i].policy, Queued))
      && db.attempts == [AttemptRow(0, 1, System, Queued, now, None)]
      && db.outbox == [OutboxRow(0, 0, defn[0].handler, now, now)]
  {
    hide Insertable;
    assert HandlerFor(defn, defn[0].name) == defn[0].handler;
  }

  /** The handler of a step name is that of the first defined step with the name. */
  lemma {:induction false} HandlerOfFirst(defn: seq<StepDef>, name: string, from: nat, i: nat)
    requires from <= i < |defn| && defn[i].name == name && forall j :: from <= j < i ==> defn[j].name != name
    ensures HandlerFor(defn, name, from) == defn[i].handler
    decreases |defn| - from
  {
    if from < i { HandlerOfFirst(defn, name, from + 1, i); }
  }

  /** Without such a step it is the name itself. */
  lemma {:induction false} HandlerOfNone(defn: seq<StepDef>, name: string, from: nat)
    requires from <= |defn| && forall j :: from <= j < |defn| ==> defn[j].name != name
    ensures HandlerFor(defn, name, from) == name
    decreases |defn| - from
  {
    if from < |defn| { HandlerOfNone(defn, name, from + 1); }
  }

  // ---------- advance ----------

  /** What `Advance` makes of the current step of a running run. */
  ghost function Advanced(db: Db, status: Status, now: real, draw: real): Result<Db, Error>
    requires db.current < |db.steps|
  {
    Advance(db, db.steps[db.current].name, status, now, draw)
  }

  lemma AdvanceDispatches(db: Db, status: Status, now: real, draw: real)
    requires Inv(db)
    ensures |db.steps| == |db.defn| && db.current < |db.steps|
    ensures db.steps[db.current].escalateOnFailure == db.defn[db.current].escalateOnFailure
    ensures db.steps[db.current].maxAttempts == db.defn[db.current].maxAttempts
    ensures db.steps[db.current].policy == db.defn[db.current].policy
    ensures Advanced(db, status, now, draw) == Dispatch(db, db.current, status, now, draw)
  {
    hide HistoryOk, AttemptsOk, OutboxOk, CasesOk, Insertable, Dispatch;
    CurrentByName(db);
  }

  /** Success: the step is succeeded, and the next one gets attempt 1, due at once; after the last step
      the run is completed. */
  lemma SuccessEffect(db: Db, now: real, draw: real)
    requires Inv(db) && db.state.Running?
    ensures db.current < |db.steps| && Advanced(db, Success, now, draw).Ok?
    ensures var i, after := db.current, Advanced(db, Success, now, draw).value;
      var steps := db.steps[i := db.steps[i].(state := Succeeded)];
      if i + 1 < |db.defn| then
        after == db.(steps := steps, current := i + 1,
                     attempts := db.attempts + [AttemptRow(i + 1, 1, System, Queued, now, None)],
                     outbox := db.outbox + [OutboxRow(i + 1, |db.attempts|, db.defn[i + 1].handler, now, now)],
                     audit := db.audit + [StepAdvanced(i, i + 1)])
      else
        after == db.(steps := steps, state := Completed, version := db.version + 1,
                     history := db.history + [Completed], audit := db.audit + [RunCompleted(i)])
  {
    AdvanceDispatches(db, Success, now, draw);
    SuccessRows(db, now);
    hide Inv, Advanced, HandleSucceeded;
  }

  lemma SuccessRows(db: Db, now: real)
    requires Shape(db)
    ensures HandleSucceeded(db, db.current, now).Ok?
    ensures var i, after := db.current, HandleSucceeded(db, db.current, now).value;
      var steps := db.steps[i := db.steps[i].(state := Succeeded)];
      if i + 1 < |db.defn| then
        after == db.(steps := steps, current := i + 1,
                     attempts := db.attempts + [AttemptRow(i + 1, 1, System, Queued, now, None)],
                     outbox := db.outbox + [OutboxRow(i + 1, |db.attempts|, db.defn[i + 1].handler, now, now)],
                     audit := db.audit + [StepAdvanced(i, i + 1)])
      else
        after == db.(steps := steps, state := Completed, version := db.version + 1,
                     history := db.history + [Completed], audit := db.audit + [RunCompleted(i)])
  {
    hide HistoryOk, OutboxOk, CasesOk, Tries, Rows;
    var i, done := db.current, SetStep(db, db.current, Succeeded);
    NextStep(db.defn, done.steps, i);
    if i + 1 < |db.defn| {
      assert !NumberTaken(db.attempts, i + 1, 1);
      HandlerOfStep(db.defn, i + 1, 0);
      hide Insertable, WellFormed, AttemptsOk, HandlerFor, NumberTaken;
    } else {
      CompleteForm(db, now);
    }
  }

  /** A terminal failure: the step has failed for good; the run waits with one new open case on that
      step exactly if the definition escalates, and fails without a case otherwise. */
  lemma TerminalFailureEffect(db: Db, now: real, draw: real)
    requires Inv(db) && db.state.Running?
    ensures db.current < |db.steps| && db.current < |db.defn| && Advanced(db, TerminalFailure, now, draw).Ok?
    ensures var i, after := db.current, Advanced(db, TerminalFailure, now, draw).value;
      var steps := db.steps[i := db.steps[i].(state := FailedTerminal)];
      if db.defn[i].escalateOnFailure then
        after == db.(steps := steps, state := AwaitingHuman, version := db.version + 1,
                     history := db.history + [AwaitingHuman],
                     cases := db.cases + [CaseRow(i, Open)], audit := db.audit + [EscalationCreated(i)])
      else
        after == db.(steps := steps, state := Failed, version := db.version + 1,
                     history := db.history + [Failed], audit := db.audit + [RunFailed(i)])
  {
    AdvanceDispatches(db, TerminalFailure, now, draw);
    TerminalKeeps(db);
    hide Inv, Advanced, CaseTaken;
  }

  /** An escalation: the run waits with one new open case on the step, whose own state stays. */
  lemma EscalateEffect(db: Db, now: real, draw: real)
    requires Inv(db) && db.state.Running?
    ensures db.current < |db.steps| && Advanced(db, Escalate, now, draw).Ok?
    ensures Advanced(db, Escalate, now, draw).value
            == db.(state := AwaitingHuman, version := db.version + 1, history := db.history + [AwaitingHuman],
                   cases := db.cases + [CaseRow(db.current, Open)], audit := db.audit + [EscalationCreated(db.current)])
  {
    AdvanceDispatches(db, Escalate, now, draw);
    hide HistoryOk, AttemptsOk, OutboxOk, Insertable, StepsMatch, StepsOk, Rows, CasesOk, Advanced;
  }

  /** A retryable failure below the limit: the step gets its next attempt, due after the backoff delay of
      as many tries as there were. */
  lemma RetryEffect(db: Db, now: real, draw: real)
    requires Inv(db) && db.state.Running? && 0.0 <= draw <= 1.0
    requires db.current < |db.defn| && |Rows(db.attempts, db.current)| < db.defn[db.current].maxAttempts
    ensures db.current < |db.steps| && Advanced(db, RetryableFailure, now, draw).Ok?
    ensures var i, count := db.current, |Rows(db.attempts, db.current)|;
      var due := now + Delay(db.defn[i].policy, count, draw);
      Advanced(db, RetryableFailure, now, draw).value
      == db.(steps := db.steps[i := db.steps[i].(state := FailedRetryable)],
             attempts := db.attempts + [AttemptRow(i, count + 1, System, Queued, now, Some(due))],
             outbox := db.outbox + [OutboxRow(i, |db.attempts|, db.defn[i].handler, due, now)],
             audit := db.audit + [RetryScheduled(i, count + 1)])
  {
    AdvanceDispatches(db, RetryableFailure, now, draw);
    RetryKeeps(db, now, draw);
    hide Inv, Advanced, Rows, Delay, ScheduleRetry, HandleSucceeded, HandleFailedTerminal, OpenCase;
    RetryRows(db, now, now + Delay(db.defn[db.current].policy, |Rows(db.attempts, db.current)|, draw));
  }

  /** At the limit a retryable failure is a terminal one. */
  lemma LastFailureEffect(db: Db, now: real, draw: real)
    requires Inv(db) && db.state.Running?
    requires db.current < |db.defn| && |Rows(db.attempts, db.current)| >= db.defn[db.current].maxAttempts
    ensures db.current < |db.steps|
    ensures Advanced(db, RetryableFailure, now, draw) == Advanced(db, TerminalFailure, now, draw)
  {
    AdvanceDispatches(db, RetryableFailure, now, draw);
    AdvanceDispatches(db, TerminalFailure, now, draw);
    hide Inv, Advanced, Rows, HandleFailedTerminal;
  }

  lemma RetryRows(db: Db, now: real, due: real)
    requires Inv(db) && ScheduleRetry(db, db.current, now, due).Ok?
    ensures var i, count := db.current, |Rows(db.attempts, db.current)|;
      ScheduleRetry(db, i, now, due).value
      == db.(steps := db.steps[i := db.steps[i].(state := FailedRetryable)],
             attempts := db.attempts + [AttemptRow(i, count + 1, System, Queued, now, Some(due))],
             outbox := db.outbox + [OutboxRow(i, |db.attempts|, db.defn[i].handler, due, now)],
             audit := db.audit + [RetryScheduled(i, count + 1)])
  {
    HandlerOfStep(db.defn, db.current, 0);
    hide HistoryOk, AttemptsOk, OutboxOk, CasesOk, Insertable, Rows, HandlerFor, NumberTaken;
  }

  /** Any other status is refused and leaves the rows as they were. */
  lemma UnknownStatusRefused(db: Db, name: string, text: string, now: real, draw: real)
    ensures Advance(db, name, Other(text), now, draw).Err? && Next(db, AdvanceCall(name, Other(text), now, draw)) == db
  {
    hide FindName;
  }

  // ---------- resume ----------

  /** Resuming the unresolved case of a waiting run resolves it, adds a human attempt with the step's next
      number, succeeds the step and sets the run running; then it goes on as after a success, to the
      next step if there is one and to completion otherwise. */
  lemma ResumeEffect(db: Db, id: nat, now: real)
    requires Inv(db) && db.state.AwaitingHuman? && id < |db.cases| && !db.cases[id].state.Resolved?
    ensures Resume(db, id, now).Ok? && db.current < |db.steps|
    ensures var i, after := db.current, Resume(db, id, now).value;
      var human := AttemptRow(i, |Rows(db.attempts, i)| + 1, Human, Succeeded, now, None);
      var mid := db.(state := Running, version := db.version + 1, history := db.history + [Running],
                     steps := db.steps[i := db.steps[i].(state := Succeeded)],
                     cases := db.cases[id := CaseRow(i, Resolved)], attempts := db.attempts + [human],
                     audit := db.audit + [EscalationResolved(i, |db.attempts|)]);
      if i + 1 < |db.defn| then
        after == mid.(current := i + 1,
                      attempts := mid.attempts + [AttemptRow(i + 1, 1, System, Queued, now, None)],
                      outbox := mid.outbox + [OutboxRow(i + 1, |mid.attempts|, db.defn[i + 1].handler, now, now)],
                      audit := mid.audit + [StepAdvanced(i, i + 1)])
      else
        after == mid.(state := Completed, version := mid.version + 1, history := mid.history + [Completed],
                      audit := mid.audit + [RunCompleted(i)])
  {
    hide Inv, Shape, Resume, Rows, HandleSucceeded, ResumedRun;
    ResumeForm(db, id, now);
    ResumedFields(db, id, now);
    var mid := ResumedRun(db, id, now);
    SucceededAgain(mid, now);
  }

  /** Success on a step that is succeeded already leaves the steps as they are. */
  lemma SucceededAgain(db: Db, now: real)
    requires Shape(db) && db.current < |db.steps| && db.steps[db.current].state == Succeeded
    ensures HandleSucceeded(db, db.current, now).Ok?
    ensures var i, after := db.current, HandleSucceeded(db, db.current, now).value;
      if i + 1 < |db.defn| then
        after == db.(current := i + 1,
                     attempts := db.attempts + [AttemptRow(i + 1, 1, System, Queued, now, None)],
                     outbox := db.outbox + [OutboxRow(i + 1, |db.attempts|, db.defn[i + 1].handler, now, now)],
                     audit := db.audit + [StepAdvanced(i, i + 1)])
      else
        after == db.(state := Completed, version := db.version + 1, history := db.history + [Completed],
                     audit := db.audit + [RunCompleted(i)])
  {
    SuccessRows(db, now);
    hide Shape, HandleSucceeded;
    assert db.steps[db.current := db.steps[db.current].(state := Succeeded)] == db.steps;
  }

  lemma ResumedFields(db: Db, id: nat, now: real)
    requires id < |db.cases| && db.cases[id].step == db.current < |db.steps|
    ensures var i := db.current;
      ResumedRun(db, id, now)
      == db.(state := Running, version := db.version + 1, history := db.history + [Running],
             steps := db.steps[i := db.steps[i].(state := Succeeded)], cases := db.cases[id := CaseRow(i, Resolved)],
             attempts := db.attempts + [AttemptRow(i, |Rows(db.attempts, i)| + 1, Human, Succeeded, now, None)],
             audit := db.audit + [EscalationResolved(i, |db.attempts|)])
  {
    hide Rows;
  }

  lemma ResumeForm(db: Db, id: nat, now: real)
    requires Inv(db) && db.state.AwaitingHuman? && id < |db.cases| && !db.cases[id].state.Resolved?
    ensures db.cases[id].step == db.current < |db.steps|
    ensures Shape(ResumedRun(db, id, now))
    ensures Resume(db, id, now) == HandleSucceeded(ResumedRun(db, id, now), db.current, now)
  {
    var x := AttemptRow(db.current, |Rows(db.attempts, db.current)| + 1, Human, Succeeded, now, None);
    hide HandleSucceeded, Rows, NumberTaken, HistoryOk, AttemptsOk, OutboxOk, CasesOk, WellFormed;
    ResumedShape(db, id, now, x);
  }

  // ---------- cancel and claim ----------

  /** A running or waiting run can be cancelled, and only such a run; nothing but its state, version and
      log changes. */
  lemma CancelEffect(db: Db)
    ensures Cancel(db).Ok? <==> db.state == Running || db.state == AwaitingHuman
    ensures Cancel(db).Ok? ==>
      Cancel(db).value == db.(state := Cancelled, version := db.version + 1, history := db.history + [Cancelled],
                              audit := db.audit + [RunCancelled(db.state)])
    ensures Cancel(db).Err? ==> Cancel(db) == Err(NotCancellable)
  {
  }

  lemma ClaimCaseEffect(db: Db, id: nat)
    ensures ClaimCase(db, id).Ok? <==> id < |db.cases| && db.cases[id].state == Open
    ensures ClaimCase(db, id).Ok? ==>
      ClaimCase(db, id).value == db.(cases := db.cases[id := CaseRow(db.cases[id].step, Claimed)],
                                     audit := db.audit + [EscalationClaimed(db.cases[id].step)])
  {
  }
}
