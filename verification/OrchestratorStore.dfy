/** The orchestrator as the code runs it: an object whose methods update the rows of one run
    in place inside a transaction. Each public method is tied to the value-level transition of
    module Orchestrator; on an error it rolls its writes back. */
module OrchestratorStore {
  import opened Wrappers
  import opened Lifecycle
  import opened Backoff
  import opened Orchestrator

  class RunStore {
    var defn: seq<StepDef>
    var state: RunState
    var version: nat
    var current: nat
    var steps: seq<StepRow>
    var attempts: seq<AttemptRow>
    var outbox: seq<OutboxRow>
    var cases: seq<CaseRow>
    var audit: seq<Event>
    ghost var history: seq<RunState>

    ghost function Snapshot(): Db
      reads this
    {
      Db(defn, state, version, current, history, steps, attempts, outbox, cases, audit)
    }

    /** The outcome of a transaction: committed as specified, or rolled back with the error. */
    ghost predicate Committed(before: Db, expected: Result<Db, Error>, error: Option<Error>)
      reads this
    {
      if expected.Ok? then error.None? && Snapshot() == expected.value
      else error == Some(expected.error) && Snapshot() == before
    }

    /** The outcome of a part of a transaction; after an error the caller rolls back. */
    ghost predicate Reached(expected: Result<Db, Error>, error: Option<Error>)
      reads this
    {
      if expected.Ok? then error.None? && Snapshot() == expected.value else error == Some(expected.error)
    }

    constructor ()
      ensures Snapshot() == Db([], Pending, 0, 0, [Pending], [], [], [], [], [])
    {
      defn, state, version, current := [], Pending, 0, 0;
      steps, attempts, outbox, cases, audit := [], [], [], [], [];
      history := [Pending];
    }

    method WriteState(s: RunState)
      modifies this
      ensures Snapshot() == Write(old(Snapshot()), s)
    {
      state := s;
      version := version + 1;
      history := history + [s];
    }

    method AppendEvent(e: Event)
      modifies this
      ensures Snapshot() == Log(old(Snapshot()), e)
    {
      audit := audit + [e];
    }

    /** The handler name for a step, searched in the definition. */
    method LookupHandler(name: string) returns (handler: string)
      ensures handler == HandlerFor(defn, name)
    {
      var i := 0;
      while i < |defn|
        invariant 0 <= i <= |defn|
        invariant HandlerFor(defn, name) == HandlerFor(defn, name, i)
      {
        if defn[i].name == name { return defn[i].handler; }
        i := i + 1;
      }
      handler := name;
    }

    method QueueAttempt(step: nat, number: nat, now: real, scheduledFor: Option<real>) returns (error: Option<Error>)
      requires step < |steps|
      modifies this
      ensures Reached(Queue(old(Snapshot()), step, number, now, scheduledFor), error)
    {
      if NumberTaken(attempts, step, number) { return Some(ConstraintViolated); }
      var id := |attempts|;
      attempts := attempts + [AttemptRow(step, number, System, Queued, now, scheduledFor)];
      var handler := LookupHandler(steps[step].name);
      var due := if scheduledFor.Some? then scheduledFor.value else now;
      outbox := outbox + [OutboxRow(step, id, handler, due, now)];
      error := None;
    }

    method CreateCase(step: nat) returns (error: Option<Error>)
      modifies this
      ensures Reached(OpenCase(old(Snapshot()), step), error)
    {
      if CaseTaken(cases, step) { return Some(ConstraintViolated); }
      cases := cases + [CaseRow(step, Open)];
      WriteState(AwaitingHuman);
      AppendEvent(EscalationCreated(step));
      error := None;
    }

    method HandleStepSucceeded(i: nat, now: real) returns (error: Option<Error>)
      requires i < |steps|
      modifies this
      ensures Reached(HandleSucceeded(old(Snapshot()), i, now), error)
    {
      steps := steps[i := steps[i].(state := Succeeded)];
      var target := steps[i].index + 1;
      var next: Option<nat> := None;
      var j := 0;
      while j < |steps|
        invariant 0 <= j <= |steps|
        invariant FindIndex(steps, target) == FindIndex(steps, target, j)
        invariant next.None?
      {
        if steps[j].index == target {
          next := Some(j);
          break;
        }
        j := j + 1;
      }
      assert next == FindIndex(steps, target);
      if next.None? {
        WriteState(Completed);
        AppendEvent(RunCompleted(i));
        return None;
      }
      error := QueueAttempt(next.value, 1, now, None);
      if error.None? {
        current := next.value;
        AppendEvent(StepAdvanced(i, next.value));
      }
    }

    method HandleStepFailedTerminal(i: nat) returns (error: Option<Error>)
      requires i < |steps|
      modifies this
      ensures Reached(HandleFailedTerminal(old(Snapshot()), i), error)
    {
      steps := steps[i := steps[i].(state := FailedTerminal)];
      if steps[i].escalateOnFailure {
        error := CreateCase(i);
      } else {
        WriteState(Failed);
        AppendEvent(RunFailed(i));
        error := None;
      }
    }

    method HandleStepFailedRetryable(i: nat, now: real, draw: real) returns (error: Option<Error>)
      requires i < |steps|
      modifies this
      ensures Reached(HandleFailedRetryable(old(Snapshot()), i, now, draw), error)
    {
      var count := |Rows(attempts, i)|;
      if count < steps[i].maxAttempts {
        var due := now + Delay(steps[i].policy, count, draw);
        error := QueueAttempt(i, count + 1, now, Some(due));
        if error.None? {
          steps := steps[i := steps[i].(state := FailedRetryable)];
          AppendEvent(RetryScheduled(i, count + 1));
        }
      } else {
        error := HandleStepFailedTerminal(i);
      }
    }

    method BuildSteps(defined: seq<StepDef>) returns (rows: seq<StepRow>)
      ensures rows == StepRows(defined)
    {
      rows := [];
      for i := 0 to |defined|
        invariant rows == StepRows(defined)[..i]
      {
        var d := defined[i];
        rows := rows + [StepRow(d.name, d.index, d.maxAttempts, d.escalateOnFailure, d.policy, Queued)];
      }
    }

    method StartWorkflowRun(definition: Option<seq<StepDef>>, now: real) returns (error: Option<Error>)
      modifies this
      ensures Committed(old(Snapshot()), Start(definition, now), error)
    {
      hide StepRows, Insertable, HandlerFor;
      if definition.None? { return Some(DefinitionNotFound); }
      var defined := definition.value;
      if !Insertable(defined) { return Some(ConstraintViolated); }
      if defined == [] { return Some(NoSteps); }
      InsertRun(defined);
      assert !NumberTaken(attempts, 0, 1);
      hide Bare, Queue;
      error := QueueAttempt(0, 1, now, None);
      if error.Some? { return; }
      AppendEvent(RunStarted);
      WriteState(Running);
    }

    method InsertRun(defined: seq<StepDef>)
      modifies this
      ensures Snapshot() == Bare(defined)
    {
      var rows := BuildSteps(defined);
      defn, state, version, current := defined, Pending, 0, 0;
      steps, attempts, outbox, cases, audit := rows, [], [], [], [];
      history := [Pending];
    }

    /** ROLLBACK: every row as it was when the transaction began. */
    method Restore(defn0: seq<StepDef>, state0: RunState, version0: nat, current0: nat, steps0: seq<StepRow>,
                   attempts0: seq<AttemptRow>, outbox0: seq<OutboxRow>, cases0: seq<CaseRow>, audit0: seq<Event>,
                   ghost history0: seq<RunState>)
      modifies this
      ensures Snapshot() == Db(defn0, state0, version0, current0, history0, steps0, attempts0, outbox0, cases0, audit0)
    {
      defn, state, version, current := defn0, state0, version0, current0;
      steps, attempts, outbox, cases, audit := steps0, attempts0, outbox0, cases0, audit0;
      history := history0;
    }

    method HandleOutcome(i: nat, status: Status, now: real, draw: real) returns (error: Option<Error>)
      requires i < |steps|
      modifies this
      ensures Reached(Dispatch(old(Snapshot()), i, status, now, draw), error)
    {
      hide HandleSucceeded, HandleFailedRetryable, HandleFailedTerminal, OpenCase;
      match status {
        case Success => error := HandleStepSucceeded(i, now);
        case RetryableFailure => error := HandleStepFailedRetryable(i, now, draw);
        case TerminalFailure => error := HandleStepFailedTerminal(i);
        case Escalate => error := CreateCase(i);
        case Other(_) => error := Some(UnknownStatus);
      }
    }

    method AdvanceWorkflow(name: string, status: Status, now: real, draw: real) returns (error: Option<Error>)
      modifies this
      ensures Committed(old(Snapshot()), Advance(old(Snapshot()), name, status, now, draw), error)
    {
      var found := FindName(steps, name);
      if found.None? { return Some(StepNotFound); }
      hide Dispatch, FindName;
      var defn0, state0, version0, current0 := defn, state, version, current;
      var steps0, attempts0, outbox0, cases0, audit0 := steps, attempts, outbox, cases, audit;
      ghost var history0 := history;
      error := HandleOutcome(found.value, status, now, draw);
      if error.Some? {
        Restore(defn0, state0, version0, current0, steps0, attempts0, outbox0, cases0, audit0, history0);
      }
    }

    /** The writes of a resume before it goes on to the next step. */
    method ResumeRun(id: nat, now: real)
      requires id < |cases| && cases[id].step < |steps|
      modifies this
      ensures Snapshot() == ResumedRun(old(Snapshot()), id, now)
    {
      hide Rows;
      var i := cases[id].step;
      cases := cases[id := cases[id].(state := Resolved)];
      var human := |attempts|;
      attempts := attempts + [AttemptRow(i, |Rows(attempts, i)| + 1, Human, Succeeded, now, None)];
      steps := steps[i := steps[i].(state := Succeeded)];
      WriteState(Running);
      AppendEvent(EscalationResolved(i, human));
    }

    method ResumeAfterEscalation(id: nat, now: real) returns (error: Option<Error>)
      modifies this
      ensures Committed(old(Snapshot()), Resume(old(Snapshot()), id, now), error)
    {
      hide HandleSucceeded, Rows, NumberTaken;
      if id >= |cases| || cases[id].step >= |steps| { return Some(CaseNotFound); }
      var i := cases[id].step;
      if NumberTaken(attempts, i, |Rows(attempts, i)| + 1) { return Some(ConstraintViolated); }
      var defn0, state0, version0, current0 := defn, state, version, current;
      var steps0, attempts0, outbox0, cases0, audit0 := steps, attempts, outbox, cases, audit;
      ghost var history0 := history;
      ResumeRun(id, now);
      assert i < |steps|;
      hide ResumedRun;
      error := HandleStepSucceeded(i, now);
      if error.Some? {
        Restore(defn0, state0, version0, current0, steps0, attempts0, outbox0, cases0, audit0, history0);
      }
    }

    method CancelWorkflow() returns (error: Option<Error>)
      modifies this
      ensures Committed(old(Snapshot()), Cancel(old(Snapshot())), error)
    {
      if state != Running && state != AwaitingHuman { return Some(NotCancellable); }
      var previous := state;
      WriteState(Cancelled);
      AppendEvent(RunCancelled(previous));
      error := None;
    }
  }
}
