/** The workflow orchestrator on values: the rows of one run, and what starting, advancing,
    resuming and cancelling make of them. Row identifiers are row positions. A call that the
    code answers with an exception is an `Err`: the surrounding transaction rolls back. */
module Orchestrator {
  import opened Wrappers
  import opened Lifecycle
  import opened Backoff

  datatype WorkState = Queued | InProgress | Succeeded | FailedRetryable | FailedTerminal | Skipped

  datatype StepDef = StepDef(name: string, handler: string, index: int, maxAttempts: int,
                             escalateOnFailure: bool, policy: RetryPolicy)

  datatype StepRow = StepRow(name: string, index: int, maxAttempts: int,
                             escalateOnFailure: bool, policy: RetryPolicy, state: WorkState)

  datatype Origin = System | Human

  datatype AttemptRow = AttemptRow(step: nat, number: nat, origin: Origin, state: WorkState,
                                   createdAt: real, scheduledFor: Option<real>)

  datatype OutboxRow = OutboxRow(step: nat, attempt: nat, handler: string,
                                 scheduledFor: real, createdAt: real)

  datatype CaseRow = CaseRow(step: nat, state: CaseState)

  datatype Event =
    | RunStarted
    | StepAdvanced(from: nat, to: nat)
    | RetryScheduled(step: nat, number: nat)
    | EscalationCreated(step: nat)
    | EscalationClaimed(step: nat)
    | EscalationResolved(step: nat, attempt: nat)
    | RunCompleted(step: nat)
    | RunFailed(step: nat)
    | RunCancelled(previous: RunState)

  /** One run with its rows. `history` lists every value its state ever had. */
  datatype Db = Db(defn: seq<StepDef>, state: RunState, version: nat, current: nat,
                   history: seq<RunState>, steps: seq<StepRow>, attempts: seq<AttemptRow>,
                   outbox: seq<OutboxRow>, cases: seq<CaseRow>, audit: seq<Event>)

  datatype Error = DefinitionNotFound | ConstraintViolated | NoSteps | StepNotFound
                 | UnknownStatus | CaseNotFound | NotCancellable | NotClaimable

  datatype Status = Success | RetryableFailure | TerminalFailure | Escalate | Other(text: string)

  // ---------- table operations ----------

  /** The rows of one step, in insertion order. */
  function Rows(attempts: seq<AttemptRow>, step: nat): seq<AttemptRow> {
    if attempts == [] then []
    else
      var last := attempts[|attempts| - 1];
      var front := Rows(attempts[..|attempts| - 1], step);
      if last.step == step then front + [last] else front
  }

  /** The uniqueness constraint on (step, attempt number). */
  predicate NumberTaken(attempts: seq<AttemptRow>, step: nat, number: nat) {
    exists i :: 0 <= i < |attempts| && attempts[i].step == step && attempts[i].number == number
  }

  /** The uniqueness constraint on (run, step) of escalation cases. */
  predicate CaseTaken(cases: seq<CaseRow>, step: nat) {
    exists i :: 0 <= i < |cases| && cases[i].step == step
  }

  /** The position of the first step from `from` on that matches, if any. */
  function Find(steps: seq<StepRow>, matches: StepRow -> bool, from: nat): (r: Option<nat>)
    requires from <= |steps|
    ensures r.Some? ==> from <= r.value < |steps| && matches(steps[r.value])
    ensures forall j :: from <= j < (if r.Some? then r.value else |steps|) ==> !matches(steps[j])
    decreases |steps| - from
  {
    if from == |steps| then None else if matches(steps[from]) then Some(from) else Find(steps, matches, from + 1)
  }

  function FindIndex(steps: seq<StepRow>, index: int, from: nat := 0): (r: Option<nat>)
    requires from <= |steps|
    ensures r.Some? ==> from <= r.value < |steps| && steps[r.value].index == index
    ensures forall j :: from <= j < (if r.Some? then r.value else |steps|) ==> steps[j].index != index
  {
    Find(steps, (step: StepRow) => step.index == index, from)
  }

  function FindName(steps: seq<StepRow>, name: string): (r: Option<nat>)
    ensures r.Some? ==> r.value < |steps| && steps[r.value].name == name
    ensures forall j :: 0 <= j < (if r.Some? then r.value else |steps|) ==> steps[j].name != name
  {
    Find(steps, (step: StepRow) => step.name == name, 0)
  }

  /** The handler that the definition gives a step name, or the name itself. */
  function HandlerFor(defn: seq<StepDef>, name: string, from: nat := 0): string
    requires from <= |defn|
    decreases |defn| - from
  {
    if from == |defn| then name
    else if defn[from].name == name then defn[from].handler
    else HandlerFor(defn, name, from + 1)
  }

  // ---------- writes ----------

  /** Assign the run state and bump its version. */
  function Write(db: Db, s: RunState): Db {
    db.(state := s, version := db.version + 1, history := db.history + [s])
  }

  function SetStep(db: Db, i: nat, s: WorkState): Db
    requires i < |db.steps|
  {
    db.(steps := db.steps[i := db.steps[i].(state := s)])
  }

  function Log(db: Db, e: Event): Db {
    db.(audit := db.audit + [e])
  }

  /** Insert a queued system attempt together with its outbox row. */
  function Queue(db: Db, step: nat, number: nat, now: real, scheduledFor: Option<real>): Result<Db, Error>
    requires step < |db.steps|
  {
    if NumberTaken(db.attempts, step, number) then Err(ConstraintViolated)
    else
      var due := if scheduledFor.Some? then scheduledFor.value else now;
      Ok(db.(attempts := db.attempts + [AttemptRow(step, number, System, Queued, now, scheduledFor)],
             outbox := db.outbox + [OutboxRow(step, |db.attempts|,
                                              HandlerFor(db.defn, db.steps[step].name), due, now)]))
  }

  function OpenCase(db: Db, step: nat): Result<Db, Error> {
    if CaseTaken(db.cases, step) then Err(ConstraintViolated)
    else Ok(Log(Write(db.(cases := db.cases + [CaseRow(step, Open)]), AwaitingHuman),
                EscalationCreated(step)))
  }

  // ---------- transitions ----------

  function StepRows(defn: seq<StepDef>): (rows: seq<StepRow>)
    ensures |rows| == |defn|
    ensures forall i :: 0 <= i < |defn| ==>
      rows[i] == StepRow(defn[i].name, defn[i].index, defn[i].maxAttempts,
                         defn[i].escalateOnFailure, defn[i].policy, Queued)
  {
    seq(|defn|, i requires 0 <= i < |defn| =>
      StepRow(defn[i].name, defn[i].index, defn[i].maxAttempts,
              defn[i].escalateOnFailure, defn[i].policy, Queued))
  }

  /** The check and uniqueness constraints of the steps table. */
  predicate Insertable(defn: seq<StepDef>) {
    && (forall i :: 0 <= i < |defn| ==> defn[i].index >= 0 && 1 <= defn[i].maxAttempts <= 10)
    && (forall i, j :: 0 <= i < j < |defn| ==> defn[i].index != defn[j].index)
    && (forall i, j :: 0 <= i < j < |defn| ==> defn[i].name != defn[j].name)
  }

  /** The rows of a new run, before its first attempt. */
  function Bare(defn: seq<StepDef>): Db {
    Db(defn, Pending, 0, 0, [Pending], StepRows(defn), [], [], [], [])
  }

  function Start(definition: Option<seq<StepDef>>, now: real): Result<Db, Error> {
    if definition.None? then Err(DefinitionNotFound)
    else if !Insertable(definition.value) then Err(ConstraintViolated)
    else if definition.value == [] then Err(NoSteps)
    else
      var queued := Queue(Bare(definition.value), 0, 1, now, None);
      if queued.Err? then queued else Ok(Write(Log(queued.value, RunStarted), Running))
  }

  function HandleSucceeded(db: Db, i: nat, now: real): Result<Db, Error>
    requires i < |db.steps|
  {
    var done := SetStep(db, i, Succeeded);
    var next := FindIndex(done.steps, done.steps[i].index + 1);
    if next.None? then Ok(Log(Write(done, Completed), RunCompleted(i)))
    else
      var queued := Queue(done, next.value, 1, now, None);
      if queued.Err? then queued
      else Ok(Log(queued.value.(current := next.value), StepAdvanced(i, next.value)))
  }

  function HandleFailedTerminal(db: Db, i: nat): Result<Db, Error>
    requires i < |db.steps|
  {
    var failed := SetStep(db, i, FailedTerminal);
    if db.steps[i].escalateOnFailure then OpenCase(failed, i)
    else Ok(Log(Write(failed, Failed), RunFailed(i)))
  }

  /** Queue the next attempt of a step, due after its backoff delay. */
  function ScheduleRetry(db: Db, i: nat, now: real, due: real): Result<Db, Error>
    requires i < |db.steps|
  {
    var number := |Rows(db.attempts, i)| + 1;
    var queued := Queue(db, i, number, now, Some(due));
    if queued.Err? then queued
    else Ok(Log(SetStep(queued.value, i, FailedRetryable), RetryScheduled(i, number)))
  }

  function HandleFailedRetryable(db: Db, i: nat, now: real, draw: real): Result<Db, Error>
    requires i < |db.steps|
  {
    var count := |Rows(db.attempts, i)|;
    if count < db.steps[i].maxAttempts
    then ScheduleRetry(db, i, now, now + Delay(db.steps[i].policy, count, draw))
    else HandleFailedTerminal(db, i)
  }

  function Advance(db: Db, name: string, status: Status, now: real, draw: real): Result<Db, Error> {
    var found := FindName(db.steps, name);
    if found.None? then Err(StepNotFound) else Dispatch(db, found.value, status, now, draw)
  }

  function Dispatch(db: Db, i: nat, status: Status, now: real, draw: real): Result<Db, Error>
    requires i < |db.steps|
  {
    match status
    case Success => HandleSucceeded(db, i, now)
    case RetryableFailure => HandleFailedRetryable(db, i, now, draw)
    case TerminalFailure => HandleFailedTerminal(db, i)
    case Escalate => OpenCase(db, i)
    case Other(_) => Err(UnknownStatus)
  }

  function Resume(db: Db, id: nat, now: real): Result<Db, Error> {
    if id >= |db.cases| || db.cases[id].step >= |db.steps| then Err(CaseNotFound)
    else
      var i := db.cases[id].step;
      var number := |Rows(db.attempts, i)| + 1;
      if NumberTaken(db.attempts, i, number) then Err(ConstraintViolated)
      else HandleSucceeded(ResumedRun(db, id, now), i, now)
  }

  /** The rows between a resume's own writes and the advance to the next step. */
  function ResumedRun(db: Db, id: nat, now: real): Db
    requires id < |db.cases| && db.cases[id].step < |db.steps|
  {
    var i := db.cases[id].step;
    var human := AttemptRow(i, |Rows(db.attempts, i)| + 1, Human, Succeeded, now, None);
    var closed := db.(cases := db.cases[id := db.cases[id].(state := Resolved)],
                      attempts := db.attempts + [human]);
    Log(Write(SetStep(closed, i, Succeeded), Running), EscalationResolved(i, |db.attempts|))
  }

  /** The claim request, as far as it concerns the rows of the run. */
  function ClaimCase(db: Db, id: nat): Result<Db, Error> {
    if id >= |db.cases| then Err(CaseNotFound)
    else if !db.cases[id].state.Open? then Err(NotClaimable)
    else Ok(Log(db.(cases := db.cases[id := db.cases[id].(state := Claimed)]), EscalationClaimed(db.cases[id].step)))
  }

  function Cancel(db: Db): Result<Db, Error> {
    if db.state.Running? || db.state.AwaitingHuman?
    then Ok(Log(Write(db, Cancelled), RunCancelled(db.state)))
    else Err(NotCancellable)
  }
}
