/** What every disciplined call of the orchestrator keeps. A definition is well formed when
    its steps are numbered by position; a call is disciplined when it advances the current
    step of a running run, or resumes the unresolved case of a waiting one. */
module OrchestratorInvariant {
  import opened Wrappers
  import opened Lifecycle
  import opened Backoff
  import opened Orchestrator

  predicate WellFormed(defn: seq<StepDef>) {
    && defn != []
    && Insertable(defn)
    && forall i :: 0 <= i < |defn| ==> defn[i].index == i && defn[i].policy.Sensible()
  }

  // ---------- the invariant ----------

  ghost predicate StepsMatch(defn: seq<StepDef>, steps: seq<StepRow>) {
    && |steps| == |defn|
    && forall i :: 0 <= i < |steps| ==>
         steps[i] == StepRow(defn[i].name, defn[i].index, defn[i].maxAttempts,
                             defn[i].escalateOnFailure, defn[i].policy, steps[i].state)
  }

  /** The version counts the state changes, and the states follow the domain table. */
  ghost predicate HistoryOk(state: RunState, version: nat, history: seq<RunState>) {
    && |history| == version + 1
    && history[0] == Pending
    && history[version] == state
    && RunPath(history)
  }

  /** The steps before the current one have succeeded, those after it are untouched. */
  ghost predicate StepsOk(steps: seq<StepRow>, current: nat) {
    && current < |steps|
    && (forall j :: 0 <= j < current ==> steps[j].state.Succeeded?)
    && (forall j :: current < j < |steps| ==> steps[j].state.Queued?)
  }

  /** A retry waits no longer than its backoff ceiling. */
  ghost predicate Backed(row: AttemptRow, policy: RetryPolicy, retry: nat) {
    row.scheduledFor.Some? && Possible(policy, retry, row.scheduledFor.value - row.createdAt)
  }

  predicate EndsHuman(rows: seq<AttemptRow>) {
    rows != [] && rows[|rows| - 1].origin.Human?
  }

  /** The attempts of a step: numbered 1..k, system attempts up to the step's limit, then at
      most one human attempt. */
  ghost predicate Tries(rows: seq<AttemptRow>, d: StepDef) {
    var k := if EndsHuman(rows) then |rows| - 1 else |rows|;
    && 1 <= k <= d.maxAttempts
    && (forall m :: 0 <= m < |rows| ==> rows[m].number == m + 1)
    && (forall m :: 0 <= m < k ==> rows[m].origin.System?)
    && (forall m :: 1 <= m < k ==> Backed(rows[m], d.policy, m))
  }

  ghost predicate AttemptsOk(defn: seq<StepDef>, attempts: seq<AttemptRow>, current: nat) {
    && current < |defn|
    && (forall j :: 0 <= j <= current ==> Tries(Rows(attempts, j), defn[j]))
    && (forall i :: 0 <= i < |attempts| ==> attempts[i].step <= current)
  }

  /** The positions of the system attempts, in insertion order. */
  function SystemRows(attempts: seq<AttemptRow>): seq<nat> {
    if attempts == [] then []
    else
      var n := |attempts| - 1;
      SystemRows(attempts[..n]) + if attempts[n].origin.System? then [n] else []
  }

  /** Outbox row `o` announces the attempt at position p, with its step's own handler. */
  ghost predicate Announces(o: OutboxRow, p: nat, defn: seq<StepDef>, attempts: seq<AttemptRow>) {
    && p < |attempts|
    && o.attempt == p
    && o.step == attempts[p].step < |defn|
    && o.handler == defn[o.step].handler
    && o.createdAt == attempts[p].createdAt
    && (o.scheduledFor == if attempts[p].scheduledFor.Some? then attempts[p].scheduledFor.value
                          else attempts[p].createdAt)
  }

  ghost predicate OutboxOk(defn: seq<StepDef>, attempts: seq<AttemptRow>, outbox: seq<OutboxRow>) {
    && |outbox| == |SystemRows(attempts)|
    && forall m :: 0 <= m < |outbox| ==>
         Announces(outbox[m], SystemRows(attempts)[m], defn, attempts)
  }

  ghost predicate CasesOk(cases: seq<CaseRow>, current: nat) {
    && (forall c :: 0 <= c < |cases| ==>
          && cases[c].step <= current
          && (cases[c].state.Open? || cases[c].state.Claimed? || cases[c].state.Resolved?)
          && (cases[c].step < current ==> cases[c].state.Resolved?))
    && (forall c, d :: 0 <= c < d < |cases| ==> cases[c].step != cases[d].step)
  }

  /** Everything but the standing of the current step. */
  ghost predicate Shape(db: Db) {
    && WellFormed(db.defn)
    && StepsMatch(db.defn, db.steps)
    && HistoryOk(db.state, db.version, db.history)
    && StepsOk(db.steps, db.current)
    && AttemptsOk(db.defn, db.attempts, db.current)
    && OutboxOk(db.defn, db.attempts, db.outbox)
    && CasesOk(db.cases, db.current)
  }

  ghost predicate Unresolved(cases: seq<CaseRow>, step: nat, c: nat) {
    c < |cases| && cases[c].step == step && !cases[c].state.Resolved?
  }

  ghost predicate NoCaseOn(cases: seq<CaseRow>, step: nat) {
    forall c :: 0 <= c < |cases| ==> cases[c].step != step
  }

  ghost predicate AllResolved(cases: seq<CaseRow>) {
    forall c :: 0 <= c < |cases| ==> cases[c].state.Resolved?
  }

  /** How the current step stands, by run state. */
  ghost predicate CurrentOk(db: Db)
    requires db.current < |db.steps|
  {
    var w := db.steps[db.current].state;
    var rows := Rows(db.attempts, db.current);
    var open := !EndsHuman(rows);
    var escalates := db.steps[db.current].escalateOnFailure;
    match db.state
    case Pending => false
    case Running => open && w == (if |rows| == 1 then Queued else FailedRetryable) && NoCaseOn(db.cases, db.current)
    case AwaitingHuman =>
      && open && !w.Succeeded? && (w.FailedTerminal? ==> escalates)
      && exists c :: Unresolved(db.cases, db.current, c)
    case Completed => db.current == |db.steps| - 1 && w.Succeeded? && AllResolved(db.cases)
    case Failed => open && w.FailedTerminal? && !escalates && NoCaseOn(db.cases, db.current)
    case Cancelled => open && !w.Succeeded?
  }

  ghost predicate Inv(db: Db) {
    Shape(db) && CurrentOk(db)
  }

  // ---------- the rows of a step ----------

  lemma {:induction false} RowsAppend(attempts: seq<AttemptRow>, x: AttemptRow, j: nat)
    ensures Rows(attempts + [x], j)
            == if x.step == j then Rows(attempts, j) + [x] else Rows(attempts, j)
  {
    assert (attempts + [x])[..|attempts|] == attempts;
  }

  lemma {:induction false} RowsContain(attempts: seq<AttemptRow>, i: nat)
    requires i < |attempts|
    ensures attempts[i] in Rows(attempts, attempts[i].step)
  {
    if i < |attempts| - 1 {
      RowsContain(attempts[..|attempts| - 1], i);
    }
  }

  lemma {:induction false} RowsEmpty(attempts: seq<AttemptRow>, j: nat)
    requires forall i :: 0 <= i < |attempts| ==> attempts[i].step != j
    ensures Rows(attempts, j) == []
  {
    if attempts != [] {
      RowsEmpty(attempts[..|attempts| - 1], j);
    }
  }

  lemma {:induction false} SystemRowsAppend(attempts: seq<AttemptRow>, x: AttemptRow)
    ensures SystemRows(attempts + [x])
            == SystemRows(attempts) + if x.origin.System? then [|attempts|] else []
  {
    assert (attempts + [x])[..|attempts|] == attempts;
  }

  /** The next number of a step is free. */
  lemma {:induction false} NextNumberFree(attempts: seq<AttemptRow>, j: nat)
    requires forall m :: 0 <= m < |Rows(attempts, j)| ==> Rows(attempts, j)[m].number == m + 1
    ensures !NumberTaken(attempts, j, |Rows(attempts, j)| + 1)
  {
    forall i | 0 <= i < |attempts| && attempts[i].step == j
      ensures attempts[i].number != |Rows(attempts, j)| + 1
    {
      RowsContain(attempts, i);
    }
  }

  lemma {:induction false} HandlerOfStep(defn: seq<StepDef>, i: nat, from: nat)
    requires Insertable(defn) && from <= i < |defn|
    ensures HandlerFor(defn, defn[i].name, from) == defn[i].handler
    decreases i - from
  {
    if from < i {
      HandlerOfStep(defn, i, from + 1);
    }
  }

  // ---------- each table under each kind of insert ----------

  /** A system attempt inserted with its outbox row keeps the two tables paired. */
  lemma OutboxGrows(defn: seq<StepDef>, attempts: seq<AttemptRow>, outbox: seq<OutboxRow>,
                    x: AttemptRow, o: OutboxRow)
    requires OutboxOk(defn, attempts, outbox) && x.origin.System?
    requires Announces(o, |attempts|, defn, attempts + [x])
    ensures OutboxOk(defn, attempts + [x], outbox + [o])
  {
    SystemRowsAppend(attempts, x);
    forall m | 0 <= m < |outbox + [o]|
      ensures Announces((outbox + [o])[m], SystemRows(attempts + [x])[m], defn, attempts + [x])
    {
      if m < |outbox| {
        assert Announces(outbox[m], SystemRows(attempts)[m], defn, attempts);
      }
    }
  }

  lemma OutboxIgnoresHuman(defn: seq<StepDef>, attempts: seq<AttemptRow>, outbox: seq<OutboxRow>, x: AttemptRow)
    requires OutboxOk(defn, attempts, outbox) && x.origin.Human?
    ensures OutboxOk(defn, attempts + [x], outbox)
  {
    SystemRowsAppend(attempts, x);
    forall m | 0 <= m < |outbox|
      ensures Announces(outbox[m], SystemRows(attempts + [x])[m], defn, attempts + [x])
    {
      assert Announces(outbox[m], SystemRows(attempts)[m], defn, attempts);
    }
  }

  lemma QueueKeepsOutbox(db: Db, step: nat, number: nat, now: real, scheduledFor: Option<real>)
    requires WellFormed(db.defn) && StepsMatch(db.defn, db.steps) && step < |db.steps|
    requires OutboxOk(db.defn, db.attempts, db.outbox)
    requires Queue(db, step, number, now, scheduledFor).Ok?
    ensures var q := Queue(db, step, number, now, scheduledFor).value;
            OutboxOk(q.defn, q.attempts, q.outbox)
  {
    var q := Queue(db, step, number, now, scheduledFor).value;
    HandlerOfStep(db.defn, step, 0);
    OutboxGrows(db.defn, db.attempts, db.outbox, q.attempts[|db.attempts|], q.outbox[|db.outbox|]);
  }

  /** Rows of the other steps do not change, and the step's own rows grow by one. */
  lemma {:induction false} AttemptsGrow(defn: seq<StepDef>, attempts: seq<AttemptRow>, current: nat, x: AttemptRow)
    requires AttemptsOk(defn, attempts, current) && x.step == current
    requires Tries(Rows(attempts, current) + [x], defn[current])
    ensures AttemptsOk(defn, attempts + [x], current)
  {
    forall j | 0 <= j <= current ensures Tries(Rows(attempts + [x], j), defn[j]) {
      RowsAppend(attempts, x, j);
    }
  }

  lemma AttemptsMoveOn(defn: seq<StepDef>, attempts: seq<AttemptRow>, current: nat, x: AttemptRow)
    requires AttemptsOk(defn, attempts, current) && current + 1 < |defn|
    requires x.step == current + 1 && x.number == 1 && x.origin.System?
    requires WellFormed(defn)
    ensures AttemptsOk(defn, attempts + [x], current + 1)
    ensures Rows(attempts + [x], current + 1) == [x]
  {
    RowsEmpty(attempts, current + 1);
    forall j | 0 <= j <= current + 1 ensures Tries(Rows(attempts + [x], j), defn[j]) {
      RowsAppend(attempts, x, j);
    }
  }

  lemma HistoryGrows(db: Db, s: RunState)
    requires HistoryOk(db.state, db.version, db.history) && RunEdge(db.state, s)
    ensures HistoryOk(s, db.version + 1, db.history + [s])
  {
    forall i | 0 < i < |db.history + [s]|
      ensures RunEdge((db.history + [s])[i - 1], (db.history + [s])[i])
    {
    }
  }

  // ---------- every handler keeps the invariant ----------

  lemma StartEstablishes(defn: seq<StepDef>, now: real)
    requires WellFormed(defn)
    ensures Start(Some(defn), now).Ok? && Inv(Start(Some(defn), now).value)
  {
    var bare := Bare(defn);
    var db := Start(Some(defn), now).value;
    QueueKeepsOutbox(bare, 0, 1, now, None);
    HistoryGrows(bare, Running);
    var first := db.attempts[0];
    assert db.attempts == [] + [first];
    RowsAppend([], first, 0);
  }

  /** In a well-formed definition the step with the next index is the next row. */
  lemma {:induction false} NextStep(defn: seq<StepDef>, steps: seq<StepRow>, i: nat)
    requires WellFormed(defn) && StepsMatch(defn, steps) && i < |steps|
    ensures FindIndex(steps, steps[i].index + 1) == if i + 1 < |steps| then Some(i + 1) else None
  {
    assert steps[i].index == i;
    var found := FindIndex(steps, i + 1);
    if i + 1 < |steps| {
      assert steps[i + 1].index == i + 1;
    }
  }

  /** The rows after success on a step that is not the last. */
  lemma MoveOnForm(db: Db, now: real, x: AttemptRow)
    requires WellFormed(db.defn) && StepsMatch(db.defn, db.steps) && db.current + 1 < |db.steps|
    requires OutboxOk(db.defn, db.attempts, db.outbox)
    requires forall k :: 0 <= k < |db.attempts| ==> db.attempts[k].step <= db.current
    requires x == AttemptRow(db.current + 1, 1, System, Queued, now, None)
    ensures HandleSucceeded(db, db.current, now).Ok?
    ensures var after := HandleSucceeded(db, db.current, now).value;
      && after.defn == db.defn && after.state == db.state && after.version == db.version
      && after.history == db.history && after.cases == db.cases
      && after.current == db.current + 1
      && after.steps == SetStep(db, db.current, Succeeded).steps
      && after.attempts == db.attempts + [x]
      && after.audit == db.audit + [StepAdvanced(db.current, db.current + 1)]
      && OutboxOk(after.defn, after.attempts, after.outbox)
  {
    hide Announces, Insertable;
    var done := SetStep(db, db.current, Succeeded);
    NextStep(db.defn, done.steps, db.current);
    assert !NumberTaken(db.attempts, db.current + 1, 1);
    QueueKeepsOutbox(done, db.current + 1, 1, now, None);
  }

  /** The rows after success on the last step. */
  lemma CompleteForm(db: Db, now: real)
    requires WellFormed(db.defn) && StepsMatch(db.defn, db.steps) && db.current + 1 == |db.steps|
    ensures HandleSucceeded(db, db.current, now)
            == Ok(Log(Write(SetStep(db, db.current, Succeeded), Completed), RunCompleted(db.current)))
  {
    hide Insertable;
    NextStep(db.defn, SetStep(db, db.current, Succeeded).steps, db.current);
  }

  lemma MoveOnKeeps(db: Db, now: real)
    requires Shape(db) && db.state.Running? && AllResolved(db.cases) && db.current + 1 < |db.steps|
    ensures HandleSucceeded(db, db.current, now).Ok?
    ensures Inv(HandleSucceeded(db, db.current, now).value)
  {
    hide Backed, Tries, Announces, Insertable, RunPath, HandleSucceeded, OutboxOk, Rows;
    var x := AttemptRow(db.current + 1, 1, System, Queued, now, None);
    MoveOnForm(db, now, x);
    AttemptsMoveOn(db.defn, db.attempts, db.current, x);
  }

  /** Success moves a run with no open case to the next step, or completes it. */
  lemma SuccessKeeps(db: Db, now: real)
    requires Shape(db) && db.state.Running? && AllResolved(db.cases)
    ensures HandleSucceeded(db, db.current, now).Ok?
    ensures Inv(HandleSucceeded(db, db.current, now).value)
  {
    hide Backed, Tries, Announces, Insertable, RunPath, HandleSucceeded;
    if db.current + 1 < |db.steps| {
      MoveOnKeeps(db, now);
    } else {
      CompleteForm(db, now);
      HistoryGrows(db, Completed);
    }
  }

  /** The delay that the code computes is one that the k-th retry may get. */
  lemma RetryBacked(policy: RetryPolicy, x: AttemptRow, k: nat, draw: real)
    requires policy.Sensible() && 0.0 <= draw <= 1.0
    requires x.scheduledFor == Some(x.createdAt + Delay(policy, k, draw))
    ensures Backed(x, policy, k)
  {
    DelayWithinCeiling(policy, k, draw);
    assert x.scheduledFor.value - x.createdAt == Delay(policy, k, draw);
  }

  lemma TriesGrow(rows: seq<AttemptRow>, d: StepDef, x: AttemptRow)
    requires Tries(rows, d) && !EndsHuman(rows) && x.number == |rows| + 1
    requires x.origin.System? ==> |rows| < d.maxAttempts && Backed(x, d.policy, |rows|)
    ensures Tries(rows + [x], d)
  {
    var all := rows + [x];
    forall m | 1 <= m < |all| && all[m].origin.System? ensures Backed(all[m], d.policy, m) {
      if m < |rows| { assert Backed(rows[m], d.policy, m); }
    }
  }

  /** One more attempt on the current step keeps the attempts table in order. */
  lemma AttemptAdded(db: Db, x: AttemptRow)
    requires Shape(db) && !EndsHuman(Rows(db.attempts, db.current))
    requires x.step == db.current && x.number == |Rows(db.attempts, db.current)| + 1
    requires x.origin.System? ==>
      && |Rows(db.attempts, db.current)| < db.defn[db.current].maxAttempts
      && Backed(x, db.defn[db.current].policy, |Rows(db.attempts, db.current)|)
    ensures !NumberTaken(db.attempts, db.current, x.number)
    ensures AttemptsOk(db.defn, db.attempts + [x], db.current)
    ensures EndsHuman(Rows(db.attempts + [x], db.current)) == x.origin.Human?
  {
    var i := db.current;
    NextNumberFree(db.attempts, i);
    TriesGrow(Rows(db.attempts, i), db.defn[i], x);
    AttemptsGrow(db.defn, db.attempts, i, x);
    RowsAppend(db.attempts, x, i);
  }

  lemma TriesBound(db: Db)
    requires Shape(db)
    ensures 1 <= |Rows(db.attempts, db.current)| <= db.defn[db.current].maxAttempts + 1
    ensures !EndsHuman(Rows(db.attempts, db.current)) ==>
      1 <= |Rows(db.attempts, db.current)| <= db.defn[db.current].maxAttempts
  {
    hide OutboxOk, CasesOk, HistoryOk, Insertable, StepsMatch, StepsOk;
    assert Tries(Rows(db.attempts, db.current), db.defn[db.current]);
  }

  lemma ScheduleRetryKeeps(db: Db, now: real, due: real, x: AttemptRow)
    requires Inv(db) && db.state.Running?
    requires |Rows(db.attempts, db.current)| < db.defn[db.current].maxAttempts
    requires x == AttemptRow(db.current, |Rows(db.attempts, db.current)| + 1, System, Queued, now, Some(due))
    requires Backed(x, db.defn[db.current].policy, |Rows(db.attempts, db.current)|)
    ensures ScheduleRetry(db, db.current, now, due).Ok?
    ensures Inv(ScheduleRetry(db, db.current, now, due).value)
  {
    TriesBound(db);
    AttemptAdded(db, x);
    RowsAppend(db.attempts, x, db.current);
    RetryForm(db, now, due, x);
    QueueKeepsOutbox(db, db.current, x.number, now, Some(due));
    StepsKept(db.defn, db.steps, db.current, FailedRetryable);
    hide Rows, ScheduleRetry, Queue, EndsHuman, WellFormed, StepsMatch, StepsOk, AttemptsOk, OutboxOk, HistoryOk,
         CasesOk, NumberTaken;
  }

  /** Only the state of the current step changes. */
  lemma StepsKept(defn: seq<StepDef>, steps: seq<StepRow>, current: nat, w: WorkState)
    requires StepsMatch(defn, steps) && StepsOk(steps, current)
    ensures StepsMatch(defn, steps[current := steps[current].(state := w)])
    ensures StepsOk(steps[current := steps[current].(state := w)], current)
  {
  }

  /** The rows after a retry has been scheduled. */
  lemma RetryForm(db: Db, now: real, due: real, x: AttemptRow)
    requires db.current < |db.steps|
    requires x == AttemptRow(db.current, |Rows(db.attempts, db.current)| + 1, System, Queued, now, Some(due))
    requires !NumberTaken(db.attempts, db.current, x.number)
    ensures Queue(db, db.current, x.number, now, Some(due)).Ok? && ScheduleRetry(db, db.current, now, due).Ok?
    ensures var after := ScheduleRetry(db, db.current, now, due).value;
      var q := Queue(db, db.current, x.number, now, Some(due)).value;
      after == q.(steps := SetStep(db, db.current, FailedRetryable).steps, audit := after.audit)
      && q == db.(attempts := db.attempts + [x], outbox := q.outbox)
  {
    hide Rows, HandlerFor;
  }

  lemma RetryKeeps(db: Db, now: real, draw: real)
    requires Inv(db) && db.state.Running? && 0.0 <= draw <= 1.0
    requires |Rows(db.attempts, db.current)| < db.steps[db.current].maxAttempts
    ensures HandleFailedRetryable(db, db.current, now, draw).Ok?
    ensures Inv(HandleFailedRetryable(db, db.current, now, draw).value)
  {
    hide Tries, Announces, Insertable, OutboxOk, HistoryOk, CasesOk, Possible, Delay;
    var count := |Rows(db.attempts, db.current)|;
    var due := now + Delay(db.steps[db.current].policy, count, draw);
    var x := AttemptRow(db.current, count + 1, System, Queued, now, Some(due));
    RetryBacked(db.defn[db.current].policy, x, count, draw);
    ScheduleRetryKeeps(db, now, due, x);
  }

  lemma OpenCaseKeeps(db: Db)
    requires Shape(db) && db.state.Running? && !db.steps[db.current].state.Succeeded?
    requires db.steps[db.current].state.FailedTerminal? ==> db.steps[db.current].escalateOnFailure
    requires !EndsHuman(Rows(db.attempts, db.current)) && NoCaseOn(db.cases, db.current)
    ensures OpenCase(db, db.current).Ok?
    ensures Inv(OpenCase(db, db.current).value)
  {
    HistoryGrows(db, AwaitingHuman);
    var after := OpenCase(db, db.current).value;
    assert Unresolved(after.cases, db.current, |db.cases|);
  }

  lemma TerminalKeeps(db: Db)
    requires Inv(db) && db.state.Running?
    ensures HandleFailedTerminal(db, db.current).Ok?
    ensures Inv(HandleFailedTerminal(db, db.current).value)
  {
    var failed := SetStep(db, db.current, FailedTerminal);
    assert Shape(failed);
    if db.steps[db.current].escalateOnFailure {
      OpenCaseKeeps(failed);
    } else {
      HistoryGrows(db, Failed);
    }
  }

  /** The one case that is not resolved is on the current step; resolving it leaves none. */
  lemma LastCaseResolved(cases: seq<CaseRow>, current: nat, id: nat)
    requires CasesOk(cases, current) && id < |cases| && !cases[id].state.Resolved?
    ensures cases[id].step == current
    ensures CasesOk(cases[id := cases[id].(state := Resolved)], current)
    ensures AllResolved(cases[id := cases[id].(state := Resolved)])
  {
    var after := cases[id := cases[id].(state := Resolved)];
    forall c | 0 <= c < |after| ensures after[c].state.Resolved? {
      if c != id { assert cases[c].step != cases[id].step; }
    }
  }

  /** Closing the only open case with a human attempt leaves a run fit to move on. */
  lemma ResumedShape(db: Db, id: nat, now: real, x: AttemptRow)
    requires Shape(db) && db.state.AwaitingHuman? && !EndsHuman(Rows(db.attempts, db.current))
    requires id < |db.cases| && !db.cases[id].state.Resolved?
    requires x == AttemptRow(db.current, |Rows(db.attempts, db.current)| + 1, Human, Succeeded, now, None)
    ensures db.cases[id].step == db.current
    ensures !NumberTaken(db.attempts, db.current, x.number)
    ensures Shape(ResumedRun(db, id, now)) && AllResolved(ResumedRun(db, id, now).cases)
  {
    hide Backed, Tries, Announces, Insertable, RunPath, NumberTaken, Rows;
    AttemptAdded(db, x);
    LastCaseResolved(db.cases, db.current, id);
    HistoryGrows(db, Running);
    OutboxIgnoresHuman(db.defn, db.attempts, db.outbox, x);
    hide AttemptsOk, OutboxOk, CasesOk, HistoryOk;
  }

  lemma ResumeKeeps(db: Db, id: nat, now: real)
    requires Inv(db) && db.state.AwaitingHuman?
    requires id < |db.cases| && !db.cases[id].state.Resolved?
    ensures Resume(db, id, now).Ok? && Inv(Resume(db, id, now).value)
  {
    hide HandleSucceeded, Rows, NumberTaken, WellFormed, HistoryOk, AttemptsOk, OutboxOk, CasesOk;
    var x := AttemptRow(db.current, |Rows(db.attempts, db.current)| + 1, Human, Succeeded, now, None);
    ResumedShape(db, id, now, x);
    SuccessKeeps(ResumedRun(db, id, now), now);
  }

  lemma CancelKeeps(db: Db)
    requires Inv(db) && Cancel(db).Ok?
    ensures Inv(Cancel(db).value)
  {
    HistoryGrows(db, Cancelled);
  }

  /** A claim touches nothing but its case, which stays unresolved. */
  lemma ClaimKeeps(db: Db, id: nat)
    requires Inv(db) && ClaimCase(db, id).Ok?
    ensures Inv(ClaimCase(db, id).value)
  {
    hide HistoryOk, AttemptsOk, OutboxOk, StepsOk, StepsMatch, WellFormed;
    var after := ClaimCase(db, id).value;
    assert forall c :: 0 <= c < |db.cases| ==> after.cases[c].step == db.cases[c].step;
    if db.state.AwaitingHuman? {
      var c: nat :| Unresolved(db.cases, db.current, c);
      assert Unresolved(after.cases, db.current, c);
    }
  }
}
