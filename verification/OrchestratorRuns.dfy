/** Whole runs: what holds after any list of disciplined calls, and how long such a list
    can keep a run busy. */
module OrchestratorRuns {
  import opened Wrappers
  import opened Lifecycle
  import opened Backoff
  import opened Orchestrator
  import opened OrchestratorInvariant

  datatype Call =
    | AdvanceCall(name: string, status: Status, now: real, draw: real)
    | ResumeCall(id: nat, now: real)
    | CancelCall
    | ClaimCall(id: nat)

  function Apply(db: Db, c: Call): Result<Db, Error> {
    match c
    case AdvanceCall(name, status, now, draw) => Advance(db, name, status, now, draw)
    case ResumeCall(id, now) => Resume(db, id, now)
    case CancelCall => Cancel(db)
    case ClaimCall(id) => ClaimCase(db, id)
  }

  /** A call that raises leaves the rows as they were. */
  function Next(db: Db, c: Call): Db {
    var r := Apply(db, c);
    if r.Ok? then r.value else db
  }

  predicate Disciplined(db: Db, c: Call) {
    match c
    case AdvanceCall(name, _, _, draw) =>
      && db.state.Running? && db.current < |db.steps| && name == db.steps[db.current].name
      && 0.0 <= draw <= 1.0
    case ResumeCall(id, _) =>
      id < |db.cases| ==> db.state.AwaitingHuman? && !db.cases[id].state.Resolved?
    case CancelCall => true
    case ClaimCall(_) => true
  }

  function RunCalls(db: Db, calls: seq<Call>): Db {
    if calls == [] then db else Next(RunCalls(db, calls[..|calls| - 1]), calls[|calls| - 1])
  }

  predicate AllDisciplined(db: Db, calls: seq<Call>) {
    calls == [] ||
    (&& AllDisciplined(db, calls[..|calls| - 1])
     && Disciplined(RunCalls(db, calls[..|calls| - 1]), calls[|calls| - 1]))
  }

  // ---------- one call ----------

  lemma CurrentByName(db: Db)
    requires WellFormed(db.defn) && StepsMatch(db.defn, db.steps) && db.current < |db.steps|
    ensures FindName(db.steps, db.steps[db.current].name) == Some(db.current)
    ensures |db.steps| == |db.defn|
    ensures db.steps[db.current].maxAttempts == db.defn[db.current].maxAttempts
  {
  }

  /** A disciplined call never trips a table constraint or fails to find its rows, and it
      keeps the invariant. */
  lemma CallKeeps(db: Db, c: Call)
    requires Inv(db) && Disciplined(db, c)
    ensures Inv(Next(db, c))
    ensures Apply(db, c).Err? ==> !Apply(db, c).error.ConstraintViolated? && !Apply(db, c).error.StepNotFound?
  {
    hide StepsMatch, HistoryOk, StepsOk, AttemptsOk, OutboxOk, CasesOk, Insertable;
    match c {
      case AdvanceCall(name, status, now, draw) => AdvanceKeeps(db, status, now, draw);
      case ResumeCall(id, now) => if id < |db.cases| { ResumeKeeps(db, id, now); }
      case CancelCall => if Cancel(db).Ok? { CancelKeeps(db); }
      case ClaimCall(id) => if ClaimCase(db, id).Ok? { ClaimKeeps(db, id); }
    }
  }

  lemma AdvanceKeeps(db: Db, status: Status, now: real, draw: real)
    requires Inv(db) && db.state.Running? && 0.0 <= draw <= 1.0
    ensures var r := Advance(db, db.steps[db.current].name, status, now, draw);
            if r.Ok? then Inv(r.value) else r.error == UnknownStatus
  {
    CurrentByName(db);
    hide HistoryOk, AttemptsOk, OutboxOk, Insertable;
    match status {
      case Success =>
        AllClosed(db);
        SuccessKeeps(db, now);
      case RetryableFailure =>
        if |Rows(db.attempts, db.current)| < db.steps[db.current].maxAttempts {
          RetryKeeps(db, now, draw);
        } else {
          TerminalKeeps(db);
        }
      case TerminalFailure => TerminalKeeps(db);
      case Escalate => OpenCaseKeeps(db);
      case Other(_) =>
    }
  }

  lemma AllClosed(db: Db)
    requires Inv(db) && db.state.Running?
    ensures AllResolved(db.cases)
  {
    hide HistoryOk, AttemptsOk, OutboxOk, Insertable, StepsMatch;
  }

  // ---------- every run ----------

  /** The invariant holds after every disciplined run of a well-formed definition. */
  lemma {:induction false} RunKeepsInvariant(defn: seq<StepDef>, now: real, calls: seq<Call>)
    requires WellFormed(defn) && Start(Some(defn), now).Ok?
    requires AllDisciplined(Start(Some(defn), now).value, calls)
    ensures Inv(RunCalls(Start(Some(defn), now).value, calls))
  {
    var start := Start(Some(defn), now).value;
    if calls == [] {
      StartEstablishes(defn, now);
    } else {
      hide Inv, Start;
      var front := calls[..|calls| - 1];
      RunKeepsInvariant(defn, now, front);
      CallKeeps(RunCalls(start, front), calls[|calls| - 1]);
    }
  }

  // ---------- what the invariant says ----------

  lemma CallKeepsDefinition(db: Db, c: Call)
    ensures Next(db, c).defn == db.defn && |Next(db, c).steps| == |db.steps|
  {
    hide FindName, FindIndex, Rows, NumberTaken, CaseTaken, Delay, HandlerFor;
  }

  lemma {:induction false} DefinitionKept(start: Db, calls: seq<Call>)
    ensures RunCalls(start, calls).defn == start.defn && |RunCalls(start, calls).steps| == |start.steps|
  {
    if calls != [] {
      var front := calls[..|calls| - 1];
      DefinitionKept(start, front);
      CallKeepsDefinition(RunCalls(start, front), calls[|calls| - 1]);
      hide Next;
    }
  }

  /** How every disciplined run can end: completed, with every step of its definition succeeded;
      or failed, on a step that failed for good and does not escalate, with all steps before it
      succeeded. A step that does escalate never fails its run. */
  lemma {:induction false} RunEndsExactly(defn: seq<StepDef>, now: real, calls: seq<Call>, db: Db)
    requires WellFormed(defn) && Start(Some(defn), now).Ok?
    requires AllDisciplined(Start(Some(defn), now).value, calls)
    requires db == RunCalls(Start(Some(defn), now).value, calls)
    ensures db.defn == defn && |db.steps| == |db.defn| && db.current < |db.defn|
    ensures forall j :: 0 <= j < |db.defn| ==> db.steps[j].name == db.defn[j].name
    ensures db.state.Completed? <==> forall j :: 0 <= j < |db.defn| ==> db.steps[j].state.Succeeded?
    ensures db.state.Failed? ==>
      && db.steps[db.current].state.FailedTerminal? && !db.defn[db.current].escalateOnFailure
      && forall j :: 0 <= j < db.current ==> db.steps[j].state.Succeeded?
  {
    RunKeepsInvariant(defn, now, calls);
    DefinitionKept(Start(Some(defn), now).value, calls);
    hide HistoryOk, AttemptsOk, OutboxOk, Insertable, CasesOk, HandlerFor, NumberTaken, NoCaseOn, AllResolved, Rows,
         RunCalls, AllDisciplined;
  }

  /** The uniqueness constraint on (step, attempt number) holds. */
  lemma {:induction false} AttemptNumbersUnique(attempts: seq<AttemptRow>, i: nat, k: nat)
    requires forall j: nat, m :: 0 <= m < |Rows(attempts, j)| ==> Rows(attempts, j)[m].number == m + 1
    requires i < k < |attempts| && attempts[i].step == attempts[k].step
    ensures attempts[i].number != attempts[k].number
  {
    var n := |attempts| - 1;
    var front, x := attempts[..n], attempts[n];
    assert attempts == front + [x];
    forall j: nat, m | 0 <= m < |Rows(front, j)| ensures Rows(front, j)[m].number == m + 1 {
      RowsAppend(front, x, j);
      assert Rows(attempts, j)[m] == Rows(front, j)[m];
    }
    if k < n {
      AttemptNumbersUnique(front, i, k);
    } else {
      RowsAppend(front, x, x.step);
      assert Rows(attempts, x.step)[|Rows(front, x.step)|] == x;
      RowsContain(front, i);
    }
  }

  lemma {:induction false} SystemRowsExact(attempts: seq<AttemptRow>)
    ensures forall m :: 0 <= m < |SystemRows(attempts)| ==>
      SystemRows(attempts)[m] < |attempts| && attempts[SystemRows(attempts)[m]].origin.System?
    ensures forall m, k :: 0 <= m < k < |SystemRows(attempts)| ==>
      SystemRows(attempts)[m] < SystemRows(attempts)[k]
    ensures forall p :: 0 <= p < |attempts| && attempts[p].origin.System? ==> p in SystemRows(attempts)
  {
    if attempts != [] {
      var n := |attempts| - 1;
      SystemRowsExact(attempts[..n]);
      var front := SystemRows(attempts[..n]);
      assert SystemRows(attempts) == front + if attempts[n].origin.System? then [n] else [];
      hide SystemRows;
      forall p | 0 <= p < |attempts| && attempts[p].origin.System? ensures p in SystemRows(attempts) {
        if p < n { assert p in front; }
      }
    }
  }

  /** System attempts and outbox rows correspond one to one. */
  lemma OutboxOneToOne(db: Db)
    requires OutboxOk(db.defn, db.attempts, db.outbox)
    ensures forall m :: 0 <= m < |db.outbox| ==>
      && db.outbox[m].attempt < |db.attempts|
      && db.attempts[db.outbox[m].attempt].origin.System?
      && db.attempts[db.outbox[m].attempt].step == db.outbox[m].step
    ensures forall m, k :: 0 <= m < k < |db.outbox| ==> db.outbox[m].attempt != db.outbox[k].attempt
    ensures forall p :: 0 <= p < |db.attempts| && db.attempts[p].origin.System? ==>
      exists m :: 0 <= m < |db.outbox| && db.outbox[m].attempt == p
  {
    SystemRowsExact(db.attempts);
    var rows := SystemRows(db.attempts);
    forall m | 0 <= m < |db.outbox| ensures db.outbox[m].attempt == rows[m] {
      assert Announces(db.outbox[m], rows[m], db.defn, db.attempts);
    }
    forall p | 0 <= p < |db.attempts| && db.attempts[p].origin.System?
      ensures exists m :: 0 <= m < |db.outbox| && db.outbox[m].attempt == p
    {
      var m :| 0 <= m < |rows| && rows[m] == p;
      assert db.outbox[m].attempt == p;
    }
  }

  lemma {:induction false} RowsNumbered(db: Db, j: nat, m: nat)
    requires Inv(db) && m < |Rows(db.attempts, j)|
    ensures Rows(db.attempts, j)[m].number == m + 1
  {
    hide OutboxOk, CasesOk, HistoryOk, Insertable, StepsMatch;
    if j <= db.current {
      assert Tries(Rows(db.attempts, j), db.defn[j]);
    } else {
      RowsEmpty(db.attempts, j);
    }
  }

  /** The limits of a step: attempts numbered 1..k, at most `max` of them by the system, and at most
      one by a person, the last. */
  ghost predicate WithinLimits(rows: seq<AttemptRow>, max: int) {
    && (forall m :: 0 <= m < |rows| ==> rows[m].number == m + 1)
    && (forall m :: 0 <= m < |rows| - 1 ==> rows[m].origin.System?)
    && |rows| <= (if EndsHuman(rows) then max + 1 else max)
  }

  lemma {:induction false} StepWithinLimits(db: Db, j: nat)
    requires Inv(db) && j < |db.defn|
    ensures WithinLimits(Rows(db.attempts, j), db.defn[j].maxAttempts)
  {
    hide OutboxOk, CasesOk, HistoryOk, StepsMatch;
    if j <= db.current {
      assert Tries(Rows(db.attempts, j), db.defn[j]);
    } else {
      RowsEmpty(db.attempts, j);
    }
  }

  /** In every disciplined run: the table constraints hold, the step limits hold, outbox rows
      and system attempts pair up, and a waiting run has exactly one unresolved case, on its
      current step. */
  lemma {:induction false} RunTablesConsistent(defn: seq<StepDef>, now: real, calls: seq<Call>, db: Db)
    requires WellFormed(defn) && Start(Some(defn), now).Ok?
    requires AllDisciplined(Start(Some(defn), now).value, calls)
    requires db == RunCalls(Start(Some(defn), now).value, calls)
    ensures forall i, k :: 0 <= i < k < |db.attempts| && db.attempts[i].step == db.attempts[k].step ==>
      db.attempts[i].number != db.attempts[k].number
    ensures forall c, d :: 0 <= c < d < |db.cases| ==> db.cases[c].step != db.cases[d].step
    ensures forall j: nat :: j < |db.defn| ==> WithinLimits(Rows(db.attempts, j), db.defn[j].maxAttempts)
    ensures forall m :: 0 <= m < |db.outbox| ==>
      && db.outbox[m].attempt < |db.attempts| && db.attempts[db.outbox[m].attempt].origin.System?
      && db.attempts[db.outbox[m].attempt].step == db.outbox[m].step
    ensures forall p :: 0 <= p < |db.attempts| && db.attempts[p].origin.System? ==>
      exists m :: 0 <= m < |db.outbox| && db.outbox[m].attempt == p
    ensures forall m, k :: 0 <= m < k < |db.outbox| ==> db.outbox[m].attempt != db.outbox[k].attempt
    ensures db.state.AwaitingHuman? <==>
      !RunTerminal(db.state) && exists c :: 0 <= c < |db.cases| && !db.cases[c].state.Resolved?
    ensures forall c :: 0 <= c < |db.cases| && !db.cases[c].state.Resolved? ==> db.cases[c].step == db.current
    ensures forall c, d :: 0 <= c < d < |db.cases| ==> db.cases[c].state.Resolved? || db.cases[d].state.Resolved?
  {
    RunKeepsInvariant(defn, now, calls);
    forall j: nat | j < |db.defn| ensures WithinLimits(Rows(db.attempts, j), db.defn[j].maxAttempts) {
      StepWithinLimits(db, j);
    }
    assert forall c, d :: 0 <= c < d < |db.cases| ==> db.cases[c].step != db.cases[d].step;
    forall i, k | 0 <= i < k < |db.attempts| && db.attempts[i].step == db.attempts[k].step
      ensures db.attempts[i].number != db.attempts[k].number
    {
      forall j: nat, m | 0 <= m < |Rows(db.attempts, j)|
        ensures Rows(db.attempts, j)[m].number == m + 1 { RowsNumbered(db, j, m); }
      AttemptNumbersUnique(db.attempts, i, k);
    }
    OutboxOneToOne(db);
    WaitingExactly(db);
  }

  lemma WaitingExactly(db: Db)
    requires Inv(db)
    ensures db.state.AwaitingHuman? <==>
      !RunTerminal(db.state) && exists c :: 0 <= c < |db.cases| && !db.cases[c].state.Resolved?
    ensures forall c :: 0 <= c < |db.cases| && !db.cases[c].state.Resolved? ==> db.cases[c].step == db.current
    ensures forall c, d :: 0 <= c < d < |db.cases| ==> db.cases[c].state.Resolved? || db.cases[d].state.Resolved?
  {
    hide HistoryOk, AttemptsOk, OutboxOk, Insertable, StepsMatch, StepsOk;
    if db.state.AwaitingHuman? {
      var c: nat :| Unresolved(db.cases, db.current, c);
      assert 0 <= c < |db.cases| && !db.cases[c].state.Resolved?;
    }
  }

  // ---------- a step that keeps failing ----------

  /** A retryable failure of the current step, as a disciplined call. */
  predicate Retryable(db: Db, c: Call) {
    c.AdvanceCall? && c.status.RetryableFailure? && Disciplined(db, c)
  }

  /** The k-th call is such a failure, in the state that the calls before it left. */
  predicate FailsAt(db: Db, calls: seq<Call>, k: nat)
    requires k < |calls|
  {
    Retryable(RunCalls(db, calls[..k]), calls[k])
  }

  /** While the limit allows, such a failure brings one more attempt. */
  lemma TriedAgain(db: Db, now: real, draw: real)
    requires Inv(db) && db.state.Running? && 0.0 <= draw <= 1.0
    requires |Rows(db.attempts, db.current)| < db.steps[db.current].maxAttempts
    ensures var r := HandleFailedRetryable(db, db.current, now, draw);
      && r.Ok? && r.value.state.Running? && r.value.current == db.current && r.value.defn == db.defn
      && |Rows(r.value.attempts, db.current)| == |Rows(db.attempts, db.current)| + 1
  {
    RetryKeeps(db, now, draw);
    hide Inv, Delay, HandlerFor, NumberTaken;
    var number := |Rows(db.attempts, db.current)| + 1;
    var due := now + Delay(db.steps[db.current].policy, number - 1, draw);
    RowsAppend(db.attempts, AttemptRow(db.current, number, System, Queued, now, Some(due)), db.current);
    hide Rows;
  }

  /** At the limit the step gives up. */
  lemma GivesUp(db: Db)
    requires Inv(db) && db.state.Running?
    ensures var r := HandleFailedTerminal(db, db.current);
      && r.Ok? && r.value.current == db.current && r.value.defn == db.defn && r.value.attempts == db.attempts
      && r.value.state == if db.defn[db.current].escalateOnFailure then AwaitingHuman else Failed
  {
    TerminalKeeps(db);
    EscalatesAs(db);
    hide Inv, CaseTaken;
  }

  lemma FailOnce(db: Db, c: Call)
    requires Inv(db) && Retryable(db, c)
    ensures var after, used := Next(db, c), |Rows(db.attempts, db.current)|;
      && Inv(after) && after.current == db.current && after.defn == db.defn
      && (if used < db.defn[db.current].maxAttempts
          then after.state.Running? && |Rows(after.attempts, db.current)| == used + 1
          else after.attempts == db.attempts
               && after.state == if db.defn[db.current].escalateOnFailure then AwaitingHuman else Failed)
  {
    CallKeeps(db, c);
    CurrentByName(db);
    hide Rows, FindName, HandleFailedTerminal, ScheduleRetry, HandleSucceeded, OpenCase, StepsMatch, HistoryOk,
         StepsOk, AttemptsOk, OutboxOk, CasesOk, Insertable, Delay;
    if |Rows(db.attempts, db.current)| < db.steps[db.current].maxAttempts {
      TriedAgain(db, c.now, c.draw);
    } else {
      GivesUp(db);
    }
  }

  lemma EscalatesAs(db: Db)
    requires Inv(db)
    ensures |db.steps| == |db.defn| && db.current < |db.steps|
    ensures db.steps[db.current].escalateOnFailure == db.defn[db.current].escalateOnFailure
  {
    hide HistoryOk, AttemptsOk, OutboxOk, Insertable, CasesOk;
  }

  lemma RunsOpen(db: Db)
    requires Inv(db) && db.state.Running?
    ensures !EndsHuman(Rows(db.attempts, db.current))
  {
    hide Shape;
  }

  /** A step that only ever fails retryably is tried exactly max_attempts times: as long as there
      have been fewer failures the run goes on with one attempt more, and at the last one it
      waits or fails, as the step's definition says. */
  lemma {:induction false} TriedExactlyMaxAttempts(db: Db, calls: seq<Call>)
    requires Inv(db) && db.state.Running?
    requires |Rows(db.attempts, db.current)| + |calls| <= db.defn[db.current].maxAttempts + 1
    requires forall k :: 0 <= k < |calls| ==> FailsAt(db, calls, k)
    ensures var after, max := RunCalls(db, calls), db.defn[db.current].maxAttempts;
      && Inv(after) && after.current == db.current && after.defn == db.defn
      && (if |Rows(db.attempts, db.current)| + |calls| <= max
          then after.state.Running? && |Rows(after.attempts, db.current)| == |Rows(db.attempts, db.current)| + |calls|
          else |Rows(after.attempts, db.current)| == max
               && after.state == if db.defn[db.current].escalateOnFailure then AwaitingHuman else Failed)
  {
    TriesBound(db);
    RunsOpen(db);
    hide Inv, Rows, Retryable, Next;
    if calls != [] {
      var front, c := calls[..|calls| - 1], calls[|calls| - 1];
      forall k | 0 <= k < |front| ensures FailsAt(db, front, k) {
        assert FailsAt(db, calls, k) && front[..k] == calls[..k];
      }
      assert FailsAt(db, calls, |front|);
      TriedExactlyMaxAttempts(db, front);
      FailOnce(RunCalls(db, front), c);
    }
  }
}
