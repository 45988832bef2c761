/** How much a disciplined run can do: a budget of advances and resumes that every call
    draws down, the length of the audit log, and the order in which steps are left. */
module OrchestratorBounds {
  import opened Wrappers
  import opened Lifecycle
  import opened Backoff
  import opened Orchestrator
  import opened OrchestratorInvariant
  import opened OrchestratorRuns

  /** The attempts that the steps from `from` on may use. */
  function SumMax(defn: seq<StepDef>, from: nat): int
    requires from <= |defn|
    decreases |defn| - from
  {
    if from == |defn| then 0 else defn[from].maxAttempts + SumMax(defn, from + 1)
  }

  /** The advances still possible. */
  function AdvancesLeft(db: Db): int
    requires db.current < |db.defn|
  {
    SumMax(db.defn, db.current + 1) +
    if db.state.Running? then db.defn[db.current].maxAttempts - |Rows(db.attempts, db.current)| + 1 else 0
  }

  /** The resumes still possible. */
  function ResumesLeft(db: Db): int
    requires db.current < |db.defn|
  {
    if RunTerminal(db.state) then 0 else |db.defn| - db.current
  }

  function Alive(db: Db): int {
    if RunTerminal(db.state) then 0 else 1
  }

  /** What one effective call may cost. */
  function AdvanceCost(c: Call): nat { if c.AdvanceCall? then 1 else 0 }
  function ResumeCost(c: Call): nat { if c.ResumeCall? then 1 else 0 }
  function CancelCost(c: Call): nat { if c.CancelCall? then 1 else 0 }
  function ClaimCost(c: Call): nat { if c.ClaimCall? then 1 else 0 }

  /** The measure of a run falls, and its audit log grows, by at least and exactly these. */
  ghost predicate Spends(db: Db, after: Db, advances: nat, resumes: nat, cancels: nat, claims: nat) {
    && db.current < |db.defn| && after.current < |after.defn| && after.defn == db.defn
    && AdvancesLeft(after) + advances <= AdvancesLeft(db)
    && ResumesLeft(after) + resumes <= ResumesLeft(db)
    && Alive(after) + cancels <= Alive(db)
    && |after.audit| == |db.audit| + advances + 2 * resumes + cancels + claims
  }

  lemma {:induction false} SumMaxNonNegative(defn: seq<StepDef>, from: nat)
    requires Insertable(defn) && from <= |defn|
    ensures SumMax(defn, from) >= 0
    decreases |defn| - from
  {
    if from < |defn| {
      SumMaxNonNegative(defn, from + 1);
    }
  }

  lemma MovedBudget(db: Db, after: Db)
    requires after.defn == db.defn && after.current == db.current + 1 < |db.defn|
    requires after.state.Running? && |Rows(after.attempts, after.current)| == 1
    ensures AdvancesLeft(after) == SumMax(db.defn, db.current + 1)
    ensures ResumesLeft(after) == |db.defn| - db.current - 1
  {
  }

  /** After success the current step's share of the budget is gone. */
  lemma SuccessSpends(db: Db, now: real)
    requires Shape(db) && db.state.Running? && AllResolved(db.cases)
    ensures HandleSucceeded(db, db.current, now).Ok?
    ensures var after := HandleSucceeded(db, db.current, now).value;
      && after.defn == db.defn && after.current < |after.defn|
      && AdvancesLeft(after) <= SumMax(db.defn, db.current + 1)
      && ResumesLeft(after) <= |db.defn| - db.current - 1
      && |after.audit| == |db.audit| + 1
  {
    hide Tries, Announces, Insertable, OutboxOk, HandleSucceeded, CasesOk, SumMax, Rows, HistoryOk;
    SumMaxNonNegative(db.defn, db.current + 1);
    if db.current + 1 < |db.steps| {
      var x := AttemptRow(db.current + 1, 1, System, Queued, now, None);
      MoveOnForm(db, now, x);
      AttemptsMoveOn(db.defn, db.attempts, db.current, x);
      hide StepsMatch, AttemptsOk, StepsOk;
      MovedBudget(db, HandleSucceeded(db, db.current, now).value);
    } else {
      CompleteForm(db, now);
    }
  }

  lemma RetrySpends(db: Db, now: real, due: real)
    requires db.state.Running? && db.current < |db.defn| && |db.steps| == |db.defn|
    requires ScheduleRetry(db, db.current, now, due).Ok?
    ensures Spends(db, ScheduleRetry(db, db.current, now, due).value, 1, 0, 0, 0)
  {
    var number := |Rows(db.attempts, db.current)| + 1;
    RowsAppend(db.attempts, AttemptRow(db.current, number, System, Queued, now, Some(due)), db.current);
    hide Rows, SumMax, HandlerFor, NumberTaken;
  }

  /** Giving up on the current step, for a person or for good. */
  lemma GiveUpSpends(db: Db, after: Db)
    requires db.state.Running? && db.current < |db.defn|
    requires |Rows(db.attempts, db.current)| <= db.defn[db.current].maxAttempts
    requires after.defn == db.defn && after.current == db.current
    requires after.state.AwaitingHuman? || after.state.Failed?
    requires |after.audit| == |db.audit| + 1
    ensures Spends(db, after, 1, 0, 0, 0)
  {
  }

  lemma TerminalSpends(db: Db)
    requires db.state.Running? && db.current < |db.defn| && |db.steps| == |db.defn|
    requires |Rows(db.attempts, db.current)| <= db.defn[db.current].maxAttempts
    requires HandleFailedTerminal(db, db.current).Ok?
    ensures Spends(db, HandleFailedTerminal(db, db.current).value, 1, 0, 0, 0)
  {
    hide Rows, SumMax, CaseTaken;
    GiveUpSpends(db, HandleFailedTerminal(db, db.current).value);
  }

  lemma AdvanceSpends(db: Db, status: Status, now: real, draw: real)
    requires Inv(db) && db.state.Running? && 0.0 <= draw <= 1.0
    requires Advance(db, db.steps[db.current].name, status, now, draw).Ok?
    ensures Spends(db, Advance(db, db.steps[db.current].name, status, now, draw).value, 1, 0, 0, 0)
  {
    hide HistoryOk, AttemptsOk, OutboxOk, Insertable, CasesOk, StepsMatch, WellFormed, NoCaseOn, Delay,
         ScheduleRetry, HandleSucceeded, HandleFailedTerminal, Rows, CaseTaken, SumMax, FindName;
    CurrentByName(db);
    TriesBound(db);
    AllClosed(db);
    match status {
      case Success => SuccessSpends(db, now);
      case RetryableFailure =>
        hide Spends;
        var count := |Rows(db.attempts, db.current)|;
        if count < db.steps[db.current].maxAttempts {
          RetrySpends(db, now, now + Delay(db.steps[db.current].policy, count, draw));
        } else {
          TerminalSpends(db);
        }
      case TerminalFailure => TerminalSpends(db);
      case Escalate => GiveUpSpends(db, OpenCase(db, db.current).value);
      case Other(_) =>
    }
  }

  lemma ResumeSpends(db: Db, id: nat, now: real)
    requires Inv(db) && db.state.AwaitingHuman?
    requires id < |db.cases| && !db.cases[id].state.Resolved?
    ensures Resume(db, id, now).Ok? && Spends(db, Resume(db, id, now).value, 0, 1, 0, 0)
  {
    hide HistoryOk, AttemptsOk, OutboxOk, Insertable, CasesOk, StepsMatch, HandleSucceeded, Rows, NumberTaken;
    var x := AttemptRow(db.current, |Rows(db.attempts, db.current)| + 1, Human, Succeeded, now, None);
    ResumedShape(db, id, now, x);
    SuccessSpends(ResumedRun(db, id, now), now);
  }

  /** Every effective disciplined call draws on the budget. */
  lemma CallSpends(db: Db, c: Call)
    requires Inv(db) && Disciplined(db, c) && Apply(db, c).Ok?
    ensures Spends(db, Next(db, c), AdvanceCost(c), ResumeCost(c), CancelCost(c), ClaimCost(c))
  {
    match c {
      case AdvanceCall(name, status, now, draw) =>
        hide Spends, StepsMatch, HistoryOk, StepsOk, AttemptsOk, OutboxOk, CasesOk, Insertable;
        AdvanceSpends(db, status, now, draw);
      case ResumeCall(id, now) =>
        hide Spends, StepsMatch, HistoryOk, StepsOk, AttemptsOk, OutboxOk, CasesOk, Insertable;
        ResumeSpends(db, id, now);
      case CancelCall =>
        TriesBound(db);
      case ClaimCall(_) =>
    }
  }

  // ---------- whole runs ----------

  /** The effective calls of each kind in a run. */
  function Effective(db: Db, calls: seq<Call>, cost: Call -> nat): nat {
    if calls == [] then 0
    else
      var front, c := calls[..|calls| - 1], calls[|calls| - 1];
      Effective(db, front, cost) + if Apply(RunCalls(db, front), c).Ok? then cost(c) else 0
  }

  lemma {:induction false} RunSpends(defn: seq<StepDef>, now: real, calls: seq<Call>, start: Db)
    requires WellFormed(defn) && Start(Some(defn), now) == Ok(start)
    requires AllDisciplined(start, calls)
    ensures Spends(start, RunCalls(start, calls), Effective(start, calls, AdvanceCost),
                   Effective(start, calls, ResumeCost), Effective(start, calls, CancelCost),
                   Effective(start, calls, ClaimCost))
  {
    if calls == [] {
    } else {
      var front, c := calls[..|calls| - 1], calls[|calls| - 1];
      RunSpends(defn, now, front, start);
      RunKeepsInvariant(defn, now, front);
      if Apply(RunCalls(start, front), c).Ok? {
        CallSpends(RunCalls(start, front), c);
      }
    }
  }

  // ---------- claims ----------

  /** How many cases have been claimed or resolved. */
  function Taken(cases: seq<CaseRow>): nat {
    if cases == [] then 0 else Taken(cases[..|cases| - 1]) + if cases[|cases| - 1].state.Open? then 0 else 1
  }

  lemma {:induction false} TakenBound(cases: seq<CaseRow>)
    ensures Taken(cases) <= |cases|
  {
    if cases != [] { TakenBound(cases[..|cases| - 1]); }
  }

  lemma {:induction false} TakenSet(cases: seq<CaseRow>, id: nat, s: CaseState)
    requires id < |cases| && !s.Open?
    ensures Taken(cases[id := cases[id].(state := s)]) == Taken(cases) + if cases[id].state.Open? then 1 else 0
  {
    var n, after := |cases| - 1, cases[id := cases[id].(state := s)];
    if id < n {
      assert after[..n] == cases[..n][id := cases[id].(state := s)];
      TakenSet(cases[..n], id, s);
    } else {
      assert after[..n] == cases[..n];
    }
  }

  /** Every call leaves the cases alone, adds an open one, or closes an open or a claimed one. */
  lemma CallTakes(db: Db, c: Call)
    ensures Taken(Next(db, c).cases) >= Taken(db.cases) + if Apply(db, c).Ok? then ClaimCost(c) else 0
  {
    hide FindName, FindIndex, Rows, NumberTaken, CaseTaken, Delay, HandlerFor, Taken;
    match c {
      case AdvanceCall(name, _, _, _) =>
        CasesAppended(db, c);
      case ResumeCall(id, _) => if id < |db.cases| { TakenSet(db.cases, id, Resolved); }
      case CancelCall =>
      case ClaimCall(id) => if id < |db.cases| { TakenSet(db.cases, id, Claimed); }
    }
  }

  lemma CasesAppended(db: Db, c: Call)
    requires c.AdvanceCall?
    ensures Taken(Next(db, c).cases) == Taken(db.cases)
  {
    hide FindName, FindIndex, Rows, NumberTaken, CaseTaken, Delay, HandlerFor, Taken;
    var found := FindName(db.steps, c.name);
    if found.Some? { TakenAppend(db.cases, CaseRow(found.value, Open)); }
  }

  lemma {:induction false} TakenAppend(cases: seq<CaseRow>, x: CaseRow)
    requires x.state.Open?
    ensures Taken(cases + [x]) == Taken(cases)
  {
    assert (cases + [x])[..|cases|] == cases;
  }

  lemma {:induction false} RunTakes(start: Db, calls: seq<Call>)
    ensures Effective(start, calls, ClaimCost) <= Taken(RunCalls(start, calls).cases)
  {
    hide Taken, Next, Apply;
    if calls != [] {
      var front, c := calls[..|calls| - 1], calls[|calls| - 1];
      RunTakes(start, front);
      CallTakes(RunCalls(start, front), c);
    }
  }

  /** Cases on different steps up to the current one are no more than the steps. */
  lemma CasesFewerThanSteps(cases: seq<CaseRow>, n: nat)
    requires forall c :: 0 <= c < |cases| ==> cases[c].step < n
    requires forall c, d :: 0 <= c < d < |cases| ==> cases[c].step != cases[d].step
    ensures |cases| <= n
  {
    var steps := set c | 0 <= c < |cases| :: cases[c].step;
    StepCount(cases, steps);
    assert Below(n) == steps + (Below(n) - steps);
  }

  lemma {:induction false} StepCount(cases: seq<CaseRow>, steps: set<nat>)
    requires steps == set c | 0 <= c < |cases| :: cases[c].step
    requires forall c, d :: 0 <= c < d < |cases| ==> cases[c].step != cases[d].step
    ensures |steps| == |cases|
  {
    if cases != [] {
      var n := |cases| - 1;
      var front := set c | 0 <= c < n :: cases[..n][c].step;
      StepCount(cases[..n], front);
      assert steps == front + {cases[n].step};
    }
  }

  function Below(n: nat): (all: set<nat>)
    ensures |all| == n && forall i :: i in all <==> 0 <= i < n
  {
    if n == 0 then {} else Below(n - 1) + {n - 1}
  }

  lemma {:induction false} ClaimsBounded(defn: seq<StepDef>, now: real, calls: seq<Call>, start: Db)
    requires WellFormed(defn) && Start(Some(defn), now) == Ok(start) && AllDisciplined(start, calls)
    ensures Effective(start, calls, ClaimCost) <= |defn|
  {
    RunKeepsInvariant(defn, now, calls);
    DefinitionKept(start, calls);
    RunTakes(start, calls);
    var db := RunCalls(start, calls);
    TakenBound(db.cases);
    hide RunCalls, HistoryOk, AttemptsOk, OutboxOk, Insertable, StepsOk, Taken, Effective, AllDisciplined, HandlerFor;
    CasesFewerThanSteps(db.cases, |defn|);
  }

  /** A run of n steps takes at most sum(max_attempts) advances, n resumes and one cancel, and
      appends at most 2 + sum(max_attempts) + 2n audit events, not counting those of the claims,
      of which there are at most n. */
  lemma {:induction false} RunBounded(defn: seq<StepDef>, now: real, calls: seq<Call>, start: Db)
    requires WellFormed(defn) && Start(Some(defn), now) == Ok(start)
    requires AllDisciplined(start, calls)
    ensures Effective(start, calls, AdvanceCost) <= SumMax(defn, 0)
    ensures Effective(start, calls, ResumeCost) <= |defn|
    ensures Effective(start, calls, CancelCost) <= 1
    ensures Effective(start, calls, ClaimCost) <= |defn|
    ensures |RunCalls(start, calls).audit| <= 2 + SumMax(defn, 0) + 2 * |defn| + Effective(start, calls, ClaimCost)
  {
    StartBudget(defn, now, start);
    hide Start, WellFormed, RunCalls, AllDisciplined, Effective, SumMax, AdvancesLeft, ResumesLeft;
    RunSpends(defn, now, calls, start);
    RunKeepsInvariant(defn, now, calls);
    ClaimsBounded(defn, now, calls, start);
    BudgetNonNegative(RunCalls(start, calls));
    hide Inv;
  }

  lemma BudgetNonNegative(db: Db)
    requires Inv(db)
    ensures db.current < |db.defn| && AdvancesLeft(db) >= 0 && ResumesLeft(db) >= 0
  {
    TriesBound(db);
    SumMaxNonNegative(db.defn, db.current + 1);
    hide HistoryOk, OutboxOk, CasesOk, Insertable, StepsMatch, Tries, Rows, SumMax;
  }

  lemma {:induction false} StartBudget(defn: seq<StepDef>, now: real, start: Db)
    requires WellFormed(defn) && Start(Some(defn), now) == Ok(start)
    ensures start.current == 0 && AdvancesLeft(start) == SumMax(defn, 0)
    ensures ResumesLeft(start) == |defn| && Alive(start) == 1 && |start.audit| == 1
  {
    hide Insertable, HandlerFor, StepRows;
    assert start.attempts == [] + [start.attempts[0]];
    RowsAppend([], start.attempts[0], 0);
  }
}
