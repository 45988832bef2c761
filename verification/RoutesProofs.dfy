/** What holds of every interleaving of the API requests: versions identify run states, cancels
    overwrite nothing, and every case is claimed once and closed once, by its claimer. */
module RoutesProofs {
  import opened Wrappers
  import opened Lifecycle
  import opened Routes

  // ---------- runs and their versions ----------

  /** A step leaves a run row as it is or raises its version by one. */
  lemma StepRow(w: World, a: Action, r: RunId)
    requires r in w.db.runs
    ensures var w' := Step(w, a).world;
      r in w'.db.runs && (w'.db.runs[r] == w.db.runs[r] || w'.db.runs[r].version == w.db.runs[r].version + 1)
  {
  }

  /** How many of the actions lo..hi wrote the row of run r. */
  ghost function Writes(acts: seq<Action>, lo: nat, hi: nat, r: RunId): nat
    requires lo <= hi && hi <= |acts|
    decreases hi
  {
    if lo == hi then 0
    else
      var before, after := At(acts, hi - 1).db.runs, At(acts, hi).db.runs;
      Writes(acts, lo, hi - 1, r) + (if r in before && r in after && before[r] != after[r] then 1 else 0)
  }

  /** The version counts the writes, and without a write the row is the same row. */
  lemma {:induction false} VersionCountsWrites(acts: seq<Action>, i: nat, j: nat, r: RunId)
    requires i <= j <= |acts| && r in At(acts, i).db.runs
    ensures r in At(acts, j).db.runs
    ensures At(acts, j).db.runs[r].version == At(acts, i).db.runs[r].version + Writes(acts, i, j, r)
    ensures Writes(acts, i, j, r) == 0 ==> At(acts, j).db.runs[r] == At(acts, i).db.runs[r]
    decreases j
  {
    if i < j {
      VersionCountsWrites(acts, i, j - 1, r);
      StepRow(At(acts, j - 1), acts[j - 1], r);
    }
  }

  /** In one interleaving, equal versions of a run mean the equal run state. */
  lemma {:induction false} EqualVersionsEqualState(acts: seq<Action>, i: nat, j: nat, r: RunId)
    requires i <= |acts| && j <= |acts| && r in At(acts, i).db.runs && r in At(acts, j).db.runs
    requires At(acts, i).db.runs[r].version == At(acts, j).db.runs[r].version
    ensures At(acts, i).db.runs[r] == At(acts, j).db.runs[r]
  {
    VersionCountsWrites(acts, if i <= j then i else j, if i <= j then j else i, r);
  }

  // ---------- cancel ----------

  /** Action i is the read whose ticket request q still holds before action j. */
  ghost predicate ReadAt(acts: seq<Action>, i: nat, j: nat, q: RequestId) {
    && i < j <= |acts|
    && q in At(acts, j).pending
    && acts[i] == CancelRead(q, At(acts, j).pending[q].run)
    && ReadForCancel(At(acts, i).db, At(acts, j).pending[q].run) == Ok(At(acts, j).pending[q])
  }

  lemma {:induction false} TicketHasRead(acts: seq<Action>, j: nat, q: RequestId) returns (i: nat)
    requires j <= |acts| && q in At(acts, j).pending
    ensures ReadAt(acts, i, j, q)
  {
    assert j > 0;
    var w := At(acts, j - 1);
    if q in w.pending {
      i := TicketHasRead(acts, j - 1, q);
      assert At(acts, j).pending[q] == w.pending[q];
    } else {
      i := j - 1;
    }
  }

  /** A cancel that is written after its read at i succeeds exactly when no write touched the run
      in between, and then takes the very row it read from a cancellable state to cancelled. */
  lemma CancelOverwritesNothing(acts: seq<Action>, j: nat, q: RequestId) returns (i: nat)
    requires j < |acts| && acts[j] == CancelWrite(q) && q in At(acts, j).pending
    ensures ReadAt(acts, i, j, q)
    ensures var r := At(acts, j).pending[q].run;
      && r in At(acts, i).db.runs && Cancellable(At(acts, i).db.runs[r].state) && r in At(acts, j).db.runs
      && (ReplyAt(acts, j) == Done <==> Writes(acts, i, j, r) == 0)
      && (ReplyAt(acts, j) == Done <==> At(acts, j).db.runs[r] == At(acts, i).db.runs[r])
      && (ReplyAt(acts, j) == Done ==>
            At(acts, j + 1).db.runs == At(acts, j).db.runs[r := RunRow(Cancelled, At(acts, i).db.runs[r].version + 1)])
      && (ReplyAt(acts, j) != Done ==> ReplyAt(acts, j) == Conflict && At(acts, j + 1).db == At(acts, j).db)
  {
    i := TicketHasRead(acts, j, q);
    var t := At(acts, j).pending[q];
    VersionCountsWrites(acts, i, j, t.run);
  }

  /** Action k is another writer taking run r out of a terminal state. */
  ghost predicate Revives(acts: seq<Action>, k: nat, r: RunId) {
    && k < |acts| && acts[k].OtherWrite? && acts[k].run == r
    && r in At(acts, k).db.runs && RunTerminal(At(acts, k).db.runs[r].state)
  }

  /** No request takes a run out of a terminal state. */
  lemma RequestsKeepTerminal(w: World, a: Action, r: RunId)
    requires r in w.db.runs && RunTerminal(w.db.runs[r].state)
    requires !(a.OtherWrite? && a.run == r)
    requires forall q <- w.pending :: Cancellable(w.pending[q].row.state)
    requires forall q <- w.pending :: w.pending[q].run == r ==> w.pending[q].row.version != w.db.runs[r].version
    ensures r in Step(w, a).world.db.runs && Step(w, a).world.db.runs[r] == w.db.runs[r]
  {
  }

  /** Every ticket was read in a cancellable state, so none fits a run that is now terminal. */
  lemma {:induction false} TicketsStale(acts: seq<Action>, j: nat, r: RunId, q: RequestId)
    requires j <= |acts| && q in At(acts, j).pending
    ensures var t := At(acts, j).pending[q];
      && Cancellable(t.row.state)
      && (t.run == r && r in At(acts, j).db.runs && RunTerminal(At(acts, j).db.runs[r].state)
          ==> t.row.version != At(acts, j).db.runs[r].version)
  {
    var i := TicketHasRead(acts, j, q);
    var t := At(acts, j).pending[q];
    if t.run == r && r in At(acts, j).db.runs { VersionCountsWrites(acts, i, j, r); }
  }

  /** In every interleaving a terminal run keeps its row, version included, until another writer
      revives it. */
  lemma {:induction false} TerminalRowStays(acts: seq<Action>, i: nat, j: nat, r: RunId)
    requires i <= j <= |acts| && r in At(acts, i).db.runs && RunTerminal(At(acts, i).db.runs[r].state)
    requires forall k: nat :: i <= k < j ==> !Revives(acts, k, r)
    ensures r in At(acts, j).db.runs && At(acts, j).db.runs[r] == At(acts, i).db.runs[r]
    decreases j
  {
    hide Step;
    if i < j {
      TerminalRowStays(acts, i, j - 1, r);
      var w := At(acts, j - 1);
      assert !Revives(acts, j - 1, r);
      forall q | q in w.pending
        ensures Cancellable(w.pending[q].row.state)
        ensures w.pending[q].run == r ==> w.pending[q].row.version != w.db.runs[r].version
      {
        TicketsStale(acts, j - 1, r, q);
      }
      RequestsKeepTerminal(w, acts[j - 1], r);
    }
  }

  /** Action i is a cancel of run r that succeeds. */
  ghost predicate CancelsAt(acts: seq<Action>, i: nat, r: RunId) {
    && i < |acts| && acts[i].CancelWrite? && ReplyAt(acts, i) == Done
    && acts[i].request in At(acts, i).pending && At(acts, i).pending[acts[i].request].run == r
  }

  /** Of two successful cancels of one run, the second needs another writer to have revived the
      run in between; so when every other writer respects terminal states, at most one succeeds. */
  lemma SecondCancelNeedsRevival(acts: seq<Action>, i: nat, j: nat, r: RunId)
    requires i < j && CancelsAt(acts, i, r) && CancelsAt(acts, j, r)
    ensures exists k: nat :: i < k < j && Revives(acts, k, r)
  {
    SuccessfulCancel(acts, i, r);
    SuccessfulCancel(acts, j, r);
    hide Step;
    if forall k: nat :: i + 1 <= k < j ==> !Revives(acts, k, r) {
      TerminalRowStays(acts, i + 1, j, r);
    }
  }

  lemma SuccessfulCancel(acts: seq<Action>, i: nat, r: RunId)
    requires CancelsAt(acts, i, r)
    ensures r in At(acts, i).db.runs && Cancellable(At(acts, i).db.runs[r].state)
    ensures r in At(acts, i + 1).db.runs && At(acts, i + 1).db.runs[r].state == Cancelled
  {
    var q := acts[i].request;
    TicketsStale(acts, i, r, q);
    var read := CancelOverwritesNothing(acts, i, q);
  }

  lemma OneCancelSucceeds(acts: seq<Action>, i: nat, j: nat, r: RunId)
    requires CancelsAt(acts, i, r) && CancelsAt(acts, j, r)
    requires forall k: nat :: k < |acts| ==> !Revives(acts, k, r)
    ensures i == j
  {
    if i < j { SecondCancelNeedsRevival(acts, i, j, r); }
    if j < i { SecondCancelNeedsRevival(acts, j, i, r); }
  }

  /** The premise is needed: a writer that ignores terminal states (as advancing a cancelled run
      whose step then fails does) lets two cancels of one run succeed. */
  lemma RevivalAllowsTwoCancels()
    ensures exists acts: seq<Action>, i: nat, j: nat, r: RunId ::
      i < j && CancelsAt(acts, i, r) && CancelsAt(acts, j, r)
  {
    var acts := [CreateRun(7, RunRow(Running, 1)), CancelRead(0, 7), CancelWrite(0), OtherWrite(7, AwaitingHuman),
                 CancelRead(1, 7), CancelWrite(1)];
    var w0 := EMPTY;
    var w1 := Step(w0, acts[0]).world;
    var w2 := Step(w1, acts[1]).world;
    var w3 := Step(w2, acts[2]).world;
    var w4 := Step(w3, acts[3]).world;
    var w5 := Step(w4, acts[4]).world;
    assert At(acts, 1) == w1;
    assert At(acts, 2) == w2;
    assert At(acts, 3) == w3;
    assert At(acts, 4) == w4;
    assert At(acts, 5) == w5;
    hide At;
    assert CancelsAt(acts, 2, 7);
    assert CancelsAt(acts, 5, 7);
  }

  /** The run edge a request takes is in the domain table exactly when it is not a reject of a run
      that awaits a human. */
  lemma RequestEdgeExact(acts: seq<Action>, j: nat, r: RunId)
    requires j < |acts| && !acts[j].OtherWrite? && r in At(acts, j).db.runs
    requires At(acts, j + 1).db.runs[r] != At(acts, j).db.runs[r]
    ensures var from, to := At(acts, j).db.runs[r].state, At(acts, j + 1).db.runs[r].state;
      && Cancellable(from)
      && At(acts, j + 1).db.runs[r].version == At(acts, j).db.runs[r].version + 1
      && to == (if acts[j].ResolveCase? then Running else if acts[j].RejectCase? then Failed else Cancelled)
      && (acts[j].ResolveCase? ==> from == AwaitingHuman)
      && (RunEdge(from, to) <==> !(acts[j].RejectCase? && from == AwaitingHuman))
  {
    var w := At(acts, j);
    StepRow(w, acts[j], r);
    if acts[j].CancelWrite? {
      var q := acts[j].request;
      TicketsStale(acts, j, r, q);
      var i := TicketHasRead(acts, j, q);
      VersionCountsWrites(acts, i, j, r);
    }
  }

  // ---------- escalation cases ----------

  /** A case row that only these requests wrote. */
  ghost predicate CaseOk(e: CaseRow) {
    && (e.claimedBy.Some? <==> !e.state.Open?)
    && (e.resolvedBy.Some? <==> e.state.Resolved? || e.state.Rejected?)
    && (e.resolvedBy.Some? ==> e.resolvedBy == e.claimedBy)
    && !e.state.Expired?
  }

  ghost predicate CasesOk(db: Db) {
    && (forall c <- db.cases :: CaseOk(db.cases[c]))
    && (forall c <- db.cases, d <- db.cases :: db.cases[c].step == db.cases[d].step ==> c == d)
    && (forall s <- db.human :: exists c :: c in db.cases && db.cases[c].step == s && db.cases[c].state.Resolved?)
  }

  lemma CloseKeepsCases(db: Db, c: CaseId, actor: Actor, state: CaseState, human: set<StepKey>)
    requires CasesOk(db) && Refusal(db, c, actor) == Done && (state.Resolved? || state.Rejected?)
    requires human == db.human || (state.Resolved? && human == db.human + {db.cases[c].step})
    ensures forall runs :: CasesOk(Db(runs, Closed(db, c, actor, state), human))
  {
    var cases := Closed(db, c, actor, state);
    forall s | s in human ensures exists d :: d in cases && cases[d].step == s && cases[d].state.Resolved? {
      if s in db.human {
        var d :| d in db.cases && db.cases[d].step == s && db.cases[d].state.Resolved?;
        assert d in cases && cases[d].step == s;
      } else {
        assert c in cases && cases[c].step == s;
      }
    }
  }

  lemma StepKeepsCases(w: World, a: Action)
    requires CasesOk(w.db)
    ensures CasesOk(Step(w, a).world.db)
  {
    var db, db' := w.db, Step(w, a).world.db;
    match a
    case ResolveCase(c, actor) =>
      if Refusal(db, c, actor) == Done && db.cases[c].step !in db.human {
        CloseKeepsCases(db, c, actor, Resolved, db.human + {db.cases[c].step});
      }
    case RejectCase(c, actor) =>
      if Refusal(db, c, actor) == Done { CloseKeepsCases(db, c, actor, Rejected, db.human); }
    case ClaimCase(c, actor) =>
      assert db'.human == db.human;
      assert forall d <- db.cases :: d in db'.cases && db'.cases[d].step == db.cases[d].step
                                     && (db.cases[d].state.Resolved? ==> db'.cases[d] == db.cases[d]);
      hide Step;
      ResolvedStay(db, db');
    case OpenCase(c, step) =>
      assert db'.human == db.human && (forall d <- db.cases :: d in db'.cases && db'.cases[d] == db.cases[d]);
      hide Step;
      ResolvedStay(db, db');
    case _ =>
      assert db'.human == db.human && db'.cases == db.cases;
      hide Step;
  }

  lemma ResolvedStay(db: Db, db': Db)
    requires CasesOk(db) && db'.human == db.human
    requires forall d <- db.cases :: d in db'.cases && (db.cases[d].state.Resolved? ==> db'.cases[d] == db.cases[d])
    ensures forall s <- db'.human ::
      exists c :: c in db'.cases && db'.cases[c].step == s && db'.cases[c].state.Resolved?
  {
    forall s | s in db'.human
      ensures exists c :: c in db'.cases && db'.cases[c].step == s && db'.cases[c].state.Resolved?
    {
      var d :| d in db.cases && db.cases[d].step == s && db.cases[d].state.Resolved?;
      assert d in db'.cases && db'.cases[d] == db.cases[d];
    }
  }

  lemma {:induction false} CasesAlwaysOk(acts: seq<Action>, i: nat)
    requires i <= |acts|
    ensures CasesOk(At(acts, i).db)
  {
    if i > 0 {
      CasesAlwaysOk(acts, i - 1);
      StepKeepsCases(At(acts, i - 1), acts[i - 1]);
    }
  }

  /** The synthetic attempt number 99 is never refused by the attempt table: no interleaving makes
      the resolve request fail on it. */
  lemma SyntheticAttemptUnique(acts: seq<Action>, i: nat)
    requires i < |acts|
    ensures ReplyAt(acts, i) != IntegrityError
  {
    CasesAlwaysOk(acts, i);
    var db := At(acts, i).db;
    forall c <- db.cases ensures db.cases[c].step in db.human ==> db.cases[c].state.Resolved? {
      if db.cases[c].step in db.human {
        var d :| d in db.cases && db.cases[d].step == db.cases[c].step && db.cases[d].state.Resolved?;
        assert d == c;
      }
    }
  }

  /** How far a case is through its life. */
  function Rank(s: CaseState): nat {
    match s
    case Open => 0
    case Claimed => 1
    case _ => 2
  }

  /** One step of a case: nothing, or one edge of the case table with the actor recorded. */
  lemma StepCase(w: World, a: Action, c: CaseId)
    requires c in w.db.cases && CaseOk(w.db.cases[c])
    ensures c in Step(w, a).world.db.cases
    ensures var e, e' := w.db.cases[c], Step(w, a).world.db.cases[c];
      || e' == e
      || (&& CaseEdge(e.state, e'.state) && Rank(e'.state) == Rank(e.state) + 1 && e'.step == e.step
          && (e.claimedBy.Some? ==> e'.claimedBy == e.claimedBy))
  {
  }

  /** Over any stretch of an interleaving a case keeps its step and, once claimed, its claimer; its
      state only moves forward, and a closed case never changes again. */
  lemma {:induction false} CaseMovesForward(acts: seq<Action>, i: nat, j: nat, c: CaseId)
    requires i <= j <= |acts| && c in At(acts, i).db.cases
    ensures c in At(acts, j).db.cases
    ensures var e, e' := At(acts, i).db.cases[c], At(acts, j).db.cases[c];
      && e'.step == e.step
      && Rank(e.state) <= Rank(e'.state)
      && (e.claimedBy.Some? ==> e'.claimedBy == e.claimedBy)
      && (CaseTerminal(e.state) ==> e' == e)
      && (Rank(e.state) == Rank(e'.state) ==> e' == e)
    decreases j
  {
    if i < j {
      CaseMovesForward(acts, i, j - 1, c);
      CasesAlwaysOk(acts, j - 1);
      StepCase(At(acts, j - 1), acts[j - 1], c);
    }
  }

  ghost predicate ClaimsAt(acts: seq<Action>, i: nat, c: CaseId) {
    i < |acts| && acts[i].ClaimCase? && acts[i].target == c && ReplyAt(acts, i) == Done
  }

  ghost predicate ClosesAt(acts: seq<Action>, i: nat, c: CaseId) {
    i < |acts| && (acts[i].ResolveCase? || acts[i].RejectCase?) && acts[i].target == c && ReplyAt(acts, i) == Done
  }

  lemma ClaimEffect(acts: seq<Action>, i: nat, c: CaseId)
    requires ClaimsAt(acts, i, c)
    ensures c in At(acts, i).db.cases && At(acts, i).db.cases[c].state.Open?
    ensures c in At(acts, i + 1).db.cases && At(acts, i + 1).db.cases[c].state.Claimed?
    ensures At(acts, i + 1).db.cases[c].claimedBy == Some(acts[i].actor)
  {
  }

  lemma CloseEffect(acts: seq<Action>, i: nat, c: CaseId)
    requires ClosesAt(acts, i, c)
    ensures c in At(acts, i).db.cases && At(acts, i).db.cases[c].state.Claimed?
    ensures At(acts, i).db.cases[c].claimedBy == Some(acts[i].actor)
    ensures c in At(acts, i + 1).db.cases && CaseTerminal(At(acts, i + 1).db.cases[c].state)
    ensures At(acts, i + 1).db.cases[c].resolvedBy == Some(acts[i].actor)
  {
  }

  lemma OneClaimer(acts: seq<Action>, i: nat, j: nat, c: CaseId)
    requires ClaimsAt(acts, i, c) && ClaimsAt(acts, j, c)
    ensures i == j
  {
    hide Step;
    ClaimEffect(acts, i, c);
    ClaimEffect(acts, j, c);
    if i < j { CaseMovesForward(acts, i + 1, j, c); }
    if j < i { CaseMovesForward(acts, j + 1, i, c); }
  }

  lemma ClosedOnce(acts: seq<Action>, i: nat, j: nat, c: CaseId)
    requires ClosesAt(acts, i, c) && ClosesAt(acts, j, c)
    ensures i == j
  {
    hide Step;
    CloseEffect(acts, i, c);
    CloseEffect(acts, j, c);
    if i < j { CaseMovesForward(acts, i + 1, j, c); }
    if j < i { CaseMovesForward(acts, j + 1, i, c); }
  }

  /** A step that puts a claimer on a case is a successful claim by that actor. */
  lemma ClaimerAppears(w: World, a: Action, c: CaseId)
    requires c in Step(w, a).world.db.cases && Step(w, a).world.db.cases[c].claimedBy.Some?
    requires !(c in w.db.cases && w.db.cases[c].claimedBy.Some?)
    ensures a.ClaimCase? && a.target == c && Step(w, a).reply == Done
    ensures a.actor == Step(w, a).world.db.cases[c].claimedBy.value
  {
  }

  /** A claimed case was claimed by an earlier successful claim request of that very actor. */
  lemma {:induction false} ClaimerClaimed(acts: seq<Action>, j: nat, c: CaseId) returns (i: nat)
    requires j <= |acts| && c in At(acts, j).db.cases && At(acts, j).db.cases[c].claimedBy.Some?
    ensures i < j && ClaimsAt(acts, i, c)
    ensures acts[i].actor == At(acts, j).db.cases[c].claimedBy.value
  {
    hide Step;
    assert j > 0;
    var w := At(acts, j - 1);
    if c in w.db.cases && w.db.cases[c].claimedBy.Some? {
      i := ClaimerClaimed(acts, j - 1, c);
      CaseMovesForward(acts, j - 1, j, c);
    } else {
      i := j - 1;
      ClaimerAppears(w, acts[i], c);
    }
  }

  /** Every successful resolve or reject is by the actor of the one successful claim before it. */
  lemma ClosedByItsClaimer(acts: seq<Action>, j: nat, c: CaseId) returns (i: nat)
    requires ClosesAt(acts, j, c)
    ensures i < j && ClaimsAt(acts, i, c) && acts[i].actor == acts[j].actor
    ensures forall k: nat :: ClaimsAt(acts, k, c) ==> k == i
  {
    hide Step;
    CloseEffect(acts, j, c);
    i := ClaimerClaimed(acts, j, c);
    forall k: nat | ClaimsAt(acts, k, c) ensures k == i { OneClaimer(acts, i, k, c); }
  }

  /** A step that takes a case out of the claimed state is a successful close. */
  lemma ClaimEnds(w: World, a: Action, c: CaseId)
    requires c in w.db.cases && w.db.cases[c].state.Claimed?
    requires !((a.ResolveCase? || a.RejectCase?) && a.target == c && Step(w, a).reply == Done)
    ensures c in Step(w, a).world.db.cases && Step(w, a).world.db.cases[c].state.Claimed?
  {
  }

  /** A claimed case that nobody closes stays claimed. */
  lemma {:induction false} StaysClaimed(acts: seq<Action>, i: nat, j: nat, c: CaseId)
    requires i <= j <= |acts| && c in At(acts, i).db.cases && At(acts, i).db.cases[c].state.Claimed?
    requires forall k: nat :: k < j ==> !ClosesAt(acts, k, c)
    ensures c in At(acts, j).db.cases && At(acts, j).db.cases[c].state.Claimed?
    decreases j
  {
    hide Step;
    if i < j {
      StaysClaimed(acts, i, j - 1, c);
      assert !ClosesAt(acts, j - 1, c);
      ClaimEnds(At(acts, j - 1), acts[j - 1], c);
    }
  }

  /** Whether a close is granted, in terms of the requests before it: the actor claimed the case
      and nobody has closed it since. */
  ghost predicate MayClose(acts: seq<Action>, j: nat, c: CaseId, actor: Actor) {
    && (exists i: nat :: i < j && ClaimsAt(acts, i, c) && acts[i].actor == actor)
    && (forall i: nat :: i < j ==> !ClosesAt(acts, i, c))
  }

  lemma CloseReplyExact(acts: seq<Action>, j: nat, c: CaseId, actor: Actor)
    requires j < |acts| && (acts[j] == ResolveCase(c, actor) || acts[j] == RejectCase(c, actor))
    ensures ReplyAt(acts, j) == Done <==> MayClose(acts, j, c, actor)
  {
    if ReplyAt(acts, j) == Done {
      hide Step;
      var i := ClosedByItsClaimer(acts, j, c);
      forall k: nat | k < j ensures !ClosesAt(acts, k, c) {
        if ClosesAt(acts, k, c) { ClosedOnce(acts, k, j, c); }
      }
    }
    if MayClose(acts, j, c, actor) {
      var i: nat :| i < j && ClaimsAt(acts, i, c) && acts[i].actor == actor;
      GrantedClose(acts, i, j, c);
    }
  }

  lemma GrantedClose(acts: seq<Action>, i: nat, j: nat, c: CaseId)
    requires i < j < |acts| && ClaimsAt(acts, i, c)
    requires acts[j] == ResolveCase(c, acts[i].actor) || acts[j] == RejectCase(c, acts[i].actor)
    requires forall k: nat :: k < j ==> !ClosesAt(acts, k, c)
    ensures ReplyAt(acts, j) == Done
  {
    ClaimEffect(acts, i, c);
    CaseMovesForward(acts, i + 1, j, c);
    StaysClaimed(acts, i + 1, j, c);
    SyntheticAttemptUnique(acts, j);
  }

  /** A request that is refused changes nothing. */
  lemma RefusalChangesNothing(acts: seq<Action>, j: nat)
    requires j < |acts| && ReplyAt(acts, j) != Done
    ensures At(acts, j + 1).db == At(acts, j).db
  {
  }

  // ---------- what each request does ----------

  /** A granted resolve: its case is resolved by the actor, its step has a human attempt, and its run is
      running again, one version on, if and only if it was waiting; every other row is unchanged. */
  lemma {:induction false} ResolveEffect(acts: seq<Action>, j: nat, c: CaseId, actor: Actor)
    requires j < |acts| && acts[j] == ResolveCase(c, actor) && ReplyAt(acts, j) == Done
    ensures c in At(acts, j).db.cases
    ensures var db, after := At(acts, j).db, At(acts, j + 1).db;
      var e := db.cases[c];
      && e.state == Claimed && e.claimedBy == Some(actor)
      && after.cases == db.cases[c := CaseRow(e.step, Resolved, Some(actor), Some(actor))]
      && after.human == db.human + {e.step}
      && after.runs == (if e.step.run in db.runs && db.runs[e.step.run].state == AwaitingHuman
                        then db.runs[e.step.run := RunRow(Running, db.runs[e.step.run].version + 1)] else db.runs)
    ensures At(acts, j + 1).pending == At(acts, j).pending
  {
  }

  /** A granted reject: its case is rejected by the actor, and its run has failed, one version on, if and
      only if it was running or waiting; every other row is unchanged. */
  lemma {:induction false} RejectEffect(acts: seq<Action>, j: nat, c: CaseId, actor: Actor)
    requires j < |acts| && acts[j] == RejectCase(c, actor) && ReplyAt(acts, j) == Done
    ensures c in At(acts, j).db.cases
    ensures var db, after := At(acts, j).db, At(acts, j + 1).db;
      var e := db.cases[c];
      && e.state == Claimed && e.claimedBy == Some(actor)
      && after.cases == db.cases[c := CaseRow(e.step, Rejected, Some(actor), Some(actor))]
      && after.human == db.human
      && after.runs == (if e.step.run in db.runs
                           && (db.runs[e.step.run].state == Running || db.runs[e.step.run].state == AwaitingHuman)
                        then db.runs[e.step.run := RunRow(Failed, db.runs[e.step.run].version + 1)] else db.runs)
    ensures At(acts, j + 1).pending == At(acts, j).pending
  {
  }

  /** A claim: 404 without the case, 409 unless it is open; else the actor is its claimer and nothing else
      changes. */
  lemma {:induction false} ClaimReplyExact(acts: seq<Action>, j: nat, c: CaseId, actor: Actor)
    requires j < |acts| && acts[j] == ClaimCase(c, actor)
    ensures var db := At(acts, j).db;
      && (ReplyAt(acts, j) == NotFound <==> c !in db.cases)
      && (ReplyAt(acts, j) == Conflict <==> c in db.cases && db.cases[c].state != Open)
      && (ReplyAt(acts, j) == Done <==> c in db.cases && db.cases[c].state == Open)
    ensures ReplyAt(acts, j) == Done ==>
      var w := At(acts, j);
      var e := w.db.cases[c].(state := Claimed, claimedBy := Some(actor));
      At(acts, j + 1) == w.(db := w.db.(cases := w.db.cases[c := e]))
  {
  }

  /** Who gets which refusal of a resolve or reject: 404 without the case, 409 unless it is claimed, 403
      for anybody but the claimer. */
  lemma {:induction false} CloseRefusalExact(acts: seq<Action>, j: nat, c: CaseId, actor: Actor)
    requires j < |acts| && (acts[j] == ResolveCase(c, actor) || acts[j] == RejectCase(c, actor))
    ensures var db := At(acts, j).db;
      && (ReplyAt(acts, j) == NotFound <==> c !in db.cases)
      && (ReplyAt(acts, j) == Conflict <==> c in db.cases && db.cases[c].state != Claimed)
      && (ReplyAt(acts, j) == Forbidden <==>
            c in db.cases && db.cases[c].state == Claimed && db.cases[c].claimedBy != Some(actor))
      && (ReplyAt(acts, j) == Done <==>
            c in db.cases && db.cases[c].state == Claimed && db.cases[c].claimedBy == Some(actor))
  {
    SyntheticAttemptUnique(acts, j);
  }

  /** The first half of a cancel: 404 without the run, 409 unless it is running or waiting; else it holds
      the row as it is. */
  lemma {:induction false} CancelReadExact(acts: seq<Action>, j: nat, q: RequestId, r: RunId)
    requires j < |acts| && acts[j] == CancelRead(q, r) && q !in At(acts, j).pending
    ensures var db := At(acts, j).db;
      && (ReplyAt(acts, j) == NotFound <==> r !in db.runs)
      && (ReplyAt(acts, j) == Conflict <==> r in db.runs && db.runs[r].state !in {Running, AwaitingHuman})
      && (ReplyAt(acts, j) == Done <==> r in db.runs && db.runs[r].state in {Running, AwaitingHuman})
      && At(acts, j + 1).db == db
      && At(acts, j + 1).pending == if ReplyAt(acts, j) == Done then At(acts, j).pending[q := Ticket(r, db.runs[r])]
                                    else At(acts, j).pending
  {
  }
}
