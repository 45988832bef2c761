/** The API requests that move runs and escalation cases (claim, resolve, reject, and cancel,
    which is a read followed later by a compare-and-set on the version), interleaved with every
    other writer of the tables taken as one atomic versioned write. */
module Routes {
  import opened Wrappers
  import opened Lifecycle

  type RunId = nat
  type CaseId = nat
  type RequestId = nat
  type Actor = string

  datatype RunRow = RunRow(state: RunState, version: nat)

  /** A step belongs to one run; a case is opened on one step. */
  datatype StepKey = StepKey(run: RunId, index: nat)

  datatype CaseRow = CaseRow(step: StepKey, state: CaseState, claimedBy: Option<Actor>, resolvedBy: Option<Actor>)

  /** `human` holds the steps that have an attempt row with the number 99, which the attempt
      table accepts once per step. */
  datatype Db = Db(runs: map<RunId, RunRow>, cases: map<CaseId, CaseRow>, human: set<StepKey>)

  datatype Reply = Done | NotFound | Conflict | Forbidden | IntegrityError | Ignored

  datatype Outcome = Outcome(db: Db, reply: Reply)

  // ---------- the requests ----------

  function Claim(db: Db, c: CaseId, actor: Actor): Outcome {
    if c !in db.cases then Outcome(db, NotFound)
    else if !db.cases[c].state.Open? then Outcome(db, Conflict)
    else Outcome(db.(cases := db.cases[c := db.cases[c].(state := Claimed, claimedBy := Some(actor))]), Done)
  }

  /** The checks that resolve and reject share. */
  function Refusal(db: Db, c: CaseId, actor: Actor): Reply {
    if c !in db.cases then NotFound
    else if !db.cases[c].state.Claimed? then Conflict
    else if db.cases[c].claimedBy != Some(actor) then Forbidden
    else Done
  }

  function Closed(db: Db, c: CaseId, actor: Actor, state: CaseState): map<CaseId, CaseRow>
    requires c in db.cases
  {
    db.cases[c := db.cases[c].(state := state, resolvedBy := Some(actor))]
  }

  /** The run row after a write that the guard may skip. */
  function Moved(runs: map<RunId, RunRow>, r: RunId, from: set<RunState>, to: RunState): map<RunId, RunRow> {
    if r in runs && runs[r].state in from then runs[r := RunRow(to, runs[r].version + 1)] else runs
  }

  function Resolve(db: Db, c: CaseId, actor: Actor): Outcome {
    var refusal := Refusal(db, c, actor);
    if refusal != Done then Outcome(db, refusal)
    else if db.cases[c].step in db.human then Outcome(db, IntegrityError)
    else Outcome(Db(Moved(db.runs, db.cases[c].step.run, {AwaitingHuman}, Running),
                    Closed(db, c, actor, Resolved),
                    db.human + {db.cases[c].step}), Done)
  }

  function Reject(db: Db, c: CaseId, actor: Actor): Outcome {
    var refusal := Refusal(db, c, actor);
    if refusal != Done then Outcome(db, refusal)
    else Outcome(db.(runs := Moved(db.runs, db.cases[c].step.run, {Running, AwaitingHuman}, Failed),
                     cases := Closed(db, c, actor, Rejected)), Done)
  }

  /** What a cancel request has read and will compare with. */
  datatype Ticket = Ticket(run: RunId, row: RunRow)

  predicate Cancellable(s: RunState) { s.Running? || s.AwaitingHuman? }

  function ReadForCancel(db: Db, r: RunId): Result<Ticket, Reply> {
    if r !in db.runs then Err(NotFound)
    else if !Cancellable(db.runs[r].state) then Err(Conflict)
    else Ok(Ticket(r, db.runs[r]))
  }

  function WriteCancel(db: Db, t: Ticket): Outcome {
    if t.run in db.runs && db.runs[t.run].version == t.row.version
    then Outcome(db.(runs := db.runs[t.run := RunRow(Cancelled, t.row.version + 1)]), Done)
    else Outcome(db, Conflict)
  }

  // ---------- the tables as the routes update them ----------

  class Tables {
    var runs: map<RunId, RunRow>
    var cases: map<CaseId, CaseRow>
    var human: set<StepKey>

    function Snapshot(): Db
      reads this
    {
      Db(runs, cases, human)
    }

    method ClaimEscalation(c: CaseId, actor: Actor) returns (reply: Reply)
      modifies this`cases
      ensures Outcome(Snapshot(), reply) == Claim(old(Snapshot()), c, actor)
    {
      var rowcount := 0;
      if c in cases && cases[c].state.Open? {
        cases := cases[c := cases[c].(state := Claimed, claimedBy := Some(actor))];
        rowcount := 1;
      }
      if rowcount == 0 {
        return if c !in cases then NotFound else Conflict;
      }
      reply := Done;
    }

    method ResolveEscalation(c: CaseId, actor: Actor) returns (reply: Reply)
      modifies this
      ensures Outcome(Snapshot(), reply) == Resolve(old(Snapshot()), c, actor)
    {
      if c !in cases { return NotFound; }
      var esc := cases[c];
      if !esc.state.Claimed? { return Conflict; }
      if esc.claimedBy != Some(actor) { return Forbidden; }
      if esc.step in human { return IntegrityError; }
      cases := cases[c := esc.(state := Resolved, resolvedBy := Some(actor))];
      human := human + {esc.step};
      if esc.step.run in runs && runs[esc.step.run].state.AwaitingHuman? {
        var run := runs[esc.step.run];
        runs := runs[esc.step.run := RunRow(Running, run.version + 1)];
      }
      reply := Done;
    }

    method RejectEscalation(c: CaseId, actor: Actor) returns (reply: Reply)
      modifies this`runs, this`cases
      ensures Outcome(Snapshot(), reply) == Reject(old(Snapshot()), c, actor)
    {
      if c !in cases { return NotFound; }
      var esc := cases[c];
      if !esc.state.Claimed? { return Conflict; }
      if esc.claimedBy != Some(actor) { return Forbidden; }
      cases := cases[c := esc.(state := Rejected, resolvedBy := Some(actor))];
      if esc.step.run in runs && (runs[esc.step.run].state.Running? || runs[esc.step.run].state.AwaitingHuman?) {
        var run := runs[esc.step.run];
        runs := runs[esc.step.run := RunRow(Failed, run.version + 1)];
      }
      reply := Done;
    }

    /** One conditional UPDATE: it reports whether a row matched. */
    method UpdateStateOptimistic(r: RunId, expected: nat, state: RunState, version: nat) returns (updated: bool)
      modifies this`runs
      ensures updated <==> r in old(runs) && old(runs)[r].version == expected
      ensures runs == if updated then old(runs)[r := RunRow(state, version)] else old(runs)
    {
      updated := r in runs && runs[r].version == expected;
      if updated { runs := runs[r := RunRow(state, version)]; }
    }

    method CancelRead(r: RunId) returns (ticket: Result<Ticket, Reply>)
      ensures ticket == ReadForCancel(Snapshot(), r)
    {
      if r !in runs { return Err(NotFound); }
      var row := runs[r];
      if row.state !in {Running, AwaitingHuman} { return Err(Conflict); }
      ticket := Ok(Ticket(r, row));
    }

    method CancelWrite(t: Ticket) returns (reply: Reply)
      modifies this`runs
      ensures Outcome(Snapshot(), reply) == WriteCancel(old(Snapshot()), t)
    {
      var updated := UpdateStateOptimistic(t.run, t.row.version, Cancelled, t.row.version + 1);
      reply := if updated then Done else Conflict;
    }
  }

  // ---------- interleavings ----------

  datatype Action =
    | CreateRun(run: RunId, row: RunRow)
    | OpenCase(newCase: CaseId, step: StepKey)
    | OtherWrite(run: RunId, to: RunState)
    | ClaimCase(target: CaseId, actor: Actor)
    | ResolveCase(target: CaseId, actor: Actor)
    | RejectCase(target: CaseId, actor: Actor)
    | CancelRead(request: RequestId, run: RunId)
    | CancelWrite(request: RequestId)

  datatype World = World(db: Db, pending: map<RequestId, Ticket>)

  datatype Stepped = Stepped(world: World, reply: Reply)

  const EMPTY := World(Db(map[], map[], {}), map[])

  /** One atomic step; a step that the tables or the request numbering rule out changes nothing. */
  function Step(w: World, a: Action): Stepped {
    match a
    case CreateRun(r, row) =>
      if r in w.db.runs then Stepped(w, Ignored)
      else Stepped(w.(db := w.db.(runs := w.db.runs[r := row])), Done)
    case OpenCase(c, step) =>
      if c in w.db.cases || exists d <- w.db.cases :: w.db.cases[d].step == step then Stepped(w, Ignored)
      else Stepped(w.(db := w.db.(cases := w.db.cases[c := CaseRow(step, Open, None, None)])), Done)
    case OtherWrite(r, to) =>
      if r !in w.db.runs then Stepped(w, Ignored)
      else Stepped(w.(db := w.db.(runs := w.db.runs[r := RunRow(to, w.db.runs[r].version + 1)])), Done)
    case ClaimCase(c, actor) => var o := Claim(w.db, c, actor); Stepped(w.(db := o.db), o.reply)
    case ResolveCase(c, actor) => var o := Resolve(w.db, c, actor); Stepped(w.(db := o.db), o.reply)
    case RejectCase(c, actor) => var o := Reject(w.db, c, actor); Stepped(w.(db := o.db), o.reply)
    case CancelRead(q, r) =>
      if q in w.pending then Stepped(w, Ignored)
      else (match ReadForCancel(w.db, r)
            case Ok(t) => Stepped(w.(pending := w.pending[q := t]), Done)
            case Err(e) => Stepped(w, e))
    case CancelWrite(q) =>
      if q !in w.pending then Stepped(w, Ignored)
      else var o := WriteCancel(w.db, w.pending[q]); Stepped(World(o.db, w.pending - {q}), o.reply)
  }

  /** The state of an interleaving before its i-th action. */
  function At(acts: seq<Action>, i: nat): World
    requires i <= |acts|
  {
    if i == 0 then EMPTY else Step(At(acts, i - 1), acts[i - 1]).world
  }

  function ReplyAt(acts: seq<Action>, i: nat): Reply
    requires i < |acts|
  {
    Step(At(acts, i), acts[i]).reply
  }
}
