/** The bytes an audit event is hashed over, and the proof that they decode in one way only.
    A text is its UTF-8 encoding; a timestamp is in UTC, as the database returns it. */
module AuditHash {
  import opened Wrappers
  import opened CanonicalJson

  type Uuid = b: Bytes | |b| == 16 witness seq(16, _ => 0)
  type Digest = b: Bytes | |b| == 32 witness seq(32, _ => 0)

  datatype RawTime = Time(year: nat, month: nat, day: nat, hour: nat, minute: nat, second: nat, micro: nat) {
    predicate Valid() {
      year < 10000 && month < 100 && day < 100 && hour < 100 && minute < 100 && second < 100 && micro < 1000000
    }
  }

  type Time = t: RawTime | t.Valid() witness Time(1970, 1, 1, 0, 0, 0, 0)

  /** What the hash covers. */
  datatype Hashed = Hashed(id: Uuid, run: Uuid, actor: Bytes, eventType: Bytes, payload: Members,
                           occurredAt: Time, prev: Option<Digest>)

  // ---------- isoformat ----------

  function Digits2(n: nat): Bytes
    requires n < 100
  {
    [0x30 + n / 10, 0x30 + n % 10]
  }

  function Digits4(n: nat): Bytes
    requires n < 10000
  {
    Digits2(n / 100) + Digits2(n % 100)
  }

  function Digits6(n: nat): Bytes
    requires n < 1000000
  {
    Digits2(n / 10000) + Digits4(n % 10000)
  }

  const UTC: Bytes := [0x2B, 0x30, 0x30, 0x3A, 0x30, 0x30]

  /** YYYY-MM-DDTHH:MM:SS */
  function IsoSeconds(t: Time): (r: Bytes)
    ensures |r| == 19
  {
    Digits4(t.year) + [0x2D] + Digits2(t.month) + [0x2D] + Digits2(t.day) + [0x54]
    + Digits2(t.hour) + [0x3A] + Digits2(t.minute) + [0x3A] + Digits2(t.second)
  }

  /** isoformat drops the fraction when it is zero. */
  function Iso(t: Time): (r: Bytes)
    ensures |r| == if t.micro == 0 then 25 else 32
  {
    if t.micro == 0 then IsoSeconds(t) + UTC else IsoSeconds(t) + [0x2E] + Digits6(t.micro) + UTC
  }

  lemma Digits2Injective(m: nat, n: nat)
    requires m < 100 && n < 100 && Digits2(m) == Digits2(n)
    ensures m == n
  {
    assert Digits2(m)[0] == Digits2(n)[0] && Digits2(m)[1] == Digits2(n)[1];
  }

  lemma Digits4Injective(m: nat, n: nat)
    requires m < 10000 && n < 10000 && Digits4(m) == Digits4(n)
    ensures m == n
  {
    CutEqual(Digits2(m / 100), Digits2(m % 100), Digits2(n / 100), Digits2(n % 100));
    Digits2Injective(m / 100, n / 100);
    Digits2Injective(m % 100, n % 100);
  }

  lemma Digits6Injective(m: nat, n: nat)
    requires m < 1000000 && n < 1000000 && Digits6(m) == Digits6(n)
    ensures m == n
  {
    CutEqual(Digits2(m / 10000), Digits4(m % 10000), Digits2(n / 10000), Digits4(n % 10000));
    Digits2Injective(m / 10000, n / 10000);
    Digits4Injective(m % 10000, n % 10000);
  }

  lemma IsoSecondsInjective(t: Time, u: Time)
    requires IsoSeconds(t) == IsoSeconds(u)
    ensures t.year == u.year && t.month == u.month && t.day == u.day
    ensures t.hour == u.hour && t.minute == u.minute && t.second == u.second
  {
    hide Digits2, Digits4;
    IsoFields(t);
    IsoFields(u);
    hide IsoSeconds;
    Digits4Injective(t.year, u.year);
    Digits2Injective(t.month, u.month);
    Digits2Injective(t.day, u.day);
    Digits2Injective(t.hour, u.hour);
    Digits2Injective(t.minute, u.minute);
    Digits2Injective(t.second, u.second);
  }

  lemma IsoFields(t: Time)
    ensures var s := IsoSeconds(t);
      && s[0..4] == Digits4(t.year) && s[5..7] == Digits2(t.month) && s[8..10] == Digits2(t.day)
      && s[11..13] == Digits2(t.hour) && s[14..16] == Digits2(t.minute) && s[17..19] == Digits2(t.second)
  {
  }

  lemma IsoInjective(t: Time, u: Time)
    requires Iso(t) == Iso(u)
    ensures t == u
  {
    hide IsoSeconds, Digits6;
    assert IsoSeconds(t) == Iso(t)[..19] && IsoSeconds(u) == Iso(u)[..19];
    IsoSecondsInjective(t, u);
    if t.micro != 0 {
      assert Iso(t)[20..26] == Digits6(t.micro) && Iso(u)[20..26] == Digits6(u.micro);
      Digits6Injective(t.micro, u.micro);
    }
  }

  // ---------- event types ----------

  predicate BraceFree(s: Bytes) {
    forall i :: 0 <= i < |s| ==> s[i] != LBRACE
  }

  /** No type is the end of another, and none holds a brace. */
  ghost predicate SuffixFree(types: set<Bytes>) {
    && (forall s :: s in types ==> BraceFree(s))
    && (forall s, t, x: Bytes, y: Bytes {:trigger x + s, y + t} ::
          s in types && t in types && x + s == y + t ==> s == t)
  }

  /** The event types the code writes. */
  datatype EventType =
    | WorkflowRunStarted | WorkflowRunCompleted | WorkflowRunFailed | WorkflowRunCancelled
    | StepAdvanced | AttemptRetryScheduled | AttemptSucceeded | AttemptFailedRetryable | AttemptFailedTerminal
    | EscalationCreated | EscalationClaimed | EscalationResolved | EscalationRejected

  function Stem(t: EventType): string {
    match t
    case WorkflowRunStarted => "workflow_run.sta"
    case WorkflowRunCompleted => "workflow_run.compl"
    case WorkflowRunFailed => "workflow_run.fa"
    case WorkflowRunCancelled => "workflow_run.cance"
    case StepAdvanced => "step.adva"
    case AttemptRetryScheduled => "step_attempt.retry_sched"
    case AttemptSucceeded => "step_attempt.succe"
    case AttemptFailedRetryable => "step_attempt.failed_retry"
    case AttemptFailedTerminal => "step_attempt.failed_term"
    case EscalationCreated => "escalation.cre"
    case EscalationClaimed => "escalation.cla"
    case EscalationResolved => "escalation.reso"
    case EscalationRejected => "escalation.reje"
  }

  /** The last four letters, which differ from type to type. */
  function Ending(t: EventType): (e: string)
    ensures |e| == 4
  {
    match t
    case WorkflowRunStarted => "rted"
    case WorkflowRunCompleted => "eted"
    case WorkflowRunFailed => "iled"
    case WorkflowRunCancelled => "lled"
    case StepAdvanced => "nced"
    case AttemptRetryScheduled => "uled"
    case AttemptSucceeded => "eded"
    case AttemptFailedRetryable => "able"
    case AttemptFailedTerminal => "inal"
    case EscalationCreated => "ated"
    case EscalationClaimed => "imed"
    case EscalationResolved => "lved"
    case EscalationRejected => "cted"
  }

  function Name(t: EventType): Bytes {
    Ascii(Stem(t)) + Ascii(Ending(t))
  }

  const TYPES: set<Bytes> := set t: EventType | true :: Name(t)

  lemma EndingsDiffer(t: EventType, u: EventType)
    requires Ascii(Ending(t)) == Ascii(Ending(u))
    ensures t == u
  {
    var a, b := Ascii(Ending(t)), Ascii(Ending(u));
    assert a[0] == b[0] && a[1] == b[1] && a[2] == b[2] && a[3] == b[3];
  }

  predicate NoBrace(s: string) {
    forall i :: 0 <= i < |s| ==> s[i] != '{' && s[i] < 128 as char
  }

  lemma RunStemsFree(t: EventType)
    requires t.WorkflowRunStarted? || t.WorkflowRunCompleted? || t.WorkflowRunFailed? || t.WorkflowRunCancelled?
    ensures NoBrace(Stem(t))
  {
  }

  lemma StepStemsFree(t: EventType)
    requires t.StepAdvanced? || t.AttemptRetryScheduled? || t.AttemptSucceeded?
    ensures NoBrace(Stem(t))
  {
  }

  lemma FailureStemsFree(t: EventType)
    requires t.AttemptFailedRetryable? || t.AttemptFailedTerminal?
    ensures NoBrace(Stem(t))
  {
  }

  lemma EscalationStemsFree(t: EventType)
    requires t.EscalationCreated? || t.EscalationClaimed? || t.EscalationResolved? || t.EscalationRejected?
    ensures NoBrace(Stem(t))
  {
  }

  lemma EndingFree(t: EventType)
    ensures NoBrace(Ending(t))
  {
  }

  lemma NameBraceFree(t: EventType)
    ensures BraceFree(Name(t))
  {
    hide Stem, Ending;
    EndingFree(t);
    match t
    case WorkflowRunStarted | WorkflowRunCompleted | WorkflowRunFailed | WorkflowRunCancelled => RunStemsFree(t);
    case StepAdvanced | AttemptRetryScheduled | AttemptSucceeded => StepStemsFree(t);
    case AttemptFailedRetryable | AttemptFailedTerminal => FailureStemsFree(t);
    case _ => EscalationStemsFree(t);
  }

  /** What ends in two types is the same type. */
  lemma SameEnd(a: EventType, b: EventType, x: Bytes, y: Bytes)
    requires x + Name(a) == y + Name(b)
    ensures a == b
  {
    hide Stem, Ending, Ascii;
    var all, n := x + Name(a), |x + Name(a)| - 4;
    assert all[n..] == Ascii(Ending(a)) && all[n..] == Ascii(Ending(b));
    EndingsDiffer(a, b);
  }

  /** The types of the code are suffix-free, so they can be cut off an actor string. */
  lemma TypesSuffixFree()
    ensures SuffixFree(TYPES)
  {
    hide Name, BraceFree;
    forall s | s in TYPES ensures BraceFree(s) {
      var t :| s == Name(t);
      NameBraceFree(t);
    }
    forall s, u, x: Bytes, y: Bytes {:trigger x + s, y + u} | s in TYPES && u in TYPES && x + s == y + u
      ensures s == u
    {
      var a :| s == Name(a);
      var b :| u == Name(b);
      SameEnd(a, b, x, y);
    }
  }

  // ---------- the pre-image ----------

  function Tail(e: Hashed): Bytes
  {
    Iso(e.occurredAt) + if e.prev.Some? then e.prev.value else []
  }

  /** The bytes fed to SHA-256, in the order in which the code feeds them. */
  function Preimage(e: Hashed): Bytes
  {
    e.id + e.run + e.actor + e.eventType + Write(Object(e.payload)) + Tail(e)
  }

  ghost predicate Wellformed(e: Hashed, types: set<Bytes>) {
    ValidMembers(e.payload) && BraceFree(e.actor) && e.eventType in types
  }

  /** The end of the pre-image is 25, 32, 57 or 64 bytes long, and its length tells apart a
      timestamp with and without a fraction and an event with and without a predecessor. */
  lemma TailInjective(e: Hashed, f: Hashed)
    requires Tail(e) == Tail(f)
    ensures e.occurredAt == f.occurredAt && e.prev == f.prev
  {
    hide Iso;
    var p, q := if e.prev.Some? then e.prev.value else [], if f.prev.Some? then f.prev.value else [];
    CutEqual(Iso(e.occurredAt), p, Iso(f.occurredAt), q);
    IsoInjective(e.occurredAt, f.occurredAt);
  }

  lemma BraceSplit(a: Bytes, x: Bytes, b: Bytes, y: Bytes)
    requires BraceFree(a) && BraceFree(b) && a + x == b + y
    requires x != [] && y != [] && x[0] == LBRACE && y[0] == LBRACE
    ensures a == b && x == y
  {
    assert (a + x)[|a|] == LBRACE && (b + y)[|b|] == LBRACE;
    assert forall i :: 0 <= i < |b| ==> (b + y)[i] == b[i];
    assert forall i :: 0 <= i < |a| ==> (a + x)[i] == a[i];
    CutEqual(a, x, b, y);
  }

  lemma {:induction false} ObjectSplit(m: Members, x: Bytes, n: Members, y: Bytes)
    requires ValidMembers(m) && ValidMembers(n)
    requires Write(Object(m)) + x == Write(Object(n)) + y
    ensures m == n && x == y
  {
    WriteUnique(Object(m), x, Object(n), y);
  }

  lemma HeadSplit(e: Hashed, f: Hashed)
    requires Preimage(e) == Preimage(f)
    ensures e.id == f.id && e.run == f.run
    ensures (e.actor + e.eventType) + (Write(Object(e.payload)) + Tail(e))
            == (f.actor + f.eventType) + (Write(Object(f.payload)) + Tail(f))
  {
    hide Write, Tail;
    var x := (e.actor + e.eventType) + (Write(Object(e.payload)) + Tail(e));
    var y := (f.actor + f.eventType) + (Write(Object(f.payload)) + Tail(f));
    assert Preimage(e) == e.id + (e.run + x) && Preimage(f) == f.id + (f.run + y);
    CutEqual(e.id, e.run + x, f.id, f.run + y);
    CutEqual(e.run, x, f.run, y);
  }

  /** The pre-image decodes uniquely: equal bytes mean equal fields. */
  lemma PreimageInjective(e: Hashed, f: Hashed, types: set<Bytes>)
    requires SuffixFree(types) && Wellformed(e, types) && Wellformed(f, types)
    requires Preimage(e) == Preimage(f)
    ensures e == f
  {
    HeadSplit(e, f);
    hide Preimage, Tail, Write, ValidMembers;
    var a, b := e.actor + e.eventType, f.actor + f.eventType;
    var x, y := Write(Object(e.payload)) + Tail(e), Write(Object(f.payload)) + Tail(f);
    BraceSplit(a, x, b, y);
    ObjectSplit(e.payload, Tail(e), f.payload, Tail(f));
    TailInjective(e, f);
    assert e.eventType == f.eventType;
    CutEqual(e.actor, e.eventType, f.actor, f.eventType);
  }

  /** Without the fixed set of types the formula does not separate actor from type: bytes can
      move over the boundary. */
  lemma BoundaryUnmarked(e: Hashed, part: Bytes, rest: Bytes)
    requires e.eventType == part + rest
    ensures Preimage(e) == Preimage(e.(actor := e.actor + part, eventType := rest))
  {
    hide Write, Tail;
    assert Tail(e) == Tail(e.(actor := e.actor + part, eventType := rest)) by { SameTail(e, part, rest); }
    assert e.id + e.run + e.actor + (part + rest) == e.id + e.run + (e.actor + part) + rest;
  }

  lemma SameTail(e: Hashed, part: Bytes, rest: Bytes)
    ensures Tail(e) == Tail(e.(actor := e.actor + part, eventType := rest))
  {
  }

  /** The hashed bytes fix the event, for actors without a brace and these event types. */
  ghost predicate Decodable(types: set<Bytes>) {
    forall e, f :: Wellformed(e, types) && Wellformed(f, types) && Preimage(e) == Preimage(f) ==> e == f
  }

  /** A type that ends in another type can be cut in two ways. */
  lemma SuffixConfuses(types: set<Bytes>, part: Bytes, rest: Bytes)
    requires part + rest in types && rest in types && part != [] && BraceFree(part + rest)
    ensures !Decodable(types)
  {
    var id: Uuid := seq(16, _ => 0);
    var e := Hashed(id, id, [], part + rest, NoMembers, Time(1970, 1, 1, 0, 0, 0, 0), None);
    var f := e.(actor := part, eventType := rest);
    assert [] + part == part;
    BoundaryUnmarked(e, part, rest);
    assert BraceFree(part) by { assert forall i :: 0 <= i < |part| ==> part[i] == (part + rest)[i]; }
    assert e.actor != f.actor;
    assert Wellformed(e, types) && Wellformed(f, types);
  }

  /** For event types without a brace, the hashed bytes fix the event exactly when no type is a proper
      suffix of another. */
  lemma DecodableExactly(types: set<Bytes>)
    requires forall s <- types :: BraceFree(s)
    ensures Decodable(types) <==> SuffixFree(types)
  {
    hide Preimage, Tail, Wellformed;
    if SuffixFree(types) {
      forall e, f | Wellformed(e, types) && Wellformed(f, types) && Preimage(e) == Preimage(f) ensures e == f {
        PreimageInjective(e, f, types);
      }
    } else {
      var s, u, x: Bytes, y: Bytes :| s in types && u in types && x + s == y + u && s != u;
      CutInTwo(types, s, u, x, y);
    }
  }

  lemma {:induction false} CutInTwo(types: set<Bytes>, s: Bytes, u: Bytes, x: Bytes, y: Bytes)
    requires s in types && u in types && x + s == y + u && s != u && BraceFree(s) && BraceFree(u)
    ensures !Decodable(types)
    decreases |u|
  {
    hide Decodable;
    if |s| < |u| {
      CutInTwo(types, u, s, y, x);
    } else {
      var k := |s| - |u|;
      assert s == (x + s)[|x|..] && u == (y + u)[|y|..];
      assert s == s[..k] + u;
      SuffixConfuses(types, s[..k], u);
    }
  }

  // ---------- the bytes themselves ----------

  /** The number that decimal digits stand for. */
  function Value(digits: Bytes): int {
    if digits == [] then 0 else Value(digits[..|digits| - 1]) * 10 + digits[|digits| - 1] - '0' as int
  }

  lemma Digits2Value(n: nat)
    requires n < 100
    ensures Value(Digits2(n)) == n
  {
    var d := Digits2(n);
    assert d[..1] == [d[0]] && d[..1][..0] == [];
    assert Value(d[..1]) == d[0] - '0' as int;
  }

  lemma {:induction false} ValueAppend(a: Bytes, x: Byte)
    ensures Value(a + [x]) == Value(a) * 10 + x - '0' as int
  {
    assert (a + [x])[..|a|] == a;
  }

  lemma {:induction false} ValueAppend2(a: Bytes, b: Bytes)
    requires |b| == 2
    ensures Value(a + b) == Value(a) * 100 + Value(b)
  {
    assert a + b == a + [b[0]] + [b[1]] && b == [] + [b[0]] + [b[1]];
    assert Value([]) == 0;
    ValueAppend(a, b[0]);
    ValueAppend(a + [b[0]], b[1]);
    ValueAppend([], b[0]);
    ValueAppend([] + [b[0]], b[1]);
    hide Value;
  }

  lemma Digits4Value(n: nat)
    requires n < 10000
    ensures Value(Digits4(n)) == n
  {
    Digits2Value(n / 100);
    Digits2Value(n % 100);
    ValueAppend2(Digits2(n / 100), Digits2(n % 100));
  }

  lemma Digits6Value(n: nat)
    requires n < 1000000
    ensures Value(Digits6(n)) == n
  {
    var low := n % 10000;
    Digits2Value(n / 10000);
    Digits2Value(low / 100);
    Digits2Value(low % 100);
    var a, b, c := Digits2(n / 10000), Digits2(low / 100), Digits2(low % 100);
    assert Digits6(n) == (a + b) + c;
    hide Digits2, Digits4, Digits6, Value;
    ValueAppend2(a, b);
    ValueAppend2(a + b, c);
  }

  /** A timestamp can be read off its text: the fields stand at their places, with the separators of
      ISO 8601 between them, the fraction only if there is one, and the offset of UTC at the end. */
  lemma IsoReads(t: Time)
    ensures var s := Iso(t);
      && Value(s[0..4]) == t.year && Value(s[5..7]) == t.month && Value(s[8..10]) == t.day
      && Value(s[11..13]) == t.hour && Value(s[14..16]) == t.minute && Value(s[17..19]) == t.second
      && s[4] == '-' as int && s[7] == '-' as int && s[10] == 'T' as int && s[13] == ':' as int && s[16] == ':' as int
      && s[|s| - 6..] == Ascii("+00:00")
      && (if t.micro == 0 then |s| == 25 else |s| == 32 && s[19] == '.' as int && Value(s[20..26]) == t.micro)
  {
    IsoFields(t);
    Digits4Value(t.year);
    Digits2Value(t.month);
    Digits2Value(t.day);
    Digits2Value(t.hour);
    Digits2Value(t.minute);
    Digits2Value(t.second);
    Digits6Value(t.micro);
    IsoSeparators(t);
    hide Digits2, Digits4, Digits6, Value;
    var s, d := Iso(t), IsoSeconds(t);
    hide IsoSeconds;
    IsoEnd(t);
    assert s[..19] == d;
    hide Iso, Ascii;
    SameStart(s, d);
  }

  /** What stands in the first nineteen places. */
  lemma SameStart(s: Bytes, d: Bytes)
    requires |s| >= 19 && |d| == 19 && s[..19] == d
    ensures s[0..4] == d[0..4] && s[5..7] == d[5..7] && s[8..10] == d[8..10]
    ensures s[11..13] == d[11..13] && s[14..16] == d[14..16] && s[17..19] == d[17..19]
    ensures s[4] == d[4] && s[7] == d[7] && s[10] == d[10] && s[13] == d[13] && s[16] == d[16]
  {
    assert forall i :: 0 <= i < 19 ==> s[i] == d[i];
  }

  lemma IsoEnd(t: Time)
    ensures var s := Iso(t);
      && s[|s| - 6..] == Ascii("+00:00")
      && (if t.micro == 0 then |s| == 25 else |s| == 32 && s[19] == '.' as int && s[20..26] == Digits6(t.micro))
  {
    hide IsoSeconds, Digits6;
    assert UTC == Ascii("+00:00");
  }

  lemma IsoSeparators(t: Time)
    ensures var d := IsoSeconds(t);
      d[4] == '-' as int && d[7] == '-' as int && d[10] == 'T' as int && d[13] == ':' as int && d[16] == ':' as int
  {
  }

  /** The hashed fields stand one after the other in the hashed bytes, in the order of the formula. */
  lemma PreimageLayout(e: Hashed)
    ensures var b, json := Preimage(e), Write(Object(e.payload));
      var i := 32 + |e.actor|;
      var j := i + |e.eventType|;
      var k := j + |json|;
      var l := k + |Iso(e.occurredAt)|;
      && l <= |b|
      && b[0..16] == e.id && b[16..32] == e.run && b[32..i] == e.actor && b[i..j] == e.eventType
      && b[j..k] == json && b[k..l] == Iso(e.occurredAt)
      && b[l..] == (if e.prev.Some? then e.prev.value else [])
  {
    hide Write, Iso;
  }

  lemma AsciiAppend(s: string, t: string)
    ensures Ascii(s) + Ascii(t) == Ascii(s + t)
  {
  }

  lemma NameText(t: EventType, text: string)
    requires Stem(t) + Ending(t) == text
    ensures Name(t) == Ascii(text)
  {
    AsciiAppend(Stem(t), Ending(t));
    hide Ascii;
  }

  /** The event types as the code spells them. */
  lemma RunTypeNames()
    ensures Name(WorkflowRunStarted) == Ascii("workflow_run.started")
    ensures Name(WorkflowRunCompleted) == Ascii("workflow_run.completed")
    ensures Name(WorkflowRunFailed) == Ascii("workflow_run.failed")
    ensures Name(WorkflowRunCancelled) == Ascii("workflow_run.cancelled")
    ensures Name(StepAdvanced) == Ascii("step.advanced")
  {
    hide Ascii, Name;
    NameText(WorkflowRunStarted, "workflow_run.started");
    NameText(WorkflowRunCompleted, "workflow_run.completed");
    NameText(WorkflowRunFailed, "workflow_run.failed");
    NameText(WorkflowRunCancelled, "workflow_run.cancelled");
    NameText(StepAdvanced, "step.advanced");
  }

  lemma AttemptTypeNames()
    ensures Name(AttemptRetryScheduled) == Ascii("step_attempt.retry_scheduled")
    ensures Name(AttemptSucceeded) == Ascii("step_attempt.succeeded")
    ensures Name(AttemptFailedRetryable) == Ascii("step_attempt.failed_retryable")
    ensures Name(AttemptFailedTerminal) == Ascii("step_attempt.failed_terminal")
  {
    hide Ascii, Name;
    NameText(AttemptRetryScheduled, "step_attempt.retry_scheduled");
    NameText(AttemptSucceeded, "step_attempt.succeeded");
    NameText(AttemptFailedRetryable, "step_attempt.failed_retryable");
    NameText(AttemptFailedTerminal, "step_attempt.failed_terminal");
  }

  lemma EscalationTypeNames()
    ensures Name(EscalationCreated) == Ascii("escalation.created")
    ensures Name(EscalationClaimed) == Ascii("escalation.claimed")
    ensures Name(EscalationResolved) == Ascii("escalation.resolved")
    ensures Name(EscalationRejected) == Ascii("escalation.rejected")
  {
    hide Ascii, Name;
    NameText(EscalationCreated, "escalation.created");
    NameText(EscalationClaimed, "escalation.claimed");
    NameText(EscalationResolved, "escalation.resolved");
    NameText(EscalationRejected, "escalation.rejected");
  }
}
