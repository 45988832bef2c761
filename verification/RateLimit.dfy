/** The fixed-window request limiter: one Redis counter per key prefix and aligned window, with
    the expiry set on the first increment and every Redis error letting the request through. */
module RateLimit {
  import opened Wrappers

  /** How far a request gets with Redis: all the way, not to the increment, or to the increment but
      not to the expiry command (which only the first increment sends). */
  datatype Link = Up | Down | ExpireFails

  /** `ms` is the clock in milliseconds; `lag` is how much later the expiry command is carried out. */
  datatype Request = Request(ms: nat, apiKey: string, max: int, link: Link, lag: nat)

  datatype Key = Key(prefix: string, start: nat)

  datatype Counter = Counter(count: nat, expiresAt: Option<nat>)

  datatype Verdict = Verdict(allowed: bool, retryAfter: int)

  datatype Checked = Checked(counters: map<Key, Counter>, verdict: Verdict)

  function Prefix(apiKey: string): string {
    if |apiKey| < 12 then apiKey else apiKey[..12]
  }

  function WindowStart(now: nat, window: nat): (s: nat)
    requires window >= 1
    ensures s <= now < s + window && s == window * (now / window)
  {
    now - now % window
  }

  /** An instant belongs to the window whose aligned start lies less than a window before it. */
  lemma StartUnique(now: nat, k: nat, window: nat)
    requires window >= 1 && window * k <= now < window * k + window
    ensures WindowStart(now, window) == window * k
  {
    var d := now / window - k;
    assert window * (now / window) == window * k + window * d;
    assert 0 < window * d + window && window * d < window;
    assert d >= 1 ==> window * d >= window;
    assert d <= -1 ==> window * d + window <= 0;
  }

  function KeyOf(q: Request, window: nat): Key
    requires window >= 1
  {
    Key(Prefix(q.apiKey), WindowStart(q.ms / 1000, window))
  }

  // ---------- the Redis commands ----------

  /** What Redis still holds at an instant: expired keys are gone for good. */
  function Live(counters: map<Key, Counter>, ms: nat): map<Key, Counter> {
    map k | k in counters && (counters[k].expiresAt.None? || ms < counters[k].expiresAt.value) :: counters[k]
  }

  /** INCR: an absent key starts at one, with no expiry. */
  function Incremented(counters: map<Key, Counter>, k: Key): map<Key, Counter> {
    counters[k := if k in counters then counters[k].(count := counters[k].count + 1) else Counter(1, None)]
  }

  function Check(counters: map<Key, Counter>, q: Request, window: nat): Checked
    requires window >= 1
  {
    var k := KeyOf(q, window);
    var open := Verdict(true, 0);
    if q.link.Down? then Checked(Live(counters, q.ms), open)
    else
      var after := Incremented(Live(counters, q.ms), k);
      var first := after[k].count == 1;
      if first && q.link.ExpireFails? then Checked(after, open)
      else
        var expiry := Some(q.ms + q.lag + (window + 1) * 1000);
        var expiring := if first then after[k := after[k].(expiresAt := expiry)] else after;
        Checked(expiring,
                if after[k].count > q.max then Verdict(false, Max(window - (q.ms / 1000 - k.start), 1)) else open)
  }

  function Max(a: int, b: int): int { if a < b then b else a }

  function Min(a: int, b: int): int { if a < b then a else b }

  class Limiter {
    var counters: map<Key, Counter>

    /** Time passes in Redis. */
    method Expire(ms: nat)
      modifies this
      ensures counters == Live(old(counters), ms)
    {
      counters :=
        map k | k in counters && (counters[k].expiresAt.None? || ms < counters[k].expiresAt.value) :: counters[k];
    }

    method Incr(k: Key) returns (count: nat)
      modifies this
      ensures counters == Incremented(old(counters), k) && count == counters[k].count
    {
      if k in counters {
        counters := counters[k := counters[k].(count := counters[k].count + 1)];
      } else {
        counters := counters[k := Counter(1, None)];
      }
      count := counters[k].count;
    }

    method CheckRateLimit(q: Request, window: nat) returns (verdict: Verdict)
      requires window >= 1
      modifies this
      ensures Checked(counters, verdict) == Check(old(counters), q, window)
    {
      Expire(q.ms);
      var now := q.ms / 1000;
      var windowStart := now - now % window;
      var k := Key(Prefix(q.apiKey), windowStart);
      if q.link.Down? { return Verdict(true, 0); }
      var count := Incr(k);
      if count == 1 {
        if q.link.ExpireFails? { return Verdict(true, 0); }
        counters := counters[k := counters[k].(expiresAt := Some(q.ms + q.lag + (window + 1) * 1000))];
      }
      if count > q.max {
        var retryAfter := window - (now - windowStart);
        return Verdict(false, Max(retryAfter, 1));
      }
      verdict := Verdict(true, 0);
    }
  }

  /** What a request does to its counter: a first hit starts it at one, to expire window + 1 seconds after
      the expiry command unless that fails; a later hit adds one and keeps the expiry. Without Redis
      nothing is counted, and no other counter that is still live changes. */
  lemma CheckEffect(counters: map<Key, Counter>, q: Request, window: nat)
    requires window >= 1
    ensures var k, before, after := KeyOf(q, window), Live(counters, q.ms), Check(counters, q, window).counters;
      && (q.link == Down ==> after == before)
      && (q.link != Down && k !in before && q.link == Up ==>
            after == before[k := Counter(1, Some(q.ms + q.lag + (window + 1) * 1000))])
      && (q.link == ExpireFails && k !in before ==> after == before[k := Counter(1, None)])
      && (q.link != Down && k in before && before[k].count >= 1 ==>
            after == before[k := Counter(before[k].count + 1, before[k].expiresAt)])
  {
    hide WindowStart, Live;
  }

  // ---------- request traces ----------

  ghost predicate InOrder(reqs: seq<Request>) {
    forall i, j :: 0 <= i < j < |reqs| ==> reqs[i].ms <= reqs[j].ms
  }

  /** The counters before the i-th request, from an empty Redis. */
  function At(reqs: seq<Request>, i: nat, window: nat): map<Key, Counter>
    requires i <= |reqs| && window >= 1
  {
    if i == 0 then map[] else Check(At(reqs, i - 1, window), reqs[i - 1], window).counters
  }

  function VerdictAt(reqs: seq<Request>, i: nat, window: nat): Verdict
    requires i < |reqs| && window >= 1
  {
    Check(At(reqs, i, window), reqs[i], window).verdict
  }

  /** How many of the first i requests reached the counter k. */
  ghost function Hits(reqs: seq<Request>, i: nat, k: Key, window: nat): nat
    requires i <= |reqs| && window >= 1
  {
    if i == 0 then 0
    else Hits(reqs, i - 1, k, window) + (if KeyOf(reqs[i - 1], window) == k && !reqs[i - 1].link.Down? then 1 else 0)
  }

  /** The counter of a window that has been hit holds its number of hits and outlives the window. */
  ghost predicate Tracks(counters: map<Key, Counter>, k: Key, hits: nat, window: nat) {
    if k in counters
    then counters[k].count == hits > 0
         && (counters[k].expiresAt.Some? ==> counters[k].expiresAt.value >= (k.start + window + 1) * 1000)
    else hits == 0
  }

  /** The window of key k is not over at this instant. */
  ghost predicate Current(k: Key, ms: nat, window: nat) { ms < (k.start + window) * 1000 }

  lemma CheckTracks(counters: map<Key, Counter>, q: Request, window: nat, k: Key, hits: nat)
    requires window >= 1 && Tracks(counters, k, hits, window) && Current(k, q.ms, window)
    ensures Tracks(Check(counters, q, window).counters, k,
                   hits + (if KeyOf(q, window) == k && !q.link.Down? then 1 else 0), window)
  {
    assert k in counters ==> k in Live(counters, q.ms);
    if KeyOf(q, window) == k {
      assert k.start <= q.ms / 1000 < k.start + window;
    }
  }

  /** The expiry never resets a count inside its window: until a window is over, its counter holds
      the true number of hits. */
  lemma {:induction false} CounterIsExact(reqs: seq<Request>, i: nat, k: Key, window: nat)
    requires i <= |reqs| && window >= 1 && InOrder(reqs)
    requires i > 0 ==> Current(k, reqs[i - 1].ms, window)
    ensures Tracks(At(reqs, i, window), k, Hits(reqs, i, k, window), window)
  {
    if i > 0 {
      CounterIsExact(reqs, i - 1, k, window);
      CheckTracks(At(reqs, i - 1, window), reqs[i - 1], window, k, Hits(reqs, i - 1, k, window));
    }
  }

  lemma KeyIsCurrent(q: Request, window: nat)
    requires window >= 1
    ensures Current(KeyOf(q, window), q.ms, window)
  {
  }

  /** Two requests share a counter exactly when their API keys are equal, or agree in their first twelve
      characters, and they fall into the same aligned window. */
  lemma KeyExact(q: Request, r: Request, window: nat)
    requires window >= 1
    ensures KeyOf(q, window) == KeyOf(r, window) <==>
      && (|| q.apiKey == r.apiKey
          || (|q.apiKey| >= 12 && |r.apiKey| >= 12 && forall i :: 0 <= i < 12 ==> q.apiKey[i] == r.apiKey[i]))
      && q.ms / 1000 / window == r.ms / 1000 / window
  {
    SameStart(q.ms / 1000, r.ms / 1000, window);
    hide WindowStart;
    if |q.apiKey| >= 12 && |r.apiKey| >= 12 {
      assert q.apiKey[..12] == r.apiKey[..12] <==> forall i :: 0 <= i < 12 ==> q.apiKey[i] == r.apiKey[i];
    }
  }

  lemma SameStart(a: nat, b: nat, window: nat)
    requires window >= 1
    ensures WindowStart(a, window) == WindowStart(b, window) <==> a / window == b / window
  {
    var d := a / window - b / window;
    assert window * (a / window) == window * (b / window) + window * d;
    assert d >= 1 ==> window * d >= window;
    assert d <= -1 ==> window * d <= 0 - window;
  }

  /** The verdict on every request of every trace: it is refused exactly when it reaches Redis and
      is not among the first `max` hits of its window, and it is then told to come back at the very
      start of the next window. */
  lemma {:induction false} VerdictExact(reqs: seq<Request>, i: nat, window: nat)
    requires i < |reqs| && window >= 1 && InOrder(reqs)
    ensures var k, v := KeyOf(reqs[i], window), VerdictAt(reqs, i, window);
      && (v.allowed <==>
            || reqs[i].link == Down
            || (reqs[i].link == ExpireFails && Hits(reqs, i, k, window) == 0)
            || Hits(reqs, i, k, window) < reqs[i].max)
      && (if v.allowed then v.retryAfter == 0
          else reqs[i].ms / 1000 + v.retryAfter == k.start + window && v.retryAfter >= 1)
  {
    var q := reqs[i];
    var k := KeyOf(q, window);
    KeyIsCurrent(q, window);
    assert i > 0 ==> Current(k, reqs[i - 1].ms, window);
    CounterIsExact(reqs, i, k, window);
    assert k in At(reqs, i, window) ==> k in Live(At(reqs, i, window), q.ms);
  }

  /** The time a refusal names is the first second of another window: every earlier second still
      belongs to the window that is used up. */
  lemma RetryIsNextWindow(reqs: seq<Request>, i: nat, window: nat, wait: nat)
    requires i < |reqs| && window >= 1 && InOrder(reqs)
    requires !VerdictAt(reqs, i, window).allowed && wait <= VerdictAt(reqs, i, window).retryAfter
    ensures WindowStart(reqs[i].ms / 1000 + wait, window)
            == KeyOf(reqs[i], window).start + (if wait == VerdictAt(reqs, i, window).retryAfter then window else 0)
  {
    VerdictExact(reqs, i, window);
    hide Check;
    WaitInWindow(reqs[i].ms / 1000, wait, window);
  }

  lemma WaitInWindow(now: nat, wait: nat, window: nat)
    requires window >= 1 && now + wait <= WindowStart(now, window) + window
    ensures WindowStart(now + wait, window)
            == WindowStart(now, window) + (if now + wait == WindowStart(now, window) + window then window else 0)
  {
    var n := now / window;
    assert window * (n + 1) == window * n + window;
    StartUnique(now + wait, if now + wait == window * n + window then n + 1 else n, window);
  }

  // ---------- how many requests are admitted ----------

  /** How many of the first i requests belong to key k and were lost to Redis. */
  ghost function Misses(reqs: seq<Request>, i: nat, k: Key, window: nat): nat
    requires i <= |reqs| && window >= 1
  {
    if i == 0 then 0
    else Misses(reqs, i - 1, k, window) + (if KeyOf(reqs[i - 1], window) == k && reqs[i - 1].link.Down? then 1 else 0)
  }

  /** How many of the first i requests belong to key k and were allowed. */
  ghost function Admitted(reqs: seq<Request>, i: nat, k: Key, window: nat): nat
    requires i <= |reqs| && window >= 1
  {
    if i == 0 then 0
    else Admitted(reqs, i - 1, k, window)
         + (if KeyOf(reqs[i - 1], window) == k && VerdictAt(reqs, i - 1, window).allowed then 1 else 0)
  }

  /** How many of the first i requests were the first hit of key k and failed to set its expiry. */
  ghost function Slips(reqs: seq<Request>, i: nat, k: Key, window: nat): nat
    requires i <= |reqs| && window >= 1
  {
    if i == 0 then 0
    else Slips(reqs, i - 1, k, window)
         + (if KeyOf(reqs[i - 1], window) == k && reqs[i - 1].link.ExpireFails? && Hits(reqs, i - 1, k, window) == 0
            then 1 else 0)
  }

  /** Every request of key k carries the limit m. */
  ghost predicate Limited(reqs: seq<Request>, k: Key, m: int, window: nat)
    requires window >= 1
  {
    forall i :: 0 <= i < |reqs| && KeyOf(reqs[i], window) == k ==> reqs[i].max == m
  }

  /** A window admits exactly min(hits, limit) of the requests that reach Redis, and all that do not;
      only under a limit of zero or less does a first hit that fails to set the expiry come on top. */
  lemma {:induction false} AdmittedPerWindow(reqs: seq<Request>, i: nat, k: Key, m: int, window: nat)
    requires i <= |reqs| && window >= 1 && InOrder(reqs) && Limited(reqs, k, m, window)
    ensures Admitted(reqs, i, k, window)
            == Min(Hits(reqs, i, k, window), Max(m, 0)) + Misses(reqs, i, k, window)
               + (if m <= 0 then Slips(reqs, i, k, window) else 0)
    ensures Slips(reqs, i, k, window) <= Min(Hits(reqs, i, k, window), 1)
  {
    hide Check;
    if i > 0 {
      AdmittedPerWindow(reqs, i - 1, k, m, window);
      VerdictExact(reqs, i - 1, window);
    }
  }

  /** The i-th request carries prefix p, falls into the window-long span from `from` and is allowed. */
  ghost predicate InSpan(reqs: seq<Request>, i: nat, p: string, from: nat, window: nat)
    requires i < |reqs| && window >= 1
  {
    Prefix(reqs[i].apiKey) == p && from <= reqs[i].ms < from + window * 1000 && VerdictAt(reqs, i, window).allowed
  }

  ghost function AdmittedInSpan(reqs: seq<Request>, i: nat, p: string, from: nat, window: nat): nat
    requires i <= |reqs| && window >= 1
  {
    if i == 0 then 0
    else AdmittedInSpan(reqs, i - 1, p, from, window) + (if InSpan(reqs, i - 1, p, from, window) then 1 else 0)
  }

  /** A span as long as a window touches two aligned windows at most. */
  lemma SpanTouchesTwo(now: nat, from: nat, window: nat)
    requires window >= 1 && from <= now <= from + window
    ensures var s := WindowStart(from, window); WindowStart(now, window) == s || WindowStart(now, window) == s + window
  {
    var n, s := from / window, WindowStart(from, window);
    NextMultiple(window, n);
    hide WindowStart;
    if now < s + window { StartUnique(now, n, window); } else { StartUnique(now, n + 1, window); }
  }

  lemma NextMultiple(w: nat, n: nat)
    ensures w * (n + 1) == w * n + w
  {
  }

  lemma {:induction false} SpanCovered(reqs: seq<Request>, i: nat, p: string, from: nat, window: nat)
    requires i <= |reqs| && window >= 1
    ensures var s := WindowStart(from / 1000, window);
      AdmittedInSpan(reqs, i, p, from, window)
      <= Admitted(reqs, i, Key(p, s), window) + Admitted(reqs, i, Key(p, s + window), window)
  {
    if i > 0 {
      SpanCovered(reqs, i - 1, p, from, window);
      if InSpan(reqs, i - 1, p, from, window) {
        SpanTouchesTwo(reqs[i - 1].ms / 1000, from / 1000, window);
      }
    }
  }

  /** With Redis up, any span of window length, aligned or not, sees at most twice the limit. */
  lemma {:induction false} SpanBounded(reqs: seq<Request>, p: string, from: nat, m: int, window: nat)
    requires window >= 1 && InOrder(reqs)
    requires forall i :: 0 <= i < |reqs| && Prefix(reqs[i].apiKey) == p ==> reqs[i].max == m && reqs[i].link.Up?
    ensures AdmittedInSpan(reqs, |reqs|, p, from, window) <= 2 * Max(m, 0)
  {
    var s := WindowStart(from / 1000, window);
    SpanCovered(reqs, |reqs|, p, from, window);
    NoFaults(reqs, |reqs|, Key(p, s), window);
    NoFaults(reqs, |reqs|, Key(p, s + window), window);
    AdmittedPerWindow(reqs, |reqs|, Key(p, s), m, window);
    AdmittedPerWindow(reqs, |reqs|, Key(p, s + window), m, window);
  }

  lemma {:induction false} NoFaults(reqs: seq<Request>, i: nat, k: Key, window: nat)
    requires i <= |reqs| && window >= 1
    requires forall i :: 0 <= i < |reqs| && Prefix(reqs[i].apiKey) == k.prefix ==> reqs[i].link.Up?
    ensures Misses(reqs, i, k, window) == 0 && Slips(reqs, i, k, window) == 0
  {
    if i > 0 { NoFaults(reqs, i - 1, k, window); }
  }

  /** The limit's worth of requests in the last millisecond of a window and again in the first one
      of the next. */
  function Burst(m: nat, window: nat): seq<Request>
    requires window >= 1
  {
    seq(2 * m, i requires 0 <= i < 2 * m => Request(if i < m then window * 1000 - 1 else window * 1000, "", m, Up, 0))
  }

  lemma BurstKey(m: nat, window: nat, i: nat)
    requires window >= 1 && i < 2 * m
    ensures KeyOf(Burst(m, window)[i], window) == Key("", if i < m then 0 else window)
  {
    StartUnique(Burst(m, window)[i].ms / 1000, if i < m then 0 else 1, window);
  }

  lemma {:induction false} BurstHits(m: nat, window: nat, i: nat)
    requires window >= 1 && i <= 2 * m
    ensures Hits(Burst(m, window), i, Key("", 0), window) <= i
    ensures Hits(Burst(m, window), i, Key("", window), window) <= if i <= m then 0 else i - m
  {
    if i > 0 {
      BurstHits(m, window, i - 1);
      BurstKey(m, window, i - 1);
      hide KeyOf;
    }
  }

  lemma BurstAllowed(m: nat, window: nat, i: nat)
    requires window >= 1 && i < 2 * m
    ensures VerdictAt(Burst(m, window), i, window).allowed
  {
    BurstHits(m, window, i);
    BurstKey(m, window, i);
    VerdictExact(Burst(m, window), i, window);
    hide Check, Hits, KeyOf;
  }

  lemma {:induction false} AllInSpan(reqs: seq<Request>, n: nat, p: string, from: nat, window: nat)
    requires n <= |reqs| && window >= 1
    requires forall i: nat :: i < n ==> InSpan(reqs, i, p, from, window)
    ensures AdmittedInSpan(reqs, n, p, from, window) == n
  {
    hide InSpan;
    if n > 0 { AllInSpan(reqs, n - 1, p, from, window); }
  }

  /** Twice the limit is reached, for every limit and window. */
  lemma {:induction false} SpanBoundTight(m: nat, window: nat)
    requires window >= 1
    ensures var reqs := Burst(m, window);
      && InOrder(reqs) && (forall i :: 0 <= i < |reqs| ==> reqs[i].max == m && reqs[i].link.Up?)
      && AdmittedInSpan(reqs, |reqs|, "", window * 1000 - 1, window) == 2 * m
  {
    var reqs, from := Burst(m, window), window * 1000 - 1;
    forall i: nat | i < |reqs| ensures InSpan(reqs, i, "", from, window) {
      BurstAllowed(m, window, i);
      hide VerdictAt;
    }
    AllInSpan(reqs, |reqs|, "", from, window);
  }
}
