/** What a rewriting of the fields outside the hash does to verification. The replay order depends on
    `seq_in_run` among rows of one timestamp; nothing depends on `step_id` and `step_attempt_id`. */
module AuditTampering {
  import opened Wrappers
  import opened CanonicalJson
  import opened AuditHash
  import opened AuditChain

  ghost predicate SameHash(e: Event, f: Event) {
    e.hashed == f.hashed && e.hash == f.hash
  }

  /** t' is t with other values in fields outside the hash. */
  ghost predicate Rewrites(t: seq<Event>, t': seq<Event>) {
    |t| == |t'| && forall i :: 0 <= i < |t| ==> SameHash(t[i], t'[i])
  }

  lemma {:induction false} RunRewritten(t: seq<Event>, t': seq<Event>, run: Uuid)
    requires Rewrites(t, t')
    ensures Rewrites(ForRun(t, run), ForRun(t', run))
  {
    if t != [] {
      var n := |t| - 1;
      RunRewritten(t[..n], t'[..n], run);
      assert SameHash(t[n], t'[n]);
    }
  }

  /** The verifier sees of a list only what is hashed, and the hashes. */
  lemma AcceptedAlike(h: HashFunction, a: seq<Event>, b: seq<Event>)
    requires Rewrites(a, b)
    ensures Accepted(h, a) <==> Accepted(h, b)
  {
    hide Preimage;
    assert forall i :: 0 <= i < |a| ==> SameHash(a[i], b[i]);
    assert forall i :: 0 <= i < |a| ==> (GoodAt(h, a, i) <==> GoodAt(h, b, i));
  }

  // ---------- step fields ----------

  ghost predicate SameOrderKey(t: seq<Event>, t': seq<Event>) {
    Rewrites(t, t') && forall i :: 0 <= i < |t| ==> t[i].seqInRun == t'[i].seqInRun
  }

  lemma {:induction false} InsertAlike(e: Event, e': Event, s: seq<Event>, s': seq<Event>)
    requires SameHash(e, e') && e.seqInRun == e'.seqInRun && SameOrderKey(s, s')
    ensures SameOrderKey(Insert(e, s), Insert(e', s'))
  {
    hide Rank;
    if s != [] {
      assert SameHash(s[0], s'[0]);
      if !NotAfter(e, s[0]) { InsertAlike(e, e', s[1..], s'[1..]); }
    }
  }

  lemma {:induction false} SortAlike(s: seq<Event>, s': seq<Event>)
    requires SameOrderKey(s, s')
    ensures SameOrderKey(Sorted(s), Sorted(s'))
  {
    if s != [] {
      SortAlike(s[1..], s'[1..]);
      InsertAlike(s[0], s'[0], Sorted(s[1..]), Sorted(s'[1..]));
    }
  }

  lemma {:induction false} RunAlike(t: seq<Event>, t': seq<Event>, run: Uuid)
    requires SameOrderKey(t, t')
    ensures SameOrderKey(ForRun(t, run), ForRun(t', run))
  {
    if t != [] {
      var n := |t| - 1;
      RunAlike(t[..n], t'[..n], run);
      assert SameHash(t[n], t'[n]);
    }
  }

  /** No change of `step_id` and `step_attempt_id`, in any table, changes any verdict. */
  lemma StepFieldsUnseen(h: HashFunction, t: seq<Event>, t': seq<Event>, run: Uuid)
    requires SameOrderKey(t, t')
    ensures Accepted(h, Replay(t, run)) <==> Accepted(h, Replay(t', run))
  {
    RunAlike(t, t', run);
    SortAlike(ForRun(t, run), ForRun(t', run));
    AcceptedAlike(h, Replay(t, run), Replay(t', run));
  }

  // ---------- sequence numbers ----------

  function IndexOf(rows: seq<Event>, e: Event): (i: nat)
    requires e in rows
    ensures i < |rows| && rows[i] == e
  {
    if rows[0] == e then 0 else IndexOf(rows[1..], e) + 1
  }

  /** The row of t' that stands where e stands in t. */
  function Twin(rows: seq<Event>, rows': seq<Event>, e: Event): Event
    requires e in rows && |rows'| == |rows|
  {
    rows'[IndexOf(rows, e)]
  }

  function Twins(rows: seq<Event>, rows': seq<Event>, p: seq<Event>): (q: seq<Event>)
    requires |rows'| == |rows| && forall e <- p :: e in rows
    ensures |q| == |p|
  {
    seq(|p|, i requires 0 <= i < |p| => assert p[i] in p; Twin(rows, rows', p[i]))
  }

  /** The rows of a run in two tables that differ only outside the hash; both obey the primary key
      and the uniqueness of numbers. */
  ghost predicate Rewritten(rows: seq<Event>, rows': seq<Event>) {
    Rewrites(rows, rows') && IdsDistinct(rows) && NumbersDistinct(rows) && NumbersDistinct(rows')
  }

  ghost predicate NumbersDistinct(rows: seq<Event>) {
    forall i, j :: 0 <= i < j < |rows| ==> rows[i].seqInRun != rows[j].seqInRun
  }

  /** How many rows of the run are read. */
  function Read(rows: seq<Event>): nat { if |rows| <= LIMIT then |rows| else LIMIT }

  /** Row i is read and comes before row j, of the same timestamp, by its number alone. */
  ghost predicate Precedes(rows: seq<Event>, i: nat, j: nat)
    requires i < |rows| && j < |rows|
  {
    && ReadAmong(rows, rows[i])
    && Rank(rows[i].hashed.occurredAt) == Rank(rows[j].hashed.occurredAt)
    && rows[i].seqInRun < rows[j].seqInRun
  }

  ghost predicate ReadAmong(rows: seq<Event>, e: Event) {
    Read(rows) <= |Sorted(rows)| && e in Sorted(rows)[..Read(rows)]
  }

  /** No row that is read loses its place before a row of the same timestamp. */
  ghost predicate OrderKept(rows: seq<Event>, rows': seq<Event>)
    requires |rows| == |rows'|
  {
    forall i, j :: 0 <= i < |rows| && 0 <= j < |rows| && Precedes(rows, i, j) ==> rows'[i].seqInRun < rows'[j].seqInRun
  }

  /** Taking one row out of a list takes its twin out of the list of twins. */
  lemma TwinsWithout(rows: seq<Event>, rows': seq<Event>, r: seq<Event>, k: nat)
    requires |rows| == |rows'| && (forall e <- r :: e in rows) && k < |r|
    ensures multiset(r[..k] + r[k + 1..]) == multiset(r) - multiset{r[k]}
    ensures forall e <- r[..k] + r[k + 1..] :: e in rows
    ensures multiset(Twins(rows, rows', r))
            == multiset(Twins(rows, rows', r[..k] + r[k + 1..])) + multiset{Twin(rows, rows', r[k])}
  {
    hide Twin, IndexOf;
    var rest := r[..k] + r[k + 1..];
    assert r == r[..k] + [r[k]] + r[k + 1..];
    assert forall e <- rest :: e in r;
    var all, most := Twins(rows, rows', r), Twins(rows, rows', rest);
    assert all == all[..k] + [all[k]] + all[k + 1..];
    assert most == all[..k] + all[k + 1..];
  }

  lemma {:induction false} TwinsPermute(rows: seq<Event>, rows': seq<Event>, p: seq<Event>, r: seq<Event>)
    requires |rows| == |rows'| && (forall e <- p :: e in rows) && (forall e <- r :: e in rows)
    requires multiset(p) == multiset(r)
    ensures multiset(Twins(rows, rows', p)) == multiset(Twins(rows, rows', r))
    decreases |p|
  {
    SameSize(p, r);
    if p != [] {
      assert p[0] in p;
      SameMembers(p, r, p[0]);
      var k: nat :| k < |r| && r[k] == p[0];
      TwinsWithout(rows, rows', p, 0);
      TwinsWithout(rows, rows', r, k);
      hide Twins;
      TwinsPermute(rows, rows', p[..0] + p[1..], r[..k] + r[k + 1..]);
    }
  }

  lemma TwinsOfAll(rows: seq<Event>, rows': seq<Event>)
    requires |rows| == |rows'| && NumbersDistinct(rows)
    ensures Twins(rows, rows', rows) == rows'
  {
    forall i | 0 <= i < |rows| ensures IndexOf(rows, rows[i]) == i { }
  }

  lemma DistinctDiffer(rows: seq<Event>)
    requires NumbersDistinct(rows)
    ensures NumbersDiffer(rows)
  {
  }

  lemma TwinOrder(rows: seq<Event>, rows': seq<Event>, i: nat, j: nat)
    requires Rewritten(rows, rows') && OrderKept(rows, rows') && i < |rows| && j < |rows|
    requires NotAfter(rows[i], rows[j]) && ReadAmong(rows, rows[i])
    ensures NotAfter(rows'[i], rows'[j])
  {
    hide Rank, Sorted;
    assert SameHash(rows[i], rows'[i]) && SameHash(rows[j], rows'[j]);
    if i != j && Rank(rows[i].hashed.occurredAt) == Rank(rows[j].hashed.occurredAt) { assert Precedes(rows, i, j); }
  }

  /** When the order is kept, the same hashed rows are read in the same order. */
  lemma {:induction false} KeptReadsSame(rows: seq<Event>, rows': seq<Event>)
    requires Rewritten(rows, rows') && OrderKept(rows, rows')
    ensures |Sorted(rows)| == |Sorted(rows')| == |rows|
    ensures Rewrites(Sorted(rows)[..Read(rows)], Sorted(rows')[..Read(rows)])
  {
    var p, n := Sorted(rows), Read(rows);
    SortedSorts(rows);
    SortedSorts(rows');
    SameSize(p, rows);
    SameSize(Sorted(rows'), rows');
    hide Rank, Sorted, NotAfter, Insert;
    forall e | e in p ensures e in rows { SameMembers(p, rows, e); }
    var q := Twins(rows, rows', p);
    TwinsPermute(rows, rows', p, rows);
    TwinsOfAll(rows, rows');
    forall a, b | 0 <= a < b < |q| && a < n ensures NotAfter(q[a], q[b]) {
      assert p[a] in p && p[b] in p && p[..n][a] in p[..n];
      assert NotAfter(p[a], p[b]);
      TwinOrder(rows, rows', IndexOf(rows, p[a]), IndexOf(rows, p[b]));
    }
    DistinctDiffer(rows');
    forall e ensures e in Sorted(rows') <==> e in rows' { SameMembers(Sorted(rows'), rows', e); }
    SamePrefix(q, Sorted(rows'), n);
    forall a | 0 <= a < n ensures SameHash(p[..n][a], Sorted(rows')[..n][a]) {
      assert q[..n][a] == Sorted(rows')[..n][a];
      assert p[a] in p;
      assert SameHash(rows[IndexOf(rows, p[a])], rows'[IndexOf(rows, p[a])]);
    }
  }

  /** When the same hashed rows are read in the same order, the order was kept. */
  lemma {:induction false} SameReadsKept(rows: seq<Event>, rows': seq<Event>)
    requires Rewritten(rows, rows') && |Sorted(rows)| == |Sorted(rows')| == |rows|
    requires Rewrites(Sorted(rows)[..Read(rows)], Sorted(rows')[..Read(rows)])
    ensures OrderKept(rows, rows')
  {
    forall i, j | 0 <= i < |rows| && 0 <= j < |rows| && Precedes(rows, i, j)
      ensures rows'[i].seqInRun < rows'[j].seqInRun
    {
      PairKept(rows, rows', i, j);
    }
  }

  lemma {:induction false} PairKept(rows: seq<Event>, rows': seq<Event>, i: nat, j: nat)
    requires Rewritten(rows, rows') && |Sorted(rows)| == |Sorted(rows')| == |rows|
    requires Rewrites(Sorted(rows)[..Read(rows)], Sorted(rows')[..Read(rows)])
    requires i < |rows| && j < |rows| && Precedes(rows, i, j)
    ensures rows'[i].seqInRun < rows'[j].seqInRun
  {
    hide Rank, Sorted;
    var p, p', n := Sorted(rows), Sorted(rows'), Read(rows);
    var a :| 0 <= a < n && p[..n][a] == rows[i];
    SamePlace(rows, rows', i, a);
    var b := PlaceOf(rows', j);
    SortedSorts(rows);
    SortedSorts(rows');
    assert SameHash(rows[i], rows'[i]) && SameHash(rows[j], rows'[j]);
    hide Rewrites;
    if b > a {
      assert NotAfter(p'[a], p'[b]);
    } else {
      if b < a {
        assert NotAfter(p[b], p[a]);
        SameRowAt(rows, rows', j, b);
      }
      assert false;
    }
  }

  /** A row read at one place after the rewriting was read there before. */
  lemma {:induction false} SameRowAt(rows: seq<Event>, rows': seq<Event>, j: nat, b: nat)
    requires Rewritten(rows, rows') && |Sorted(rows)| == |Sorted(rows')| == |rows| && b < Read(rows) && j < |rows|
    requires Rewrites(Sorted(rows)[..Read(rows)], Sorted(rows')[..Read(rows)]) && Sorted(rows')[b] == rows'[j]
    ensures Sorted(rows)[b] == rows[j]
  {
    hide Sorted;
    assert SameHash(Sorted(rows)[..Read(rows)][b], Sorted(rows')[..Read(rows)][b]);
    assert SameHash(rows[j], rows'[j]);
    assert Sorted(rows)[b] in Sorted(rows);
    SameId(rows, Sorted(rows)[b], j);
  }

  /** A row is known by its id. */
  lemma {:induction false} SameId(rows: seq<Event>, e: Event, i: nat)
    requires IdsDistinct(rows) && i < |rows| && e in Sorted(rows) && e.hashed.id == rows[i].hashed.id
    ensures e == rows[i]
  {
    SortedSorts(rows);
    SameMembers(Sorted(rows), rows, e);
  }

  lemma PlaceOf(rows: seq<Event>, i: nat) returns (a: nat)
    requires i < |rows|
    ensures a < |Sorted(rows)| && Sorted(rows)[a] == rows[i]
  {
    SortedSorts(rows);
    assert rows[i] in rows;
    SameMembers(Sorted(rows), rows, rows[i]);
    a :| a < |Sorted(rows)| && Sorted(rows)[a] == rows[i];
  }

  lemma {:induction false} SamePlace(rows: seq<Event>, rows': seq<Event>, i: nat, a: nat)
    requires Rewritten(rows, rows') && |Sorted(rows)| == |Sorted(rows')| == |rows| && a < Read(rows) && i < |rows|
    requires Rewrites(Sorted(rows)[..Read(rows)], Sorted(rows')[..Read(rows)]) && Sorted(rows)[a] == rows[i]
    ensures Sorted(rows')[a] == rows'[i]
  {
    hide Sorted;
    assert SameHash(Sorted(rows)[..Read(rows)][a], Sorted(rows')[..Read(rows)][a]);
    assert SameHash(rows[i], rows'[i]);
    assert Sorted(rows')[a] in Sorted(rows');
    assert forall k :: 0 <= k < |rows| ==> SameHash(rows[k], rows'[k]);
    SameId(rows', Sorted(rows')[a], i);
  }

  // ---------- what the verifier sees ----------

  lemma IdsPermute(chain: seq<Event>, rows: seq<Event>)
    requires multiset(chain) == multiset(rows) && IdsDistinct(rows)
    ensures IdsDistinct(chain)
  {
    forall a, b | 0 <= a < b < |chain| ensures chain[a].hashed.id != chain[b].hashed.id {
      var x := chain[a];
      assert x in chain && chain[b] in chain;
      SameMembers(chain, rows, x);
      SameMembers(chain, rows, chain[b]);
      var k :| 0 <= k < |rows| && rows[k] == x;
      assert rows == rows[..k] + [x] + rows[k + 1..];
      assert x !in rows[..k] && x !in rows[k + 1..];
      assert multiset(rows)[x] == 1;
      if chain[b] == x { Twice(chain, a, b); }
    }
  }

  lemma Twice(chain: seq<Event>, a: nat, b: nat)
    requires a < b < |chain| && chain[a] == chain[b]
    ensures multiset(chain)[chain[a]] >= 2
  {
    assert chain == chain[..b] + chain[b..];
    assert chain[..b][a] == chain[a] && chain[b..][0] == chain[a];
    assert multiset(chain) == multiset(chain[..b]) + multiset(chain[b..]);
  }

  /** Any table: a rewriting that keeps the order of the rows that are read is never seen. */
  lemma {:induction false} KeptOrderUnseen(h: HashFunction, t: seq<Event>, t': seq<Event>, run: Uuid)
    requires Rewrites(t, t') && Rewritten(ForRun(t, run), ForRun(t', run)) && OrderKept(ForRun(t, run), ForRun(t', run))
    ensures Accepted(h, Replay(t, run)) <==> Accepted(h, Replay(t', run))
  {
    var rows, rows' := ForRun(t, run), ForRun(t', run);
    KeptReadsSame(rows, rows');
    hide Sorted;
    assert Sorted(rows)[..|rows|] == Sorted(rows) && Sorted(rows')[..|rows|] == Sorted(rows');
    AcceptedAlike(h, Replay(t, run), Replay(t', run));
  }

  /** The rows of a run, in some order, form an intact chain: what append leaves, or what an accepted
      run of at most 1000 rows shows. */
  ghost predicate Intact(h: HashFunction, rows: seq<Event>, chain: seq<Event>) {
    multiset(chain) == multiset(rows) && Accepted(h, chain) && !CollisionAmong(h, chain, chain)
  }

  /** A reading of an intact chain that is accepted is the chain itself, as far as it goes. */
  lemma {:induction false} AcceptedReadsChain(h: HashFunction, rows: seq<Event>, rows': seq<Event>, chain: seq<Event>,
                                              n: nat)
    requires Rewritten(rows, rows') && Intact(h, rows, chain)
    requires n <= |Sorted(rows')| == |rows| && Accepted(h, Sorted(rows')[..n])
    ensures n <= |chain| && Rewrites(chain[..n], Sorted(rows')[..n])
  {
    hide Preimage, Sorted;
    var p := Sorted(rows')[..n];
    forall e | e in p ensures e in rows' {
      SortedSorts(rows');
      SameMembers(Sorted(rows'), rows', e);
    }
    var q := Twins(rows', rows, p);
    forall a | 0 <= a < n ensures SameHash(q[a], p[a]) && q[a] in chain {
      assert p[a] in p;
      var i := IndexOf(rows', p[a]);
      assert SameHash(rows[i], rows'[i]) && rows[i] in rows;
      SameMembers(chain, rows, rows[i]);
    }
    AcceptedAlike(h, p, q) by { assert forall a :: 0 <= a < n ==> SameHash(q[a], p[a]); }
    IdsPermute(chain, rows);
    OnlyChainOrder(h, chain, q, n);
    assert q[..n] == q;
    assert forall a :: 0 <= a < n ==> chain[..n][a] == q[a];
  }

  /** When the run's rows form an intact chain, a rewriting of an accepted table is accepted exactly
      when no row that is read loses its place before a row of the same timestamp. */
  lemma {:induction false} RewriteSeenExactly(h: HashFunction, t: seq<Event>, t': seq<Event>, run: Uuid,
                                              chain: seq<Event>)
    requires Rewrites(t, t') && Rewritten(ForRun(t, run), ForRun(t', run))
    requires Intact(h, ForRun(t, run), chain) && Accepted(h, Replay(t, run))
    ensures Accepted(h, Replay(t', run)) <==> OrderKept(ForRun(t, run), ForRun(t', run))
  {
    var rows, rows' := ForRun(t, run), ForRun(t', run);
    if OrderKept(rows, rows') { KeptOrderUnseen(h, t, t', run); }
    if Accepted(h, Replay(t', run)) {
      var n := Read(rows);
      SortedSorts(rows);
      SortedSorts(rows');
      SameSize(Sorted(rows), rows);
      SameSize(Sorted(rows'), rows');
      hide Sorted, OrderKept, Preimage;
      assert Replay(t, run) == Sorted(rows)[..n] && Replay(t', run) == Sorted(rows')[..n];
      assert Rewritten(rows, rows);
      AcceptedReadsChain(h, rows, rows, chain, n);
      AcceptedReadsChain(h, rows, rows', chain, n);
      ReadsAlike(chain[..n], Sorted(rows)[..n], Sorted(rows')[..n]);
      SameReadsKept(rows, rows');
    }
  }

  lemma ReadsAlike(c: seq<Event>, a: seq<Event>, b: seq<Event>)
    requires Rewrites(c, a) && Rewrites(c, b)
    ensures Rewrites(a, b)
  {
    forall i | 0 <= i < |a| ensures SameHash(a[i], b[i]) { assert SameHash(c[i], a[i]) && SameHash(c[i], b[i]); }
  }

  /** Every accepted run that is read to its end. */
  lemma {:induction false} ShortRunRewriteSeenExactly(h: HashFunction, t: seq<Event>, t': seq<Event>, run: Uuid)
    requires Rewrites(t, t') && Rewritten(ForRun(t, run), ForRun(t', run)) && |ForRun(t, run)| <= LIMIT
    requires Accepted(h, Replay(t, run)) && !CollisionAmong(h, Replay(t, run), Replay(t, run))
    ensures Accepted(h, Replay(t', run)) <==> OrderKept(ForRun(t, run), ForRun(t', run))
  {
    SortedSorts(ForRun(t, run));
    SameSize(Sorted(ForRun(t, run)), ForRun(t, run));
    hide Sorted, OrderKept, Preimage;
    RewriteSeenExactly(h, t, t', run, Replay(t, run));
  }

  /** Every run that only append wrote, of whatever length. */
  lemma {:induction false} HonestRewriteSeenExactly(h: HashFunction, t: seq<Event>, t': seq<Event>, run: Uuid)
    requires Built(h, t) && Rewrites(t, t') && Rewritten(ForRun(t, run), ForRun(t', run))
    requires Accepted(h, Replay(t, run)) && !CollisionAmong(h, ForRun(t, run), ForRun(t, run))
    ensures Accepted(h, Replay(t', run)) <==> OrderKept(ForRun(t, run), ForRun(t', run))
  {
    BuiltIsIntact(h, t, run);
    hide Sorted, OrderKept, Preimage, Built;
    RewriteSeenExactly(h, t, t', run, ForRun(t, run));
  }

  // ---------- at the limit ----------

  /** t with the numbers of its last two rows exchanged. */
  function LastTwoExchanged(t: seq<Event>): seq<Event>
    requires |t| >= 2
  {
    var x, y := t[|t| - 2], t[|t| - 1];
    t[..|t| - 2] + [x.(seqInRun := y.seqInRun), y.(seqInRun := x.seqInRun)]
  }

  /** A table of one run in replay order, one row longer than is read, whose first unread row claims
      the place of the last one read: same time, same predecessor, well hashed. */
  ghost predicate RivalAtLimit(h: HashFunction, t: seq<Event>) {
    && |t| == LIMIT + 1 && InOrder(t) && NumbersDistinct(t) && IdsDistinct(t) && Accepted(h, t[..LIMIT])
    && var x, y := t[LIMIT - 1], t[LIMIT];
       && Rank(x.hashed.occurredAt) == Rank(y.hashed.occurredAt)
       && y.hashed.prev == x.hashed.prev && y.hash == h(Preimage(y.hashed))
  }

  /** Without an intact chain the order can change unseen: the rival takes the last place. */
  lemma RivalTakesLastPlace(h: HashFunction, t: seq<Event>, run: Uuid)
    requires RivalAtLimit(h, t) && forall e <- t :: e.hashed.run == run
    ensures var t' := LastTwoExchanged(t);
      && Rewritten(t, t') && Accepted(h, Replay(t, run)) && Accepted(h, Replay(t', run)) && !OrderKept(t, t')
  {
    var t', n := LastTwoExchanged(t), LIMIT - 1;
    var q := t[..n] + [t'[n + 1], t'[n]];
    ExchangedOrder(t, q);
    ExchangedRewritten(t);
    AllOfRun(t, run);
    AllOfRun(t', run) by { forall e | e in t' ensures e.hashed.run == run { assert t[n] in t && t[n + 1] in t; } }
    RivalAccepted(h, t, q);
    SortOf(t, t);
    SortOf(t', q);
    hide Sorted, ForRun, Preimage, Rank, InOrder, LastTwoExchanged, Accepted;
    assert Replay(t, run) == t[..LIMIT] && Replay(t', run) == q[..LIMIT];
    OrderBroken(t, t', n);
  }

  lemma {:induction false} OrderBroken(t: seq<Event>, t': seq<Event>, i: nat)
    requires |t| == |t'| == LIMIT + 1 && Sorted(t) == t && i == LIMIT - 1
    requires Rank(t[i].hashed.occurredAt) == Rank(t[i + 1].hashed.occurredAt)
    requires t[i].seqInRun < t[i + 1].seqInRun && t'[i].seqInRun >= t'[i + 1].seqInRun
    ensures !OrderKept(t, t')
  {
    hide Sorted, Rank;
    assert t[..Read(t)][i] == t[i];
    assert Precedes(t, i, i + 1);
  }

  lemma {:induction false} AllOfRun(t: seq<Event>, run: Uuid)
    requires forall e <- t :: e.hashed.run == run
    ensures ForRun(t, run) == t
  {
    if t != [] {
      var n := |t| - 1;
      assert t[n] in t && t == t[..n] + [t[n]];
      AllOfRun(t[..n], run);
    }
  }

  lemma ExchangedRewritten(t: seq<Event>)
    requires |t| >= 2 && NumbersDistinct(t) && IdsDistinct(t) && InOrder(t)
    requires Rank(t[|t| - 2].hashed.occurredAt) == Rank(t[|t| - 1].hashed.occurredAt)
    ensures var t', n := LastTwoExchanged(t), |t| - 2;
      && Rewritten(t, t') && multiset(t[..n] + [t'[n + 1], t'[n]]) == multiset(t')
      && t[n].seqInRun < t[n + 1].seqInRun && t'[n].seqInRun > t'[n + 1].seqInRun
  {
    hide Rank;
    var t', n := LastTwoExchanged(t), |t| - 2;
    assert NotAfter(t[n], t[n + 1]);
    assert t' == t[..n] + [t'[n], t'[n + 1]];
  }

  lemma RivalAccepted(h: HashFunction, t: seq<Event>, q: seq<Event>)
    requires RivalAtLimit(h, t)
    requires var t' := LastTwoExchanged(t); q == t[..LIMIT - 1] + [t'[LIMIT], t'[LIMIT - 1]]
    ensures Accepted(h, q[..LIMIT])
  {
    hide Preimage, Rank, InOrder;
    forall i | 0 <= i < LIMIT ensures GoodAt(h, q[..LIMIT], i) {
      assert GoodAt(h, t[..LIMIT], i);
      assert i > 0 ==> q[..LIMIT][i - 1] == t[..LIMIT][i - 1];
    }
  }

  lemma ExchangedOrder(t: seq<Event>, q: seq<Event>)
    requires |t| >= 2 && InOrder(t) && NumbersDistinct(t)
    requires Rank(t[|t| - 2].hashed.occurredAt) == Rank(t[|t| - 1].hashed.occurredAt)
    requires var t' := LastTwoExchanged(t); q == t[..|t| - 2] + [t'[|t| - 1], t'[|t| - 2]]
    ensures InOrder(q) && NumbersDistinct(q)
  {
    hide Rank;
    var n := |t| - 2;
    assert NotAfter(t[n], t[n + 1]);
    forall i, j | 0 <= i < j < |q| ensures NotAfter(q[i], q[j]) && q[i].seqInRun != q[j].seqInRun {
      assert NotAfter(t[i], t[j]);
      assert t[i].seqInRun != t[j].seqInRun;
    }
  }

  /** A list in order is what sorting makes of any arrangement of its rows. */
  lemma {:induction false} SortOf(t: seq<Event>, q: seq<Event>)
    requires multiset(q) == multiset(t) && InOrder(q) && NumbersDistinct(q)
    ensures Sorted(t) == q
  {
    SortedSorts(t);
    DistinctDiffer(q);
    SamePrefix(Sorted(t), q, |q|);
    assert Sorted(t)[..|q|] == Sorted(t) && q[..|q|] == q;
  }

  // ---------- such a table exists ----------

  function NumberedId(i: nat): Uuid
    requires i < 65536
  {
    [i / 256, i % 256] + seq(14, _ => 0)
  }

  lemma NumberedIdsDiffer(i: nat, j: nat)
    requires i < 65536 && j < 65536 && NumberedId(i) == NumberedId(j)
    ensures i == j
  {
    assert NumberedId(i)[0] == NumberedId(j)[0] && NumberedId(i)[1] == NumberedId(j)[1];
  }

  /** The i-th row of a run whose events all carry one timestamp. */
  function PlainRow(h: HashFunction, run: Uuid, i: nat, prev: Option<Digest>): Event
    requires i < 65536
  {
    var hashed := Hashed(NumberedId(i), run, [], [], NoMembers, EPOCH, prev);
    Event(hashed, i + 1, h(Preimage(hashed)), None, None)
  }

  function PlainChain(h: HashFunction, run: Uuid, n: nat): (c: seq<Event>)
    requires n < 65536
    ensures |c| == n
  {
    if n == 0 then []
    else var front := PlainChain(h, run, n - 1); front + [PlainRow(h, run, n - 1, PrevOf(front, n - 1))]
  }

  lemma {:induction false} PlainChainRow(h: HashFunction, run: Uuid, n: nat, i: nat)
    requires i < n < 65536
    ensures var c := PlainChain(h, run, n); c[i] == PlainRow(h, run, i, PrevOf(c, i))
  {
    hide PlainRow;
    if i < n - 1 { PlainChainRow(h, run, n - 1, i); }
  }

  const EPOCH: Time := Time(1970, 1, 1, 0, 0, 0, 0)

  /** What the order of a table depends on. */
  ghost predicate PlainAt(e: Event, i: nat) {
    i < 65536 && e.hashed.id == NumberedId(i) && e.seqInRun == i + 1 && e.hashed.occurredAt == EPOCH
  }

  lemma PlainOrder(t: seq<Event>)
    requires forall i: nat :: i < |t| ==> PlainAt(t[i], i)
    ensures InOrder(t) && NumbersDistinct(t) && IdsDistinct(t)
  {
    hide NumberedId, Rank;
    forall i: nat, j: nat | i < j < |t|
      ensures NotAfter(t[i], t[j]) && t[i].seqInRun != t[j].seqInRun && t[i].hashed.id != t[j].hashed.id
    {
      assert PlainAt(t[i], i) && PlainAt(t[j], j);
      if NumberedId(i) == NumberedId(j) { NumberedIdsDiffer(i, j); }
    }
  }

  lemma {:induction false} PlainChainAccepted(h: HashFunction, run: Uuid, n: nat)
    requires n < 65536
    ensures Accepted(h, PlainChain(h, run, n))
    ensures forall i: nat :: i < n ==>
      PlainAt(PlainChain(h, run, n)[i], i) && PlainChain(h, run, n)[i].hashed.run == run
  {
    hide Preimage, NumberedId, PlainChain;
    var c := PlainChain(h, run, n);
    forall i: nat | i < n ensures GoodAt(h, c, i) && PlainAt(c[i], i) && c[i].hashed.run == run {
      PlainChainRow(h, run, n, i);
    }
  }

  /** For every hash function and run there is a table with a rival at the limit. */
  lemma RivalExists(h: HashFunction, run: Uuid) returns (t: seq<Event>)
    ensures RivalAtLimit(h, t) && forall e <- t :: e.hashed.run == run
  {
    hide PlainChain, Preimage, NumberedId, Rank;
    var c := PlainChain(h, run, LIMIT);
    PlainChainAccepted(h, run, LIMIT);
    var rival := PlainRow(h, run, LIMIT, c[LIMIT - 1].hashed.prev);
    t := c + [rival];
    assert t[..LIMIT] == c;
    assert PlainAt(rival, LIMIT);
    forall i: nat | i < |t| ensures PlainAt(t[i], i) { assert i < LIMIT ==> PlainAt(c[i], i); }
    PlainOrder(t);
    assert PlainAt(t[LIMIT - 1], LIMIT - 1);
    hide InOrder, NumbersDistinct, IdsDistinct, Accepted;
  }
}
