/** The delayed sorted set: ZADD, ZPOPMIN, and the scheduler's promotion loop, proved to move
    exactly the first due members in (score, member) order. */
module DelayedQueue {
  import opened Lists

  type Member = seq<nat>

  /** Bytewise lexicographic order, which Redis uses between members of equal score. */
  predicate LexLess(a: Member, b: Member) {
    b != [] && (a == [] || a[0] < b[0] || (a[0] == b[0] && LexLess(a[1..], b[1..])))
  }

  /** x comes out of the sorted set before y. */
  predicate Before(m: map<Member, int>, x: Member, y: Member)
    requires x in m && y in m
  {
    m[x] < m[y] || (m[x] == m[y] && LexLess(x, y))
  }

  lemma {:induction false} LexTotal(a: Member, b: Member)
    ensures a == b || LexLess(a, b) || LexLess(b, a)
  {
    if a != [] && b != [] && a[0] == b[0] {
      LexTotal(a[1..], b[1..]);
    }
  }

  lemma {:induction false} LexTransitive(a: Member, b: Member, c: Member)
    requires LexLess(a, b) && LexLess(b, c)
    ensures LexLess(a, c)
  {
    if a != [] && a[0] == b[0] && b[0] == c[0] {
      LexTransitive(a[1..], b[1..], c[1..]);
    }
  }

  lemma {:induction false} LexIrreflexive(a: Member)
    ensures !LexLess(a, a)
  {
    if a != [] { LexIrreflexive(a[1..]); }
  }

  // ---------- the sorted set in order ----------

  predicate First(m: map<Member, int>, x: Member) {
    x in m && forall y :: y in m && y != x ==> Before(m, x, y)
  }

  /** A non-empty sorted set has a first member. */
  lemma {:induction false} FirstExists(m: map<Member, int>) returns (x: Member)
    requires m != map[]
    ensures First(m, x)
    decreases |m|
  {
    var y: Member :| y in m;
    var rest := m - {y};
    if rest == map[] {
      x := y;
      assert forall z :: z in m ==> z == y || z in rest;
    } else {
      assert |rest.Keys| < |m.Keys| by { assert rest.Keys == m.Keys - {y}; }
      var x' := FirstExists(rest);
      LexTotal(x', y);
      x := if Before(m, x', y) then x' else y;
      forall z | z in m && z != x ensures Before(m, x, z) {
        if z != y && z != x' {
          assert Before(rest, x', z);
          if x == y && m[y] == m[x'] == m[z] { LexTransitive(y, x', z); }
        }
      }
    }
  }

  lemma FirstUnique(m: map<Member, int>, x: Member, y: Member)
    requires First(m, x) && First(m, y)
    ensures x == y
  {
    if x != y && m[x] == m[y] {
      LexTransitive(x, y, x);
      LexIrreflexive(x);
    }
  }

  ghost function FirstOf(m: map<Member, int>): (x: Member)
    requires m != map[]
    ensures First(m, x)
  {
    assert exists x :: First(m, x) by { var x := FirstExists(m); }
    var x :| First(m, x);
    x
  }

  /** All members in the order in which ZPOPMIN hands them out. */
  ghost function Ordered(m: map<Member, int>): seq<Member>
    decreases |m|
  {
    if m == map[] then []
    else
      assert (m - {FirstOf(m)}).Keys == m.Keys - {FirstOf(m)};
      [FirstOf(m)] + Ordered(m - {FirstOf(m)})
  }

  lemma {:induction false} OrderedMembers(m: map<Member, int>, x: Member)
    ensures x in Ordered(m) <==> x in m
    ensures |Ordered(m)| == |m|
    decreases |m|
  {
    if m != map[] {
      hide LexLess, First;
      var rest := m - {FirstOf(m)};
      assert rest.Keys == m.Keys - {FirstOf(m)};
      OrderedMembers(rest, x);
    }
  }

  lemma {:induction false} OrderedSorted(m: map<Member, int>, i: nat, j: nat)
    requires i < j < |Ordered(m)|
    ensures Ordered(m)[i] in m && Ordered(m)[j] in m && Before(m, Ordered(m)[i], Ordered(m)[j])
    decreases |m|
  {
    hide LexLess;
    var x := FirstOf(m);
    var rest := m - {x};
    assert rest.Keys == m.Keys - {x};
    OrderedMembers(rest, Ordered(rest)[j - 1]);
    assert Ordered(m)[j] == Ordered(rest)[j - 1];
    if i > 0 {
      OrderedSorted(rest, i - 1, j - 1);
    }
  }

  /** `Ordered` lists exactly the members, each once, sorted by (score, member). */
  lemma {:induction false} OrderedExact(m: map<Member, int>)
    ensures forall x :: x in Ordered(m) <==> x in m
    ensures forall i, j :: 0 <= i < j < |Ordered(m)| ==> Before(m, Ordered(m)[i], Ordered(m)[j])
    ensures |Ordered(m)| == |m|
  {
    hide LexLess, Before;
    OrderedMembers(m, []);
    forall x ensures x in Ordered(m) <==> x in m { OrderedMembers(m, x); }
    forall i, j | 0 <= i < j < |Ordered(m)| ensures Before(m, Ordered(m)[i], Ordered(m)[j]) {
      OrderedSorted(m, i, j);
    }
  }

  /** The members that are due. */
  function DueMembers(m: map<Member, int>, maxScore: int): set<Member> {
    set x | x in m && m[x] <= maxScore
  }

  function Elements(s: seq<Member>): set<Member> {
    set x | x in s
  }

  /** Popping the head of the order takes the next member off the sorted set. */
  lemma {:induction false} PopNext(m: map<Member, int>, x: Member)
    requires First(m, x)
    ensures Ordered(m) == [x] + Ordered(m - {x})
  {
    FirstUnique(m, x, FirstOf(m));
  }

  ghost predicate TakenDue(m: map<Member, int>, taken: seq<Member>, maxScore: int) {
    forall x :: x in taken ==> x in m && m[x] <= maxScore
  }

  lemma TakeOne(m: map<Member, int>, taken: seq<Member>, x: Member, maxScore: int)
    requires TakenDue(m, taken, maxScore) && First(m - Elements(taken), x) && m[x] <= maxScore
    ensures m - Elements(taken) - {x} == m - Elements(taken + [x])
    ensures TakenDue(m, taken + [x], maxScore)
  {
    assert Elements(taken + [x]) == Elements(taken) + {x};
  }

  /** Of a sorted set whose first member is not due, none is due. */
  lemma NoneDue(m: map<Member, int>, x: Member, maxScore: int)
    requires First(m, x) && m[x] > maxScore
    ensures DueMembers(m, maxScore) == {}
  {
    forall y | y in m ensures m[y] > maxScore {
      if y != x { assert Before(m, x, y); }
    }
  }

  /** The taken members are the due ones when the rest holds none that is due. */
  lemma {:induction false} TakenCount(m: map<Member, int>, taken: seq<Member>, maxScore: int)
    requires taken <= Ordered(m)
    requires TakenDue(m, taken, maxScore)
    ensures |taken| <= |DueMembers(m, maxScore)|
    ensures DueMembers(m - Elements(taken), maxScore) == {} ==> |taken| == |DueMembers(m, maxScore)|
  {
    OrderedExact(m);
    DistinctCount(m, taken);
    SubsetCount(Elements(taken), DueMembers(m, maxScore));
    if DueMembers(m - Elements(taken), maxScore) == {} {
      forall x | x in DueMembers(m, maxScore) ensures x in Elements(taken) {
        assert x in m - Elements(taken) ==> x in DueMembers(m - Elements(taken), maxScore);
      }
      assert DueMembers(m, maxScore) == Elements(taken);
    }
  }

  lemma SubsetCount(a: set<Member>, b: set<Member>)
    requires a <= b
    ensures |a| <= |b|
  {
    assert b == a + (b - a);
  }

  lemma {:induction false} DistinctCount(m: map<Member, int>, taken: seq<Member>)
    requires forall x :: x in taken ==> x in m
    requires forall i, j :: 0 <= i < j < |taken| ==> Before(m, taken[i], taken[j])
    ensures |Elements(taken)| == |taken|
  {
    if taken != [] {
      var n := |taken| - 1;
      var front, x := taken[..n], taken[n];
      DistinctCount(m, front);
      if x in front {
        var i :| 0 <= i < n && front[i] == x;
        assert Before(m, taken[i], taken[n]);
        LexIrreflexive(x);
      }
      assert Elements(taken) == Elements(front) + {x};
    }
  }

  // ---------- the scheduler's loop ----------

  class Queues {
    var delayed: map<Member, int>
    var ready: seq<Member>

    /** ZPOPMIN with count 1. */
    method PopMin() returns (x: Member, score: int)
      requires delayed != map[]
      modifies `delayed
      ensures First(old(delayed), x) && score == old(delayed)[x]
      ensures delayed == old(delayed) - {x}
    {
      ghost var w := FirstExists(delayed);
      x :| x in delayed && First(delayed, x);
      score := delayed[x];
      delayed := delayed - {x};
    }

    /** LPUSH to the ready list. */
    method PushReady(x: Member)
      modifies `ready
      ensures ready == [x] + old(ready)
    {
      ready := [x] + ready;
    }

    /** One turn of the loop: promote the first member if it is due. A member that is popped
        before its time is put back as it was. */
    method PromoteFirst(maxScore: int) returns (promoted: bool, ghost x: Member)
      modifies this
      ensures promoted ==>
        && First(old(delayed), x) && old(delayed)[x] <= maxScore
        && delayed == old(delayed) - {x} && ready == [x] + old(ready)
      ensures !promoted ==> delayed == old(delayed) && ready == old(ready) && DueMembers(delayed, maxScore) == {}
    {
      if delayed == map[] { return false, []; }
      var item, score := PopMin();
      x := item;
      if score > maxScore {
        NoneDue(old(delayed), item, maxScore);
        delayed := delayed[item := score];
        assert delayed == old(delayed);
        return false, x;
      }
      PushReady(item);
      promoted := true;
    }

    /** Promote the first min(batch_size, number due) members in order, newest at the head of
        the ready list, and leave every other member as it was. */
    method MatureTasks(maxScore: int, batchSize: int) returns (promoted: nat)
      modifies this
      ensures promoted == if batchSize <= 0 then 0
                          else if batchSize <= |DueMembers(old(delayed), maxScore)| then batchSize
                          else |DueMembers(old(delayed), maxScore)|
      ensures promoted <= |Ordered(old(delayed))|
      ensures ready == Reverse(Ordered(old(delayed))[..promoted]) + old(ready)
      ensures delayed == old(delayed) - Elements(Ordered(old(delayed))[..promoted])
      ensures TakenDue(old(delayed), Ordered(old(delayed))[..promoted], maxScore)
    {
      ghost var start, taken := delayed, [];
      assert delayed - Elements([]) == delayed;
      hide First, LexLess, Ordered, DueMembers, Elements, TakenDue;
      promoted := 0;
      while promoted < batchSize
        invariant Promoted(start, old(ready), taken, maxScore, delayed, ready)
        invariant |taken| == promoted && (0 < promoted ==> promoted <= batchSize)
        decreases batchSize - promoted
      {
        var more, x := PromoteFirst(maxScore);
        if !more { break; }
        PromotedOne(start, old(ready), taken, x, maxScore, delayed, ready);
        taken := taken + [x];
        promoted := promoted + 1;
      }
      TakenCount(start, taken, maxScore);
    }
  }

  /** The loop has moved `taken`, the first members in order, to the ready list. */
  ghost predicate Promoted(start: map<Member, int>, ready0: seq<Member>, taken: seq<Member>, maxScore: int,
                           delayed: map<Member, int>, ready: seq<Member>) {
    && Ordered(start) == taken + Ordered(delayed)
    && delayed == start - Elements(taken)
    && ready == Reverse(taken) + ready0
    && TakenDue(start, taken, maxScore)
  }

  lemma {:induction false} PromotedOne(start: map<Member, int>, ready0: seq<Member>, taken: seq<Member>, x: Member,
                                       maxScore: int, delayed: map<Member, int>, ready: seq<Member>)
    requires var m := start - Elements(taken);
      && Ordered(start) == taken + Ordered(m) && TakenDue(start, taken, maxScore)
      && First(m, x) && m[x] <= maxScore && delayed == m - {x}
    requires ready == [x] + (Reverse(taken) + ready0)
    ensures Promoted(start, ready0, taken + [x], maxScore, delayed, ready)
  {
    hide Ordered, LexLess, Reverse, Before;
    var m := start - Elements(taken);
    PopNext(m, x);
    TakeOne(start, taken, x, maxScore);
    ReverseAppend(taken, x);
    assert taken + ([x] + Ordered(delayed)) == taken + [x] + Ordered(delayed);
  }

  /** The pop order is by score, and by the members' bytes among equal scores. */
  lemma {:induction false} PopsByScore(m: map<Member, int>, i: nat, j: nat)
    requires i < j < |Ordered(m)|
    ensures var x, y := Ordered(m)[i], Ordered(m)[j];
      x in m && y in m && (m[x] < m[y] || (m[x] == m[y] && LexLess(x, y)))
  {
    hide Ordered, LexLess;
    OrderedSorted(m, i, j);
  }

  /** The order between members of equal score: at the first place where they differ the smaller byte comes
      first, and a member comes before its own extensions. */
  lemma {:induction false} LexExact(a: Member, b: Member)
    ensures LexLess(a, b) <==>
      exists k :: 0 <= k <= |a| && k < |b| && a[..k] == b[..k] && (k == |a| || a[k] < b[k])
  {
    if a != [] && b != [] && a[0] == b[0] {
      LexExact(a[1..], b[1..]);
      if LexLess(a[1..], b[1..]) {
        var a', b' := a[1..], b[1..];
        var k :| 0 <= k <= |a'| && k < |b'| && a'[..k] == b'[..k] && (k == |a'| || a'[k] < b'[k]);
        assert a[..k + 1] == [a[0]] + a'[..k] && b[..k + 1] == [b[0]] + b'[..k];
      }
      if k :| 0 <= k <= |a| && k < |b| && a[..k] == b[..k] && (k == |a| || a[k] < b[k]) {
        assert k > 0;
        assert a[1..][..k - 1] == a[..k][1..] && b[1..][..k - 1] == b[..k][1..];
      }
    } else if b != [] && (a == [] || a[0] < b[0]) {
      assert a[..0] == b[..0];
    }
  }
}
