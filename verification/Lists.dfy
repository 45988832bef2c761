/** Sequences as Redis lists use them. */
module Lists {

  function Reverse<T>(s: seq<T>): seq<T> {
    if s == [] then [] else [s[|s| - 1]] + Reverse(s[..|s| - 1])
  }

  lemma {:induction false} ReverseAppend<T>(s: seq<T>, x: T)
    ensures Reverse(s + [x]) == [x] + Reverse(s)
  {
    assert (s + [x])[..|s|] == s;
  }

  lemma {:induction false} ReverseSame<T>(s: seq<T>)
    ensures multiset(Reverse(s)) == multiset(s)
  {
    if s != [] {
      var n := |s| - 1;
      ReverseSame(s[..n]);
      assert s == s[..n] + [s[n]];
    }
  }

  /** LREM with count 1: the first occurrence from the head goes, if there is any. */
  function RemoveFirst<T(==)>(l: seq<T>, x: T): (r: seq<T>)
    ensures forall q :: q in r ==> q in l
    ensures forall q :: q in l && q != x ==> q in r
  {
    if l == [] then [] else if l[0] == x then l[1..] else [l[0]] + RemoveFirst(l[1..], x)
  }

  /** Exactly one occurrence goes. */
  lemma {:induction false} RemovesOne<T>(l: seq<T>, x: T)
    ensures multiset(RemoveFirst(l, x)) == multiset(l) - multiset{x}
  {
    if l != [] {
      assert l == [l[0]] + l[1..];
      RemovesOne(l[1..], x);
    }
  }

  /** Removing the first occurrence skips a part in which the item does not occur. */
  lemma {:induction false} RemoveAfter<T>(a: seq<T>, x: T, b: seq<T>)
    requires x !in a
    ensures RemoveFirst(a + [x] + b, x) == a + b
  {
    if a == [] {
      assert a + [x] + b == [x] + b;
    } else {
      assert (a + [x] + b)[1..] == a[1..] + [x] + b;
      RemoveAfter(a[1..], x, b);
      assert [a[0]] + (a[1..] + b) == a + b;
    }
  }

  function Image<T, U>(f: T -> U, s: seq<T>): (r: seq<U>)
    ensures |r| == |s| && forall i :: 0 <= i < |s| ==> r[i] == f(s[i])
  {
    seq(|s|, i requires 0 <= i < |s| => f(s[i]))
  }

  ghost predicate Injective<T(!new), U>(f: T -> U) {
    forall x, y :: f(x) == f(y) ==> x == y
  }

  lemma {:induction false} ImageRemove<T(!new), U>(f: T -> U, l: seq<T>, x: T)
    requires Injective(f)
    ensures Image(f, RemoveFirst(l, x)) == RemoveFirst(Image(f, l), f(x))
  {
    if l != [] {
      assert Image(f, l)[1..] == Image(f, l[1..]);
      if l[0] != x {
        ImageRemove(f, l[1..], x);
        assert Image(f, [l[0]] + RemoveFirst(l[1..], x)) == [f(l[0])] + Image(f, RemoveFirst(l[1..], x));
      }
    }
  }

  lemma {:induction false} ReverseAt<T>(s: seq<T>, i: nat)
    requires i < |s|
    ensures |Reverse(s)| == |s| && Reverse(s)[i] == s[|s| - 1 - i]
  {
    var n := |s| - 1;
    if n > 0 { ReverseAt(s[..n], if i > 0 then i - 1 else 0); }
  }

  // ---------- filtering ----------

  /** The elements that satisfy p, in their order. */
  function Filter<T>(s: seq<T>, p: T -> bool): seq<T> {
    if s == [] then []
    else
      var n := |s| - 1;
      Filter(s[..n], p) + if p(s[n]) then [s[n]] else []
  }

  lemma {:induction false} FilterAppend<T>(s: seq<T>, x: T, p: T -> bool)
    ensures Filter(s + [x], p) == Filter(s, p) + if p(x) then [x] else []
  {
    assert (s + [x])[..|s|] == s;
  }

  lemma {:induction false} FilterMember<T>(s: seq<T>, p: T -> bool, x: T)
    ensures x in Filter(s, p) <==> x in s && p(x)
    ensures multiset(Filter(s, p))[x] == if p(x) then multiset(s)[x] else 0
  {
    if s != [] {
      var n := |s| - 1;
      assert s == s[..n] + [s[n]];
      FilterMember(s[..n], p, x);
    }
  }

  /** Where the elements of a filtered list stand in the list. */
  lemma {:induction false} FilterPlaces<T>(s: seq<T>, p: T -> bool) returns (at: seq<nat>)
    ensures |at| == |Filter(s, p)|
    ensures forall i :: 0 <= i < |at| ==> at[i] < |s| && Filter(s, p)[i] == s[at[i]]
    ensures forall i, j :: 0 <= i < j < |at| ==> at[i] < at[j]
  {
    at := [];
    if s != [] {
      var n := |s| - 1;
      assert Filter(s, p) == Filter(s[..n], p) + if p(s[n]) then [s[n]] else [];
      hide Filter;
      at := FilterPlaces(s[..n], p);
      if p(s[n]) { at := at + [n]; }
    }
  }
}
