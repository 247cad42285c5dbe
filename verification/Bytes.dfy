// Byte strings, permutations and the few sequence facts that several models share.
module Bytes {
  type byte = x: int | 0 <= x < 256

  // The indices 0, 1, .., n-1.
  function Iota(n: nat): (r: seq<nat>)
    ensures |r| == n
    ensures forall i :: 0 <= i < n ==> r[i] == i
  {
    seq(n, i => i)
  }

  function Map<X, Y>(f: X -> Y, a: seq<X>): (r: seq<Y>)
    ensures |r| == |a|
    ensures forall i :: 0 <= i < |a| ==> r[i] == f(a[i])
  {
    seq(|a|, i requires 0 <= i < |a| => f(a[i]))
  }

  // n copies of one value.
  function Repeat<X>(x: X, n: nat): (r: seq<X>)
    ensures |r| == n
  {
    if n == 0 then [] else [x] + Repeat(x, n - 1)
  }

  lemma {:induction false} RepeatAt<X>(x: X, n: nat)
    ensures forall i :: 0 <= i < n ==> Repeat(x, n)[i] == x
  {
    if n > 0 {
      RepeatAt(x, n - 1);
    }
  }

  // All numbers of a list are below a limit.
  predicate AllBelow(s: seq<nat>, n: nat)
  {
    forall i :: 0 <= i < |s| ==> s[i] < n
  }

  lemma {:induction false} RepeatAll<X>(x: X, s: seq<X>)
    requires forall i :: 0 <= i < |s| ==> s[i] == x
    ensures s == Repeat(x, |s|)
  {
    if s != [] {
      RepeatAll(x, s[1..]);
      assert s == [s[0]] + s[1..];
    }
  }

  lemma {:induction false} RepeatSplit<X>(x: X, m: nat, n: nat)
    ensures Repeat(x, m + n) == Repeat(x, m) + Repeat(x, n)
  {
    if m > 0 {
      RepeatSplit(x, m - 1, n);
      Regroup([x], Repeat(x, m - 1), Repeat(x, n));
    }
  }

  lemma Regroup<X>(a: seq<X>, b: seq<X>, c: seq<X>)
    ensures a + b + c == a + (b + c)
  {
  }

  // Taking one element out of a sequence takes one copy out of its multiset.
  function Without<X>(a: seq<X>, k: nat): (r: seq<X>)
    requires k < |a|
    ensures |r| == |a| - 1
  {
    a[..k] + a[k+1..]
  }

  lemma WithoutAt<X>(a: seq<X>, k: nat)
    requires k < |a|
    ensures multiset(Without(a, k)) == multiset(a) - multiset{a[k]}
    ensures multiset(a) == multiset(Without(a, k)) + multiset{a[k]}
  {
    assert a == a[..k] + ([a[k]] + a[k+1..]);
  }

  lemma MapWithout<X, Y>(f: X -> Y, a: seq<X>, k: nat)
    requires k < |a|
    ensures Map(f, Without(a, k)) == Without(Map(f, a), k)
  {
  }

  // Mapping respects "same elements in another order".
  lemma {:induction false} MapPermuted<X, Y>(f: X -> Y, a: seq<X>, b: seq<X>)
    requires multiset(a) == multiset(b)
    ensures multiset(Map(f, a)) == multiset(Map(f, b))
    decreases |a|
  {
    assert |a| == |multiset(a)| == |multiset(b)| == |b|;
    if a != [] {
      assert a[0] in multiset(b);
      var k :| 0 <= k < |b| && b[k] == a[0];
      WithoutAt(a, 0);
      WithoutAt(b, k);
      MapPermuted(f, Without(a, 0), Without(b, k));
      MapWithout(f, a, 0);
      MapWithout(f, b, k);
      WithoutAt(Map(f, a), 0);
      WithoutAt(Map(f, b), k);
    } else {
      assert Map(f, a) == [] == Map(f, b);
    }
  }

  // leq puts a in order.
  predicate SortedBy<X>(leq: (X, X) -> bool, a: seq<X>)
  {
    forall i, j :: 0 <= i < j < |a| ==> leq(a[i], a[j])
  }

  lemma SortedHead<X>(leq: (X, X) -> bool, a: seq<X>, x: X)
    requires SortedBy(leq, a) && x in multiset(a) && leq(x, x)
    ensures a != [] && leq(a[0], x)
  {
    var j :| 0 <= j < |a| && a[j] == x;
  }

  lemma SortedTail<X>(leq: (X, X) -> bool, a: seq<X>)
    requires SortedBy(leq, a) && a != []
    ensures SortedBy(leq, Without(a, 0)) && a == [a[0]] + Without(a, 0)
  {
  }

  // Sorting has only one outcome.
  lemma {:induction false} SortedUnique<X(!new)>(leq: (X, X) -> bool, a: seq<X>, b: seq<X>)
    requires forall x :: leq(x, x)
    requires forall x, y :: leq(x, y) && leq(y, x) ==> x == y
    requires SortedBy(leq, a) && SortedBy(leq, b) && multiset(a) == multiset(b)
    ensures a == b
    decreases |a|
  {
    hide SortedBy;
    assert |a| == |multiset(a)| == |multiset(b)| == |b|;
    if a != [] {
      assert a[0] in multiset(b) && b[0] in multiset(a);
      SortedHead(leq, a, b[0]);
      SortedHead(leq, b, a[0]);
      WithoutAt(a, 0);
      WithoutAt(b, 0);
      SortedTail(leq, a);
      SortedTail(leq, b);
      SortedUnique(leq, Without(a, 0), Without(b, 0));
    }
  }
}
