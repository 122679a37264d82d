/** A stable sort, standing for the built-in one: sorted permutations are all that is used of it. */
module Sorting {

  ghost predicate Distinct<T>(xs: seq<T>) {
    forall i, j :: 0 <= i < j < |xs| ==> xs[i] != xs[j]
  }

  ghost predicate SortedBy<T>(xs: seq<T>, le: (T, T) -> bool) {
    forall i, j :: 0 <= i < j < |xs| ==> le(xs[i], xs[j])
  }

  /** `le` compares all of `xs` with each other, consistently. */
  ghost predicate Orders<T>(le: (T, T) -> bool, xs: seq<T>) {
    && (forall a, b :: a in xs && b in xs ==> le(a, b) || le(b, a))
    && (forall a, b, c :: a in xs && b in xs && c in xs && le(a, b) && le(b, c) ==> le(a, c))
  }

  function Insert<T>(x: T, xs: seq<T>, le: (T, T) -> bool): (r: seq<T>)
    ensures multiset(r) == multiset(xs) + multiset{x}
  {
    if xs == [] || le(x, xs[0]) then
      [x] + xs
    else
      assert xs == [xs[0]] + xs[1..];
      [xs[0]] + Insert(x, xs[1..], le)
  }

  lemma Inserted<T>(x: T, xs: seq<T>, le: (T, T) -> bool, a: T)
    ensures a in Insert(x, xs, le) <==> a == x || a in xs
  {
    assert a in Insert(x, xs, le) <==> a in multiset(xs) + multiset{x};
  }

  /** `x` may stand in front of all of `xs`. */
  ghost predicate Below<T>(x: T, xs: seq<T>, le: (T, T) -> bool) {
    forall a <- xs :: le(x, a)
  }

  lemma HeadIsBelow<T>(xs: seq<T>, le: (T, T) -> bool)
    requires SortedBy(xs, le) && xs != []
    ensures Below(xs[0], xs[1..], le) && SortedBy(xs[1..], le)
  {
    forall i, j | 0 <= i < j < |xs[1..]| ensures le(xs[1..][i], xs[1..][j]) {
      assert le(xs[i + 1], xs[j + 1]);
    }
    forall a <- xs[1..] ensures le(xs[0], a) {
      var j :| 0 <= j < |xs[1..]| && xs[1..][j] == a;
      assert a == xs[j + 1];
    }
  }

  lemma PrependSorted<T>(x: T, xs: seq<T>, le: (T, T) -> bool)
    requires SortedBy(xs, le) && Below(x, xs, le)
    ensures SortedBy([x] + xs, le)
  {
    forall i, j | 0 <= i < j < |[x] + xs| ensures le(([x] + xs)[i], ([x] + xs)[j]) {
      assert xs[j - 1] in xs;
    }
  }

  lemma {:induction false} InsertKeepsSorted<T>(x: T, xs: seq<T>, le: (T, T) -> bool)
    requires SortedBy(xs, le) && Orders(le, [x] + xs)
    ensures SortedBy(Insert(x, xs, le), le)
    decreases |xs|
  {
    if xs != [] {
      var all := [x] + xs;
      assert x == all[0] && xs[0] == all[1];
      HeadIsBelow(xs, le);
      if le(x, xs[0]) {
        forall a <- xs ensures le(x, a) {
          assert a in all;
          assert xs == [xs[0]] + xs[1..];
          assert a == xs[0] || a in xs[1..];
        }
        PrependSorted(x, xs, le);
      } else {
        assert forall a <- [x] + xs[1..] :: a in all;
        var tail := Insert(x, xs[1..], le);
        InsertKeepsSorted(x, xs[1..], le);
        forall a <- tail ensures le(xs[0], a) {
          assert x in all && xs[0] in all;
          Inserted(x, xs[1..], le, a);
        }
        PrependSorted(xs[0], tail, le);
      }
    }
  }

  function Sort<T>(xs: seq<T>, le: (T, T) -> bool): (r: seq<T>)
    ensures multiset(r) == multiset(xs) && |r| == |xs|
  {
    if xs == [] then []
    else
      assert xs == [xs[0]] + xs[1..];
      var r := Insert(xs[0], Sort(xs[1..], le), le);
      assert |multiset(r)| == |r| && |multiset(xs)| == |xs|;
      r
  }

  lemma SortMembers<T>(xs: seq<T>, le: (T, T) -> bool)
    ensures forall a :: a in Sort(xs, le) <==> a in xs
  {
    forall a ensures a in Sort(xs, le) <==> a in xs {
      SortMember(xs, le, a);
    }
  }

  lemma SortMember<T>(xs: seq<T>, le: (T, T) -> bool, a: T)
    ensures a in Sort(xs, le) <==> a in xs
  {
    assert a in multiset(Sort(xs, le)) <==> a in multiset(xs);
  }

  lemma OrdersTail<T>(xs: seq<T>, ys: seq<T>, le: (T, T) -> bool)
    requires Orders(le, xs) && forall a <- ys :: a in xs
    ensures Orders(le, ys)
  {}

  lemma {:induction false} SortSorts<T>(xs: seq<T>, le: (T, T) -> bool)
    requires Orders(le, xs)
    ensures SortedBy(Sort(xs, le), le)
    decreases |xs|
  {
    if xs != [] {
      OrdersTail(xs, xs[1..], le);
      SortSorts(xs[1..], le);
      var all := [xs[0]] + Sort(xs[1..], le);
      forall a | a in all ensures a in xs {
        SortMember(xs[1..], le, a);
      }
      OrdersTail(xs, all, le);
      InsertKeepsSorted(xs[0], Sort(xs[1..], le), le);
    }
  }

  lemma RemoveAt<T>(xs: seq<T>, i: nat)
    requires i < |xs|
    ensures multiset(xs[..i] + xs[i + 1..]) == multiset(xs) - multiset{xs[i]}
  {
    assert xs == xs[..i] + [xs[i]] + xs[i + 1..];
  }

  /** Permuting a non-empty list: where its first element went, and what is left. */
  lemma FindFirst<T>(xs: seq<T>, ys: seq<T>) returns (i: nat)
    requires xs != [] && multiset(xs) == multiset(ys)
    ensures i < |ys| && ys[i] == xs[0]
    ensures multiset(xs[1..]) == multiset(ys[..i] + ys[i + 1..])
  {
    assert xs[0] in multiset(ys);
    i :| 0 <= i < |ys| && ys[i] == xs[0];
    RemoveAt(xs, 0);
    assert xs[..0] + xs[1..] == xs[1..];
    RemoveAt(ys, i);
  }

  lemma DistinctFromCounts<T>(xs: seq<T>)
    requires forall x <- xs :: multiset(xs)[x] <= 1
    ensures Distinct(xs)
  {
    forall i, j | 0 <= i < j < |xs| ensures xs[i] != xs[j] {
      assert xs == xs[..i] + [xs[i]] + xs[i + 1..];
      assert xs[i + 1..][j - i - 1] == xs[j];
      assert multiset(xs) == multiset(xs[..i]) + multiset{xs[i]} + multiset(xs[i + 1..]);
      assert multiset(xs)[xs[i]] <= 1;
      assert xs[j] in multiset(xs[i + 1..]);
    }
  }

  lemma {:induction false} CountsFromDistinct<T>(xs: seq<T>, x: T)
    requires Distinct(xs)
    ensures multiset(xs)[x] <= 1
    decreases |xs|
  {
    if xs != [] {
      var front, last := xs[..|xs| - 1], xs[|xs| - 1];
      assert xs == front + [last];
      CountsFromDistinct(front, x);
      assert last !in front;
    }
  }
}
