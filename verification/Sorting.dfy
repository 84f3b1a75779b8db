// sort.Slice and sort.SliceStable: a permutation in the given order.

module Sorting {

  // before(a, b): a may stand before b.
  ghost predicate IsOrder<T(!new)>(before: (T, T) -> bool) {
    && (forall a, b {:trigger before(a, b), before(b, a)} :: before(a, b) || before(b, a))
    && (forall a, b, c {:trigger before(a, b), before(b, c)} :: before(a, b) && before(b, c) ==> before(a, c))
  }

  ghost predicate SortedBy<T(!new)>(before: (T, T) -> bool, xs: seq<T>) {
    forall i, j :: 0 <= i < j < |xs| ==> before(xs[i], xs[j])
  }

  lemma InsertKeeps<T>(xs: seq<T>, p: nat, x: T)
    requires p <= |xs|
    ensures multiset(xs[..p] + [x] + xs[p..]) == multiset(xs) + multiset{x}
  {
    assert xs == xs[..p] + xs[p..];
  }

  // Puts one element behind those that may stand before it.
  method Insert<T(!new)>(before: (T, T) -> bool, xs: seq<T>, x: T) returns (ys: seq<T>)
    requires IsOrder(before) && SortedBy(before, xs)
    ensures SortedBy(before, ys) && multiset(ys) == multiset(xs) + multiset{x}
  {
    var p := |xs|;
    while p > 0 && !before(xs[p - 1], x)
      invariant 0 <= p <= |xs| && forall k :: p <= k < |xs| ==> before(x, xs[k])
    {
      assert before(xs[p - 1], x) || before(x, xs[p - 1]);
      p := p - 1;
    }
    forall k | 0 <= k < p ensures before(xs[k], x) {
      if k < p - 1 { assert before(xs[k], xs[p - 1]); }
    }
    ys := xs[..p] + [x] + xs[p..];
    InsertKeeps(xs, p, x);
  }

  method Sort<T(!new)>(before: (T, T) -> bool, xs: seq<T>) returns (ys: seq<T>)
    requires IsOrder(before)
    ensures SortedBy(before, ys) && multiset(ys) == multiset(xs)
  {
    ys := [];
    for i := 0 to |xs|
      invariant SortedBy(before, ys) && multiset(ys) == multiset(xs[..i])
    {
      assert xs[..i + 1] == xs[..i] + [xs[i]];
      ys := Insert(before, ys, xs[i]);
    }
    assert xs[..|xs|] == xs;
  }

  lemma SameMembers<T>(xs: seq<T>, ys: seq<T>)
    requires multiset(xs) == multiset(ys)
    ensures |xs| == |ys| && forall x :: x in xs <==> x in ys
  {
    assert |multiset(xs)| == |xs| && |multiset(ys)| == |ys|;
    forall x ensures x in xs <==> x in ys {
      assert x in xs <==> x in multiset(xs);
      assert x in ys <==> x in multiset(ys);
    }
  }

  ghost predicate Apart<T(!new)>(xs: seq<T>) { forall i, j :: 0 <= i < j < |xs| ==> xs[i] != xs[j] }

  lemma {:induction false} Once<T(!new)>(xs: seq<T>, x: T)
    requires Apart(xs)
    ensures multiset(xs)[x] <= 1
  {
    if xs != [] {
      var rest, last := xs[..|xs| - 1], xs[|xs| - 1];
      assert xs == rest + [last];
      assert multiset(xs) == multiset(rest) + multiset{last};
      Once(rest, x);
      assert last !in rest;
    }
  }

  lemma Twice<T>(ys: seq<T>, i: nat, j: nat)
    requires i < j < |ys| && ys[i] == ys[j]
    ensures multiset(ys)[ys[i]] >= 2
  {
    var a, b := ys[..j], ys[j..];
    assert ys == a + b && multiset(ys) == multiset(a) + multiset(b);
    assert a[i] in a && b[0] in b;
    assert a[i] in multiset(a) && b[0] in multiset(b);
  }

  // Sorting a list without repeats brings in none.
  lemma ApartStays<T(!new)>(xs: seq<T>, ys: seq<T>)
    requires multiset(xs) == multiset(ys) && Apart(xs)
    ensures Apart(ys)
  {
    forall i, j | 0 <= i < j < |ys| ensures ys[i] != ys[j] {
      Once(xs, ys[i]);
      if ys[i] == ys[j] { Twice(ys, i, j); }
    }
  }
}
