// Vocabulary shared by the other modules: optional values, the byte order Go
// uses for strings, and the sorted list of a set of strings.

module Basics {

  datatype Option<+T> = None | Some(value: T)

  datatype Result<+T> = Ok(value: T) | Err(error: string)

  // The zero time.Time as nanoseconds since the Unix epoch.
  const ZERO_TIME := -62_135_596_800_000_000_000

  function Min(a: int, b: int): int { if a <= b then a else b }

  function Max(a: int, b: int): int { if a >= b then a else b }

  function FirstNonEmpty(a: string, b: string): string { if a != "" then a else b }

  // The last n elements, or all of them.
  function LastOf<T>(xs: seq<T>, n: nat): seq<T> {
    if |xs| > n then xs[|xs| - n..] else xs
  }

  lemma SubsetSize<T>(a: set<T>, b: set<T>)
    requires a <= b
    ensures |a| <= |b| && (a != b ==> |a| < |b|)
  {
    assert b == a + (b - a);
    if a != b { assert b - a != {}; }
  }

  // Integer division and remainder as Go does them: the quotient rounds toward zero.
  function GoDiv(a: int, b: int): int
    requires b > 0
  {
    if a >= 0 then a / b else -((-a) / b)
  }

  function GoMod(a: int, b: int): int
    requires b > 0
  {
    a - b * GoDiv(a, b)
  }

  // The order of Go's `<=` on strings.
  predicate Leq(a: string, b: string) {
    a == [] || (b != [] && (a[0] < b[0] || (a[0] == b[0] && Leq(a[1..], b[1..]))))
  }

  lemma LeqTotal(a: string, b: string)
    ensures Leq(a, b) || Leq(b, a)
  {}

  lemma {:induction false} LeqAntisymmetric(a: string, b: string)
    requires Leq(a, b) && Leq(b, a)
    ensures a == b
  {
    if a != [] {
      LeqAntisymmetric(a[1..], b[1..]);
      assert a == [a[0]] + a[1..] && b == [b[0]] + b[1..];
    }
  }

  lemma LeqTransitive(a: string, b: string, c: string)
    requires Leq(a, b) && Leq(b, c)
    ensures Leq(a, c)
  {}

  ghost predicate Ascending(xs: seq<string>) {
    forall i, j :: 0 <= i < j < |xs| ==> Leq(xs[i], xs[j])
  }

  lemma LeastExists(s: set<string>) returns (m: string)
    requires s != {}
    ensures m in s && forall x :: x in s ==> Leq(m, x)
  {
    m :| m in s;
    if s != {m} {
      var n := LeastExists(s - {m});
      LeqTotal(m, n);
      forall x | x in s ensures Leq(if Leq(m, n) then m else n, x) {
        LeqTotal(x, x);
        if x != m && Leq(m, n) { LeqTransitive(m, n, x); }
      }
      m := if Leq(m, n) then m else n;
    } else {
      LeqTotal(m, m);
    }
  }

  ghost function Least(s: set<string>): (m: string)
    requires s != {}
    ensures m in s && forall x :: x in s ==> Leq(m, x)
  {
    assert exists m :: m in s && forall x :: x in s ==> Leq(m, x) by {
      var m := LeastExists(s);
    }
    var m :| m in s && forall x :: x in s ==> Leq(m, x);
    m
  }

  // The elements of a set in ascending order: what sorting the keys of a map gives.
  ghost function SortedSet(s: set<string>): (r: seq<string>)
    ensures forall x :: x in r <==> x in s
    ensures |r| == |s|
  {
    if s == {} then [] else
      var m := Least(s);
      [m] + SortedSet(s - {m})
  }

  lemma RestOfDistinct<T>(xs: seq<T>)
    requires xs != []
    requires forall i, j :: 0 <= i < j < |xs| ==> xs[i] != xs[j]
    ensures forall x :: x in xs[1..] <==> x in xs && x != xs[0]
  {}

  // An ascending list without repeats is determined by its elements.
  lemma {:induction false} SortedSetUnique(xs: seq<string>, s: set<string>)
    requires Ascending(xs)
    requires forall i, j :: 0 <= i < j < |xs| ==> xs[i] != xs[j]
    requires forall x :: x in xs <==> x in s
    ensures xs == SortedSet(s)
  {
    hide Leq;
    assert xs != [] ==> xs[0] in s;
    if s != {} {
      var m := Least(s);
      assert m in xs;
      assert m == xs[0] by {
        var k :| 0 <= k < |xs| && xs[k] == m;
        if k != 0 { LeqAntisymmetric(m, xs[0]); }
      }
      RestOfDistinct(xs);
      assert xs == [m] + xs[1..];
      SortedSetUnique(xs[1..], s - {m});
    }
  }

  // Puts a string in its place in an ascending list: one step of sort.Strings.
  method InsertSorted(xs: seq<string>, x: string) returns (ys: seq<string>)
    requires Ascending(xs) && x !in xs
    requires forall i, j :: 0 <= i < j < |xs| ==> xs[i] != xs[j]
    ensures Ascending(ys)
    ensures forall i, j :: 0 <= i < j < |ys| ==> ys[i] != ys[j]
    ensures forall y :: y in ys <==> y == x || y in xs
  {
    var p := |xs|;
    while p > 0 && !Leq(xs[p - 1], x)
      invariant 0 <= p <= |xs|
      invariant forall k :: p <= k < |xs| ==> Leq(x, xs[k])
    {
      LeqTotal(xs[p - 1], x);
      p := p - 1;
    }
    forall k | 0 <= k < p ensures Leq(xs[k], x) {
      if k < p - 1 { LeqTransitive(xs[k], xs[p - 1], x); }
    }
    ys := xs[..p] + [x] + xs[p..];
    forall y ensures y in ys <==> y == x || y in xs {
      assert xs == xs[..p] + xs[p..];
    }
  }

  // Collects a set of strings in arbitrary order and sorts it.
  method SortKeys(s: set<string>) returns (keys: seq<string>)
    ensures keys == SortedSet(s)
    ensures Ascending(keys) && forall i, j :: 0 <= i < j < |keys| ==> keys[i] != keys[j]
  {
    var rest := s;
    keys := [];
    while rest != {}
      invariant rest <= s
      invariant Ascending(keys)
      invariant forall i, j :: 0 <= i < j < |keys| ==> keys[i] != keys[j]
      invariant forall x :: x in keys <==> x in s - rest
      decreases rest
    {
      var x :| x in rest;
      keys := InsertSorted(keys, x);
      rest := rest - {x};
    }
    SortedSetUnique(keys, s);
  }

  // ------------------------------------------------------------ sums over maps

  ghost function SumMap<K>(m: map<K, int>): int
    decreases |m|
  {
    if m == map[] then 0 else
      var k :| k in m;
      SmallerMap(m, k);
      m[k] + SumMap(m - {k})
  }

  lemma SmallerMap<K, V>(m: map<K, V>, k: K)
    requires k in m
    ensures |m - {k}| < |m|
  {
    assert (m - {k}).Keys == m.Keys - {k};
    assert |m.Keys - {k}| == |m.Keys| - 1;
  }

  lemma SomeKey<K, V>(m: map<K, V>) returns (k: K)
    requires |m| > 0
    ensures k in m
  {
    k :| k in m;
  }

  lemma SomeElement<T>(s: set<T>) returns (x: T)
    requires s != {}
    ensures x in s
  {
    x :| x in s;
  }

  lemma {:induction false} SumMapRemove<K>(m: map<K, int>, k: K)
    requires k in m
    ensures SumMap(m) == m[k] + SumMap(m - {k})
    decreases |m|
  {
    var j :| j in m && SumMap(m) == m[j] + SumMap(m - {j});
    if j != k {
      SmallerMap(m, j);
      SmallerMap(m, k);
      SumMapRemove(m - {j}, k);
      SumMapRemove(m - {k}, j);
      assert m - {j} - {k} == m - {k} - {j};
    }
  }

  lemma SumMapUpdate<K>(m: map<K, int>, k: K, v: int)
    ensures SumMap(m[k := v]) == v + SumMap(m - {k})
  {
    SumMapRemove(m[k := v], k);
    assert m[k := v] - {k} == m - {k};
  }

  lemma {:induction false} SumMapZero<K>(m: map<K, int>)
    requires forall k :: k in m ==> m[k] == 0
    ensures SumMap(m) == 0
    decreases |m|
  {
    if m != map[] {
      var k :| k in m;
      SmallerMap(m, k);
      SumMapRemove(m, k);
      SumMapZero(m - {k});
    }
  }

  lemma {:induction false} SumMapAtLeast<K>(m: map<K, int>, k: K)
    requires k in m && forall j :: j in m ==> 0 <= m[j]
    ensures m[k] <= SumMap(m)
    decreases |m|
  {
    SumMapRemove(m, k);
    SumMapNonNegative(m - {k});
  }

  lemma {:induction false} SumMapNonNegative<K>(m: map<K, int>)
    requires forall j :: j in m ==> 0 <= m[j]
    ensures 0 <= SumMap(m)
    decreases |m|
  {
    if m != map[] {
      var k :| k in m;
      SmallerMap(m, k);
      SumMapRemove(m, k);
      SumMapNonNegative(m - {k});
    }
  }

  lemma {:induction false} SumMapHideZeros<K>(all: map<K, int>, shown: map<K, int>)
    requires forall s :: s in shown <==> s in all && all[s] != 0
    requires forall s :: s in shown ==> shown[s] == all[s]
    ensures SumMap(shown) == SumMap(all)
    decreases |all|
  {
    if |all| == 0 {
      assert all == map[] && shown == map[];
    } else {
      var s := SomeKey(all);
      SmallerMap(all, s);
      SumMapRemove(all, s);
      if s in shown {
        SumMapRemove(shown, s);
        SumMapHideZeros(all - {s}, shown - {s});
      } else {
        SumMapHideZeros(all - {s}, shown);
      }
    }
  }
}
