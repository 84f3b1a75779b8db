// The digest of a write (triggeringDigest in storage/chart_file.go): the list of
// its states as sort.Slice leaves it, by identity. When do two writes with one
// digest leave the same states?

module ChartDigest {
  import opened Basics
  import opened ChartRing

  // Up to this length sort.Slice is an insertion sort. Beyond, it is not stable.
  const INSERTION := 12

  // What sort.Slice does to longer lists: which element goes to each place. It
  // only ever compares identities, so they alone decide.
  type Order = seq<string> -> seq<nat>

  function Names(states: seq<State>): seq<string> { seq(|states|, i requires 0 <= i < |states| => states[i].identity) }

  // ------------------------------------------------------------------ the sort

  ghost predicate Within(x: seq<string>, p: seq<nat>) { forall k :: 0 <= k < |p| ==> p[k] < |x| }

  // The elements at p are sorted by identity, each there once.
  ghost predicate Sorted(x: seq<string>, p: seq<nat>) {
    && Within(x, p)
    && (forall j, k :: 0 <= j < k < |p| ==> p[j] != p[k])
    && (forall j, k :: 0 <= j < k < |p| ==> Leq(x[p[j]], x[p[k]]))
  }

  // All of them.
  ghost predicate Sorts(x: seq<string>, p: seq<nat>) {
    Sorted(x, p) && |p| == |x| && forall i :: 0 <= i < |x| ==> i in p
  }

  ghost predicate SortsAll(order: Order) { forall x: seq<string> :: |x| > INSERTION ==> Sorts(x, order(x)) }

  // Element i moves forward past those whose identity is greater.
  function Placed(x: seq<string>, p: seq<nat>, i: nat): seq<nat> {
    if p != [] && p[|p| - 1] < |x| && i < |x| && !Leq(x[p[|p| - 1]], x[i])
    then Placed(x, p[..|p| - 1], i) + [p[|p| - 1]] else p + [i]
  }

  function InsertionSort(x: seq<string>, n: nat): seq<nat> {
    if n == 0 then [] else Placed(x, InsertionSort(x, n - 1), n - 1)
  }

  function Places(order: Order, x: seq<string>): seq<nat> {
    if |x| <= INSERTION then InsertionSort(x, |x|) else order(x)
  }

  function Arranged(states: seq<State>, p: seq<nat>): seq<State> {
    if forall k :: 0 <= k < |p| ==> p[k] < |states| then seq(|p|, k requires 0 <= k < |p| => states[p[k]]) else []
  }

  function Digest(order: Order, states: seq<State>): seq<State> { Arranged(states, Places(order, Names(states))) }

  // Elements of one identity stay as they were.
  ghost predicate Stable(x: seq<string>, p: seq<nat>) {
    Within(x, p) && forall j, k :: 0 <= j < k < |p| && x[p[j]] == x[p[k]] ==> p[j] < p[k]
  }

  lemma {:induction false} PlacedSorts(x: seq<string>, p: seq<nat>, i: nat)
    requires i < |x| && Sorted(x, p) && Stable(x, p) && forall j :: j in p ==> j < i
    ensures Sorted(x, Placed(x, p, i)) && Stable(x, Placed(x, p, i)) && |Placed(x, p, i)| == |p| + 1
    ensures forall j :: j in Placed(x, p, i) <==> j == i || j in p
  {
    hide Leq, Sorted, Stable;
    if p == [] {
      PlacedLast(x, p, i);
    } else {
      var rest, last := p[..|p| - 1], p[|p| - 1];
      assert p == rest + [last] && last in p;
      assert forall j :: j in rest ==> j in p;
      SortedPrefix(x, rest, last);
      if Leq(x[last], x[i]) {
        PlacedLast(x, p, i);
      } else {
        PlacedSorts(x, rest, i);
        LeqTotal(x[last], x[i]);
        PlacedBefore(x, rest, Placed(x, rest, i), i, last);
      }
    }
  }

  lemma SortedPrefix(x: seq<string>, rest: seq<nat>, last: nat)
    requires Sorted(x, rest + [last]) && Stable(x, rest + [last])
    ensures last < |x| && Sorted(x, rest) && Stable(x, rest)
  {
    hide Leq;
    var p := rest + [last];
    assert p[|rest|] == last && forall j :: 0 <= j < |rest| ==> rest[j] == p[j];
  }

  lemma PlacedLast(x: seq<string>, p: seq<nat>, i: nat)
    requires i < |x| && Sorted(x, p) && Stable(x, p) && (forall j :: j in p ==> j < i)
    requires p != [] ==> p[|p| - 1] < |x| && Leq(x[p[|p| - 1]], x[i])
    ensures Sorted(x, p + [i]) && Stable(x, p + [i])
  {
    hide Leq;
    forall j | 0 <= j < |p| ensures Leq(x[p[j]], x[i]) && p[j] < i {
      assert p[j] in p;
      if j < |p| - 1 { LeqTransitive(x[p[j]], x[p[|p| - 1]], x[i]); }
    }
  }

  lemma PlacedBefore(x: seq<string>, rest: seq<nat>, placed: seq<nat>, i: nat, last: nat)
    requires i < |x| && last < |x| && last != i && Leq(x[i], x[last]) && x[i] != x[last]
    requires Sorted(x, placed) && Stable(x, placed) && Sorted(x, rest + [last]) && Stable(x, rest + [last])
    requires forall j :: j in placed <==> j == i || j in rest
    ensures Sorted(x, placed + [last]) && Stable(x, placed + [last])
  {
    hide Leq;
    var p := rest + [last];
    forall j | 0 <= j < |placed|
      ensures placed[j] != last && Leq(x[placed[j]], x[last]) && (x[placed[j]] == x[last] ==> placed[j] < last)
    {
      assert placed[j] in placed;
      if placed[j] != i {
        var k :| 0 <= k < |rest| && rest[k] == placed[j];
        assert p[k] == rest[k] && p[|rest|] == last;
      }
    }
  }

  lemma {:induction false} InsertionSorts(x: seq<string>, n: nat)
    requires n <= |x|
    ensures Sorted(x, InsertionSort(x, n)) && Stable(x, InsertionSort(x, n)) && |InsertionSort(x, n)| == n
    ensures forall j: nat :: j in InsertionSort(x, n) <==> j < n
  {
    hide Sorted, Stable, Placed;
    if n == 0 {
      NothingToSort(x);
    } else {
      var p := InsertionSort(x, n - 1);
      InsertionSorts(x, n - 1);
      PlacedSorts(x, p, n - 1);
      assert InsertionSort(x, n) == Placed(x, p, n - 1);
    }
  }

  lemma NothingToSort(x: seq<string>)
    ensures Sorted(x, []) && Stable(x, [])
  {}

  lemma PlacesSort(order: Order, x: seq<string>)
    requires SortsAll(order)
    ensures Sorts(x, Places(order, x)) && (|x| <= INSERTION ==> Stable(x, Places(order, x)))
  {
    hide Leq;
    if |x| <= INSERTION { InsertionSorts(x, |x|); }
  }

  lemma DigestAt(order: Order, states: seq<State>)
    requires SortsAll(order)
    ensures var p := Places(order, Names(states));
            |Digest(order, states)| == |states| && Sorts(Names(states), p)
            && forall k :: 0 <= k < |states| ==> Digest(order, states)[k] == states[p[k]]
  {
    hide Places, Leq;
    PlacesSort(order, Names(states));
  }

  // ------------------------------------------------------- what a write leaves

  // The last element of its identity.
  ghost predicate IsLast(x: seq<string>, i: nat) { i < |x| && forall j :: i < j < |x| ==> x[j] != x[i] }

  // The write leaves the identity of its state i at that state.
  ghost predicate LeavesAt(states: seq<State>, i: nat) {
    && i < |states| && states[i].identity in Merge(map[], states)
    && Merge(map[], states)[states[i].identity] == states[i]
  }

  // A write leaves each of its identities at the last state that names it.
  lemma {:induction false} MergeAtLast(states: seq<State>)
    ensures forall id :: id in Merge(map[], states) <==> id in Names(states)
    ensures forall i: nat :: IsLast(Names(states), i) ==> LeavesAt(states, i)
  {
    if states != [] {
      var rest, last := states[..|states| - 1], states[|states| - 1];
      MergeAtLast(rest);
      assert Names(states) == Names(rest) + [last.identity];
      forall i: nat | IsLast(Names(states), i) ensures LeavesAt(states, i) {
        if i < |rest| {
          assert Names(states)[|rest|] != Names(states)[i];
          assert forall j :: i < j < |rest| ==> Names(rest)[j] == Names(states)[j];
          assert IsLast(Names(rest), i);
        }
      }
    }
  }

  lemma {:induction false} LastExists(x: seq<string>, i: nat) returns (j: nat)
    requires i < |x|
    ensures IsLast(x, j) && x[j] == x[i]
    decreases |x| - i
  {
    if k :| i < k < |x| && x[k] == x[i] {
      j := LastExists(x, k);
    } else {
      j := i;
    }
  }

  // Two lists of identities sorted to the same list.
  ghost predicate SameSorted(x: seq<string>, p: seq<nat>, y: seq<string>, q: seq<nat>) {
    && |p| == |q| && Within(x, p) && Within(y, q)
    && forall k :: 0 <= k < |p| ==> x[p[k]] == y[q[k]]
  }

  // The last of each identity goes to the same place.
  ghost predicate SameLasts(x: seq<string>, p: seq<nat>, y: seq<string>, q: seq<nat>)
    requires |p| == |q|
  {
    forall k :: 0 <= k < |p| ==> (IsLast(x, p[k]) <==> IsLast(y, q[k]))
  }

  // What decides, and it is about identities and the sort alone.
  ghost predicate Agree(order: Order, x: seq<string>, y: seq<string>) {
    SameSorted(x, Places(order, x), y, Places(order, y)) ==> SameLasts(x, Places(order, x), y, Places(order, y))
  }

  // Writes of these identities with one digest leave the same states.
  ghost predicate NeverMisled(order: Order, x: seq<string>, y: seq<string>) {
    forall a, b :: Names(a) == x && Names(b) == y && Digest(order, a) == Digest(order, b) ==> Merge(map[], a) == Merge(map[], b)
  }

  lemma SameDigestSameSorted(order: Order, a: seq<State>, b: seq<State>)
    requires SortsAll(order) && Digest(order, a) == Digest(order, b)
    ensures SameSorted(Names(a), Places(order, Names(a)), Names(b), Places(order, Names(b)))
  {
    hide Places, Leq, Digest;
    DigestAt(order, a);
    DigestAt(order, b);
    var p, q := Places(order, Names(a)), Places(order, Names(b));
    forall k | 0 <= k < |p| ensures Names(a)[p[k]] == Names(b)[q[k]] {
      assert Digest(order, a)[k].identity == Names(a)[p[k]];
    }
  }

  lemma SameNamesLeft(order: Order, a: seq<State>, b: seq<State>)
    requires SortsAll(order) && Digest(order, a) == Digest(order, b)
    ensures Merge(map[], a).Keys <= Merge(map[], b).Keys
  {
    hide Places, Leq, Digest, Merge;
    var p, q := Places(order, Names(a)), Places(order, Names(b));
    SameDigestSameSorted(order, a, b);
    DigestAt(order, a);
    MergeAtLast(a);
    MergeAtLast(b);
    forall id | id in Names(a) ensures id in Names(b) {
      var i :| 0 <= i < |a| && Names(a)[i] == id;
      assert i in p;
      var k :| 0 <= k < |p| && p[k] == i;
      assert Names(b)[q[k]] == id;
    }
  }

  lemma AgreeLeavesSame(order: Order, a: seq<State>, b: seq<State>)
    requires SortsAll(order) && Digest(order, a) == Digest(order, b) && Agree(order, Names(a), Names(b))
    ensures Merge(map[], a) == Merge(map[], b)
  {
    hide Places, Leq, Digest, Merge, IsLast;
    var x, y, p, q := Names(a), Names(b), Places(order, Names(a)), Places(order, Names(b));
    SameDigestSameSorted(order, a, b);
    SameNamesLeft(order, a, b);
    SameNamesLeft(order, b, a);
    DigestAt(order, a);
    DigestAt(order, b);
    MergeAtLast(a);
    MergeAtLast(b);
    forall id | id in Merge(map[], a) ensures Merge(map[], a)[id] == Merge(map[], b)[id] {
      var any :| 0 <= any < |a| && x[any] == id;
      var i := LastExists(x, any);
      LastIn(x, i);
      assert i in p;
      var k :| 0 <= k < |p| && p[k] == i;
      assert IsLast(y, q[k]);
      assert Digest(order, a)[k] == a[i] && Digest(order, b)[k] == b[q[k]];
      assert a[i].identity == id && b[q[k]].identity == id;
    }
  }

  lemma LastIn(x: seq<string>, i: nat)
    requires IsLast(x, i)
    ensures i < |x|
  {}

  // A state for each place of the sorted list, no two alike.
  function Stamp(k: nat): string { seq(k, _ => 'x') }

  function PlaceOf(p: seq<nat>, i: nat): nat
    requires i in p
  {
    if p[|p| - 1] == i then |p| - 1 else
      assert p == p[..|p| - 1] + [p[|p| - 1]];
      PlaceOf(p[..|p| - 1], i)
  }

  lemma {:induction false} PlaceOfIs(p: seq<nat>, i: nat)
    requires i in p
    ensures PlaceOf(p, i) < |p| && p[PlaceOf(p, i)] == i
  {
    if p[|p| - 1] != i {
      assert p == p[..|p| - 1] + [p[|p| - 1]];
      PlaceOfIs(p[..|p| - 1], i);
    }
  }

  function Stamped(x: seq<string>, p: seq<nat>): seq<State> {
    seq(|x|, i requires 0 <= i < |x| => State(x[i], "", Stamp(if i in p then PlaceOf(p, i) else 0), ""))
  }

  lemma StampedDigest(order: Order, x: seq<string>)
    requires SortsAll(order)
    ensures var a, p := Stamped(x, Places(order, x)), Places(order, x);
            Names(a) == x && |p| == |x| && |Digest(order, a)| == |x|
            && forall k :: 0 <= k < |x| ==> p[k] < |x| && a[p[k]] == Digest(order, a)[k] == State(x[p[k]], "", Stamp(k), "")
  {
    hide Places, Leq, Digest, PlaceOf;
    var p := Places(order, x);
    var a := Stamped(x, p);
    assert Names(a) == x;
    DigestAt(order, a);
    forall k | 0 <= k < |x| ensures a[p[k]] == State(x[p[k]], "", Stamp(k), "") {
      assert p[k] in p;
      PlaceOfIs(p, p[k]);
    }
  }

  // If the last ones go to different places, some writes are taken for one another.
  lemma DisagreeMisleads(order: Order, x: seq<string>, y: seq<string>) returns (a: seq<State>, b: seq<State>)
    requires SortsAll(order) && !Agree(order, x, y)
    ensures Names(a) == x && Names(b) == y && Digest(order, a) == Digest(order, b) && Merge(map[], a) != Merge(map[], b)
    ensures a != [] && b != []
  {
    hide Places, Leq, Digest, Merge, Stamped, IsLast;
    var p, q := Places(order, x), Places(order, y);
    a, b := Stamped(x, p), Stamped(y, q);
    StampedDigest(order, x);
    StampedDigest(order, y);
    assert Digest(order, a) == Digest(order, b);
    var k :| 0 <= k < |p| && (IsLast(x, p[k]) <==> !IsLast(y, q[k]));
    if IsLast(x, p[k]) {
      OtherIsLeft(order, x, y, k);
    } else {
      OtherIsLeft(order, y, x, k);
    }
  }

  lemma OtherIsLeft(order: Order, x: seq<string>, y: seq<string>, k: nat)
    requires SortsAll(order) && SameSorted(x, Places(order, x), y, Places(order, y)) && k < |Places(order, x)|
    requires IsLast(x, Places(order, x)[k]) && !IsLast(y, Places(order, y)[k])
    ensures Merge(map[], Stamped(x, Places(order, x))) != Merge(map[], Stamped(y, Places(order, y)))
  {
    hide Places, Leq, Digest, Merge, Stamped, IsLast;
    var p, q := Places(order, x), Places(order, y);
    var a, b := Stamped(x, p), Stamped(y, q);
    StampedDigest(order, x);
    StampedDigest(order, y);
    DigestAt(order, b);
    MergeAtLast(a);
    MergeAtLast(b);
    var j := LastExists(y, q[k]);
    LastIn(y, j);
    assert j in q;
    var m :| 0 <= m < |q| && q[m] == j;
    assert m != k;
    assert |a[p[k]].name| == k && |b[q[m]].name| == m;
    assert Merge(map[], a)[x[p[k]]] == a[p[k]] && Merge(map[], b)[y[j]] == b[j];
  }

  // Writes with one digest leave the same states exactly when the sort puts the
  // last of each identity at the same place, whichever way they come.
  lemma DigestDecidesExactly(order: Order, x: seq<string>, y: seq<string>)
    requires SortsAll(order)
    ensures NeverMisled(order, x, y) <==> Agree(order, x, y)
  {
    hide Digest, Merge, Agree;
    if Agree(order, x, y) {
      forall a, b | Names(a) == x && Names(b) == y && Digest(order, a) == Digest(order, b) ensures Merge(map[], a) == Merge(map[], b) {
        AgreeLeavesSame(order, a, b);
      }
    } else {
      var a, b := DisagreeMisleads(order, x, y);
    }
  }

  // ------------------------------------------------------------ when they agree

  // Of equal identities a stable sort puts the last one last.
  lemma StableLasts(x: seq<string>, p: seq<nat>, k: nat)
    requires Sorts(x, p) && Stable(x, p) && k < |p|
    ensures IsLast(x, p[k]) <==> forall m :: k < m < |p| ==> x[p[m]] != x[p[k]]
  {
    hide Leq, Stable;
    if IsLast(x, p[k]) {
      forall m | k < m < |p| ensures x[p[m]] != x[p[k]] {
        if x[p[m]] == x[p[k]] { StableAt(x, p, k, m); }
      }
    }
    if forall m :: k < m < |p| ==> x[p[m]] != x[p[k]] {
      forall j | p[k] < j < |x| ensures x[j] != x[p[k]] {
        assert j in p;
        var m :| 0 <= m < |p| && p[m] == j;
        if x[j] == x[p[k]] && m < k { StableAt(x, p, m, k); }
      }
    }
  }

  lemma StableAt(x: seq<string>, p: seq<nat>, j: nat, k: nat)
    requires Stable(x, p) && j < k < |p| && p[j] < |x| && p[k] < |x| && x[p[j]] == x[p[k]]
    ensures p[j] < p[k]
  {}

  // So up to twelve states nothing can go wrong, however often one is named.
  lemma ShortAgree(order: Order, x: seq<string>, y: seq<string>)
    requires SortsAll(order) && |x| <= INSERTION
    ensures Agree(order, x, y)
  {
    hide Leq, Places, IsLast, Stable;
    var p, q := Places(order, x), Places(order, y);
    PlacesSort(order, x);
    PlacesSort(order, y);
    if SameSorted(x, p, y, q) {
      forall k | 0 <= k < |p| ensures IsLast(x, p[k]) <==> IsLast(y, q[k]) {
        StableLasts(x, p, k);
        StableLasts(y, q, k);
      }
    }
  }

  ghost predicate NamesOnce(x: seq<string>) { forall i, j :: 0 <= i < j < |x| ==> x[i] != x[j] }

  // Nor when an identity is named once only,
  lemma OnceAgree(order: Order, x: seq<string>, y: seq<string>)
    requires SortsAll(order) && NamesOnce(x)
    ensures Agree(order, x, y)
  {
    hide Leq, Places;
    var p, q := Places(order, x), Places(order, y);
    PlacesSort(order, x);
    PlacesSort(order, y);
    if SameSorted(x, p, y, q) {
      forall i, j | 0 <= i < j < |y| ensures y[i] != y[j] {
        assert i in q && j in q;
        var k :| 0 <= k < |q| && q[k] == i;
        var m :| 0 <= m < |q| && q[m] == j;
        assert p[k] != p[m] && x[p[k]] == y[i] && x[p[m]] == y[j];
      }
    }
  }

  // nor when the identities come in the same order.
  lemma SameAgree(order: Order, x: seq<string>)
    ensures Agree(order, x, x)
  {}

  // Writing again what has the same digest changes nothing.
  lemma MergeAgain(order: Order, states: map<string, State>, a: seq<State>, b: seq<State>)
    requires SortsAll(order) && Digest(order, a) == Digest(order, b) && Agree(order, Names(a), Names(b))
    ensures Merge(Merge(states, a), b) == Merge(states, a)
  {
    hide Merge, Digest, Agree;
    AgreeLeavesSame(order, a, b);
    MergeOver(states, a);
    MergeOver(Merge(states, a), b);
  }

  // A write lays its own states over those there are.
  lemma {:induction false} MergeOver(states: map<string, State>, more: seq<State>)
    ensures Merge(states, more) == states + Merge(map[], more)
  {
    if more != [] { MergeOver(states, more[..|more| - 1]); }
  }

  // ------------------------------------------------------------ when they do not

  function UpTo(n: nat): seq<nat> { seq(n, k requires 0 <= k < n => k) }

  function DownFrom(n: nat): seq<nat> { seq(n, k requires 0 <= k < n => n - 1 - k) }

  function Backward(states: seq<State>): seq<State> {
    seq(|states|, i requires 0 <= i < |states| => states[|states| - 1 - i])
  }

  // A sort that leaves a sorted list alone and turns a falling one around takes a
  // list and its reversal for the same write. An identity named twice, first at i
  // and last at j, is left at different states by the two.
  lemma ReversedMisleads(order: Order, states: seq<State>, i: nat, j: nat)
    requires |states| > INSERTION && i < j < |states| && states[i].identity == states[j].identity && states[i] != states[j]
    requires IsLast(Names(states), j) && IsLast(Names(Backward(states)), |states| - 1 - i)
    requires order(Names(states)) == UpTo(|states|) && order(Names(Backward(states))) == DownFrom(|states|)
    ensures Digest(order, states) == Digest(order, Backward(states)) == states
    ensures LeavesAt(states, j) && LeavesAt(Backward(states), |states| - 1 - i) && Backward(states)[|states| - 1 - i] == states[i]
    ensures Merge(map[], Backward(states)) != Merge(map[], states)
  {
    hide Merge, IsLast, Digest, Names, Backward;
    UpToDigest(order, states);
    DownFromDigest(order, states);
    MergeAtLast(states);
    MergeAtLast(Backward(states));
    BackwardAt(states, i);
  }

  lemma BackwardAt(states: seq<State>, i: nat)
    requires i < |states|
    ensures |Backward(states)| == |states| && Backward(states)[|states| - 1 - i] == states[i]
  {}

  lemma UpToDigest(order: Order, states: seq<State>)
    requires |states| > INSERTION && order(Names(states)) == UpTo(|states|)
    ensures Digest(order, states) == states
  {
    assert Arranged(states, UpTo(|states|)) == states;
  }

  lemma DownFromDigest(order: Order, states: seq<State>)
    requires |states| > INSERTION && order(Names(Backward(states))) == DownFrom(|states|)
    ensures Digest(order, Backward(states)) == states
  {
    assert Arranged(Backward(states), DownFrom(|states|)) == states;
  }
}
