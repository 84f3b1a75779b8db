// The store's bounded history across all identities: one ring each, and a global
// backstop that evicts the oldest transition (storage/storage.go).

module Timelines {
  import opened Basics
  import opened TransitionRing

  type Rings = map<string, seq<Transition>>

  function RingOf(rings: Rings, id: string): seq<Transition> { if id in rings then rings[id] else [] }

  function Lengths(rings: Rings): map<string, int> { map id | id in rings :: |rings[id]| }

  // The number of transitions held for all identities together.
  ghost function Total(rings: Rings): int { SumMap(Lengths(rings)) }

  ghost predicate RingsOk(rings: Rings, cap: nat) {
    forall id :: id in rings ==> id != "" && rings[id] != [] && RingOk(rings[id], cap)
  }

  function Merged(rings: Rings, id: string, xs: seq<Transition>, cap: nat): Rings {
    rings[id := AddAll(RingOf(rings, id), xs, cap)]
  }

  ghost predicate IsOldest(rings: Rings, id: string)
    requires forall j :: j in rings ==> rings[j] != []
  {
    id in rings && forall j :: j in rings ==> rings[id][0].changedAt <= rings[j][0].changedAt
  }

  function WithoutHead(rings: Rings, id: string): Rings
    requires id in rings && rings[id] != []
  {
    if |rings[id]| == 1 then rings - {id} else rings[id := rings[id][1..]]
  }

  ghost predicate IsSuffix(xs: seq<Transition>, ys: seq<Transition>) {
    |xs| <= |ys| && xs == ys[|ys| - |xs|..]
  }

  // How many of an identity's transitions are gone.
  function Gone(before: Rings, after: Rings, id: string): int
    requires id in before
  {
    |before[id]| - |RingOf(after, id)|
  }

  // Everything gone is from time t or before, and everything left from t or after.
  ghost predicate SplitAt(before: Rings, after: Rings, t: int) {
    && (forall i, k :: i in before && 0 <= k < Gone(before, after, i) && k < |before[i]| ==> before[i][k].changedAt <= t)
    && (forall j, m :: j in after && 0 <= m < |after[j]| ==> t <= after[j][m].changedAt)
  }

  ghost predicate SuffixesOf(before: Rings, after: Rings) {
    && (forall id :: id in after ==> id in before && after[id] != [])
    && (forall id :: id in before ==> IsSuffix(RingOf(after, id), before[id]))
  }

  // What is left of each ring is its newest part, and nothing gone, of whatever
  // identity, is newer than anything left.
  ghost predicate Shed(before: Rings, after: Rings) {
    SuffixesOf(before, after) && exists t :: SplitAt(before, after, t)
  }

  // The result of evicting down to the backstop. Which of several equally old
  // transitions goes first is up to the iteration order of a Go map.
  ghost predicate Evicted(before: Rings, after: Rings, backstop: nat) {
    Shed(before, after) && Total(after) == Min(Total(before), backstop)
  }

  // ------------------------------------------------------------------- counting

  lemma TotalUpdate(rings: Rings, id: string, ring: seq<Transition>)
    ensures Total(rings[id := ring]) == Total(rings) - |RingOf(rings, id)| + |ring|
  {
    var l := Lengths(rings);
    assert Lengths(rings[id := ring]) == l[id := |ring|];
    SumMapUpdate(l, id, |ring|);
    if id in rings { SumMapRemove(l, id); } else { assert l - {id} == l; }
  }

  lemma TotalDrop(rings: Rings, id: string)
    ensures Total(rings - {id}) == Total(rings) - |RingOf(rings, id)|
  {
    assert Lengths(rings - {id}) == Lengths(rings) - {id};
    if id in rings { SumMapRemove(Lengths(rings), id); } else { assert rings - {id} == rings; }
  }

  lemma TotalOfNone(rings: Rings)
    requires rings == map[]
    ensures Total(rings) == 0
  {
    SumMapZero(Lengths(rings));
  }

  // ------------------------------------------------------------------- merging

  lemma {:induction false} AddAllFills(entries: seq<Transition>, xs: seq<Transition>, cap: nat)
    requires cap > 0 && (entries != [] || xs != [])
    ensures AddAll(entries, xs, cap) != []
  {
    if xs != [] {
      var before := AddAll(entries, xs[..|xs| - 1], cap);
      assert Inserted(before, xs[|xs| - 1]) != [];
      if |xs| > 1 || entries != [] { AddAllFills(entries, xs[..|xs| - 1], cap); }
    }
  }

  lemma MergedOk(rings: Rings, id: string, xs: seq<Transition>, cap: nat)
    requires RingsOk(rings, cap) && id != "" && xs != [] && cap > 0
    ensures RingsOk(Merged(rings, id, xs, cap), cap)
  {
    AddAllFills(RingOf(rings, id), xs, cap);
    AddAllOk(RingOf(rings, id), xs, cap);
  }

  lemma {:induction false} AddAllGrows(entries: seq<Transition>, xs: seq<Transition>, cap: nat)
    requires |entries| <= cap
    ensures |entries| <= |AddAll(entries, xs, cap)| <= cap
  {
    if xs != [] { AddAllGrows(entries, xs[..|xs| - 1], cap); }
  }

  lemma MergedGrows(rings: Rings, id: string, xs: seq<Transition>, cap: nat)
    requires RingsOk(rings, cap)
    ensures Total(rings) <= Total(Merged(rings, id, xs, cap))
  {
    AddAllGrows(RingOf(rings, id), xs, cap);
    TotalUpdate(rings, id, AddAll(RingOf(rings, id), xs, cap));
  }

  // ------------------------------------------------------------------- evicting

  lemma {:induction false} ShedNothing(rings: Rings, cap: nat)
    requires RingsOk(rings, cap)
    ensures Shed(rings, rings)
  {
    if rings == map[] {
      assert SplitAt(rings, rings, 0);
    } else {
      var id := OldestExists(rings, cap);
      HeadIsLeast(rings, id, cap);
      assert SplitAt(rings, rings, rings[id][0].changedAt);
    }
  }

  lemma {:induction false} OldestExists(rings: Rings, cap: nat) returns (id: string)
    requires RingsOk(rings, cap) && rings != map[]
    ensures IsOldest(rings, id)
    decreases |rings|
  {
    id :| id in rings;
    var rest := rings - {id};
    SmallerMap(rings, id);
    if rest != map[] {
      var other := OldestExists(rest, cap);
      assert forall j :: j in rings ==> j == id || j in rest;
      id := if rings[id][0].changedAt <= rings[other][0].changedAt then id else other;
    } else {
      assert forall j :: j in rings ==> j == id || j in rest;
    }
  }

  lemma HeadIsLeast(rings: Rings, id: string, cap: nat)
    requires RingsOk(rings, cap) && IsOldest(rings, id)
    ensures forall j, m :: j in rings && 0 <= m < |rings[j]| ==> rings[id][0].changedAt <= rings[j][m].changedAt
  {
    forall j: string, m: nat | j in rings && m < |rings[j]| ensures rings[id][0].changedAt <= rings[j][m].changedAt {
      if m > 0 { SortedPair(rings[j], 0, m); }
    }
  }

  lemma ShedStep(before: Rings, rings: Rings, id: string, cap: nat)
    requires Shed(before, rings) && RingsOk(rings, cap) && IsOldest(rings, id)
    ensures Shed(before, WithoutHead(rings, id)) && RingsOk(WithoutHead(rings, id), cap)
    ensures Total(WithoutHead(rings, id)) == Total(rings) - 1
  {
    hide SumMap, RingOk;
    TotalUpdate(rings, id, rings[id][1..]);
    TotalDrop(rings, id);
    RingsAfterStep(rings, id, cap);
    HeadIsLeast(rings, id, cap);
    SuffixStep(before, rings, id);
    var t :| SplitAt(before, rings, t);
    SplitStep(before, rings, id, t);
  }

  lemma SuffixStep(before: Rings, rings: Rings, id: string)
    requires SuffixesOf(before, rings) && id in rings
    ensures SuffixesOf(before, WithoutHead(rings, id))
  {
    var after: Rings := WithoutHead(rings, id);
    forall j | j in before ensures IsSuffix(RingOf(after, j), before[j]) {
      assert IsSuffix(RingOf(rings, j), before[j]);
    }
  }

  lemma SplitStep(before: Rings, rings: Rings, id: string, t: int)
    requires SuffixesOf(before, rings) && id in rings && SplitAt(before, rings, t)
    requires forall j, m :: j in rings && 0 <= m < |rings[j]| ==> rings[id][0].changedAt <= rings[j][m].changedAt
    ensures SplitAt(before, WithoutHead(rings, id), rings[id][0].changedAt)
  {
    var after: Rings := WithoutHead(rings, id);
    var head := rings[id][0].changedAt;
    assert t <= head;
    forall i: string, k: nat | i in before && k < Gone(before, after, i) && k < |before[i]|
      ensures before[i][k].changedAt <= head
    {
      if k >= Gone(before, rings, i) {
        assert IsSuffix(RingOf(rings, i), before[i]);
        assert i == id && before[i][k] == rings[id][0];
      }
    }
    forall j: string, m: nat | j in after && m < |after[j]| ensures head <= after[j][m].changedAt {
      if j == id { assert after[j][m] == rings[j][m + 1]; }
    }
  }

  lemma RingsAfterStep(rings: Rings, id: string, cap: nat)
    requires RingsOk(rings, cap) && id in rings
    ensures RingsOk(WithoutHead(rings, id), cap)
  {}

  lemma HeldNotEmpty(rings: Rings, cap: nat)
    requires RingsOk(rings, cap)
    ensures forall id :: id in rings ==> rings[id] != []
    ensures "" !in rings
  {}

  // While anything is held there is something to evict.
  lemma SomethingHeld(rings: Rings, backstop: nat)
    requires Total(rings) > backstop
    ensures rings != map[]
  {
    if rings == map[] { TotalOfNone(rings); }
  }

  lemma SameLengthSame(before: Rings, after: Rings, id: string)
    requires Shed(before, after) && id in before && Gone(before, after, id) == 0 && before[id] != []
    ensures id in after && after[id] == before[id]
  {}

  // Within the backstop nothing is evicted.
  lemma NothingEvicted(before: Rings, after: Rings, backstop: nat)
    requires Evicted(before, after, backstop) && Total(before) <= backstop
    requires forall id :: id in before ==> before[id] != []
    ensures after == before
  {
    forall id | id in before ensures id in after && after[id] == before[id] {
      if Gone(before, after, id) > 0 {
        LessTotal(before, after, id);
      }
      SameLengthSame(before, after, id);
    }
  }

  // Bringing in one more ring after an eviction, and evicting again, is evicting
  // once with that ring there from the start.
  lemma EvictedAbsorbs(all: Rings, some: Rings, after: Rings, id: string, ring: seq<Transition>, backstop: nat)
    requires Evicted(all, some, backstop) && id !in all && ring != []
    requires forall j :: j in all ==> all[j] != []
    requires Evicted(some[id := ring], after, backstop)
    ensures Evicted(all[id := ring], after, backstop)
  {
    hide SplitAt, SuffixesOf, SumMap;
    SuffixesMeet(all, some, after, id, ring);
    TotalUpdate(all, id, ring);
    TotalUpdate(some, id, ring);
    SplitsMeet(all, some, after, id, ring, backstop);
  }

  lemma SuffixOfSuffix(xs: seq<Transition>, ys: seq<Transition>, zs: seq<Transition>)
    requires IsSuffix(xs, ys) && IsSuffix(ys, zs)
    ensures IsSuffix(xs, zs)
  {}

  lemma SuffixesMeet(all: Rings, some: Rings, after: Rings, id: string, ring: seq<Transition>)
    requires SuffixesOf(all, some) && id !in all && SuffixesOf(some[id := ring], after)
    ensures SuffixesOf(all[id := ring], after) && id !in some
  {
    hide IsSuffix;
    forall j | j in all && j != id ensures IsSuffix(RingOf(after, j), all[j]) {
      assert IsSuffix(RingOf(some, j), all[j]);
      if j in some {
        assert IsSuffix(RingOf(after, j), some[id := ring][j]);
        SuffixOfSuffix(RingOf(after, j), some[j], all[j]);
      } else {
        assert j !in after;
      }
    }
    assert IsSuffix(RingOf(after, id), some[id := ring][id]);
  }

  lemma SplitsMeet(all: Rings, some: Rings, after: Rings, id: string, ring: seq<Transition>, backstop: nat)
    requires Evicted(all, some, backstop) && id !in all && id !in some && ring != []
    requires forall j :: j in all ==> all[j] != []
    requires Evicted(some[id := ring], after, backstop) && SuffixesOf(all[id := ring], after)
    ensures Shed(all[id := ring], after)
  {
    hide SumMap, IsSuffix, SplitAt;
    var t: int :| SplitAt(all, some, t);
    var u: int :| SplitAt(some[id := ring], after, u);
    if Total(all) <= backstop {
      NothingEvicted(all, some, backstop);
      assert SplitAt(all[id := ring], after, u);
    } else if t <= u {
      SplitLater(all, some, after, id, ring, t, u);
    } else {
      OnlyNewGone(all, some, after, id, ring, t, u, backstop);
      SplitEarlier(all, some, id, ring, t, u);
      assert SplitAt(all[id := ring], after, t);
    }
  }

  lemma SplitLater(all: Rings, some: Rings, after: Rings, id: string, ring: seq<Transition>, t: int, u: int)
    requires SuffixesOf(all, some) && SuffixesOf(some[id := ring], after) && id !in all
    requires SplitAt(all, some, t) && SplitAt(some[id := ring], after, u) && t <= u
    ensures SplitAt(all[id := ring], after, u)
  {
    var whole, part := all[id := ring], some[id := ring];
    forall i: string, k: nat | i in whole && k < Gone(whole, after, i) && k < |whole[i]| ensures whole[i][k].changedAt <= u {
      if i == id {
        assert k < Gone(part, after, i);
      } else if k >= Gone(all, some, i) {
        assert IsSuffix(RingOf(some, i), all[i]);
        var m := k - Gone(all, some, i);
        assert all[i][k] == part[i][m] && m < Gone(part, after, i);
      }
    }
  }

  // When the second eviction reaches less far than the first, it takes nothing
  // but the new ring, and that whole.
  lemma OnlyNewGone(all: Rings, some: Rings, after: Rings, id: string, ring: seq<Transition>, t: int, u: int, backstop: nat)
    requires id !in some && Total(some) == backstop && Evicted(some[id := ring], after, backstop)
    requires SplitAt(some[id := ring], after, u) && SplitAt(all, some, t) && u < t && SuffixesOf(all, some)
    ensures after == some
    ensures forall k :: 0 <= k < |ring| ==> ring[k].changedAt <= u
  {
    hide SumMap, Total, RingOf;
    OldStays(all, some, after, id, ring, t, u);
    TotalUpdate(some, id, RingOf(after, id));
    NewGoes(some, after, id, backstop);
    assert RingOf(after, id) == [];
    forall k | 0 <= k < |ring| ensures ring[k].changedAt <= u {
      assert k < Gone(some[id := ring], after, id) && some[id := ring][id][k] == ring[k];
    }
  }

  lemma OldStays(all: Rings, some: Rings, after: Rings, id: string, ring: seq<Transition>, t: int, u: int)
    requires id !in some && SuffixesOf(some[id := ring], after) && SuffixesOf(all, some)
    requires SplitAt(some[id := ring], after, u) && SplitAt(all, some, t) && u < t
    ensures forall j :: j in some ==> j in after && after[j] == some[j]
    ensures forall j :: j in after ==> j in some || j == id
  {
    var part: Rings := some[id := ring];
    forall j | j in some ensures j in after && after[j] == some[j] {
      assert IsSuffix(RingOf(after, j), part[j]);
      assert t <= some[j][0].changedAt == part[j][0].changedAt;
      assert Gone(part, after, j) <= 0;
    }
  }

  lemma NewGoes(some: Rings, after: Rings, id: string, backstop: nat)
    requires id !in some && Total(some) == backstop && Total(after) <= backstop
    requires forall j :: j in some ==> j in after && after[j] == some[j]
    requires forall j :: j in after ==> (j in some || j == id) && after[j] != []
    ensures after == some && RingOf(after, id) == []
  {
    hide SumMap;
    if id in after {
      assert after == some[id := after[id]];
      TotalUpdate(some, id, after[id]);
    }
    assert after == some;
  }

  lemma SplitEarlier(all: Rings, some: Rings, id: string, ring: seq<Transition>, t: int, u: int)
    requires SplitAt(all, some, t) && id !in all && id !in some && u < t
    requires forall k :: 0 <= k < |ring| ==> ring[k].changedAt <= u
    ensures SplitAt(all[id := ring], some, t)
  {
    var whole := all[id := ring];
    forall i: string, k: nat | i in whole && k < Gone(whole, some, i) && k < |whole[i]| ensures whole[i][k].changedAt <= t {
      if i != id { assert k < Gone(all, some, i); }
    }
  }

  lemma LessTotal(before: Rings, after: Rings, id: string)
    requires Shed(before, after) && id in before && Gone(before, after, id) > 0
    ensures Total(after) < Total(before)
  {
    hide SumMap;
    TotalDrop(before, id);
    TotalDrop(after, id);
    forall j | j in before - {id} ensures |RingOf(after, j)| <= |before[j]| {
      assert IsSuffix(RingOf(after, j), before[j]);
    }
    TotalMonotone(after - {id}, before - {id});
  }

  lemma {:induction false} TotalMonotone(small: Rings, big: Rings)
    requires forall j :: j in small ==> j in big
    requires forall j :: j in big ==> |RingOf(small, j)| <= |big[j]|
    ensures Total(small) <= Total(big)
    decreases |big|
  {
    if big == map[] {
      assert small == map[];
    } else {
      var j :| j in big;
      SmallerMap(big, j);
      TotalDrop(big, j);
      TotalDrop(small, j);
      TotalMonotone(small - {j}, big - {j});
    }
  }
}
