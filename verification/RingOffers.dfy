// What is left of everything a store was offered, when the backstop cuts in while
// it takes transitions in one identity after another (appendTransitions in
// storage/storage.go): the newest of it.

module RingOffers {
  import opened Basics
  import opened TransitionRing
  import opened Timelines

  // The keys offered for each identity so far.
  type Offers = map<string, set<Key>>

  function OfferOf(offers: Offers, id: string): set<Key> { if id in offers then offers[id] else {} }

  function OffersOf(rings: Rings): Offers { map id | id in rings :: KeySet(rings[id]) }

  function Offered(offers: Offers, id: string, xs: seq<Transition>): Offers { offers[id := OfferOf(offers, id) + KeySet(xs)] }

  ghost predicate NotAfter(k: Key, ring: seq<Transition>) { forall i :: 0 <= i < |ring| ==> k.time <= ring[i].changedAt }

  // A missing key has a reason: its ring is full of entries not older.
  ghost predicate Excused(ring: seq<Transition>, cap: nat, k: Key) { |ring| == cap && NotAfter(k, ring) }

  ghost predicate Within(rings: Rings, offers: Offers) { forall id: string :: KeySet(RingOf(rings, id)) <= OfferOf(offers, id) }

  ghost predicate Complete(rings: Rings, offers: Offers, cap: nat) {
    Within(rings, offers) && forall id: string, k :: k in OfferOf(offers, id) && k !in KeySet(RingOf(rings, id)) ==> Excused(RingOf(rings, id), cap, k)
  }

  // Everything held is from t or after, and what is missing without that reason is
  // from t or before.
  ghost predicate NewestFrom(rings: Rings, offers: Offers, cap: nat, t: int) {
    && Within(rings, offers)
    && (forall id: string, k :: k in OfferOf(offers, id) && k !in KeySet(RingOf(rings, id)) ==> Excused(RingOf(rings, id), cap, k) || k.time <= t)
    && (forall id: string, i :: 0 <= i < |RingOf(rings, id)| ==> t <= RingOf(rings, id)[i].changedAt)
  }

  // The rings hold as much as the backstop lets them, and it is the newest.
  ghost predicate CutToNewest(rings: Rings, offers: Offers, cap: nat, backstop: nat) {
    Total(rings) == backstop && exists t :: NewestFrom(rings, offers, cap, t)
  }

  // ------------------------------------------------------------------- one ring

  // However old the additions, at least as many as before are from t or after.
  ghost predicate LastFrom(ring: seq<Transition>, n: nat, t: int) {
    n <= |ring| && forall i :: |ring| - n <= i < |ring| ==> t <= ring[i].changedAt
  }

  lemma AddToLastFrom(ring: seq<Transition>, x: Transition, cap: nat, n: nat, t: int)
    requires RingOk(ring, cap) && LastFrom(ring, n, t)
    ensures LastFrom(AddTo(ring, x, cap), n, t)
  {
    InsertAtSplits(ring, x.changedAt);
    var p := InsertAt(ring, x.changedAt);
    var more := Inserted(ring, x);
    forall i | |more| - n <= i < |more| ensures t <= more[i].changedAt {
      if i == p && p > 0 { assert ring[p - 1].changedAt <= x.changedAt; }
    }
  }

  lemma {:induction false} AddAllLastFrom(ring: seq<Transition>, xs: seq<Transition>, cap: nat, n: nat, t: int)
    requires RingOk(ring, cap) && LastFrom(ring, n, t)
    ensures LastFrom(AddAll(ring, xs, cap), n, t)
  {
    if xs != [] {
      hide AddTo, LastFrom, RingOk;
      AddAllLastFrom(ring, xs[..|xs| - 1], cap, n, t);
      AddAllOk(ring, xs[..|xs| - 1], cap);
      AddToLastFrom(AddAll(ring, xs[..|xs| - 1], cap), xs[|xs| - 1], cap, n, t);
    }
  }

  // What one addition leaves missing.
  lemma AddToExcuses(ring: seq<Transition>, x: Transition, cap: nat, k: Key)
    requires RingOk(ring, cap) && k !in KeySet(AddTo(ring, x, cap))
    ensures k in KeySet(ring) || k == KeyOf(x) || Excused(ring, cap, k) ==> Excused(AddTo(ring, x, cap), cap, k)
  {
    hide Sorted, Distinct;
    HasIsMember(ring, KeyOf(x));
    if !Has(ring, KeyOf(x)) {
      InsertedKeys(ring, x);
      InsertedOk(ring, x);
      if k in KeySet(ring) || k == KeyOf(x) || Excused(ring, cap, k) { TrimExcuses(ring, Inserted(ring, x), x, cap, k); }
    }
  }

  lemma OnlyHeadGoes(all: seq<Transition>, cap: nat, k: Key)
    requires |all| <= cap + 1 && k in KeySet(all) && k !in KeySet(LastOf(all, cap))
    ensures |all| == cap + 1 && KeyOf(all[0]) == k
  {
    var t :| t in all && KeyOf(t) == k;
    assert t !in LastOf(all, cap);
    if |all| == cap + 1 { assert all == [all[0]] + LastOf(all, cap); }
  }

  lemma TrimExcuses(ring: seq<Transition>, all: seq<Transition>, x: Transition, cap: nat, k: Key)
    requires Sorted(all) && |all| == |ring| + 1 <= cap + 1 && KeySet(all) == KeySet(ring) + {KeyOf(x)}
    requires all == Inserted(ring, x) && Sorted(ring)
    requires k !in KeySet(LastOf(all, cap)) && (k in KeySet(all) || Excused(ring, cap, k))
    ensures Excused(LastOf(all, cap), cap, k)
  {
    var kept := LastOf(all, cap);
    if k in KeySet(all) {
      OnlyHeadGoes(all, cap, k);
      forall m | 0 <= m < |kept| ensures k.time <= kept[m].changedAt { assert kept[m] == all[m + 1]; }
    } else {
      InsertAtSplits(ring, x.changedAt);
      var p := InsertAt(ring, x.changedAt);
      forall m | 0 <= m < |kept| ensures k.time <= kept[m].changedAt {
        assert kept[m] == all[m + 1];
        if m + 1 == p { assert ring[p - 1].changedAt <= x.changedAt; }
      }
    }
  }

  lemma {:induction false} AddAllExcuses(ring: seq<Transition>, xs: seq<Transition>, cap: nat, k: Key)
    requires RingOk(ring, cap) && k !in KeySet(AddAll(ring, xs, cap))
    ensures k in KeySet(ring) || k in KeySet(xs) || Excused(ring, cap, k) ==> Excused(AddAll(ring, xs, cap), cap, k)
  {
    if xs != [] {
      hide AddTo, Excused, RingOk;
      var rest, last := xs[..|xs| - 1], xs[|xs| - 1];
      assert xs == rest + [last];
      KeySetSnoc(rest, last);
      AddAllOk(ring, rest, cap);
      if k !in KeySet(AddAll(ring, rest, cap)) { AddAllExcuses(ring, rest, cap, k); }
      AddToExcuses(AddAll(ring, rest, cap), last, cap, k);
    }
  }

  lemma {:induction false} AddAllWithin(ring: seq<Transition>, xs: seq<Transition>, cap: nat)
    ensures KeySet(AddAll(ring, xs, cap)) <= KeySet(ring) + KeySet(xs)
  {
    if xs != [] {
      var rest, last := xs[..|xs| - 1], xs[|xs| - 1];
      var before := AddAll(ring, rest, cap);
      assert xs == rest + [last];
      KeySetSnoc(rest, last);
      AddAllWithin(ring, rest, cap);
      InsertedKeys(before, last);
      LastKeys(Inserted(before, last), cap);
    }
  }

  lemma LastKeys(xs: seq<Transition>, n: nat)
    ensures KeySet(LastOf(xs, n)) <= KeySet(xs)
  {}

  // ------------------------------------------------------------------- all rings

  lemma NotInSuffix(left: seq<Transition>, ring: seq<Transition>, i: nat)
    requires IsSuffix(left, ring) && i < |ring| && ring[i] !in left
    ensures i < |ring| - |left|
  {
    assert forall j :: |ring| - |left| <= j < |ring| ==> ring[j] == left[j - (|ring| - |left|)];
  }

  // An eviction takes the oldest of the rings, so that a key it leaves missing is
  // from the time it reached or before, and an excuse it voids is too.
  lemma EvictedExcuses(before: Rings, after: Rings, cap: nat, id: string, k: Key, u: int)
    requires RingsOk(before, cap) && SuffixesOf(before, after) && SplitAt(before, after, u)
    requires k in KeySet(RingOf(before, id)) || Excused(RingOf(before, id), cap, k)
    requires k !in KeySet(RingOf(after, id))
    ensures Excused(RingOf(after, id), cap, k) || k.time <= u
  {
    hide RingOk;
    if id in before {
      var ring, left := before[id], RingOf(after, id);
      assert IsSuffix(left, ring);
      if k in KeySet(ring) {
        var t :| t in ring && KeyOf(t) == k;
        var i :| 0 <= i < |ring| && ring[i] == t;
        assert t !in left;
        NotInSuffix(left, ring, i);
        assert i < Gone(before, after, id);
      } else if |left| < |ring| {
        assert 0 < Gone(before, after, id) && ring[0].changedAt <= u;
      } else {
        assert left == ring;
      }
    }
  }

  lemma SuffixWithin(before: Rings, after: Rings, offers: Offers)
    requires Within(before, offers) && SuffixesOf(before, after)
    ensures Within(after, offers)
  {
    hide IsSuffix;
    forall id: string ensures KeySet(RingOf(after, id)) <= OfferOf(offers, id) {
      if id in before { SuffixKeysIn(RingOf(after, id), before[id]); } else { assert RingOf(after, id) == []; }
      assert KeySet(RingOf(before, id)) <= OfferOf(offers, id);
    }
  }

  lemma SuffixKeysIn(xs: seq<Transition>, ys: seq<Transition>)
    requires xs == [] || IsSuffix(xs, ys)
    ensures KeySet(xs) <= KeySet(ys)
  {}

  lemma MergedWithin(rings: Rings, offers: Offers, id: string, xs: seq<Transition>, cap: nat)
    requires Within(rings, offers)
    ensures Within(Merged(rings, id, xs, cap), Offered(offers, id, xs))
  {
    hide AddAll, KeySet;
    AddAllWithin(RingOf(rings, id), xs, cap);
    forall j: string ensures KeySet(RingOf(Merged(rings, id, xs, cap), j)) <= OfferOf(Offered(offers, id, xs), j) {
      assert KeySet(RingOf(rings, j)) <= OfferOf(offers, j);
    }
  }

  // Merging gives every key it leaves out its excuse, unless it was missing before
  // without one.
  lemma MergedExcuses(rings: Rings, offers: Offers, id: string, xs: seq<Transition>, cap: nat, j: string, k: Key)
    requires RingsOk(rings, cap)
    requires var merged := Merged(rings, id, xs, cap); k in OfferOf(Offered(offers, id, xs), j) && k !in KeySet(RingOf(merged, j))
    ensures Excused(RingOf(Merged(rings, id, xs, cap), j), cap, k)
         || (k in OfferOf(offers, j) && k !in KeySet(RingOf(rings, j)) && !Excused(RingOf(rings, j), cap, k))
  {
    hide AddAll, KeySet, Excused, RingOk;
    RingOfOk(rings, id, cap);
    if j == id { AddAllExcuses(RingOf(rings, id), xs, cap, k); }
  }

  lemma RingOfOk(rings: Rings, id: string, cap: nat)
    requires RingsOk(rings, cap)
    ensures RingOk(RingOf(rings, id), cap)
  {}

  lemma MergedComplete(rings: Rings, offers: Offers, id: string, xs: seq<Transition>, cap: nat)
    requires RingsOk(rings, cap) && Complete(rings, offers, cap)
    ensures Complete(Merged(rings, id, xs, cap), Offered(offers, id, xs), cap)
  {
    hide KeySet, Excused, RingsOk, Merged, Offered, OfferOf;
    var merged, more := Merged(rings, id, xs, cap), Offered(offers, id, xs);
    MergedWithin(rings, offers, id, xs, cap);
    forall j: string, k | k in OfferOf(more, j) && k !in KeySet(RingOf(merged, j)) ensures Excused(RingOf(merged, j), cap, k) {
      MergedExcuses(rings, offers, id, xs, cap, j, k);
    }
  }

  lemma RingsComplete(rings: Rings, cap: nat)
    ensures Complete(rings, OffersOf(rings), cap)
  {
    hide Excused;
    forall id: string ensures KeySet(RingOf(rings, id)) == OfferOf(OffersOf(rings), id) {
      if id !in rings { assert RingOf(rings, id) == [] && KeySet([]) == {}; }
    }
  }

  // The first time the backstop cuts in.
  lemma FirstCut(merged: Rings, after: Rings, offers: Offers, cap: nat, backstop: nat)
    requires RingsOk(merged, cap) && Complete(merged, offers, cap) && Evicted(merged, after, backstop) && Total(merged) > backstop
    ensures CutToNewest(after, offers, cap, backstop)
  {
    hide KeySet, Excused, SumMap, RingOk, SuffixesOf;
    var u: int :| SplitAt(merged, after, u);
    SuffixWithin(merged, after, offers);
    forall id: string, k | k in OfferOf(offers, id) && k !in KeySet(RingOf(after, id))
      ensures Excused(RingOf(after, id), cap, k) || k.time <= u
    {
      EvictedExcuses(merged, after, cap, id, k, u);
    }
    assert NewestFrom(after, offers, cap, u);
  }

  // Cutting again keeps to the newest: either it reaches as far as before, or it
  // takes back the old transitions that were just brought in.
  lemma NextCut(rings: Rings, offers: Offers, id: string, xs: seq<Transition>, after: Rings, cap: nat, backstop: nat, t: int)
    requires RingsOk(rings, cap) && cap > 0 && id != "" && xs != []
    requires NewestFrom(rings, offers, cap, t) && Total(rings) == backstop
    requires Evicted(Merged(rings, id, xs, cap), after, backstop)
    ensures CutToNewest(after, Offered(offers, id, xs), cap, backstop)
  {
    hide KeySet, Excused, SumMap, RingOk, SuffixesOf, Merged, Offered, OfferOf, SplitAt;
    var merged, more := Merged(rings, id, xs, cap), Offered(offers, id, xs);
    MergedOk(rings, id, xs, cap);
    MergedGrows(rings, id, xs, cap);
    MergedWithin(rings, offers, id, xs, cap);
    SuffixWithin(merged, after, more);
    var u: int :| SplitAt(merged, after, u);
    var v := Max(t, u);
    forall j: string, k | k in OfferOf(more, j) && k !in KeySet(RingOf(after, j))
      ensures Excused(RingOf(after, j), cap, k) || k.time <= v
    {
      if k in KeySet(RingOf(merged, j)) {
        EvictedExcuses(merged, after, cap, j, k, u);
      } else {
        MergedExcuses(rings, offers, id, xs, cap, j, k);
        if Excused(RingOf(merged, j), cap, k) { EvictedExcuses(merged, after, cap, j, k, u); }
      }
    }
    KeptLate(rings, offers, id, xs, after, cap, backstop, t, u);
    assert NewestFrom(after, more, cap, v);
  }

  lemma KeptLate(rings: Rings, offers: Offers, id: string, xs: seq<Transition>, after: Rings, cap: nat, backstop: nat, t: int, u: int)
    requires RingsOk(rings, cap) && NewestFrom(rings, offers, cap, t) && Total(rings) == backstop
    requires Evicted(Merged(rings, id, xs, cap), after, backstop) && SplitAt(Merged(rings, id, xs, cap), after, u)
    ensures forall j: string, i :: 0 <= i < |RingOf(after, j)| ==> Max(t, u) <= RingOf(after, j)[i].changedAt
  {
    hide KeySet, Excused, SumMap, AddAll, Complete, Within, RingOk;
    RingOfOk(rings, id, cap);
    var e := RingOf(rings, id);
    var ring := AddAll(e, xs, cap);
    AddAllLastFrom(e, xs, cap, |e|, t);
    if u < t {
      OldGoFirst(rings, after, id, ring, t, u, backstop);
    }
  }

  // When the eviction stops short of t, all it took is from the new ring, and what
  // it left there is no more than was there before.
  lemma OldGoFirst(rings: Rings, after: Rings, id: string, ring: seq<Transition>, t: int, u: int, backstop: nat)
    requires Total(rings) == backstop && Evicted(rings[id := ring], after, backstop) && SplitAt(rings[id := ring], after, u) && u < t
    requires LastFrom(ring, |RingOf(rings, id)|, t) && forall j :: j in rings ==> rings[j] != []
    requires forall j: string, i :: 0 <= i < |RingOf(rings, j)| ==> t <= RingOf(rings, j)[i].changedAt
    ensures forall j: string, i :: 0 <= i < |RingOf(after, j)| ==> t <= RingOf(after, j)[i].changedAt
  {
    hide SumMap, Total, SplitAt, LastFrom, IsSuffix;
    var merged: Rings := rings[id := ring];
    forall j | j in rings && j != id ensures j in after && after[j] == rings[j] {
      assert t <= RingOf(rings, j)[0].changedAt == rings[j][0].changedAt;
      assert IsSuffix(RingOf(after, j), merged[j]);
      YoungStays(merged, after, j, t, u);
    }
    SameCount(rings, after, id, ring, backstop);
    assert IsSuffix(RingOf(after, id), merged[id]);
    LastIsLate(RingOf(after, id), ring, |RingOf(rings, id)|, t);
    forall j: string, i | 0 <= i < |RingOf(after, j)| ensures t <= RingOf(after, j)[i].changedAt {
      if j != id { assert RingOf(after, j) == RingOf(rings, j); }
    }
  }

  lemma HeadGone(merged: Rings, after: Rings, j: string, u: int)
    requires SplitAt(merged, after, u) && j in merged && merged[j] != []
    ensures Gone(merged, after, j) > 0 ==> merged[j][0].changedAt <= u
  {}

  lemma YoungStays(merged: Rings, after: Rings, j: string, t: int, u: int)
    requires SplitAt(merged, after, u) && u < t && j in merged && merged[j] != [] && t <= merged[j][0].changedAt
    requires IsSuffix(RingOf(after, j), merged[j])
    ensures j in after && after[j] == merged[j]
  {
    hide SplitAt;
    HeadGone(merged, after, j, u);
  }

  lemma LastIsLate(left: seq<Transition>, ring: seq<Transition>, n: nat, t: int)
    requires IsSuffix(left, ring) && |left| <= n && LastFrom(ring, n, t)
    ensures forall i :: 0 <= i < |left| ==> t <= left[i].changedAt
  {
    assert forall i :: 0 <= i < |left| ==> left[i] == ring[|ring| - |left| + i];
  }

  lemma SameCount(rings: Rings, after: Rings, id: string, ring: seq<Transition>, backstop: nat)
    requires Total(rings) == backstop && Total(after) <= backstop
    requires forall j :: j in rings && j != id ==> j in after && after[j] == rings[j]
    requires forall j :: j in after ==> j in rings || j == id
    ensures |RingOf(after, id)| <= |RingOf(rings, id)|
  {
    hide SumMap;
    TotalDrop(rings, id);
    TotalDrop(after, id);
    assert rings - {id} == after - {id};
  }

  // One more identity's transitions: either nothing has been cut so far, or what is
  // left is the newest of everything offered.
  lemma OneMoreOffered(all: Rings, rings: Rings, offers: Offers, id: string, xs: seq<Transition>, after: Rings, cap: nat, backstop: nat)
    requires RingsOk(rings, cap) && cap > 0 && id != "" && xs != []
    requires (rings == all && Complete(all, offers, cap)) || CutToNewest(rings, offers, cap, backstop)
    requires Evicted(Merged(rings, id, xs, cap), after, backstop)
    ensures (after == Merged(all, id, xs, cap) && Complete(after, Offered(offers, id, xs), cap))
         || CutToNewest(after, Offered(offers, id, xs), cap, backstop)
  {
    hide RingOk, SumMap, Merged, Offered, Complete, NewestFrom, SplitAt, Evicted;
    var merged := Merged(rings, id, xs, cap);
    MergedOk(rings, id, xs, cap);
    if CutToNewest(rings, offers, cap, backstop) {
      var t: int :| NewestFrom(rings, offers, cap, t);
      NextCut(rings, offers, id, xs, after, cap, backstop, t);
    } else {
      MergedComplete(rings, offers, id, xs, cap);
      if Total(merged) <= backstop {
        NothingEvicted(merged, after, backstop);
      } else {
        FirstCut(merged, after, Offered(offers, id, xs), cap, backstop);
      }
    }
  }

  // ---------------------------------------------------- two selections of one offer

  // All that was offered, as far as rings have room; or as much as the backstop
  // lets in, and the newest.
  ghost predicate NewestOf(rings: Rings, offers: Offers, cap: nat, backstop: nat) {
    Complete(rings, offers, cap) || CutToNewest(rings, offers, cap, backstop)
  }

  ghost predicate KeysAgree(a: Rings, b: Rings) {
    a.Keys == b.Keys && forall id :: id in a ==> KeySet(a[id]) == KeySet(b[id])
  }

  // A missing key shares its time with no key held in its own ring, and, unless
  // its own ring is full, with none held in any.
  ghost predicate NoTieAtCut(rings: Rings, offers: Offers, cap: nat) {
    forall i: string, j: string, k, a ::
      k in OfferOf(offers, i) && k !in KeySet(RingOf(rings, i)) && a in KeySet(RingOf(rings, j)) && k.time == a.time ==>
        i != j && |RingOf(rings, i)| == cap
  }

  // What is missing from a ring with room is not newer than anything held anywhere.
  lemma MissedWithRoom(rings: Rings, offers: Offers, cap: nat, backstop: nat, i: string, k: Key, j: string, a: Key)
    requires NewestOf(rings, offers, cap, backstop) && |RingOf(rings, i)| < cap
    requires k in OfferOf(offers, i) && k !in KeySet(RingOf(rings, i)) && a in KeySet(RingOf(rings, j))
    ensures k.time <= a.time && Total(rings) == backstop
  {
    hide Total, RingOf, OfferOf, Within;
    HasIsMember(RingOf(rings, j), a);
    assert !Excused(RingOf(rings, i), cap, k);
    var t: int :| NewestFrom(rings, offers, cap, t);
  }

  lemma RoomMeansCut(rings: Rings, offers: Offers, cap: nat, backstop: nat, i: string, k: Key)
    requires NewestOf(rings, offers, cap, backstop) && |RingOf(rings, i)| < cap
    requires k in OfferOf(offers, i) && k !in KeySet(RingOf(rings, i))
    ensures Total(rings) == backstop
  {
    hide Total, RingOf, OfferOf, Within, NewestFrom;
    assert !Excused(RingOf(rings, i), cap, k);
  }

  lemma MissedNotNewerThanHeld(rings: Rings, offers: Offers, cap: nat, backstop: nat, i: string, k: Key, a: Key)
    requires NewestOf(rings, offers, cap, backstop)
    requires k in OfferOf(offers, i) && k !in KeySet(RingOf(rings, i)) && a in KeySet(RingOf(rings, i))
    ensures k.time <= a.time
  {
    hide Total, RingOf, OfferOf, Within;
    HasIsMember(RingOf(rings, i), a);
    if !Excused(RingOf(rings, i), cap, k) {
      var t: int :| NewestFrom(rings, offers, cap, t);
    }
  }

  lemma LongerHasMore(d: seq<Transition>, e: seq<Transition>) returns (k: Key)
    requires Distinct(d) && Distinct(e) && |d| < |e|
    ensures k in KeySet(e) && k !in KeySet(d)
  {
    hide KeySet;
    KeySetSize(d);
    KeySetSize(e);
    if KeySet(e) <= KeySet(d) { SubsetSize(KeySet(e), KeySet(d)); }
    k :| k in KeySet(e) && k !in KeySet(d);
  }

  // Where one selection holds less of a ring, the other holds less of another, and
  // then what each lacks shares a time.
  lemma NoShorter(d: Rings, e: Rings, offers: Offers, cap: nat, backstop: nat, id: string)
    requires RingsOk(d, cap) && RingsOk(e, cap) && Total(e) <= backstop
    requires NewestOf(d, offers, cap, backstop) && NewestOf(e, offers, cap, backstop) && NoTieAtCut(d, offers, cap)
    ensures |RingOf(d, id)| >= |RingOf(e, id)|
  {
    hide Total, Complete, CutToNewest, KeySet, OfferOf;
    RingOfOk(d, id, cap);
    RingOfOk(e, id, cap);
    if |RingOf(d, id)| < |RingOf(e, id)| {
      var k := LongerHasMore(RingOf(d, id), RingOf(e, id));
      HeldIsOffered(e, offers, cap, backstop, id, k);
      RoomMeansCut(d, offers, cap, backstop, id, k);
      var j := SomeLonger(d, e, cap, id);
      RingOfOk(d, j, cap);
      RingOfOk(e, j, cap);
      var a := LongerHasMore(RingOf(e, j), RingOf(d, j));
      HeldIsOffered(d, offers, cap, backstop, j, a);
      MissedWithRoom(d, offers, cap, backstop, id, k, j, a);
      MissedWithRoom(e, offers, cap, backstop, j, a, id, k);
    }
  }

  lemma HeldIsOffered(rings: Rings, offers: Offers, cap: nat, backstop: nat, id: string, k: Key)
    requires NewestOf(rings, offers, cap, backstop) && k in KeySet(RingOf(rings, id))
    ensures k in OfferOf(offers, id)
  {
    hide Total, RingOf, OfferOf, Excused;
  }

  // As many in all, fewer in one ring: more in some other.
  lemma SomeLonger(d: Rings, e: Rings, cap: nat, id: string) returns (j: string)
    requires RingsOk(d, cap) && RingsOk(e, cap) && Total(d) >= Total(e) && |RingOf(d, id)| < |RingOf(e, id)|
    ensures |RingOf(d, j)| > |RingOf(e, j)|
  {
    hide Total, RingOk;
    if forall j: string :: |RingOf(d, j)| <= |RingOf(e, j)| {
      FewerInAll(d, e, cap, id);
    }
    j :| |RingOf(d, j)| > |RingOf(e, j)|;
  }

  lemma FewerInAll(d: Rings, e: Rings, cap: nat, id: string)
    requires RingsOk(d, cap) && RingsOk(e, cap) && |RingOf(d, id)| < |RingOf(e, id)|
    requires forall j: string :: |RingOf(d, j)| <= |RingOf(e, j)|
    ensures Total(d) < Total(e)
  {
    hide Total, RingOk;
    TotalDrop(d, id);
    TotalDrop(e, id);
    forall j | j in d - {id} ensures j in e - {id} { assert |RingOf(d, j)| <= |RingOf(e, j)|; }
    forall j | j in e - {id} ensures |RingOf(d - {id}, j)| <= |e[j]| {
      assert |RingOf(d, j)| <= |RingOf(e, j)|;
    }
    TotalMonotone(d - {id}, e - {id});
  }

  // Two selections of the newest of the same offers hold the same keys, when one of
  // them had no tie to break.
  lemma NewestAgree(d: Rings, e: Rings, offers: Offers, cap: nat, backstop: nat)
    requires RingsOk(d, cap) && RingsOk(e, cap) && Total(d) <= backstop && Total(e) <= backstop
    requires NewestOf(d, offers, cap, backstop) && NewestOf(e, offers, cap, backstop) && NoTieAtCut(d, offers, cap)
    ensures KeysAgree(d, e)
  {
    hide Total, NewestOf, NoTieAtCut, KeySet, RingOk;
    forall id: string ensures KeySet(RingOf(d, id)) == KeySet(RingOf(e, id)) && |RingOf(d, id)| == |RingOf(e, id)| {
      OneRingAgrees(d, e, offers, cap, backstop, id);
    }
    forall id: string ensures id in d <==> id in e { assert |RingOf(d, id)| == |RingOf(e, id)|; }
    forall id | id in d ensures KeySet(d[id]) == KeySet(e[id]) { assert KeySet(RingOf(d, id)) == KeySet(RingOf(e, id)); }
  }

  lemma OneRingAgrees(d: Rings, e: Rings, offers: Offers, cap: nat, backstop: nat, id: string)
    requires RingsOk(d, cap) && RingsOk(e, cap) && Total(d) <= backstop && Total(e) <= backstop
    requires NewestOf(d, offers, cap, backstop) && NewestOf(e, offers, cap, backstop) && NoTieAtCut(d, offers, cap)
    ensures |RingOf(d, id)| == |RingOf(e, id)| && KeySet(RingOf(d, id)) == KeySet(RingOf(e, id))
  {
    hide Total, Complete, CutToNewest, KeySet, OfferOf;
    RingOfOk(d, id, cap);
    RingOfOk(e, id, cap);
    forall j: string ensures |RingOf(e, j)| <= |RingOf(d, j)| { NoShorter(d, e, offers, cap, backstop, j); }
    if |RingOf(e, id)| < |RingOf(d, id)| {
      var k := LongerHasMore(RingOf(e, id), RingOf(d, id));
      HeldIsOffered(d, offers, cap, backstop, id, k);
      RoomMeansCut(e, offers, cap, backstop, id, k);
      FewerInAll(e, d, cap, id);
    }
    KeySetSize(RingOf(d, id));
    KeySetSize(RingOf(e, id));
    if KeySet(RingOf(d, id)) != KeySet(RingOf(e, id)) {
      var a := LeftOver(KeySet(RingOf(d, id)), KeySet(RingOf(e, id)));
      var b := LeftOver(KeySet(RingOf(e, id)), KeySet(RingOf(d, id)));
      HeldIsOffered(d, offers, cap, backstop, id, a);
      HeldIsOffered(e, offers, cap, backstop, id, b);
      MissedNotNewerThanHeld(d, offers, cap, backstop, id, b, a);
      MissedNotNewerThanHeld(e, offers, cap, backstop, id, a, b);
    }
  }

  // And what holds the same keys as a selection of the newest is one.
  lemma SameKeysNewest(d: Rings, e: Rings, offers: Offers, cap: nat, backstop: nat)
    requires RingsOk(d, cap) && RingsOk(e, cap) && KeysAgree(d, e) && NewestOf(d, offers, cap, backstop)
    ensures NewestOf(e, offers, cap, backstop)
  {
    hide Total, KeySet, RingOk, OfferOf, Excused;
    forall id: string
      ensures KeySet(RingOf(d, id)) == KeySet(RingOf(e, id)) && |RingOf(d, id)| == |RingOf(e, id)|
      ensures forall k :: Excused(RingOf(d, id), cap, k) ==> Excused(RingOf(e, id), cap, k)
    {
      RingOfOk(d, id, cap);
      RingOfOk(e, id, cap);
      SameKeysExcuse(RingOf(d, id), RingOf(e, id), cap);
    }
    SameTotal(d, e, cap);
    if !Complete(d, offers, cap) {
      var t: int :| NewestFrom(d, offers, cap, t);
      SameKeysFrom(d, e, t);
      assert NewestFrom(e, offers, cap, t);
    }
  }

  lemma SameKeysExcuse(d: seq<Transition>, e: seq<Transition>, cap: nat)
    requires RingOk(d, cap) && RingOk(e, cap) && KeySet(d) == KeySet(e)
    ensures |d| == |e| && forall k :: Excused(d, cap, k) ==> Excused(e, cap, k)
  {
    KeySetSize(d);
    KeySetSize(e);
    forall k, i | Excused(d, cap, k) && 0 <= i < |e| ensures k.time <= e[i].changedAt {
      assert KeyOf(e[i]) in KeySet(e);
      HasIsMember(d, KeyOf(e[i]));
    }
  }

  lemma SameKeysFrom(d: Rings, e: Rings, t: int)
    requires forall id: string :: KeySet(RingOf(d, id)) == KeySet(RingOf(e, id))
    requires forall id: string, i :: 0 <= i < |RingOf(d, id)| ==> t <= RingOf(d, id)[i].changedAt
    ensures forall id: string, i :: 0 <= i < |RingOf(e, id)| ==> t <= RingOf(e, id)[i].changedAt
  {
    hide RingOf;
    forall id: string, i | 0 <= i < |RingOf(e, id)| ensures t <= RingOf(e, id)[i].changedAt {
      assert KeyOf(RingOf(e, id)[i]) in KeySet(RingOf(e, id));
      HasIsMember(RingOf(d, id), KeyOf(RingOf(e, id)[i]));
    }
  }

  lemma SameTotal(d: Rings, e: Rings, cap: nat)
    requires RingsOk(d, cap) && RingsOk(e, cap) && forall id: string :: |RingOf(d, id)| == |RingOf(e, id)|
    ensures Total(d) == Total(e)
  {
    hide Total, RingOk;
    forall j: string ensures j in d <==> j in e { assert |RingOf(d, j)| == |RingOf(e, j)|; }
    forall j | j in d ensures |d[j]| == |e[j]| { assert |RingOf(d, j)| == |RingOf(e, j)|; }
    TotalMonotone(d, e);
    TotalMonotone(e, d);
  }
}
