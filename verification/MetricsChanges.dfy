// Why the bulk operations of the metrics store do to the view what they should:
// the cap on series, retention and dictionary compaction (storage/metrics.go).

module MetricsChanges {
  import opened Basics
  import opened StringDictionary
  import opened LabelPostings
  import opened SeriesColumns
  import opened MetricsModel
  import opened Sorting

  // ---------------------------------------------------------------------- the cap

  datatype Ranked = Ranked(slot: Slot, value: real)

  // Larger last values first, equal ones by signature.
  predicate RankBefore(a: Ranked, b: Ranked) {
    a.value > b.value || (a.value == b.value && Leq(a.slot.signature, b.slot.signature))
  }

  lemma RankIsOrder()
    ensures IsOrder(RankBefore)
  {
    forall a: Ranked, b: Ranked ensures RankBefore(a, b) || RankBefore(b, a) { LeqTotal(a.slot.signature, b.slot.signature); }
    forall a: Ranked, b: Ranked, c: Ranked | RankBefore(a, b) && RankBefore(b, c) ensures RankBefore(a, c) {
      if a.value == b.value == c.value { LeqTransitive(a.slot.signature, b.slot.signature, c.slot.signature); }
    }
  }

  predicate Of(slot: Slot, key: nat, metric: nat) { slot.key == key && slot.metric == metric }

  // The rank of a series goes by its last value.
  ghost predicate RankOf(r: Ranked, slots: Slots) {
    r.slot in slots && slots[r.slot].values != [] && r.value == slots[r.slot].values[|slots[r.slot].values| - 1]
  }

  ghost predicate SlotsApart(ranked: seq<Ranked>) {
    forall i, j :: 0 <= i < j < |ranked| ==> ranked[i].slot != ranked[j].slot
  }

  ghost predicate RanksOf(ranked: seq<Ranked>, slots: Slots, mine: set<Slot>) {
    SlotsApart(ranked) && SlotsIn(ranked) == mine && forall r :: r in ranked ==> RankOf(r, slots)
  }

  function SlotsIn(ranked: seq<Ranked>): set<Slot> { set r | r in ranked :: r.slot }

  lemma {:induction false} CountSlots(ranked: seq<Ranked>)
    requires SlotsApart(ranked)
    ensures |SlotsIn(ranked)| == |ranked|
  {
    if ranked != [] {
      var rest, last := ranked[..|ranked| - 1], ranked[|ranked| - 1];
      CountSlots(rest);
      assert ranked == rest + [last];
      assert SlotsIn(ranked) == SlotsIn(rest) + {last.slot};
    }
  }

  // The slots of a metric are the series of that metric.
  lemma SubSlots(d: Dict, slots: Slots, key: nat, metric: nat, mine: set<Slot>)
    requires SlotsOk(d, slots) && 0 < key < |d.values| && 0 < metric < |d.values|
    requires mine == set s | s in slots && Of(s, key, metric)
    ensures Sub(ViewOf(d, slots), LookupIn(d, key), LookupIn(d, metric)).Keys == set s | s in mine :: IdOf(d, s, slots[s])
    ensures |Sub(ViewOf(d, slots), LookupIn(d, key), LookupIn(d, metric))| == |mine|
  {
    hide ViewOf;
    var sub := Sub(ViewOf(d, slots), LookupIn(d, key), LookupIn(d, metric));
    var ids := set s | s in mine :: IdOf(d, s, slots[s]);
    forall id ensures id in sub <==> id in ids {
      if id in sub {
        var s := ViewHas(d, slots, id);
        assert SlotOk(d, s, slots[s]);
        LookupIsOneToOne(d, s.key, key);
        LookupIsOneToOne(d, s.metric, metric);
        assert s in mine;
      }
      if id in ids {
        var s :| s in mine && id == IdOf(d, s, slots[s]);
        ViewAt(d, slots, s);
      }
    }
    assert sub.Keys == ids;
    CountIds(d, slots, mine);
    assert |sub| == |sub.Keys|;
  }

  lemma {:induction false} CountIds(d: Dict, slots: Slots, mine: set<Slot>)
    requires SlotsOk(d, slots) && mine <= slots.Keys
    ensures |set s | s in mine :: IdOf(d, s, slots[s])| == |mine|
  {
    hide SlotsOk, IdOf;
    if mine != {} {
      var t := SomeElement(mine);
      CountIds(d, slots, mine - {t});
      var rest := set s | s in mine - {t} :: IdOf(d, s, slots[s]);
      assert IdOf(d, t, slots[t]) !in rest by {
        forall s | s in mine - {t} ensures IdOf(d, s, slots[s]) != IdOf(d, t, slots[t]) {
          if IdOf(d, s, slots[s]) == IdOf(d, t, slots[t]) { SlotsAreOneToOne(d, slots, s, t); }
        }
      }
      assert (set s | s in mine :: IdOf(d, s, slots[s])) == rest + {IdOf(d, t, slots[t])};
    }
  }

  // Only the series of one metric are touched, and they are capped.
  ghost predicate CapChanges(before: View, after: View, key: string, metric: string, cap: nat)
    requires ViewOk(before)
  {
    && Capped(Sub(before, key, metric), Sub(after, key, metric), cap)
    && (forall id :: id in after ==> id in before && after[id] == before[id])
    && (forall id :: id in before && !(id.key == key && id.metric == metric) ==> id in after)
  }

  lemma SplitRanks(ranked: seq<Ranked>, cap: nat)
    requires SlotsApart(ranked) && cap <= |ranked|
    ensures SlotsIn(ranked) == SlotsIn(ranked[..cap]) + SlotsIn(ranked[cap..])
    ensures SlotsIn(ranked[..cap]) !! SlotsIn(ranked[cap..])
    ensures |SlotsIn(ranked[..cap])| == cap
  {
    assert ranked == ranked[..cap] + ranked[cap..];
    CountSlots(ranked[..cap]);
  }

  function RankIn(slots: Slots, s: Slot): Ranked {
    Ranked(s, if s in slots && slots[s].values != [] then slots[s].values[|slots[s].values| - 1] else 0.0)
  }

  // Whatever is ranked further back ended in no larger a value, and if in the
  // same, has the later signature.
  lemma FurtherBack(ranked: seq<Ranked>, cap: nat, slots: Slots, s: Slot, t: Slot)
    requires SortedBy(RankBefore, ranked) && cap <= |ranked| && forall r :: r in ranked ==> RankOf(r, slots)
    requires s in SlotsIn(ranked[cap..]) && t in SlotsIn(ranked[..cap])
    ensures s in slots && t in slots && slots[s].values != [] && slots[t].values != []
    ensures slots[s].values[|slots[s].values| - 1] <= slots[t].values[|slots[t].values| - 1]
    ensures RankBefore(RankIn(slots, t), RankIn(slots, s))
  {
    hide Leq;
    var i :| 0 <= i < |ranked[cap..]| && ranked[cap..][i].slot == s;
    var j :| 0 <= j < |ranked[..cap]| && ranked[..cap][j].slot == t;
    assert RankBefore(ranked[j], ranked[cap + i]);
    assert RankOf(ranked[cap + i], slots) && RankOf(ranked[j], slots);
  }

  lemma RanksSplit(ranked: seq<Ranked>, cap: nat, slots: Slots, mine: set<Slot>)
    requires RanksOf(ranked, slots, mine) && SortedBy(RankBefore, ranked) && cap <= |ranked|
    ensures forall s, t :: s in SlotsIn(ranked[cap..]) && t in mine && t !in SlotsIn(ranked[cap..]) ==>
      RankBefore(RankIn(slots, t), RankIn(slots, s))
  {
    hide RankBefore, RankIn, RankOf;
    SplitRanks(ranked, cap);
    forall s, t | s in SlotsIn(ranked[cap..]) && t in mine && t !in SlotsIn(ranked[cap..])
      ensures RankBefore(RankIn(slots, t), RankIn(slots, s))
    {
      FurtherBack(ranked, cap, slots, s, t);
    }
  }

  // The series ranked behind the first cap go.
  lemma CapDrops(d: Dict, slots: Slots, key: nat, metric: nat, ranked: seq<Ranked>, cap: nat)
    requires SlotsOk(d, slots) && 0 < key < |d.values| && 0 < metric < |d.values|
    requires RanksOf(ranked, slots, set s | s in slots && Of(s, key, metric)) && SortedBy(RankBefore, ranked) && cap < |ranked|
    ensures var gone := SlotsIn(ranked[cap..]);
      && SlotsOk(d, slots - gone) && ViewOk(ViewOf(d, slots))
      && CapChanges(ViewOf(d, slots), ViewOf(d, slots - gone), LookupIn(d, key), LookupIn(d, metric), cap)
  {
    hide ViewOf, SlotOk, IdOf, RankBefore, ViewOk, Sub, RankOf, Of, SlotsIn;
    var gone := SlotsIn(ranked[cap..]);
    var k, m := LookupIn(d, key), LookupIn(d, metric);
    var before, after := ViewOf(d, slots), ViewOf(d, slots - gone);
    ViewDrop(d, slots, gone);
    ViewIsOk(d, slots);
    SplitRanks(ranked, cap);
    CapSizes(d, slots, key, metric, ranked, cap);
    forall i, j | i in before && i !in after && j in Sub(after, k, m)
      ensures j in before && before[i] != [] && before[j] != [] && LastValue(before[i]) <= LastValue(before[j])
    {
      CapApart(d, slots, key, metric, ranked, cap, i, j);
    }
    forall id | id in before && !(id.key == k && id.metric == m) ensures id in after {
      OutsideMetric(d, slots, key, metric, gone, id);
    }
    CutIsCap(before, after, k, m, cap);
  }

  lemma CutIsCap(before: View, after: View, k: string, m: string, cap: nat)
    requires ViewOk(before) && forall id :: id in after ==> id in before && after[id] == before[id]
    requires |Sub(before, k, m)| > cap == |Sub(after, k, m)|
    requires forall i, j :: i in before && i !in after && j in Sub(after, k, m) ==>
      j in before && LastValue(before[i]) <= LastValue(before[j])
    requires forall id :: id in before && !(id.key == k && id.metric == m) ==> id in after
    ensures CapChanges(before, after, k, m, cap)
  {
    hide Sub, ViewOk;
    SubParts(before, after, k, m);
  }

  lemma SubParts(before: View, after: View, k: string, m: string)
    requires forall id :: id in after ==> id in before && after[id] == before[id]
    ensures forall id :: id in Sub(after, k, m) ==> id in Sub(before, k, m) && Sub(after, k, m)[id] == Sub(before, k, m)[id]
    ensures forall id :: id in Sub(before, k, m) ==> id in before && Sub(before, k, m)[id] == before[id]
    ensures forall id :: id in Sub(before, k, m) && id in after ==> id in Sub(after, k, m)
    ensures ViewOk(before) ==> ViewOk(Sub(before, k, m))
  {
    hide TimesIncrease;
  }

  lemma CapSizes(d: Dict, slots: Slots, key: nat, metric: nat, ranked: seq<Ranked>, cap: nat)
    requires SlotsOk(d, slots) && 0 < key < |d.values| && 0 < metric < |d.values|
    requires RanksOf(ranked, slots, set s | s in slots && Of(s, key, metric)) && cap < |ranked|
    ensures var gone := SlotsIn(ranked[cap..]);
      && SlotsOk(d, slots - gone)
      && |Sub(ViewOf(d, slots), LookupIn(d, key), LookupIn(d, metric))| == |ranked|
      && |Sub(ViewOf(d, slots - gone), LookupIn(d, key), LookupIn(d, metric))| == cap
  {
    hide ViewOf, SlotOk, IdOf, Sub, SlotsIn, RankOf;
    var gone, mine := SlotsIn(ranked[cap..]), set s | s in slots && Of(s, key, metric);
    ViewDrop(d, slots, gone);
    SplitRanks(ranked, cap);
    CountSlots(ranked);
    SubSlots(d, slots, key, metric, mine);
    assert SlotsIn(ranked[..cap]) == set s | s in slots - gone && Of(s, key, metric);
    SubSlots(d, slots - gone, key, metric, SlotsIn(ranked[..cap]));
  }

  lemma OutsideMetric(d: Dict, slots: Slots, key: nat, metric: nat, gone: set<Slot>, id: SeriesId)
    requires SlotsOk(d, slots) && gone <= set s | s in slots && Of(s, key, metric)
    requires id in ViewOf(d, slots) && !(id.key == LookupIn(d, key) && id.metric == LookupIn(d, metric))
    ensures SlotsOk(d, slots - gone) && id in ViewOf(d, slots - gone)
  {
    hide ViewOf, SlotOk;
    ViewDrop(d, slots, gone);
    var s := ViewHas(d, slots, id);
    SlotsAreOneToOne(d, slots, s, SlotFor(d, slots, id));
  }

  lemma CapApart(d: Dict, slots: Slots, key: nat, metric: nat, ranked: seq<Ranked>, cap: nat, i: SeriesId, j: SeriesId)
    requires SlotsOk(d, slots) && 0 < key < |d.values| && 0 < metric < |d.values|
    requires RanksOf(ranked, slots, set s | s in slots && Of(s, key, metric)) && SortedBy(RankBefore, ranked) && cap < |ranked|
    requires SlotsOk(d, slots - SlotsIn(ranked[cap..]))
    requires i in ViewOf(d, slots) && i !in ViewOf(d, slots - SlotsIn(ranked[cap..]))
    requires j in Sub(ViewOf(d, slots - SlotsIn(ranked[cap..])), LookupIn(d, key), LookupIn(d, metric))
    ensures j in ViewOf(d, slots) && ViewOf(d, slots)[i] != [] && ViewOf(d, slots)[j] != []
    ensures LastValue(ViewOf(d, slots)[i]) <= LastValue(ViewOf(d, slots)[j])
  {
    hide ViewOf, SlotOk, IdOf, RankBefore, RankOf, SlotsIn;
    var gone := SlotsIn(ranked[cap..]);
    ViewDrop(d, slots, gone);
    SplitRanks(ranked, cap);
    var s, t := SlotFor(d, slots, i), SlotFor(d, slots, j);
    ViewAt(d, slots, s);
    ViewAt(d, slots, t);
    OfIds(d, slots, t, key, metric);
    FurtherBack(ranked, cap, slots, s, t);
  }

  lemma OfIds(d: Dict, slots: Slots, t: Slot, key: nat, metric: nat)
    requires SlotsOk(d, slots) && t in slots && 0 < key < |d.values| && 0 < metric < |d.values|
    requires IdOf(d, t, slots[t]).key == LookupIn(d, key) && IdOf(d, t, slots[t]).metric == LookupIn(d, metric)
    ensures Of(t, key, metric)
  {
    assert SlotOk(d, t, slots[t]);
    LookupIsOneToOne(d, t.key, key);
    LookupIsOneToOne(d, t.metric, metric);
  }

  // -------------------------------------------------------------------- retention

  // What is left of one series.
  ghost predicate TrimmedTo(before: Series, after: Series, cutoff: int) {
    && SeriesOk(before) && SeriesOk(after) && after.postings == before.postings && after.values != []
    && PointsOf(after) == Since(PointsOf(before), cutoff)
  }

  ghost predicate TrimmedAway(before: Series, cutoff: int) { SeriesOk(before) && Since(PointsOf(before), cutoff) == [] }

  ghost predicate TrimmedSlots(before: Slots, after: Slots, cutoff: int) {
    && (forall s :: s in after ==> s in before && TrimmedTo(before[s], after[s], cutoff))
    && (forall s :: s in before && s !in after ==> TrimmedAway(before[s], cutoff))
  }

  lemma TrimIsTrimmed(d: Dict, before: Slots, after: Slots, cutoff: int)
    requires SlotsOk(d, before) && TrimmedSlots(before, after, cutoff)
    ensures SlotsOk(d, after) && ViewOf(d, after) == Trimmed(ViewOf(d, before), cutoff)
  {
    hide ViewOf, SeriesOk, IdOf, SlotsOk, SlotOk;
    TrimKeepsOk(d, before, after, cutoff);
    forall id | id in ViewOf(d, after)
      ensures id in ViewOf(d, before) && ViewOf(d, after)[id] == Since(ViewOf(d, before)[id], cutoff) && ViewOf(d, after)[id] != []
    {
      var s := ViewHas(d, after, id);
      TrimKeepsId(d, before[s], after[s], s, cutoff);
      ViewAt(d, before, s);
    }
    forall id | id in ViewOf(d, before) && Since(ViewOf(d, before)[id], cutoff) != [] ensures id in ViewOf(d, after) {
      var s := ViewHas(d, before, id);
      assert s in after;
      TrimKeepsId(d, before[s], after[s], s, cutoff);
      ViewAt(d, after, s);
    }
  }

  lemma TrimKeepsOk(d: Dict, before: Slots, after: Slots, cutoff: int)
    requires SlotsOk(d, before) && TrimmedSlots(before, after, cutoff)
    ensures SlotsOk(d, after)
  {
    hide SeriesOk, DictOk, PostingsOk, SignatureOf;
    forall s | s in after ensures SlotOk(d, s, after[s]) {
      assert SlotOk(d, s, before[s]) && TrimmedTo(before[s], after[s], cutoff);
    }
  }

  lemma TrimKeepsId(d: Dict, before: Series, after: Series, s: Slot, cutoff: int)
    requires TrimmedTo(before, after, cutoff)
    ensures IdOf(d, s, after) == IdOf(d, s, before) && PointsOf(after) != []
  {
    assert |PointsOf(after)| == |after.values|;
  }
}
