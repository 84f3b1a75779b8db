// What the encoded metrics store means: a map from key, metric and labels to a
// list of points (storage/metrics.go).

module MetricsModel {
  import opened Basics
  import opened StringDictionary
  import opened LabelPostings
  import opened SeriesColumns

  // The three nested maps of the store as one: its keys are an interned key, an
  // interned metric name and a signature.
  datatype Slot = Slot(key: nat, metric: nat, signature: string)

  type Slots = map<Slot, Series>

  datatype SeriesId = SeriesId(key: string, metric: string, labels: LabelSet)

  type View = map<SeriesId, seq<Point>>

  ghost predicate SlotOk(d: Dict, slot: Slot, s: Series) {
    && 0 < slot.key < |d.values| && 0 < slot.metric < |d.values|
    && slot.signature == SignatureOf(s.postings) && PostingsOk(d, s.postings)
    && SeriesOk(s) && s.values != []
  }

  ghost predicate SlotsOk(d: Dict, slots: Slots) {
    DictOk(d) && forall slot :: slot in slots ==> SlotOk(d, slot, slots[slot])
  }

  function IdOf(d: Dict, slot: Slot, s: Series): SeriesId {
    SeriesId(LookupIn(d, slot.key), LookupIn(d, slot.metric), Decode(d, s.postings))
  }

  // No two series stand for the same key, metric and labels, and no two label
  // sets share a series.
  lemma SlotsAreOneToOne(d: Dict, slots: Slots, s: Slot, t: Slot)
    requires SlotsOk(d, slots) && s in slots && t in slots && IdOf(d, s, slots[s]) == IdOf(d, t, slots[t])
    ensures s == t
  {
    LookupIsOneToOne(d, s.key, t.key);
    LookupIsOneToOne(d, s.metric, t.metric);
    PostingsAreUnique(d, slots[s].postings, slots[t].postings);
  }

  // A label set finds the series it was stored under.
  lemma SameLabelsSameSlot(d: Dict, slot: Slot, s: Series, p: seq<Posting>)
    requires DictOk(d) && SlotOk(d, slot, s) && PostingsOk(d, p)
    ensures SignatureOf(p) == slot.signature <==> p == s.postings
    ensures p == s.postings <==> Decode(d, p) == Decode(d, s.postings)
  {
    if SignatureOf(p) == slot.signature { SignaturesAreOneToOne(p, s.postings); }
    if Decode(d, p) == Decode(d, s.postings) { PostingsAreUnique(d, p, s.postings); }
  }

  ghost function Ids(d: Dict, slots: Slots): set<SeriesId> { set slot | slot in slots :: IdOf(d, slot, slots[slot]) }

  ghost function ViewOf(d: Dict, slots: Slots): View
    requires SlotsOk(d, slots)
  {
    map id | id in Ids(d, slots) :: PointsOf(slots[SlotFor(d, slots, id)])
  }

  ghost function SlotFor(d: Dict, slots: Slots, id: SeriesId): (slot: Slot)
    requires id in Ids(d, slots)
    ensures slot in slots && IdOf(d, slot, slots[slot]) == id
  {
    var slot :| slot in slots && IdOf(d, slot, slots[slot]) == id;
    slot
  }

  lemma ViewAt(d: Dict, slots: Slots, slot: Slot)
    requires SlotsOk(d, slots) && slot in slots
    ensures IdOf(d, slot, slots[slot]) in ViewOf(d, slots)
    ensures ViewOf(d, slots)[IdOf(d, slot, slots[slot])] == PointsOf(slots[slot])
  {
    hide SlotsOk;
    var id := IdOf(d, slot, slots[slot]);
    assert id in Ids(d, slots);
    SlotsAreOneToOne(d, slots, slot, SlotFor(d, slots, id));
  }

  lemma ViewHas(d: Dict, slots: Slots, id: SeriesId) returns (slot: Slot)
    requires SlotsOk(d, slots) && id in ViewOf(d, slots)
    ensures slot in slots && IdOf(d, slot, slots[slot]) == id && ViewOf(d, slots)[id] == PointsOf(slots[slot])
  {
    slot := SlotFor(d, slots, id);
  }

  // The lists of points the store stands for are never empty, and in time order.
  ghost predicate ViewOk(v: View) { forall id :: id in v ==> v[id] != [] && TimesIncrease(v[id]) }

  ghost predicate TimesIncrease(points: seq<Point>) { forall i, j :: 0 <= i < j < |points| ==> points[i].ts < points[j].ts }

  lemma ViewIsOk(d: Dict, slots: Slots)
    requires SlotsOk(d, slots)
    ensures ViewOk(ViewOf(d, slots))
  {
    forall id | id in ViewOf(d, slots) ensures ViewOf(d, slots)[id] != [] && TimesIncrease(ViewOf(d, slots)[id]) {
      var slot := ViewHas(d, slots, id);
      assert SlotOk(d, slot, slots[slot]);
    }
  }

  // ------------------------------------------------------------- changes to the slots

  lemma PutOk(d: Dict, slots: Slots, slot: Slot, s: Series)
    requires SlotsOk(d, slots) && SlotOk(d, slot, s)
    ensures SlotsOk(d, slots[slot := s])
  {}

  // Storing a series under its slot changes the view at its own id only.
  lemma ViewPut(d: Dict, slots: Slots, slot: Slot, s: Series)
    requires SlotsOk(d, slots) && SlotOk(d, slot, s)
    requires slot in slots ==> slots[slot].postings == s.postings
    ensures SlotsOk(d, slots[slot := s])
    ensures ViewOf(d, slots[slot := s]) == ViewOf(d, slots)[IdOf(d, slot, s) := PointsOf(s)]
  {
    hide SlotOk, ViewOf;
    PutOk(d, slots, slot, s);
    var after, id := slots[slot := s], IdOf(d, slot, s);
    ViewAt(d, after, slot);
    forall x | x in ViewOf(d, after) && x != id ensures x in ViewOf(d, slots) && ViewOf(d, after)[x] == ViewOf(d, slots)[x] {
      var t := ViewHas(d, after, x);
      ViewAt(d, slots, t);
    }
    forall x | x in ViewOf(d, slots) ensures x in ViewOf(d, after) {
      var t := ViewHas(d, slots, x);
      ViewAt(d, after, t);
    }
  }

  // Dropping series drops their ids.
  lemma ViewDrop(d: Dict, slots: Slots, gone: set<Slot>)
    requires SlotsOk(d, slots)
    ensures SlotsOk(d, slots - gone)
    ensures forall id :: id in ViewOf(d, slots - gone) <==> id in ViewOf(d, slots) && SlotFor(d, slots, id) !in gone
    ensures forall id :: id in ViewOf(d, slots - gone) ==> ViewOf(d, slots - gone)[id] == ViewOf(d, slots)[id]
  {
    hide SlotOk;
    var after := slots - gone;
    forall id | id in ViewOf(d, after)
      ensures id in ViewOf(d, slots) && SlotFor(d, slots, id) !in gone && ViewOf(d, after)[id] == ViewOf(d, slots)[id]
    {
      var t := ViewHas(d, after, id);
      ViewAt(d, slots, t);
      SlotsAreOneToOne(d, slots, t, SlotFor(d, slots, id));
    }
    forall id | id in ViewOf(d, slots) && SlotFor(d, slots, id) !in gone ensures id in ViewOf(d, after) {
      ViewAt(d, after, SlotFor(d, slots, id));
    }
  }

  lemma IdStays(d: Dict, e: Dict, slot: Slot, s: Series)
    requires SlotOk(d, slot, s) && Extends(d, e)
    ensures SlotOk(e, slot, s) && IdOf(e, slot, s) == IdOf(d, slot, s)
  {
    PostingsStay(d, e, s.postings);
  }

  // New strings in the dictionary do not change the view.
  lemma ViewStays(d: Dict, e: Dict, slots: Slots)
    requires SlotsOk(d, slots) && DictOk(e) && Extends(d, e)
    ensures SlotsOk(e, slots) && ViewOf(e, slots) == ViewOf(d, slots)
  {
    hide SlotOk, ViewOf;
    forall slot | slot in slots ensures SlotOk(e, slot, slots[slot]) && IdOf(e, slot, slots[slot]) == IdOf(d, slot, slots[slot]) {
      IdStays(d, e, slot, slots[slot]);
    }
    SameIdsSameView(d, slots, e, slots, map slot | slot in slots :: slot);
  }

  // Two encodings that stand for the same series, slot by slot, have one view.
  lemma SameIdsSameView(d: Dict, slots: Slots, e: Dict, other: Slots, to: map<Slot, Slot>)
    requires SlotsOk(d, slots) && SlotsOk(e, other) && to.Keys == slots.Keys
    requires forall s :: s in slots ==> to[s] in other && IdOf(e, to[s], other[to[s]]) == IdOf(d, s, slots[s])
                                        && PointsOf(other[to[s]]) == PointsOf(slots[s])
    requires forall t :: t in other ==> exists s :: s in slots && to[s] == t
    ensures ViewOf(e, other) == ViewOf(d, slots)
  {
    hide SlotOk, SlotsOk, ViewOf, IdOf;
    forall id | id in ViewOf(d, slots) ensures id in ViewOf(e, other) && ViewOf(e, other)[id] == ViewOf(d, slots)[id] {
      var s := ViewHas(d, slots, id);
      ViewAt(e, other, to[s]);
    }
    forall id | id in ViewOf(e, other) ensures id in ViewOf(d, slots) {
      var t := ViewHas(e, other, id);
      var s :| s in slots && to[s] == t;
      ViewAt(d, slots, s);
    }
  }

  // ------------------------------------------------------------- the plain operations

  function PointsAt(v: View, id: SeriesId): seq<Point> { if id in v then v[id] else [] }

  // What one sample does.
  function Observed(v: View, id: SeriesId, ts: int, value: real): View { v[id := ObservePoints(PointsAt(v, id), ts, value)] }

  // What retention does.
  ghost function Trimmed(v: View, cutoff: int): View { map id | id in v && Since(v[id], cutoff) != [] :: Since(v[id], cutoff) }

  // The series of one metric of one key.
  ghost function Sub(v: View, key: string, metric: string): View {
    map id | id in v && id.key == key && id.metric == metric :: v[id]
  }

  function LastValue(points: seq<Point>): real
    requires points != []
  {
    points[|points| - 1].value
  }

  // What the cap on series per metric does: as many stay as may, and none that
  // goes ended in a larger value than one that stays.
  ghost predicate Capped(before: View, after: View, cap: nat)
    requires ViewOk(before)
  {
    && (forall id :: id in after ==> id in before && after[id] == before[id])
    && |after| == Min(cap, |before|)
    && forall i, j :: i in before && i !in after && j in after ==> LastValue(before[i]) <= LastValue(before[j])
  }

  // Exactly the points between two times, both included.
  lemma {:induction false} SinceMembers(points: seq<Point>, cutoff: int, p: Point)
    requires TimesIncrease(points)
    ensures TimesIncrease(Since(points, cutoff))
    ensures p in Since(points, cutoff) <==> p in points && cutoff <= p.ts
  {
    if points != [] {
      assert points == [points[0]] + points[1..];
      SinceMembers(points[1..], cutoff, p);
    }
  }

  lemma {:induction false} UntilMembers(points: seq<Point>, to: int, p: Point)
    requires TimesIncrease(points)
    ensures TimesIncrease(Until(points, to))
    ensures p in Until(points, to) <==> p in points && p.ts <= to
  {
    if points != [] {
      var n := |points| - 1;
      assert points == points[..n] + [points[n]];
      UntilMembers(points[..n], to, p);
    }
  }
}
