// Gathering the answer to a query in any order and sorting it (Metrics in
// storage/metrics.go).

module MetricsQuery {
  import opened Basics
  import opened StringDictionary
  import opened LabelPostings
  import opened SeriesColumns
  import opened MetricsModel
  import opened MetricsChanges
  import opened MetricsIngest
  import opened MetricsDescriptors
  import opened Sorting

  lemma SeriesAt(d: Dict, slots: Slots, s: Slot)
    requires SlotsOk(d, slots) && s in slots
    ensures SeriesOk(slots[s]) && slots[s].values != []
  {
    assert SlotOk(d, s, slots[s]);
  }

  datatype Listed = Listed(m: Measurement, text: string)

  predicate ListedBefore(a: Listed, b: Listed) { Leq(a.text, b.text) }

  lemma ListedIsOrder()
    ensures IsOrder(ListedBefore)
  {
    forall a: Listed, b: Listed ensures ListedBefore(a, b) || ListedBefore(b, a) { LeqTotal(a.text, b.text); }
    forall a: Listed, b: Listed, c: Listed | ListedBefore(a, b) && ListedBefore(b, c) ensures ListedBefore(a, c) {
      LeqTransitive(a.text, b.text, c.text);
    }
  }

  function Measurements(ls: seq<Listed>): seq<Measurement> { seq(|ls|, i requires 0 <= i < |ls| => ls[i].m) }

  // The series behind a slot, cut to the range.
  ghost predicate ListedFor(d: Dict, series: Series, l: Listed, from: int, to: int) {
    && SeriesOk(series) && l.m.labels == Decode(d, series.postings) && l.m.points == Range(PointsOf(series), from, to)
    && l.m.points != [] && l.m.constant == AllEqual(l.m.points) && l.text == Canonical(l.m.labels)
  }

  ghost predicate SilentIn(series: Series, from: int, to: int) { SeriesOk(series) && Range(PointsOf(series), from, to) == [] }

  // What the slots done so far gave, each one with points once.
  ghost predicate Collected(d: Dict, slots: Slots, done: set<Slot>, found: seq<Listed>, from: int, to: int) {
    && done <= slots.Keys
    && (forall l :: l in found ==> ComesFrom(d, slots, done, l, from, to))
    && (forall s :: s in done ==> SilentIn(slots[s], from, to) || IsListed(d, slots[s], found, from, to))
    && LabelsApart(found)
  }

  ghost predicate ComesFrom(d: Dict, slots: Slots, done: set<Slot>, l: Listed, from: int, to: int)
    requires done <= slots.Keys
  {
    exists s :: s in done && ListedFor(d, slots[s], l, from, to)
  }

  ghost predicate IsListed(d: Dict, series: Series, found: seq<Listed>, from: int, to: int) {
    exists l :: l in found && ListedFor(d, series, l, from, to)
  }

  ghost predicate LabelsApart(found: seq<Listed>) {
    forall i, j :: 0 <= i < j < |found| ==> found[i].m.labels != found[j].m.labels
  }

  lemma NothingCollected(d: Dict, slots: Slots, from: int, to: int)
    ensures Collected(d, slots, {}, [], from, to)
  {}

  lemma CollectNone(d: Dict, slots: Slots, done: set<Slot>, found: seq<Listed>, s: Slot, from: int, to: int)
    requires Collected(d, slots, done, found, from, to) && s in slots && SilentIn(slots[s], from, to)
    ensures Collected(d, slots, done + {s}, found, from, to)
  {
    hide SilentIn, ListedFor;
  }

  lemma CollectOne(d: Dict, slots: Slots, key: nat, metric: nat, done: set<Slot>, found: seq<Listed>, s: Slot, l: Listed, from: int, to: int)
    requires SlotsOk(d, slots) && Collected(d, slots, done, found, from, to)
    requires s in slots && s !in done && Of(s, key, metric) && forall t :: t in done ==> Of(t, key, metric)
    requires ListedFor(d, slots[s], l, from, to)
    ensures Collected(d, slots, done + {s}, found + [l], from, to)
  {
    hide SilentIn, SlotsOk, ListedFor;
    OneLabelMore(d, slots, key, metric, done, found, s, l, from, to);
    FoundMore(d, slots, done, found, s, l, from, to);
  }

  lemma OneLabelMore(d: Dict, slots: Slots, key: nat, metric: nat, done: set<Slot>, found: seq<Listed>, s: Slot, l: Listed, from: int, to: int)
    requires SlotsOk(d, slots) && Collected(d, slots, done, found, from, to)
    requires s in slots && s !in done && Of(s, key, metric) && forall t :: t in done ==> Of(t, key, metric)
    requires ListedFor(d, slots[s], l, from, to)
    ensures LabelsApart(found + [l])
  {
    hide SilentIn, SlotsOk, Canonical, SeriesOk;
    forall i | 0 <= i < |found| ensures found[i].m.labels != l.m.labels {
      assert found[i] in found;
      var t :| t in done && ListedFor(d, slots[t], found[i], from, to);
      if found[i].m.labels == l.m.labels { SlotsAreOneToOne(d, slots, s, t); }
    }
  }

  lemma FoundMore(d: Dict, slots: Slots, done: set<Slot>, found: seq<Listed>, s: Slot, l: Listed, from: int, to: int)
    requires Collected(d, slots, done, found, from, to) && s in slots && ListedFor(d, slots[s], l, from, to)
    ensures forall x :: x in found + [l] ==> ComesFrom(d, slots, done + {s}, x, from, to)
    ensures forall t :: t in done + {s} ==> SilentIn(slots[t], from, to) || IsListed(d, slots[t], found + [l], from, to)
  {
    hide SilentIn, LabelsApart, ComesFrom, IsListed, ListedFor;
    forall x | x in found + [l] ensures ComesFrom(d, slots, done + {s}, x, from, to) {
      ComesFromMore(d, slots, done, s, x, from, to);
    }
    forall t | t in done + {s} && !SilentIn(slots[t], from, to) ensures IsListed(d, slots[t], found + [l], from, to) {
      ListedMore(d, slots[t], found, l, from, to);
    }
  }

  lemma ComesFromMore(d: Dict, slots: Slots, done: set<Slot>, s: Slot, x: Listed, from: int, to: int)
    requires done <= slots.Keys && s in slots
    requires ComesFrom(d, slots, done, x, from, to) || ListedFor(d, slots[s], x, from, to)
    ensures ComesFrom(d, slots, done + {s}, x, from, to)
  {
    hide ListedFor;
    if ListedFor(d, slots[s], x, from, to) {
      assert s in done + {s};
    } else {
      var t :| t in done && ListedFor(d, slots[t], x, from, to);
      assert t in done + {s};
    }
  }

  lemma ListedMore(d: Dict, series: Series, found: seq<Listed>, l: Listed, from: int, to: int)
    requires IsListed(d, series, found, from, to) || ListedFor(d, series, l, from, to)
    ensures IsListed(d, series, found + [l], from, to)
  {
    hide ListedFor;
    if ListedFor(d, series, l, from, to) {
      assert l in found + [l];
    } else {
      var x :| x in found && ListedFor(d, series, x, from, to);
      assert x in found + [l];
    }
  }

  lemma SortedApart(found: seq<Listed>, sorted: seq<Listed>)
    requires LabelsApart(found) && multiset(found) == multiset(sorted)
    ensures LabelsApart(sorted)
  {
    SameMembers(found, sorted);
    ApartStays(found, sorted);
    forall i, j | 0 <= i < j < |sorted| ensures sorted[i].m.labels != sorted[j].m.labels {
      assert sorted[i] in found && sorted[j] in found && sorted[i] != sorted[j];
    }
  }

  lemma CollectedAnswers(d: Dict, slots: Slots, key: nat, metric: nat, found: seq<Listed>, sorted: seq<Listed>, from: int, to: int)
    requires SlotsOk(d, slots) && 0 < key < |d.values| && 0 < metric < |d.values|
    requires Collected(d, slots, (set s | s in slots && Of(s, key, metric)), found, from, to)
    requires multiset(found) == multiset(sorted) && SortedBy(ListedBefore, sorted)
    ensures AnswersMetric(ViewOf(d, slots), LookupIn(d, key), LookupIn(d, metric), Measurements(sorted), from, to)
  {
    hide SlotsOk, ViewOf, SlotOk, Leq, Canonical, SilentIn, ListedFor, Measures;
    var series, k, m := Measurements(sorted), LookupIn(d, key), LookupIn(d, metric);
    SameMembers(found, sorted);
    SortedApart(found, sorted);
    forall x | x in series ensures Measures(ViewOf(d, slots), k, m, x, from, to) {
      var i :| 0 <= i < |series| && series[i] == x;
      assert sorted[i] in found;
      var s :| s in slots && Of(s, key, metric) && ListedFor(d, slots[s], sorted[i], from, to);
      ListedMeasures(d, slots, s, sorted[i], from, to);
    }
    forall id | id in ViewOf(d, slots) && id.key == k && id.metric == m && Range(ViewOf(d, slots)[id], from, to) != []
      ensures exists x :: x in series && x.labels == id.labels
    {
      var s := ViewHas(d, slots, id);
      OfIds(d, slots, s, key, metric);
      SeriesAt(d, slots, s);
      NotSilent(slots[s], from, to);
      var l :| l in found && ListedFor(d, slots[s], l, from, to);
      ListedLabels(d, slots[s], l, from, to);
      var i :| 0 <= i < |sorted| && sorted[i] == l;
      assert series[i] in series;
    }
    forall i, j | 0 <= i < j < |series| ensures Leq(Canonical(series[i].labels), Canonical(series[j].labels)) {
      assert sorted[i] in found && sorted[j] in found && ListedBefore(sorted[i], sorted[j]);
      var s :| s in slots && ListedFor(d, slots[s], sorted[i], from, to);
      ListedLabels(d, slots[s], sorted[i], from, to);
      var t :| t in slots && ListedFor(d, slots[t], sorted[j], from, to);
      ListedLabels(d, slots[t], sorted[j], from, to);
    }
  }

  lemma ListedMeasures(d: Dict, slots: Slots, s: Slot, l: Listed, from: int, to: int)
    requires SlotsOk(d, slots) && s in slots && ListedFor(d, slots[s], l, from, to)
    ensures Measures(ViewOf(d, slots), LookupIn(d, s.key), LookupIn(d, s.metric), l.m, from, to)
  {
    hide SlotsOk, ViewOf, Canonical;
    ViewAt(d, slots, s);
  }

  lemma ListedLabels(d: Dict, series: Series, l: Listed, from: int, to: int)
    requires ListedFor(d, series, l, from, to)
    ensures l.m.labels == Decode(d, series.postings) && l.text == Canonical(l.m.labels)
  {}

  lemma NotSilent(series: Series, from: int, to: int)
    ensures |series.timestamps| == |series.values| && Range(PointsOf(series), from, to) != [] ==> !SilentIn(series, from, to)
  {}

  predicate NameBefore(a: MetricSeries, b: MetricSeries) { Leq(a.name, b.name) }

  lemma NameIsOrder()
    ensures IsOrder(NameBefore)
  {
    forall a: MetricSeries, b: MetricSeries ensures NameBefore(a, b) || NameBefore(b, a) { LeqTotal(a.name, b.name); }
    forall a: MetricSeries, b: MetricSeries, c: MetricSeries | NameBefore(a, b) && NameBefore(b, c) ensures NameBefore(a, c) {
      LeqTransitive(a.name, b.name, c.name);
    }
  }

  // One metric of the answer, with the descriptor the store has for it.
  ghost predicate MetricFor(v: View, d: Dict, descs: map<nat, EncodedDesc>, key: string, m: MetricSeries, from: int, to: int) {
    && m.series != [] && AnswersMetric(v, key, m.name, m.series, from, to)
    && DescText(m.help, m.typ, m.unit) == DescOf(d, descs, m.name)
  }

  // No series of the metric has points in the range.
  ghost predicate NoneInRange(v: View, key: string, metric: string, from: int, to: int) {
    forall id: SeriesId :: id in v && id.key == key && id.metric == metric ==> Range(v[id], from, to) == []
  }

  ghost predicate NamesApart(metrics: seq<MetricSeries>) {
    forall i, j :: 0 <= i < j < |metrics| ==> metrics[i].name != metrics[j].name
  }

  // The whole answer for a key: each metric with points in the range once, by name.
  ghost predicate AnswersKey(v: View, d: Dict, descs: map<nat, EncodedDesc>, key: string, metrics: seq<MetricSeries>, from: int, to: int) {
    && (forall m :: m in metrics ==> MetricFor(v, d, descs, key, m, from, to))
    && (forall id: SeriesId :: id in v && id.key == key && Range(v[id], from, to) != [] ==> exists m :: m in metrics && m.name == id.metric)
    && NamesApart(metrics) && SortedBy(NameBefore, metrics)
  }

  ghost predicate IsNamed(metrics: seq<MetricSeries>, name: string) { exists m :: m in metrics && m.name == name }

  ghost predicate MetricsSoFar(v: View, d: Dict, descs: map<nat, EncodedDesc>, key: string, done: set<nat>, metrics: seq<MetricSeries>, from: int, to: int) {
    && (forall m :: m in metrics ==> MetricFor(v, d, descs, key, m, from, to))
    && (forall m :: m in metrics ==> exists id :: id in done && 0 < id < |d.values| && m.name == LookupIn(d, id))
    && (forall id :: id in done ==> NoneInRange(v, key, LookupIn(d, id), from, to) || IsNamed(metrics, LookupIn(d, id)))
    && NamesApart(metrics)
  }

  lemma NothingAsked(v: View, d: Dict, descs: map<nat, EncodedDesc>, key: string, from: int, to: int)
    ensures MetricsSoFar(v, d, descs, key, {}, [], from, to)
  {}

  lemma MetricIdOk(d: Dict, slots: Slots, key: nat, metric: nat)
    requires SlotsOk(d, slots) && metric in set s | s in slots && s.key == key :: s.metric
    ensures 0 < metric < |d.values|
  {
    var s :| s in slots && s.key == key && s.metric == metric;
    assert SlotOk(d, s, slots[s]);
  }

  lemma AskedNone(v: View, d: Dict, descs: map<nat, EncodedDesc>, key: string, done: set<nat>, metrics: seq<MetricSeries>, id: nat, from: int, to: int)
    requires MetricsSoFar(v, d, descs, key, done, metrics, from, to) && AnswersMetric(v, key, LookupIn(d, id), [], from, to)
    ensures MetricsSoFar(v, d, descs, key, done + {id}, metrics, from, to)
  {
    hide MetricFor, IsNamed, NamesApart, Leq, Canonical, Range;
    NoAnswerNoPoints(v, key, LookupIn(d, id), from, to);
    forall m | m in metrics ensures exists x :: x in done + {id} && 0 < x < |d.values| && m.name == LookupIn(d, x) {
      var x :| x in done && 0 < x < |d.values| && m.name == LookupIn(d, x);
      assert x in done + {id};
    }
  }

  lemma NoAnswerNoPoints(v: View, key: string, metric: string, from: int, to: int)
    requires AnswersMetric(v, key, metric, [], from, to)
    ensures NoneInRange(v, key, metric, from, to)
  {
    hide Range;
  }

  lemma AskedOne(v: View, d: Dict, descs: map<nat, EncodedDesc>, key: string, done: set<nat>, metrics: seq<MetricSeries>, id: nat, m: MetricSeries, from: int, to: int)
    requires DictOk(d) && MetricsSoFar(v, d, descs, key, done, metrics, from, to) && id !in done && 0 < id < |d.values|
    requires m.name == LookupIn(d, id) && m.series != [] && AnswersMetric(v, key, m.name, m.series, from, to)
    requires DescText(m.help, m.typ, m.unit) == DescTextIn(d, if id in descs then descs[id] else NO_DESC)
    ensures MetricsSoFar(v, d, descs, key, done + {id}, metrics + [m], from, to)
  {
    hide AnswersMetric, NoneInRange;
    var more := metrics + [m];
    assert MetricFor(v, d, descs, key, m, from, to);
    assert more[|metrics|] == m && m in more;
    forall i | 0 <= i < |metrics| ensures metrics[i].name != m.name {
      assert metrics[i] in metrics;
      var x :| x in done && 0 < x < |d.values| && metrics[i].name == LookupIn(d, x);
      if LookupIn(d, x) == LookupIn(d, id) { LookupIsOneToOne(d, x, id); }
    }
    hide MetricFor, LookupIn;
    forall x | x in more ensures exists y :: y in done + {id} && 0 < y < |d.values| && x.name == LookupIn(d, y) {
      if x in metrics {
        var y :| y in done && 0 < y < |d.values| && x.name == LookupIn(d, y);
        assert y in done + {id};
      } else {
        assert id in done + {id};
      }
    }
    forall x | x in done && IsNamed(metrics, LookupIn(d, x)) ensures IsNamed(more, LookupIn(d, x)) {
      var y :| y in metrics && y.name == LookupIn(d, x);
      assert y in more;
    }
  }

  lemma AllAsked(d: Dict, slots: Slots, descs: map<nat, EncodedDesc>, key: nat, ids: set<nat>, unsorted: seq<MetricSeries>, metrics: seq<MetricSeries>, from: int, to: int)
    requires SlotsOk(d, slots) && 0 < key < |d.values| && ids == set s | s in slots && s.key == key :: s.metric
    requires MetricsSoFar(ViewOf(d, slots), d, descs, LookupIn(d, key), ids, unsorted, from, to)
    requires multiset(unsorted) == multiset(metrics) && SortedBy(NameBefore, metrics)
    ensures AnswersKey(ViewOf(d, slots), d, descs, LookupIn(d, key), metrics, from, to)
  {
    hide ViewOf, SlotsOk, MetricFor, Range, Leq;
    var v := ViewOf(d, slots);
    SameMembers(unsorted, metrics);
    SortedNamesApart(unsorted, metrics);
    forall id: SeriesId | id in v && id.key == LookupIn(d, key) && Range(v[id], from, to) != [] ensures exists m :: m in metrics && m.name == id.metric {
      var s := ViewHas(d, slots, id);
      SameKey(d, slots, s, key);
      assert s.metric in ids;
      assert IsNamed(unsorted, LookupIn(d, s.metric));
      var m :| m in unsorted && m.name == id.metric;
      assert m in metrics;
    }
  }

  lemma SameKey(d: Dict, slots: Slots, s: Slot, key: nat)
    requires SlotsOk(d, slots) && s in slots && 0 < key < |d.values| && LookupIn(d, s.key) == LookupIn(d, key)
    ensures s.key == key
  {
    assert SlotOk(d, s, slots[s]);
    LookupIsOneToOne(d, s.key, key);
  }

  lemma SortedNamesApart(a: seq<MetricSeries>, b: seq<MetricSeries>)
    requires NamesApart(a) && multiset(a) == multiset(b)
    ensures NamesApart(b)
  {
    SameMembers(a, b);
    ApartStays(a, b);
    forall i, j | 0 <= i < j < |b| ensures b[i].name != b[j].name {
      assert b[i] in a && b[j] in a && b[i] != b[j];
    }
  }
}
