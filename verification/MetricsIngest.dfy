// What one observation does to the plain view of the metrics store, and what a
// query returns of it (IngestMetrics and Metrics in storage/metrics.go).

module MetricsIngest {
  import opened Basics
  import opened LabelPostings
  import opened SeriesColumns
  import opened MetricsModel
  import opened Sorting

  datatype Sample = Sample(name: string, labels: LabelSet, value: real)

  // ------------------------------------------------------------ choosing samples

  // Largest values first; equal ones by the canonical text of their labels.
  ghost predicate SampleOrder(a: Sample, b: Sample) {
    a.value > b.value || (a.value == b.value && Leq(Canonical(a.labels), Canonical(b.labels)))
  }

  // The samples of one metric that count: the first cap of them in that order.
  ghost predicate Chosen(samples: seq<Sample>, chosen: seq<Sample>, cap: nat) {
    && |chosen| == Min(cap, |samples|) && multiset(chosen) <= multiset(samples)
    && (forall i, j :: 0 <= i < j < |chosen| ==> SampleOrder(chosen[i], chosen[j]))
    && (forall x, y :: x in multiset(samples) - multiset(chosen) && y in chosen ==> SampleOrder(y, x))
  }

  datatype Decorated = Decorated(sample: Sample, text: string)

  predicate DecoratedBefore(a: Decorated, b: Decorated) {
    a.sample.value > b.sample.value || (a.sample.value == b.sample.value && Leq(a.text, b.text))
  }

  lemma DecoratedIsOrder()
    ensures IsOrder(DecoratedBefore)
  {
    forall a: Decorated, b: Decorated ensures DecoratedBefore(a, b) || DecoratedBefore(b, a) { LeqTotal(a.text, b.text); }
    forall a: Decorated, b: Decorated, c: Decorated | DecoratedBefore(a, b) && DecoratedBefore(b, c) ensures DecoratedBefore(a, c) {
      if a.sample.value == b.sample.value == c.sample.value { LeqTransitive(a.text, b.text, c.text); }
    }
  }

  ghost predicate DecoratedOk(ds: seq<Decorated>) {
    forall d :: d in ds ==> d.text == Canonical(d.sample.labels)
  }

  function Plain(ds: seq<Decorated>): seq<Sample> { seq(|ds|, i requires 0 <= i < |ds| => ds[i].sample) }

  lemma PlainJoin(a: seq<Decorated>, d: Decorated, b: seq<Decorated>)
    ensures multiset(Plain(a + [d] + b)) == multiset(Plain(a + b)) + multiset{d.sample}
  {
    assert Plain(a + [d] + b) == Plain(a) + [d.sample] + Plain(b);
    assert Plain(a + b) == Plain(a) + Plain(b);
  }

  lemma WithoutOne(a: seq<Decorated>, d: Decorated, b: seq<Decorated>)
    ensures multiset(a + [d] + b) == multiset(a + b) + multiset{d}
  {}

  lemma CancelOne<T>(x: multiset<T>, y: multiset<T>, d: T)
    requires x + multiset{d} == y + multiset{d}
    ensures x == y
  {
    assert x == x + multiset{d} - multiset{d} && y == y + multiset{d} - multiset{d};
  }

  // Sorting decorated samples sorts the samples.
  lemma {:induction false} PlainMultiset(a: seq<Decorated>, b: seq<Decorated>)
    requires multiset(a) == multiset(b)
    ensures multiset(Plain(a)) == multiset(Plain(b))
  {
    hide Plain;
    SameMembers(a, b);
    if a != [] {
      var rest, last := a[..|a| - 1], a[|a| - 1];
      var k := FindIn(b, last);
      assert a == rest + [last] + [] && rest + [] == rest && b == b[..k] + [last] + b[k + 1..];
      WithoutOne(rest, last, []);
      WithoutOne(b[..k], last, b[k + 1..]);
      CancelOne(multiset(rest), multiset(b[..k] + b[k + 1..]), last);
      PlainMultiset(rest, b[..k] + b[k + 1..]);
      PlainJoin(rest, last, []);
      PlainJoin(b[..k], last, b[k + 1..]);
    } else {
      assert b == a;
    }
  }

  lemma FindIn(b: seq<Decorated>, d: Decorated) returns (k: nat)
    requires d in b
    ensures k < |b| && b[k] == d
  {
    k :| 0 <= k < |b| && b[k] == d;
  }

  lemma CutIsChosen(samples: seq<Sample>, sorted: seq<Decorated>, cap: nat)
    requires multiset(Plain(sorted)) == multiset(samples) && DecoratedOk(sorted) && SortedBy(DecoratedBefore, sorted)
    ensures Chosen(samples, Plain(sorted)[..Min(cap, |sorted|)], cap)
  {
    hide Leq, Canonical;
    var all, n := Plain(sorted), Min(cap, |sorted|);
    var chosen, rest := all[..n], all[n..];
    SameMembers(all, samples);
    CutParts(all, samples, n);
    PlainOrder(sorted, n);
    hide Plain, DecoratedOk, DecoratedBefore, SampleOrder;
    forall x: Sample, y: Sample | x in multiset(samples) - multiset(chosen) && y in chosen ensures SampleOrder(y, x) {
      assert x in rest;
    }
  }

  lemma CutParts(all: seq<Sample>, samples: seq<Sample>, n: nat)
    requires multiset(all) == multiset(samples) && n <= |all|
    ensures multiset(all[..n]) <= multiset(samples)
    ensures forall x :: x in multiset(samples) - multiset(all[..n]) ==> x in all[n..]
  {
    assert all == all[..n] + all[n..];
    assert multiset(samples) - multiset(all[..n]) == multiset(all[n..]);
  }

  lemma PlainOrder(sorted: seq<Decorated>, n: nat)
    requires DecoratedOk(sorted) && SortedBy(DecoratedBefore, sorted) && n <= |sorted|
    ensures forall i, j :: 0 <= i < j < n ==> SampleOrder(Plain(sorted)[i], Plain(sorted)[j])
    ensures forall x, y :: x in Plain(sorted)[n..] && y in Plain(sorted)[..n] ==> SampleOrder(y, x)
  {
    hide Leq, Canonical;
    var all := Plain(sorted);
    forall i, j | 0 <= i < j < |sorted| ensures SampleOrder(all[i], all[j]) {
      assert sorted[i] in sorted && sorted[j] in sorted && DecoratedBefore(sorted[i], sorted[j]);
    }
    forall x, y | x in all[n..] && y in all[..n] ensures SampleOrder(y, x) {
      var i :| 0 <= i < |all| - n && all[n..][i] == x;
      var j :| 0 <= j < n && all[..n][j] == y;
      assert SampleOrder(all[j], all[n + i]);
    }
  }

  method ChooseSamples(samples: seq<Sample>, cap: nat) returns (chosen: seq<Sample>)
    ensures Chosen(samples, chosen, cap)
  {
    hide DecoratedOk, DecoratedBefore, Plain, Chosen;
    var decorated := Decorate(samples);
    DecoratedIsOrder();
    var sorted := Sort(DecoratedBefore, decorated);
    PlainMultiset(sorted, decorated);
    StillDecorated(decorated, sorted);
    CutIsChosen(samples, sorted, cap);
    chosen := TakeFirst(sorted, if |sorted| > cap then cap else |sorted|);
  }

  lemma StillDecorated(a: seq<Decorated>, b: seq<Decorated>)
    requires DecoratedOk(a) && multiset(a) == multiset(b)
    ensures DecoratedOk(b)
  {
    SameMembers(a, b);
  }

  method Decorate(samples: seq<Sample>) returns (decorated: seq<Decorated>)
    ensures DecoratedOk(decorated) && Plain(decorated) == samples
  {
    hide Canonical;
    decorated := [];
    for i := 0 to |samples|
      invariant DecoratedOk(decorated) && Plain(decorated) == samples[..i]
    {
      var text := CanonicalLabels(samples[i].labels);
      decorated := decorated + [Decorated(samples[i], text)];
    }
    assert samples[..|samples|] == samples;
  }

  method TakeFirst(sorted: seq<Decorated>, n: nat) returns (first: seq<Sample>)
    requires n <= |sorted|
    ensures first == Plain(sorted)[..n]
  {
    first := [];
    for i := 0 to n
      invariant first == Plain(sorted)[..i]
    {
      first := first + [sorted[i].sample];
    }
  }

  // ------------------------------------------------------------ one observation

  function FoldObserved(v: View, key: string, metric: string, chosen: seq<Sample>, ts: int): View {
    if chosen == [] then v else
      var s := chosen[|chosen| - 1];
      Observed(FoldObserved(v, key, metric, chosen[..|chosen| - 1], ts), SeriesId(key, metric, Kept(s.labels)), ts, s.value)
  }

  // The series of one metric, before and after: the chosen samples go in, and
  // then the cap on series applies.
  ghost predicate MetricIngested(before: View, after: View, key: string, metric: string, samples: seq<Sample>, ts: int, cap: nat) {
    exists chosen :: Chosen(samples, chosen, cap) && ViewOk(FoldObserved(before, key, metric, chosen, ts))
      && Capped(FoldObserved(before, key, metric, chosen, ts), after, cap)
  }

  ghost predicate OutsideSame(before: View, after: View, key: string, metric: string) {
    forall id: SeriesId :: !(id.key == key && id.metric == metric) ==>
      (id in after <==> id in before) && (id in before ==> after[id] == before[id])
  }

  function Named(samples: seq<Sample>, name: string): seq<Sample> {
    if samples == [] then [] else
      var s := samples[|samples| - 1];
      Named(samples[..|samples| - 1], name) + (if s.name == name && name != "" then [s] else [])
  }

  // Every metric with samples takes them in; nothing else changes.
  ghost predicate Ingested(before: View, after: View, key: string, samples: seq<Sample>, ts: int, cap: nat, done: set<string>) {
    && (forall metric :: metric in done ==>
          MetricIngested(Sub(before, key, metric), Sub(after, key, metric), key, metric, Named(samples, metric), ts, cap))
    && (forall id: SeriesId :: !(id.key == key && id.metric in done) ==>
          (id in after <==> id in before) && (id in before ==> after[id] == before[id]))
  }

  function Names(samples: seq<Sample>): set<string> { set s | s in samples && s.name != "" :: s.name }

  // An observation as a whole: the samples go into their metrics; then everything
  // too old goes, of all keys. Without a key or a named sample nothing happens.
  ghost predicate TookIn(before: View, after: View, key: string, samples: seq<Sample>, ts: int, cap: nat, keep: int) {
    if key == "" || Names(samples) == {} then after == before
    else exists mid :: Ingested(before, mid, key, samples, ts, cap, Names(samples)) && after == Trimmed(mid, ts - keep)
  }

  lemma IngestedNone(v: View, key: string, samples: seq<Sample>, ts: int, cap: nat)
    ensures Ingested(v, v, key, samples, ts, cap, {})
  {}

  lemma SubSame(before: View, after: View, key: string, metric: string)
    requires forall id: SeriesId :: id.key == key && id.metric == metric ==> (id in after <==> id in before) && (id in before ==> after[id] == before[id])
    ensures Sub(after, key, metric) == Sub(before, key, metric)
  {}

  lemma IngestedOneMore(before: View, now: View, next: View, key: string, metric: string, samples: seq<Sample>, ts: int, cap: nat, done: set<string>)
    requires Ingested(before, now, key, samples, ts, cap, done) && metric !in done
    requires MetricIngested(Sub(now, key, metric), Sub(next, key, metric), key, metric, Named(samples, metric), ts, cap)
    requires OutsideSame(now, next, key, metric)
    ensures Ingested(before, next, key, samples, ts, cap, done + {metric})
  {
    hide MetricIngested, Sub;
    SubSame(before, now, key, metric);
    forall m | m in done
      ensures MetricIngested(Sub(before, key, m), Sub(next, key, m), key, m, Named(samples, m), ts, cap)
    {
      SubSame(now, next, key, m);
    }
  }

  // Observing within a metric and looking at the metric commute.
  lemma {:induction false} FoldOfSub(v: View, key: string, metric: string, chosen: seq<Sample>, ts: int)
    ensures Sub(FoldObserved(v, key, metric, chosen, ts), key, metric) == FoldObserved(Sub(v, key, metric), key, metric, chosen, ts)
    ensures OutsideSame(v, FoldObserved(v, key, metric, chosen, ts), key, metric)
  {
    if chosen != [] {
      FoldOfSub(v, key, metric, chosen[..|chosen| - 1], ts);
      var s := chosen[|chosen| - 1];
      var now := FoldObserved(v, key, metric, chosen[..|chosen| - 1], ts);
      SubObserved(now, key, metric, SeriesId(key, metric, Kept(s.labels)), ts, s.value);
    }
  }

  lemma SubObserved(v: View, key: string, metric: string, id: SeriesId, ts: int, value: real)
    requires id.key == key && id.metric == metric
    ensures Sub(Observed(v, id, ts, value), key, metric) == Observed(Sub(v, key, metric), id, ts, value)
  {}

  lemma MetricDone(before: View, filled: View, after: View, key: string, metric: string, samples: seq<Sample>, chosen: seq<Sample>, ts: int, cap: nat)
    requires Chosen(samples, chosen, cap) && filled == FoldObserved(before, key, metric, chosen, ts)
    requires ViewOk(filled) && Capped(Sub(filled, key, metric), Sub(after, key, metric), cap) && OutsideSame(filled, after, key, metric)
    ensures MetricIngested(Sub(before, key, metric), Sub(after, key, metric), key, metric, samples, ts, cap)
    ensures OutsideSame(before, after, key, metric)
  {
    hide Chosen, Sub, Capped;
    FoldOfSub(before, key, metric, chosen, ts);
    SubIsOk(filled, key, metric);
  }

  lemma SubIsOk(v: View, key: string, metric: string)
    requires ViewOk(v)
    ensures ViewOk(Sub(v, key, metric))
  {
    hide TimesIncrease;
  }

  // ------------------------------------------------------------ the cap, kept

  ghost predicate WithinCap(v: View, cap: nat) {
    forall key, metric :: |Sub(v, key, metric)| <= cap
  }

  lemma FewerKeys<K, V, W>(a: map<K, V>, b: map<K, W>)
    requires a.Keys <= b.Keys
    ensures |a| <= |b|
  {
    SubsetSize(a.Keys, b.Keys);
  }

  lemma IngestedWithinCap(before: View, after: View, key: string, samples: seq<Sample>, ts: int, cap: nat, done: set<string>)
    requires Ingested(before, after, key, samples, ts, cap, done) && WithinCap(before, cap)
    ensures WithinCap(after, cap)
  {
    hide Sub, FoldObserved, Chosen;
    forall k, m ensures |Sub(after, k, m)| <= cap {
      if k == key && m in done {
        assert MetricIngested(Sub(before, key, m), Sub(after, key, m), key, m, Named(samples, m), ts, cap);
      } else {
        SubSame(before, after, k, m);
      }
    }
  }

  lemma TrimmedWithinCap(v: View, cutoff: int, cap: nat)
    requires WithinCap(v, cap)
    ensures WithinCap(Trimmed(v, cutoff), cap)
  {
    forall k, m ensures |Sub(Trimmed(v, cutoff), k, m)| <= cap {
      FewerKeys(Sub(Trimmed(v, cutoff), k, m), Sub(v, k, m));
    }
  }

  // ------------------------------------------------------------ what a query returns

  datatype Measurement = Measurement(labels: LabelSet, points: seq<Point>, constant: bool)

  datatype MetricSeries = MetricSeries(name: string, help: string, typ: string, unit: string, series: seq<Measurement>)

  datatype MetricsDocument = MetricsDocument(key: string, from: int, to: int, metrics: seq<MetricSeries>)

  function Range(points: seq<Point>, from: int, to: int): seq<Point> { Until(Since(points, from), to) }

  ghost predicate AllEqual(points: seq<Point>) {
    forall i, j :: 0 <= i < |points| && 0 <= j < |points| ==> points[i].value == points[j].value
  }

  // One series of the answer is one series of the store, cut to the range.
  ghost predicate Measures(v: View, key: string, metric: string, m: Measurement, from: int, to: int) {
    var id := SeriesId(key, metric, m.labels);
    id in v && m.points == Range(v[id], from, to) && m.points != [] && m.constant == AllEqual(m.points)
  }

  // One metric of the answer: all its series with points in range, each once.
  ghost predicate AnswersMetric(v: View, key: string, metric: string, series: seq<Measurement>, from: int, to: int) {
    && (forall m :: m in series ==> Measures(v, key, metric, m, from, to))
    && (forall id :: id in v && id.key == key && id.metric == metric && Range(v[id], from, to) != [] ==>
          exists m :: m in series && m.labels == id.labels)
    && (forall i, j :: 0 <= i < j < |series| ==> series[i].labels != series[j].labels)
    && (forall i, j :: 0 <= i < j < |series| ==> Leq(Canonical(series[i].labels), Canonical(series[j].labels)))
  }

  // The points of a range of what retention left are those of the range of all
  // there was that are not too old.
  lemma QueryIsExact(points: seq<Point>, cutoff: int, from: int, to: int, p: Point)
    requires TimesIncrease(points)
    ensures TimesIncrease(Range(Since(points, cutoff), from, to))
    ensures p in Range(Since(points, cutoff), from, to) <==> p in points && Max(from, cutoff) <= p.ts <= to
  {
    SinceMembers(points, cutoff, p);
    SinceMembers(Since(points, cutoff), from, p);
    UntilMembers(Since(Since(points, cutoff), from), to, p);
  }
}
