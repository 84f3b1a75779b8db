// The metrics store as the object it is (MemoryMetricsStore in
// storage/metrics.go). Times are nanoseconds since 1970; values are reals.

module MetricsStore {
  import opened Basics
  import opened StringDictionary
  import opened LabelPostings
  import opened SeriesColumns
  import opened MetricsModel
  import opened MetricsChanges
  import opened MetricsIngest
  import opened MetricsDescriptors
  import opened MetricsCompaction
  import opened MetricsQuery
  import opened Sorting

  const SECOND := 1_000_000_000

  // The samples by metric name, those without a name left out.
  ghost predicate Grouped(byMetric: map<string, seq<Sample>>, samples: seq<Sample>) {
    && byMetric.Keys == Names(samples)
    && (forall n :: n in byMetric ==> n != "" && byMetric[n] == Named(samples, n))
    && (forall n :: n !in byMetric ==> Named(samples, n) == [])
  }

  lemma GroupedNone()
    ensures Grouped(map[], [])
  {}

  lemma GroupedNext(byMetric: map<string, seq<Sample>>, samples: seq<Sample>, s: Sample)
    requires Grouped(byMetric, samples)
    ensures Grouped(if s.name == "" then byMetric else
                      byMetric[s.name := (if s.name in byMetric then byMetric[s.name] else []) + [s]], samples + [s])
  {
    forall n: string ensures Named(samples + [s], n) == (if s.name == n && n != "" then Named(samples, n) + [s] else Named(samples, n)) {
      NamedSnoc(samples, s, n);
    }
    NamesSnoc(samples, s);
    GroupedFrom(byMetric, samples, s, samples + [s]);
  }

  lemma GroupedFrom(byMetric: map<string, seq<Sample>>, samples: seq<Sample>, s: Sample, more: seq<Sample>)
    requires Grouped(byMetric, samples)
    requires forall n: string :: Named(more, n) == (if s.name == n && n != "" then Named(samples, n) + [s] else Named(samples, n))
    requires Names(more) == if s.name == "" then Names(samples) else Names(samples) + {s.name}
    ensures Grouped(if s.name == "" then byMetric else
                      byMetric[s.name := (if s.name in byMetric then byMetric[s.name] else []) + [s]], more)
  {
    hide Named, Names;
  }

  lemma NamedSnoc(samples: seq<Sample>, s: Sample, n: string)
    ensures Named(samples + [s], n) == if s.name == n && n != "" then Named(samples, n) + [s] else Named(samples, n)
  {
    assert (samples + [s])[..|samples|] == samples;
    assert Named(samples, n) + [] == Named(samples, n);
  }

  lemma NamesSnoc(samples: seq<Sample>, s: Sample)
    ensures Names(samples + [s]) == if s.name == "" then Names(samples) else Names(samples) + {s.name}
  {
    assert forall x :: x in samples + [s] <==> x in samples || x == s;
  }

  // The first loop of IngestMetrics.
  method GroupByName(samples: seq<Sample>) returns (byMetric: map<string, seq<Sample>>)
    ensures Grouped(byMetric, samples)
  {
    hide Grouped;
    byMetric := map[];
    GroupedNone();
    for i := 0 to |samples|
      invariant Grouped(byMetric, samples[..i])
    {
      assert samples[..i + 1] == samples[..i] + [samples[i]];
      var s := samples[i];
      GroupedNext(byMetric, samples[..i], s);
      if s.name != "" {
        byMetric := byMetric[s.name := (if s.name in byMetric then byMetric[s.name] else []) + [s]];
      }
    }
    assert samples[..|samples|] == samples;
  }

  // What is shown for the metrics that have series, before and after a document.
  ghost predicate DescribedAll(v: View, before: string -> DescText, after: string -> DescText, promDescs: seq<PromDesc>, done: set<string>) {
    forall id :: id in v ==> after(id.metric) == DescribedIn(before(id.metric), id.metric, promDescs, done)
  }

  class MemoryMetricsStore {
    const retention: int
    const seriesCap: nat
    var dict: StringDictionary
    var slots: Slots
    var descs: map<nat, EncodedDesc>
    var lastCompact: int

    ghost predicate Valid()
      reads this`dict, this`slots, this`descs, dict
    {
      0 < seriesCap && SlotsOk(dict.Model(), slots) && DescsOk(dict.Model(), descs)
    }

    ghost function View(): View
      requires Valid()
      reads this`dict, this`slots, this`descs, dict
    {
      ViewOf(dict.Model(), slots)
    }

    // No key and metric have more series than the cap.
    ghost predicate Bounded()
      requires Valid()
      reads this`dict, this`slots, this`descs, dict
    {
      WithinCap(View(), seriesCap)
    }

    // The descriptor shown for a metric.
    ghost function Desc(metric: string): DescText
      reads this`dict, this`descs, dict
    {
      DescOf(dict.Model(), descs, metric)
    }

    ghost function Descs(): string -> DescText
      reads this`dict, this`descs, dict
    {
      var d, kept := dict.Model(), descs;
      metric => DescOf(d, kept, metric)
    }

    constructor (retention: int, seriesCap: int)
      ensures Valid() && View() == map[]
      ensures this.retention == if retention <= 0 then 1800 * SECOND else retention
      ensures this.seriesCap == if seriesCap <= 0 then 100 else seriesCap
    {
      this.retention := if retention <= 0 then 1800 * SECOND else retention;
      this.seriesCap := if seriesCap <= 0 then 100 else seriesCap;
      dict := new StringDictionary();
      slots, descs, lastCompact := map[], map[], 0;
    }

    // The loop body of IngestMetrics for one sample.
    method ObserveOne(keyID: nat, metricID: nat, sample: Sample, ts: int)
      requires Valid() && 0 < keyID < |dict.values| && 0 < metricID < |dict.values|
      modifies this`slots, dict
      ensures Valid() && Extends(old(dict.Model()), dict.Model())
      ensures View() == Observed(old(View()), SeriesId(LookupIn(old(dict.Model()), keyID), LookupIn(old(dict.Model()), metricID), Kept(sample.labels)), ts, sample.value)
      ensures forall m :: Desc(m) == old(Desc(m))
    {
      hide DescOf, SlotsOk, SlotOk, DescsOk, ViewOf, DictOk, PostingsOk, Decode, SeriesOk, Kept, SignatureOf;
      ghost var d := dict.Model();
      SlotsKnowDict(d, slots);
      var postings, signature := EncodeLabels(dict, sample.labels);
      ghost var e := dict.Model();
      ViewStays(d, e, slots);
      DescsStay(d, e, descs);
      DescTextsStay(d, e, descs);
      var slot := Slot(keyID, metricID, signature);
      var series := Series(postings, [], [], 0.0, 0);
      FreshSeries(postings);
      if slot in slots {
        series := slots[slot];
        SlotHolds(e, slots, slot, postings);
      }
      ghost var before := series;
      series := ObserveSample(series, ts, sample.value);
      ObservedAtSlot(e, slots, slot, before, series, postings);
      slots := slots[slot := series];
    }

    // The loop of IngestMetrics over one metric's chosen samples.
    method ObserveAll(keyID: nat, metricID: nat, key: string, metric: string, chosen: seq<Sample>, ts: int)
      requires Valid() && 0 < keyID < |dict.values| && 0 < metricID < |dict.values|
      requires LookupIn(dict.Model(), keyID) == key && LookupIn(dict.Model(), metricID) == metric
      modifies this`slots, dict
      ensures Valid() && Extends(old(dict.Model()), dict.Model())
      ensures View() == FoldObserved(old(View()), key, metric, chosen, ts)
      ensures forall m :: Desc(m) == old(Desc(m))
    {
      hide ViewOf, SlotsOk, DescsOk, FoldObserved, Observed, Valid, View, Desc;
      ghost var d0 := dict.Model();
      FoldNone(View(), key, metric, ts);
      for i := 0 to |chosen|
        invariant Valid() && Extends(d0, dict.Model())
        invariant View() == FoldObserved(old(View()), key, metric, chosen[..i], ts)
        invariant forall m :: Desc(m) == old(Desc(m))
      {
        Later(d0, dict.Model(), keyID);
        Later(d0, dict.Model(), metricID);
        FoldOneMore(old(View()), key, metric, chosen, i, ts);
        ObserveOne(keyID, metricID, chosen[i], ts);
      }
      assert chosen[..|chosen|] == chosen;
    }

    // The loop body of IngestMetrics for one metric.
    method IngestMetric(keyID: nat, key: string, metric: string, samples: seq<Sample>, promDescs: seq<PromDesc>, ts: int) returns (removed: bool)
      requires Valid() && 0 < keyID < |dict.values| && LookupIn(dict.Model(), keyID) == key && metric != ""
      modifies this`slots, this`descs, dict
      ensures Valid() && Extends(old(dict.Model()), dict.Model())
      ensures MetricIngested(Sub(old(View()), key, metric), Sub(View(), key, metric), key, metric, samples, ts, seriesCap)
      ensures OutsideSame(old(View()), View(), key, metric)
      ensures forall m :: m != metric ==> Desc(m) == old(Desc(m))
      ensures Desc(metric) == Described(old(Desc(metric)), metric, promDescs)
    {
      hide ViewOf, SlotsOk, DescsOk, FoldObserved, View, Valid, Desc, Described, Chosen, CapChanges, OutsideSame, MetricIngested, Sub;
      ghost var before := View();
      var chosen := ChooseSamples(samples, seriesCap);
      var metricID := FileMetric(keyID, key, metric, promDescs);
      ghost var filed := dict.Model();
      ValidParts(this);
      ObserveAll(keyID, metricID, key, metric, chosen, ts);
      ghost var filled := View();
      Later(filed, dict.Model(), keyID);
      Later(filed, dict.Model(), metricID);
      LookupIs(dict, keyID);
      LookupIs(dict, metricID);
      removed := EnforceSeriesCap(keyID, metricID);
      CapParts(filled, View(), key, metric, seriesCap);
      MetricDone(before, filled, View(), key, metric, samples, chosen, ts, seriesCap);
    }

    // Interns a metric's name and stores its descriptor, if the document has one.
    method FileMetric(keyID: nat, key: string, metric: string, promDescs: seq<PromDesc>) returns (metricID: nat)
      requires Valid() && 0 < keyID < |dict.values| && LookupIn(dict.Model(), keyID) == key && metric != ""
      modifies this`descs, dict
      ensures Valid() && Extends(old(dict.Model()), dict.Model()) && View() == old(View())
      ensures 0 < keyID < |dict.values| && LookupIn(dict.Model(), keyID) == key
      ensures 0 < metricID < |dict.values| && LookupIn(dict.Model(), metricID) == metric
      ensures forall m :: m != metric ==> Desc(m) == old(Desc(m))
      ensures Desc(metric) == Described(old(Desc(metric)), metric, promDescs)
    {
      hide ViewOf, DictOk, Interned, IdIn, SlotOk, DescOf;
      ghost var d0 := dict.Model();
      InternOk(d0, metric);
      metricID := dict.Intern(metric);
      ghost var d1 := dict.Model();
      NotZero(d1, metricID);
      Later(d0, d1, keyID);
      ViewStays(d0, d1, slots);
      DescsStay(d0, d1, descs);
      DescTextsStay(d0, d1, descs);
      var found := MetricDescriptor(metric, promDescs);
      if found.Some? {
        var desc := InternDesc(found.value);
        ghost var d2 := dict.Model();
        Later(d1, d2, keyID);
        Later(d1, d2, metricID);
        ViewStays(d1, d2, slots);
        DescsStay(d1, d2, descs);
        DescTextsStay(d1, d2, descs);
        DescFiled(d2, descs, metric, metricID, desc);
        descs := descs[metricID := desc];
      }
    }

    method InternDesc(desc: PromDesc) returns (out: EncodedDesc)
      requires DictOk(dict.Model())
      modifies dict
      ensures DictOk(dict.Model()) && Extends(old(dict.Model()), dict.Model())
      ensures out.help < |dict.values| && out.typ < |dict.values| && out.unit < |dict.values|
      ensures DescTextIn(dict.Model(), out) == DescText(desc.help, desc.typ, desc.unit)
    {
      hide DictOk, Interned, IdIn;
      InternOk(dict.Model(), desc.help);
      var help := dict.Intern(desc.help);
      ghost var first := dict.Model();
      InternOk(first, desc.typ);
      var typ := dict.Intern(desc.typ);
      ghost var second := dict.Model();
      InternOk(second, desc.unit);
      var unit := dict.Intern(desc.unit);
      Later(first, second, help);
      Later(second, dict.Model(), help);
      Later(second, dict.Model(), typ);
      out := EncodedDesc(help, typ, unit);
    }

    // The loop of IngestMetrics over the metrics of one observation, met in any
    // order.
    method IngestAll(keyID: nat, key: string, byMetric: map<string, seq<Sample>>, samples: seq<Sample>, promDescs: seq<PromDesc>, ts: int) returns (removed: bool)
      requires Valid() && 0 < keyID < |dict.values| && LookupIn(dict.Model(), keyID) == key
      requires forall n :: n in byMetric ==> n != "" && byMetric[n] == Named(samples, n)
      modifies this`slots, this`descs, dict
      ensures Valid() && Ingested(old(View()), View(), key, samples, ts, seriesCap, byMetric.Keys)
      ensures forall m :: Desc(m) == DescribedIn(old(Desc(m)), m, promDescs, byMetric.Keys)
    {
      hide ViewOf, SlotsOk, DescsOk, View, Valid, DescOf, Described, OutsideSame, MetricIngested, Sub, Ingested;
      ghost var d0 := dict.Model();
      removed := false;
      var rest := byMetric.Keys;
      IngestedNone(View(), key, samples, ts, seriesCap);
      assert byMetric.Keys - rest == {};
      while rest != {}
        invariant rest <= byMetric.Keys && Valid() && Extends(d0, dict.Model())
        invariant Ingested(old(View()), View(), key, samples, ts, seriesCap, byMetric.Keys - rest)
        invariant forall m :: Desc(m) == DescribedIn(old(Desc(m)), m, promDescs, byMetric.Keys - rest)
        decreases rest
      {
        ghost var some: string := SomeElement(rest);
        var name: string :| name in rest;
        Later(d0, dict.Model(), keyID);
        ghost var now, d1 := View(), dict.Model();
        var dropped := IngestMetric(keyID, key, name, byMetric[name], promDescs, ts);
        removed := dropped || removed;
        IngestedOneMore(old(View()), now, View(), key, name, samples, ts, seriesCap, byMetric.Keys - rest);
        assert byMetric.Keys - rest + {name} == byMetric.Keys - (rest - {name});
        rest := rest - {name};
      }
      assert byMetric.Keys - {} == byMetric.Keys;
    }

    method IngestMetrics(key: string, promDescs: seq<PromDesc>, samples: seq<Sample>, observedAt: int, now: int)
      requires Valid()
      modifies this`slots, this`descs, this`dict, this`lastCompact, dict
      ensures Valid()
      ensures DescribedAll(View(), old(Descs()), Descs(), promDescs, if key == "" then {} else Names(samples))
      ensures TookIn(old(View()), View(), key, samples, (if observedAt == ZERO_TIME then now else observedAt) / SECOND, seriesCap, retention / SECOND)
      ensures old(Bounded()) ==> Bounded()
    {
      hide ViewOf, SlotsOk, DescsOk, View, Ingested, WithinCap, Trimmed, DictOk, Interned, IdIn, DescOf, Described;
      if key == "" {
        return;
      }
      var at := observedAt;
      if at == ZERO_TIME {
        at := now;
      }
      var ts := at / SECOND;
      var byMetric := GroupByName(samples);
      if byMetric == map[] {
        return;
      }
      ghost var before := View();
      var keyID := InternKey(key);
      var removed := IngestAll(keyID, key, byMetric, samples, promDescs, ts);
      ghost var mid := View();
      TrimAfter(ts, removed);
      if WithinCap(before, seriesCap) {
        IngestedWithinCap(before, mid, key, samples, ts, seriesCap, Names(samples));
        TrimmedWithinCap(mid, ts - retention / SECOND, seriesCap);
      }
    }

    // The end of IngestMetrics: what is too old goes, and the dictionary is
    // compacted, once a minute at most, when some series went.
    method TrimAfter(ts: int, removed: bool)
      requires Valid()
      modifies this`slots, this`descs, this`dict, this`lastCompact
      ensures Valid() && View() == Trimmed(old(View()), ts - retention / SECOND)
      ensures forall id :: id in View() ==> Desc(id.metric) == old(Desc(id.metric))
    {
      hide ViewOf, SlotsOk, DescsOk, View, Trimmed, DescOf;
      var trimmed := Trim(ts - retention / SECOND);
      if (trimmed || removed) && (lastCompact == 0 || ts - lastCompact >= 60) {
        CompactDictionary();
        lastCompact := ts;
      }
    }

    method InternKey(key: string) returns (keyID: nat)
      requires Valid() && key != ""
      modifies dict
      ensures Valid() && View() == old(View()) && 0 < keyID < |dict.values| && LookupIn(dict.Model(), keyID) == key
      ensures forall m :: Desc(m) == old(Desc(m))
    {
      hide ViewOf, DictOk, Interned, IdIn, SlotOk, DescOf;
      ghost var d0 := dict.Model();
      InternOk(d0, key);
      keyID := dict.Intern(key);
      DescTextsStay(d0, dict.Model(), descs);
      NotZero(dict.Model(), keyID);
      ViewStays(d0, dict.Model(), slots);
      DescsStay(d0, dict.Model(), descs);
    }

    // The series of one metric with points in a range.
    method QueryMetric(keyID: nat, metricID: nat, from: int, to: int) returns (series: seq<Measurement>)
      requires Valid() && 0 < keyID < |dict.values| && 0 < metricID < |dict.values| && from <= to
      ensures AnswersMetric(View(), dict.Lookup(keyID), dict.Lookup(metricID), series, from, to)
    {
      hide ViewOf, SlotsOk, DescsOk, Canonical, Leq, Collected, AnswersMetric;
      ghost var d, key, metric := dict.Model(), dict.Lookup(keyID), dict.Lookup(metricID);
      var mine := set s | s in slots && Of(s, keyID, metricID);
      var found: seq<Listed> := [];
      var rest := mine;
      NothingCollected(d, slots, from, to);
      assert mine - rest == {};
      while rest != {}
        invariant rest <= mine && Collected(d, slots, mine - rest, found, from, to)
        decreases rest
      {
        ghost var some: Slot := SomeElement(rest);
        var s: Slot :| s in rest;
        SeriesAt(d, slots, s);
        var points, constant := Slice(slots[s], from, to);
        ghost var done := mine - rest;
        rest := rest - {s};
        assert done + {s} == mine - rest;
        if |points| == 0 {
          CollectNone(d, slots, done, found, s, from, to);
          continue;
        }
        var labels := DecodeLabels(dict, slots[s].postings);
        var text := CanonicalLabels(labels);
        CollectOne(d, slots, keyID, metricID, done, found, s, Listed(Measurement(labels, points, constant), text), from, to);
        found := found + [Listed(Measurement(labels, points, constant), text)];
      }
      assert mine - {} == mine;
      ListedIsOrder();
      var sorted := Sort(ListedBefore, found);
      series := [];
      for i := 0 to |sorted|
        invariant series == Measurements(sorted)[..i]
      {
        series := series + [sorted[i].m];
      }
      assert Measurements(sorted)[..|sorted|] == Measurements(sorted);
      CollectedAnswers(d, slots, keyID, metricID, found, sorted, from, to);
      LookupIs(dict, keyID);
      LookupIs(dict, metricID);
    }

    // The loop of Metrics over the metrics of a key, met in any order.
    method QueryKey(keyID: nat, from: int, to: int) returns (metrics: seq<MetricSeries>)
      requires Valid() && 0 < keyID < |dict.values| && from <= to
      ensures AnswersKey(View(), dict.Model(), descs, dict.Lookup(keyID), metrics, from, to)
    {
      hide ViewOf, SlotsOk, DescsOk, AnswersMetric, MetricsSoFar, AnswersKey, MetricFor;
      ghost var d, v := dict.Model(), View();
      ValidParts(this);
      LookupIs(dict, keyID);
      var ids := set s | s in slots && s.key == keyID :: s.metric;
      metrics := [];
      var rest := ids;
      NothingAsked(v, d, descs, LookupIn(d, keyID), from, to);
      assert ids - rest == {};
      while rest != {}
        invariant rest <= ids && MetricsSoFar(v, d, descs, LookupIn(d, keyID), ids - rest, metrics, from, to)
        decreases rest
      {
        ghost var some: nat := SomeElement(rest);
        var metricID: nat :| metricID in rest;
        MetricIdOk(d, slots, keyID, metricID);
        LookupIs(dict, metricID);
        var series := QueryMetric(keyID, metricID, from, to);
        ghost var done := ids - rest;
        rest := rest - {metricID};
        assert done + {metricID} == ids - rest;
        if |series| == 0 {
          AskedNone(v, d, descs, LookupIn(d, keyID), done, metrics, metricID, from, to);
          continue;
        }
        var desc := if metricID in descs then descs[metricID] else NO_DESC;
        var m := MetricSeries(dict.Lookup(metricID), dict.Lookup(desc.help), dict.Lookup(desc.typ), dict.Lookup(desc.unit), series);
        LookupIs(dict, desc.help);
        LookupIs(dict, desc.typ);
        LookupIs(dict, desc.unit);
        AskedOne(v, d, descs, LookupIn(d, keyID), done, metrics, metricID, m, from, to);
        metrics := metrics + [m];
      }
      assert ids - {} == ids;
      NameIsOrder();
      ghost var unsorted := metrics;
      metrics := Sort(NameBefore, metrics);
      AllAsked(d, slots, descs, keyID, ids, unsorted, metrics, from, to);
    }

    method Metrics(key: string, from: int, to: int, now: int) returns (r: Result<MetricsDocument>)
      requires Valid()
      modifies this`slots, this`descs, this`dict, this`lastCompact, dict
      ensures Valid() && (old(Bounded()) ==> Bounded())
      ensures var last := if to == ZERO_TIME then now else to;
        var first := if from == ZERO_TIME then last - retention else from;
        if key == "" || last <= first then (r.Err? && View() == old(View()))
        else (r.Ok? && View() == Trimmed(old(View()), last / SECOND - retention / SECOND)
              && r.value.key == key && r.value.from == first / SECOND && r.value.to == last / SECOND
              && AnswersKey(View(), dict.Model(), descs, key, r.value.metrics, first / SECOND, last / SECOND))
      ensures forall id :: id in View() ==> Desc(id.metric) == old(Desc(id.metric))
    {
      hide ViewOf, SlotsOk, DescsOk, View, WithinCap, AnswersKey, Trimmed, DescOf;
      if key == "" {
        return Err("metrics key is empty");
      }
      var last := to;
      if last == ZERO_TIME {
        last := now;
      }
      var first := from;
      if first == ZERO_TIME {
        first := last - retention;
      }
      if last <= first {
        return Err("empty metrics range");
      }
      TrimForQuery(last / SECOND);
      var metrics := Answer(key, first / SECOND, last / SECOND);
      return Ok(MetricsDocument(key, first / SECOND, last / SECOND, metrics));
    }

    // Reads trim too, and compact whenever that removed something.
    method TrimForQuery(queryNow: int)
      requires Valid()
      modifies this`slots, this`descs, this`dict, this`lastCompact, dict
      ensures Valid() && View() == Trimmed(old(View()), queryNow - retention / SECOND)
      ensures old(Bounded()) ==> Bounded()
      ensures forall id :: id in View() ==> Desc(id.metric) == old(Desc(id.metric))
    {
      hide ViewOf, SlotsOk, DescsOk, View, WithinCap, Trimmed, DescOf;
      if WithinCap(View(), seriesCap) { TrimmedWithinCap(View(), queryNow - retention / SECOND, seriesCap); }
      var removed := Trim(queryNow - retention / SECOND);
      if removed {
        CompactDictionary();
        lastCompact := queryNow;
      }
    }

    method Answer(key: string, from: int, to: int) returns (metrics: seq<MetricSeries>)
      requires Valid() && key != "" && from <= to
      ensures AnswersKey(View(), dict.Model(), descs, key, metrics, from, to)
    {
      hide ViewOf, SlotsOk, DescsOk, View, AnswersKey;
      ValidParts(this);
      if key !in dict.ids {
        UnknownKey(this, key, from, to);
        return [];
      }
      var keyID := dict.ids[key];
      LookupIs(dict, keyID);
      metrics := QueryKey(keyID, from, to);
    }

    // One turn of the loops of compactDictionaryLocked: writes one series and, if
    // it is the first of its metric, the metric's descriptor in another dictionary.
    method RewriteSeries(s: Slot, series: Series, newDict: StringDictionary, newDescs: map<nat, EncodedDesc>)
      returns (t: Slot, b: Series, descsOut: map<nat, EncodedDesc>)
      requires newDict != dict && DictOk(dict.Model()) && SlotOk(dict.Model(), s, series) && DictOk(newDict.Model())
      requires DescsMirror(dict.Model(), descs, newDict.Model(), newDescs)
      modifies newDict
      ensures DictOk(newDict.Model()) && Extends(old(newDict.Model()), newDict.Model())
      ensures SlotOk(newDict.Model(), t, b) && Twin(dict.Model(), s, series, newDict.Model(), t, b)
      ensures DescsMirror(dict.Model(), descs, newDict.Model(), descsOut) && descsOut.Keys == newDescs.Keys + {t.metric}
      ensures Grown(old(newDict.Model()), newDict.Model(), Needs(dict.Model(), descs, s, series))
    {
      hide DictOk, Interned, IdIn, DescsMirror, SignatureOf, PostingsOk, Decode, SeriesOk, Grown, TextsOf, DescTexts, DescOf;
      ghost var d, d0, needs := dict.Model(), newDict.Model(), Needs(dict.Model(), descs, s, series);
      GrownNot(d0, needs);
      LookupIs(dict, s.key);
      LookupIs(dict, s.metric);
      DescAt(d, descs, s, series);
      SlotStrings(d, s, series);
      InternOk(d0, dict.Lookup(s.key));
      GrownMore(d0, d0, needs, dict.Lookup(s.key));
      var keyID := newDict.Intern(dict.Lookup(s.key));
      ghost var d1 := newDict.Model();
      InternOk(d1, dict.Lookup(s.metric));
      GrownMore(d0, d1, needs, dict.Lookup(s.metric));
      var metricID := newDict.Intern(dict.Lookup(s.metric));
      ghost var d2 := newDict.Model();
      DescsMirrorLater(d, descs, d0, d2, newDescs);
      descsOut := RewriteDescFor(s.metric, metricID, newDict, newDescs);
      GrownJoin(d0, d2, newDict.Model(), needs, DescTexts(DescOf(d, descs, LookupIn(d, s.metric))));
      ghost var d3 := newDict.Model();
      var postings, signature := Rewrite(dict, newDict, series.postings);
      ghost var d4 := newDict.Model();
      GrownJoin(d0, d3, d4, needs, TextsOf(d, series.postings));
      DescsMirrorLater(d, descs, d3, d4, descsOut);
      Later(d1, d2, keyID);
      Later(d2, d4, keyID);
      Later(d2, d4, metricID);
      NotZero(d4, keyID);
      NotZero(d4, metricID);
      t, b := Slot(keyID, metricID, signature), series.(postings := postings);
      SameColumns(series, postings);
    }

    // The descriptor of a metric, unless it has been rewritten already.
    method RewriteDescFor(metric: nat, metricID: nat, newDict: StringDictionary, newDescs: map<nat, EncodedDesc>)
      returns (descsOut: map<nat, EncodedDesc>)
      requires newDict != dict && DictOk(newDict.Model()) && metricID < |newDict.values|
      requires DescsMirror(dict.Model(), descs, newDict.Model(), newDescs)
      requires DescOf(dict.Model(), descs, LookupIn(newDict.Model(), metricID)) == DescTextIn(dict.Model(), if metric in descs then descs[metric] else NO_DESC)
      modifies newDict
      ensures DictOk(newDict.Model()) && Extends(old(newDict.Model()), newDict.Model())
      ensures DescsMirror(dict.Model(), descs, newDict.Model(), descsOut) && descsOut.Keys == newDescs.Keys + {metricID}
      ensures Grown(old(newDict.Model()), newDict.Model(), DescTexts(DescOf(dict.Model(), descs, LookupIn(old(newDict.Model()), metricID))))
    {
      hide DictOk, DescsMirror, Grown, DescTexts, DescOf;
      descsOut := newDescs;
      ghost var d2 := newDict.Model();
      GrownNot(d2, DescTexts(DescOf(dict.Model(), descs, LookupIn(d2, metricID))));
      if metricID !in newDescs {
        var desc := RewriteDesc(dict, newDict, if metric in descs then descs[metric] else NO_DESC);
        OneDescMore(dict.Model(), descs, d2, newDict.Model(), newDescs, metricID, desc);
        descsOut := newDescs[metricID := desc];
      }
    }

    method CompactDictionary()
      requires Valid()
      modifies this`dict, this`slots, this`descs
      ensures Valid() && fresh(dict) && View() == old(View())
      ensures forall id :: id in View() ==> Desc(id.metric) == old(Desc(id.metric))
      ensures forall x :: x in dict.ids ==> exists s :: s in old(slots) && x in old(Needs(dict.Model(), descs, s, slots[s]))
    {
      hide ViewOf, SlotsOk, SlotOk, DescsOk, DictOk, Rewritten, DescsMirror, DescOf, Grown, Needs, Twin;
      ghost var d, e := dict.Model(), dict.Model();
      SlotsKnowDict(d, slots);
      var newDict := new StringDictionary();
      var newSlots: Slots := map[];
      var newDescs: map<nat, EncodedDesc> := map[];
      ghost var to: map<Slot, Slot> := map[];
      var rest := slots.Keys;
      CompactionStarts(d, slots, descs);
      while rest != {}
        invariant fresh(newDict) && newDict != dict && rest <= slots.Keys && to.Keys == slots.Keys - rest
        invariant DictOk(newDict.Model()) && Rewritten(d, slots, newDict.Model(), newSlots, to)
        invariant DescsMirror(d, descs, newDict.Model(), newDescs) && forall t :: t in newSlots ==> t.metric in newDescs
        invariant forall x :: x in newDict.ids ==> exists s :: s in to && s in slots && x in Needs(d, descs, s, slots[s])
        decreases rest
        modifies newDict
      {
        ghost var some: Slot := SomeElement(rest);
        var s: Slot :| s in rest;
        rest := rest - {s};
        ghost var before := newDict.Model();
        SlotAt(d, slots, s);
        var t, b, moreDescs := RewriteSeries(s, slots[s], newDict, newDescs);
        RewrittenLater(d, slots, before, newDict.Model(), newSlots, to);
        RewriteOne(d, slots, newDict.Model(), newSlots, to, s, t, b);
        GrownNeeds(before, newDict.Model(), Needs(d, descs, s, slots[s]));
        newSlots, newDescs, to := newSlots[t := b], moreDescs, to[s := t];
      }
      RewrittenAll(d, slots, newDict.Model(), newSlots, to);
      DescsCarriedOver(d, slots, descs, newDict.Model(), newSlots, newDescs, to);
      dict, slots, descs := newDict, newSlots, newDescs;
    }

    method EnforceSeriesCap(keyID: nat, metricID: nat) returns (removed: bool)
      requires Valid() && 0 < keyID < |dict.values| && 0 < metricID < |dict.values|
      modifies this`slots
      ensures Valid() && ViewOk(old(View()))
      ensures CapChanges(old(View()), View(), dict.Lookup(keyID), dict.Lookup(metricID), seriesCap)
      ensures removed == (slots != old(slots)) && slots.Keys <= old(slots.Keys)
      ensures forall s, t :: s in old(slots) && s !in slots && t in slots && Of(t, keyID, metricID) ==>
        RankBefore(RankIn(old(slots), t), RankIn(old(slots), s))
    {
      hide RankIn, Of, ViewOf, SlotsOk, DescsOk, CapChanges, RanksOf, RankBefore, SlotsIn, ViewOk;
      ghost var d, before := dict.Model(), slots;
      ViewIsOk(d, slots);
      var mine := set s | s in slots && Of(s, keyID, metricID);
      CapFits(d, slots, keyID, metricID, seriesCap);
      if |mine| <= seriesCap {
        return false;
      }
      var ranked := RankSeries(mine);
      RankIsOrder();
      ghost var unsorted := ranked;
      ranked := Sort(RankBefore, ranked);
      StillRanks(unsorted, ranked, slots, mine);
      CapDrops(d, slots, keyID, metricID, ranked, seriesCap);
      RanksSplit(ranked, seriesCap, slots, mine);
      NoSlots();
      assert ranked[seriesCap..seriesCap] == [] && before - {} == before;
      for i := seriesCap to |ranked|
        invariant slots == before - SlotsIn(ranked[seriesCap..i])
      {
        OneSlotMore(ranked, seriesCap, i);
        slots := slots - {ranked[i].slot};
      }
      assert ranked[seriesCap..|ranked|] == ranked[seriesCap..];
      SomethingGoes(before, ranked, seriesCap, mine);
      return true;
    }

    method RankSeries(mine: set<Slot>) returns (ranked: seq<Ranked>)
      requires mine <= slots.Keys && forall s :: s in slots ==> slots[s].values != []
      ensures RanksOf(ranked, slots, mine) && |ranked| == |mine|
    {
      ranked := [];
      var rest := mine;
      while rest != {}
        invariant rest <= mine && RanksOf(ranked, slots, mine - rest)
        decreases rest
      {
        ghost var some: Slot := SomeElement(rest);
        var s: Slot :| s in rest;
        rest := rest - {s};
        OneRankMore(ranked, slots, mine - rest - {s}, s);
        ranked := ranked + [Ranked(s, slots[s].values[|slots[s].values| - 1])];
        assert mine - rest - {s} + {s} == mine - rest;
      }
      assert mine - {} == mine;
      CountSlots(ranked);
    }

    method Trim(cutoff: int) returns (removed: bool)
      requires Valid()
      modifies this`slots
      ensures Valid() && View() == Trimmed(old(View()), cutoff)
      ensures removed == (slots.Keys != old(slots.Keys))
    {
      hide ViewOf, SlotsOk, DescsOk, TrimmedTo, TrimmedAway;
      ghost var before := slots;
      removed := false;
      var rest := slots.Keys;
      while rest != {}
        invariant rest <= before.Keys && rest <= slots.Keys <= before.Keys
        invariant forall s :: s in rest ==> slots[s] == before[s]
        invariant forall s :: s in slots && s !in rest ==> TrimmedTo(before[s], slots[s], cutoff)
        invariant forall s :: s in before && s !in slots ==> TrimmedAway(before[s], cutoff)
        invariant removed == (slots.Keys != before.Keys)
        decreases rest
      {
        ghost var some: Slot := SomeElement(rest);
        var s: Slot :| s in rest;
        rest := rest - {s};
        SeriesAt(dict.Model(), before, s);
        var series := TrimSeries(slots[s], cutoff);
        TrimCases(before[s], series, cutoff);
        if |series.timestamps| == 0 {
          slots := slots - {s};
          removed := true;
        } else {
          slots := slots[s := series];
        }
      }
      TrimIsTrimmed(dict.Model(), before, slots, cutoff);
    }
  }

  lemma UnknownKey(s: MemoryMetricsStore, key: string, from: int, to: int)
    requires s.Valid() && key != "" && key !in s.dict.ids
    ensures AnswersKey(s.View(), s.dict.Model(), s.descs, key, [], from, to)
  {
    hide ViewOf, Range;
    var d := s.dict.Model();
    forall id: SeriesId | id in s.View() ensures id.key != key {
      var slot := ViewHas(d, s.slots, id);
      SlotAt(d, s.slots, slot);
    }
  }

  lemma FoldNone(v: View, key: string, metric: string, ts: int)
    ensures FoldObserved(v, key, metric, [], ts) == v
  {}

  lemma FoldOneMore(v: View, key: string, metric: string, chosen: seq<Sample>, i: nat, ts: int)
    requires i < |chosen|
    ensures FoldObserved(v, key, metric, chosen[..i + 1], ts) ==
      Observed(FoldObserved(v, key, metric, chosen[..i], ts), SeriesId(key, metric, Kept(chosen[i].labels)), ts, chosen[i].value)
  {
    assert chosen[..i + 1][..i] == chosen[..i];
  }

  lemma CapParts(before: View, after: View, key: string, metric: string, cap: nat)
    requires ViewOk(before) && CapChanges(before, after, key, metric, cap)
    ensures Capped(Sub(before, key, metric), Sub(after, key, metric), cap) && OutsideSame(before, after, key, metric)
  {}

  lemma ValidParts(s: MemoryMetricsStore)
    requires s.Valid()
    ensures DictOk(s.dict.Model()) && DescsOk(s.dict.Model(), s.descs) && SlotsOk(s.dict.Model(), s.slots)
  {}

  lemma TrimCases(before: Series, after: Series, cutoff: int)
    requires SeriesOk(before) && SeriesOk(after) && after.postings == before.postings
    requires PointsOf(after) == Since(PointsOf(before), cutoff)
    ensures |after.timestamps| == 0 ==> TrimmedAway(before, cutoff)
    ensures |after.timestamps| != 0 ==> TrimmedTo(before, after, cutoff)
  {
    assert |PointsOf(after)| == |after.timestamps|;
  }

  lemma CapFits(d: Dict, slots: Slots, key: nat, metric: nat, cap: nat)
    requires SlotsOk(d, slots) && 0 < key < |d.values| && 0 < metric < |d.values|
    ensures ViewOk(ViewOf(d, slots)) && forall s :: s in slots ==> slots[s].values != []
    ensures |set s | s in slots && Of(s, key, metric)| <= cap ==>
      CapChanges(ViewOf(d, slots), ViewOf(d, slots), LookupIn(d, key), LookupIn(d, metric), cap)
  {
    hide ViewOf, DictOk, PostingsOk, SeriesOk;
    ViewIsOk(d, slots);
    SubSlots(d, slots, key, metric, set s | s in slots && Of(s, key, metric));
    forall s | s in slots ensures slots[s].values != [] { assert SlotOk(d, s, slots[s]); }
  }

  lemma StillRanks(a: seq<Ranked>, b: seq<Ranked>, slots: Slots, mine: set<Slot>)
    requires RanksOf(a, slots, mine) && |a| == |mine| && multiset(a) == multiset(b)
    ensures RanksOf(b, slots, mine) && |b| == |mine|
  {
    hide RankOf;
    SameMembers(a, b);
    ApartStays(a, b);
    assert SlotsIn(b) == mine;
    forall i, j | 0 <= i < j < |b| ensures b[i].slot != b[j].slot {
      assert b[i] in a && b[j] in a && b[i] != b[j];
    }
  }

  lemma NoSlots()
    ensures SlotsIn([]) == {}
  {}

  lemma OneSlotMore(ranked: seq<Ranked>, cap: nat, i: nat)
    requires cap <= i < |ranked|
    ensures SlotsIn(ranked[cap..i + 1]) == SlotsIn(ranked[cap..i]) + {ranked[i].slot}
  {
    assert ranked[cap..i + 1] == ranked[cap..i] + [ranked[i]];
  }

  lemma OneRankMore(ranked: seq<Ranked>, slots: Slots, done: set<Slot>, s: Slot)
    requires RanksOf(ranked, slots, done) && s !in done && s in slots && slots[s].values != []
    ensures RanksOf(ranked + [Ranked(s, slots[s].values[|slots[s].values| - 1])], slots, done + {s})
  {
    var r := Ranked(s, slots[s].values[|slots[s].values| - 1]);
    var more := ranked + [r];
    assert SlotsIn(more) == SlotsIn(ranked) + {s};
    forall i | 0 <= i < |ranked| ensures more[i].slot != s { assert ranked[i] in ranked; }
  }

  lemma SomethingGoes(before: Slots, ranked: seq<Ranked>, cap: nat, mine: set<Slot>)
    requires RanksOf(ranked, before, mine) && mine <= before.Keys && cap < |ranked|
    ensures before - SlotsIn(ranked[cap..]) != before
  {
    assert ranked[cap] in ranked[cap..];
    assert ranked[cap] in ranked;
    assert ranked[cap].slot in before && ranked[cap].slot !in before - SlotsIn(ranked[cap..]);
  }

  lemma SlotsKnowDict(d: Dict, slots: Slots)
    requires SlotsOk(d, slots)
    ensures DictOk(d)
  {}

  lemma FreshSeries(postings: seq<Posting>)
    ensures SeriesOk(Series(postings, [], [], 0.0, 0)) && PointsOf(Series(postings, [], [], 0.0, 0)) == []
  {}

  // A slot found by signature holds the same labels.
  lemma SlotHolds(d: Dict, slots: Slots, slot: Slot, postings: seq<Posting>)
    requires SlotsOk(d, slots) && slot in slots && PostingsOk(d, postings) && slot.signature == SignatureOf(postings)
    ensures SlotOk(d, slot, slots[slot]) && slots[slot].postings == postings && SeriesOk(slots[slot])
  {
    SameLabelsSameSlot(d, slot, slots[slot], postings);
  }

  lemma ObservedAtSlot(d: Dict, slots: Slots, slot: Slot, before: Series, after: Series, postings: seq<Posting>)
    requires SlotsOk(d, slots) && PostingsOk(d, postings) && slot.signature == SignatureOf(postings)
    requires 0 < slot.key < |d.values| && 0 < slot.metric < |d.values|
    requires before.postings == postings == after.postings && SeriesOk(before) && SeriesOk(after) && after.values != []
    requires if slot in slots then before == slots[slot] else PointsOf(before) == []
    ensures SlotsOk(d, slots[slot := after])
    ensures var id := SeriesId(LookupIn(d, slot.key), LookupIn(d, slot.metric), Decode(d, postings));
      && ViewOf(d, slots[slot := after]) == ViewOf(d, slots)[id := PointsOf(after)]
      && PointsAt(ViewOf(d, slots), id) == PointsOf(before)
  {
    hide ViewOf, PostingsOk, SeriesOk, SignatureOf, DictOk, Decode;
    ViewPut(d, slots, slot, after);
    var id := IdOf(d, slot, after);
    if slot in slots {
      ViewAt(d, slots, slot);
    } else if id in ViewOf(d, slots) {
      var t := ViewHas(d, slots, id);
      var all := slots[slot := after];
      SlotsAreOneToOne(d, all, slot, t);
    }
  }
}
