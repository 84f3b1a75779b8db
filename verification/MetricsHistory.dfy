// What the metrics store returns after any run of observations and queries, told
// by the samples alone (IngestMetrics and Metrics in storage/metrics.go).

module MetricsHistory {
  import opened Basics
  import opened StringDictionary
  import opened LabelPostings
  import opened SeriesColumns
  import opened MetricsModel
  import opened MetricsIngest
  import opened MetricsDescriptors
  import opened MetricsQuery
  import opened SeriesHistory
  import opened Sorting

  // Take: samples observed for a key at a second. Read: a query up to a second,
  // which trims too.
  datatype Step = Take(key: string, samples: seq<Sample>, ts: int) | Read(ts: int)

  ghost predicate Follows(before: View, after: View, s: Step, cap: nat, keep: int) {
    match s
    case Take(key, samples, ts) => TookIn(before, after, key, samples, ts, cap, keep)
    case Read(ts) => after == Trimmed(before, ts - keep)
  }

  // The views a store goes through.
  ghost predicate HistoryOf(steps: seq<Step>, views: seq<View>, cap: nat, keep: int) {
    |views| == |steps| + 1 && views[0] == map[] && forall i :: 0 <= i < |steps| ==> Follows(views[i], views[i + 1], steps[i], cap, keep)
  }

  // ----------------------------------------------------------- never cut by the cap

  function LabelsIn(samples: seq<Sample>, metric: string): set<LabelSet> {
    set x | x in samples && x.name == metric :: Kept(x.labels)
  }

  // The label sets a metric of a key ever came with.
  function LabelSets(steps: seq<Step>, key: string, metric: string): set<LabelSet> {
    if steps == [] then {} else
      var s := steps[|steps| - 1];
      LabelSets(steps[..|steps| - 1], key, metric) + (if s.Take? && s.key == key then LabelsIn(s.samples, metric) else {})
  }

  // There is room for all the series of the metric, and for all its samples.
  ghost predicate Roomy(steps: seq<Step>, key: string, metric: string, cap: nat) {
    && |LabelSets(steps, key, metric)| <= cap
    && forall i :: 0 <= i < |steps| && steps[i].Take? && steps[i].key == key ==> |Named(steps[i].samples, metric)| <= cap
  }

  lemma {:induction false} LabelSetsGrow(steps: seq<Step>, n: nat, key: string, metric: string)
    requires n <= |steps|
    ensures LabelSets(steps[..n], key, metric) <= LabelSets(steps, key, metric)
  {
    if n < |steps| {
      LabelSetsGrow(steps[..|steps| - 1], n, key, metric);
      assert steps[..|steps| - 1][..n] == steps[..n];
    } else {
      assert steps[..n] == steps;
    }
  }

  lemma {:induction false} NamedMembers(samples: seq<Sample>, metric: string)
    ensures forall x :: x in Named(samples, metric) <==> x in samples && x.name == metric && metric != ""
  {
    if samples != [] {
      NamedMembers(samples[..|samples| - 1], metric);
      assert samples == samples[..|samples| - 1] + [samples[|samples| - 1]];
    }
  }

  // With room for all of them, the chosen samples are all there are.
  lemma AllChosen(samples: seq<Sample>, chosen: seq<Sample>, cap: nat)
    requires Chosen(samples, chosen, cap) && |samples| <= cap
    ensures forall x :: x in chosen <==> x in samples
  {
    hide SampleOrder;
    var rest := multiset(samples) - multiset(chosen);
    assert multiset(samples) == multiset(chosen) + rest;
    assert |multiset(samples)| == |samples| && |multiset(chosen)| == |chosen|;
    assert |rest| == 0;
    assert multiset(samples) == multiset(chosen);
    SameMembers(samples, chosen);
  }

  // And with room for all the series, none is cut.
  lemma NothingCut(before: View, after: View, cap: nat)
    requires ViewOk(before) && Capped(before, after, cap) && |before| <= cap
    ensures after == before
  {
    hide ViewOk;
    assert after.Keys <= before.Keys;
    if after.Keys != before.Keys { SubsetSize(after.Keys, before.Keys); }
  }

  ghost function IdsOf(labels: set<LabelSet>, key: string, metric: string): set<SeriesId> {
    set l | l in labels :: SeriesId(key, metric, l)
  }

  lemma {:induction false} CountIds(labels: set<LabelSet>, key: string, metric: string)
    ensures |IdsOf(labels, key, metric)| <= |labels|
  {
    if labels == {} {
      assert IdsOf(labels, key, metric) == {};
    } else {
      var l :| l in labels;
      CountIds(labels - {l}, key, metric);
      assert IdsOf(labels, key, metric) == IdsOf(labels - {l}, key, metric) + {SeriesId(key, metric, l)};
    }
  }

  lemma {:induction false} FoldIds(v: View, key: string, metric: string, chosen: seq<Sample>, ts: int, labels: set<LabelSet>)
    requires v.Keys <= IdsOf(labels, key, metric) && forall x :: x in chosen ==> Kept(x.labels) in labels
    ensures FoldObserved(v, key, metric, chosen, ts).Keys <= IdsOf(labels, key, metric)
  {
    if chosen != [] {
      hide Kept, ObservePoints;
      var rest, s := chosen[..|chosen| - 1], chosen[|chosen| - 1];
      FoldIds(v, key, metric, rest, ts, labels);
      assert SeriesId(key, metric, Kept(s.labels)) in IdsOf(labels, key, metric);
    }
  }

  // What one observation does to a metric there is room for: all its samples go in.
  lemma MetricTakes(before: View, after: View, key: string, metric: string, samples: seq<Sample>, ts: int, cap: nat, labels: set<LabelSet>)
      returns (chosen: seq<Sample>)
    requires MetricIngested(before, after, key, metric, samples, ts, cap) && |samples| <= cap && |labels| <= cap
    requires before.Keys <= IdsOf(labels, key, metric) && forall x :: x in samples ==> Kept(x.labels) in labels
    ensures after == FoldObserved(before, key, metric, chosen, ts) && forall x :: x in chosen <==> x in samples
    ensures after.Keys <= IdsOf(labels, key, metric)
  {
    hide ViewOk, Capped, Chosen, FoldObserved, Kept;
    chosen :| Chosen(samples, chosen, cap) && ViewOk(FoldObserved(before, key, metric, chosen, ts))
      && Capped(FoldObserved(before, key, metric, chosen, ts), after, cap);
    AllChosen(samples, chosen, cap);
    FoldIds(before, key, metric, chosen, ts, labels);
    CountIds(labels, key, metric);
    SubsetSize(FoldObserved(before, key, metric, chosen, ts).Keys, IdsOf(labels, key, metric));
    NothingCut(FoldObserved(before, key, metric, chosen, ts), after, cap);
  }

  // ------------------------------------------------------------- one series over time

  // A step observes the series.
  ghost predicate Observes(s: Step, id: SeriesId) {
    s.Take? && s.key == id.key != "" && id.metric != "" && exists x :: x in s.samples && x.name == id.metric && Kept(x.labels) == id.labels
  }

  // The points of a series after samples of one second: those of other seconds stay
  // as they were, and what that second has is the value of one of the samples.
  ghost predicate PointsTake(before: seq<Point>, after: seq<Point>, values: set<real>, ts: int) {
    && TimesIncrease(after)
    && (values == {} || (before != [] && ts < before[|before| - 1].ts) ==> after == before)
    && (values != {} && (before == [] || before[|before| - 1].ts <= ts) ==>
          && (forall p :: p in before && p.ts != ts ==> p in after)
          && (forall p :: p in after ==> p.ts <= ts)
          && exists x :: x in values && Point(ts, x) in after)
  }

  function ValuesOf(samples: seq<Sample>, labels: LabelSet): set<real> { set x | x in samples && Kept(x.labels) == labels :: x.value }

  lemma {:induction false} FoldPoints(v: View, key: string, metric: string, chosen: seq<Sample>, ts: int, labels: LabelSet)
    requires TimesIncrease(PointsAt(v, SeriesId(key, metric, labels)))
    ensures var id := SeriesId(key, metric, labels);
            PointsTake(PointsAt(v, id), PointsAt(FoldObserved(v, key, metric, chosen, ts), id), ValuesOf(chosen, labels), ts)
  {
    hide ObservePoints, TimesIncrease, PointsTake, Kept, PointsAt, Observed, ValuesOf, FoldObserved;
    var id := SeriesId(key, metric, labels);
    if chosen == [] {
      NothingFolded(v, key, metric, ts, labels);
    } else {
      var rest, s := chosen[..|chosen| - 1], chosen[|chosen| - 1];
      assert chosen == rest + [s];
      FoldPoints(v, key, metric, rest, ts, labels);
      FoldSnoc(v, key, metric, rest, s, ts, labels);
      if Kept(s.labels) == labels {
        OneMoreTaken(PointsAt(v, id), PointsAt(FoldObserved(v, key, metric, rest, ts), id), ValuesOf(rest, labels), ts, s.value);
      }
    }
  }

  lemma FoldSnoc(v: View, key: string, metric: string, rest: seq<Sample>, s: Sample, ts: int, labels: LabelSet)
    ensures var was, id := PointsAt(FoldObserved(v, key, metric, rest, ts), SeriesId(key, metric, labels)), SeriesId(key, metric, labels);
            && PointsAt(FoldObserved(v, key, metric, rest + [s], ts), id) == (if Kept(s.labels) == labels then ObservePoints(was, ts, s.value) else was)
            && ValuesOf(rest + [s], labels) == (if Kept(s.labels) == labels then ValuesOf(rest, labels) + {s.value} else ValuesOf(rest, labels))
  {
    hide ObservePoints, Kept, PointsAt, Observed, ValuesOf;
    assert (rest + [s])[..|rest|] == rest;
    PointsObserved(FoldObserved(v, key, metric, rest, ts), SeriesId(key, metric, Kept(s.labels)), ts, s.value, SeriesId(key, metric, labels));
    ValuesSnoc(rest, s, labels);
  }

  lemma NothingFolded(v: View, key: string, metric: string, ts: int, labels: LabelSet)
    requires TimesIncrease(PointsAt(v, SeriesId(key, metric, labels)))
    ensures var id := SeriesId(key, metric, labels);
            PointsTake(PointsAt(v, id), PointsAt(FoldObserved(v, key, metric, [], ts), id), ValuesOf([], labels), ts)
  {}

  lemma ValuesSnoc(samples: seq<Sample>, s: Sample, labels: LabelSet)
    ensures ValuesOf(samples + [s], labels) == (if Kept(s.labels) == labels then ValuesOf(samples, labels) + {s.value} else ValuesOf(samples, labels))
  {
    hide Kept;
  }

  lemma PointsObserved(v: View, at: SeriesId, ts: int, value: real, id: SeriesId)
    ensures PointsAt(Observed(v, at, ts, value), id) == if id == at then ObservePoints(PointsAt(v, id), ts, value) else PointsAt(v, id)
  {
    hide ObservePoints;
  }

  lemma OneMoreTaken(before: seq<Point>, so: seq<Point>, values: set<real>, ts: int, value: real)
    requires TimesIncrease(before) && PointsTake(before, so, values, ts)
    ensures PointsTake(before, ObservePoints(so, ts, value), values + {value}, ts)
  {
    ObserveOnce(so, Point(ts, value));
    assert before != [] ==> before[|before| - 1] in before;
    assert so != [] ==> so[|so| - 1] in so;
  }

  lemma SubPoints(v: View, id: SeriesId)
    ensures PointsAt(Sub(v, id.key, id.metric), id) == PointsAt(v, id)
  {}

  // What retention does to a series.
  lemma TrimmedPoints(v: View, cutoff: int, id: SeriesId, p: Point)
    requires TimesIncrease(PointsAt(v, id))
    ensures TimesIncrease(PointsAt(Trimmed(v, cutoff), id))
    ensures p in PointsAt(Trimmed(v, cutoff), id) <==> p in PointsAt(v, id) && cutoff <= p.ts
  {
    SinceMembers(PointsAt(v, id), cutoff, p);
    assert Since([], cutoff) == [];
  }

  // Where a run stands for one metric with room.
  ghost predicate Stand(v: View, id: SeriesId, labels: set<LabelSet>) {
    && TimesIncrease(PointsAt(v, id))
    && Sub(v, id.key, id.metric).Keys <= IdsOf(labels, id.key, id.metric)
  }

  // The samples of the series that a step has.
  ghost function ValuesIn(s: Step, id: SeriesId): set<real> {
    if s.Take? && s.key == id.key != "" && id.metric != "" then ValuesOf(Named(s.samples, id.metric), id.labels) else {}
  }

  // What one step does to a series there is room for.
  ghost predicate SeriesSteps(before: seq<Point>, after: seq<Point>, values: set<real>, ts: int, cutoff: Option<int>) {
    exists mid :: PointsTake(before, mid, values, ts)
      && (match cutoff case None => after == mid case Some(c) => forall p :: p in after <==> p in mid && c <= p.ts)
  }

  // The cutoff of a step, if it trims.
  function CutoffOf(s: Step, keep: int): Option<int> {
    if s.Take? && (s.key == "" || Names(s.samples) == {}) then None else Some(s.ts - keep)
  }

  lemma StepStands(before: View, after: View, s: Step, id: SeriesId, labels: set<LabelSet>, cap: nat, keep: int)
    requires Follows(before, after, s, cap, keep) && Stand(before, id, labels) && |labels| <= cap
    requires s.Take? && s.key == id.key ==> LabelsIn(s.samples, id.metric) <= labels && |Named(s.samples, id.metric)| <= cap
    ensures Stand(after, id, labels)
    ensures SeriesSteps(PointsAt(before, id), PointsAt(after, id), ValuesIn(s, id), s.ts, CutoffOf(s, keep))
  {
    hide TimesIncrease, PointsTake, Sub, Named, Trimmed, LabelsIn, IdsOf, Stand, ValuesIn, SeriesSteps, Ingested, PointsAt, Names;
    match s
    case Take(key, samples, ts) =>
      if key == "" || Names(samples) == {} {
        NoValues(s, id);
        StandIncreases(before, id, labels);
        TakesNothing(PointsAt(before, id), ts);
        Stepped(PointsAt(before, id), PointsAt(before, id), PointsAt(after, id), ValuesIn(s, id), ts, None);
      } else {
        var mid :| Ingested(before, mid, key, samples, ts, cap, Names(samples)) && after == Trimmed(mid, ts - keep);
        IngestStands(before, mid, s, id, labels, cap);
        TrimStands(mid, after, ts - keep, id, labels);
        Stepped(PointsAt(before, id), PointsAt(mid, id), PointsAt(after, id), ValuesIn(s, id), ts, Some(ts - keep));
      }
    case Read(ts) =>
      StandIncreases(before, id, labels);
      TakesNothing(PointsAt(before, id), ts);
      TrimStands(before, after, ts - keep, id, labels);
      ReadsNothing(s, id);
      Stepped(PointsAt(before, id), PointsAt(before, id), PointsAt(after, id), ValuesIn(s, id), ts, Some(ts - keep));
  }

  lemma Stepped(before: seq<Point>, mid: seq<Point>, after: seq<Point>, values: set<real>, ts: int, cutoff: Option<int>)
    requires PointsTake(before, mid, values, ts)
    requires match cutoff case None => after == mid case Some(c) => forall p :: p in after <==> p in mid && c <= p.ts
    ensures SeriesSteps(before, after, values, ts, cutoff)
  {
    hide PointsTake;
  }

  lemma StandIncreases(v: View, id: SeriesId, labels: set<LabelSet>)
    requires Stand(v, id, labels)
    ensures TimesIncrease(PointsAt(v, id))
  {}

  lemma ReadsNothing(s: Step, id: SeriesId)
    requires s.Read?
    ensures ValuesIn(s, id) == {}
  {}

  lemma TakenIncreases(before: seq<Point>, after: seq<Point>, values: set<real>, ts: int)
    requires PointsTake(before, after, values, ts)
    ensures TimesIncrease(after)
  {}

  lemma NoValues(s: Step, id: SeriesId)
    requires s.Take? && (s.key == "" || Names(s.samples) == {})
    ensures ValuesIn(s, id) == {}
  {
    hide Kept, Named;
    NamedMembers(s.samples, id.metric);
    forall x | x in Named(s.samples, id.metric) ensures s.samples != [] && x.name in Names(s.samples) { assert x in s.samples; }
  }

  lemma TakesNothing(points: seq<Point>, ts: int)
    requires TimesIncrease(points)
    ensures PointsTake(points, points, {}, ts)
  {}

  lemma TrimStands(mid: View, after: View, cutoff: int, id: SeriesId, labels: set<LabelSet>)
    requires Stand(mid, id, labels) && after == Trimmed(mid, cutoff)
    ensures Stand(after, id, labels)
    ensures forall p :: p in PointsAt(after, id) <==> p in PointsAt(mid, id) && cutoff <= p.ts
  {
    hide TimesIncrease, IdsOf;
    forall p ensures p in PointsAt(after, id) <==> p in PointsAt(mid, id) && cutoff <= p.ts { TrimmedPoints(mid, cutoff, id, p); }
    TrimmedPoints(mid, cutoff, id, Point(0, 0.0));
    assert Sub(after, id.key, id.metric).Keys <= Sub(mid, id.key, id.metric).Keys;
  }

  lemma IngestStands(before: View, mid: View, s: Step, id: SeriesId, labels: set<LabelSet>, cap: nat)
    requires s.Take? && s.key != "" && Ingested(before, mid, s.key, s.samples, s.ts, cap, Names(s.samples))
    requires Stand(before, id, labels) && |labels| <= cap
    requires s.key == id.key ==> LabelsIn(s.samples, id.metric) <= labels && |Named(s.samples, id.metric)| <= cap
    ensures Stand(mid, id, labels) && PointsTake(PointsAt(before, id), PointsAt(mid, id), ValuesIn(s, id), s.ts)
  {
    hide TimesIncrease, PointsTake, Kept, Named, IdsOf, MetricIngested, FoldObserved;
    NamedMembers(s.samples, id.metric);
    if s.key == id.key && id.metric in Names(s.samples) {
      SubPoints(before, id);
      SubPoints(mid, id);
      SamplesLabelled(s.samples, id.metric, labels);
      var chosen := MetricTakes(Sub(before, id.key, id.metric), Sub(mid, id.key, id.metric), id.key, id.metric, Named(s.samples, id.metric), s.ts, cap, labels);
      FoldPoints(Sub(before, id.key, id.metric), id.key, id.metric, chosen, s.ts, id.labels);
      TakenIncreases(PointsAt(before, id), PointsAt(mid, id), ValuesOf(chosen, id.labels), s.ts);
      SameValues(chosen, Named(s.samples, id.metric), id.labels);
    } else {
      SubSame(before, mid, id.key, id.metric);
      SubPoints(before, id);
      SubPoints(mid, id);
      NotNamed(s, id);
      TakesNothing(PointsAt(before, id), s.ts);
    }
  }

  lemma SamplesLabelled(samples: seq<Sample>, metric: string, labels: set<LabelSet>)
    requires LabelsIn(samples, metric) <= labels
    ensures forall x :: x in Named(samples, metric) ==> Kept(x.labels) in labels
  {
    hide Kept;
    NamedMembers(samples, metric);
    forall x | x in Named(samples, metric) ensures Kept(x.labels) in labels { assert Kept(x.labels) in LabelsIn(samples, metric); }
  }

  lemma SameValues(a: seq<Sample>, b: seq<Sample>, labels: LabelSet)
    requires forall x :: x in a <==> x in b
    ensures ValuesOf(a, labels) == ValuesOf(b, labels)
  {
    hide Kept;
  }

  lemma NotNamed(s: Step, id: SeriesId)
    requires s.Take? && !(s.key == id.key && id.metric in Names(s.samples))
    ensures ValuesIn(s, id) == {}
  {
    hide Kept;
    NamedMembers(s.samples, id.metric);
    forall x | x in Named(s.samples, id.metric) ensures id.metric in Names(s.samples) { assert x in s.samples; }
  }

  // ------------------------------------------------------------------ whole runs

  lemma LabelsListed(steps: seq<Step>, i: nat, key: string, metric: string)
    requires i < |steps| && steps[i].Take? && steps[i].key == key
    ensures LabelsIn(steps[i].samples, metric) <= LabelSets(steps, key, metric)
  {
    hide LabelsIn;
    LabelSetsGrow(steps, i + 1, key, metric);
    assert steps[..i + 1][i] == steps[i];
  }

  lemma {:induction false} RunStands(steps: seq<Step>, views: seq<View>, id: SeriesId, cap: nat, keep: int, n: nat)
    requires HistoryOf(steps, views, cap, keep) && Roomy(steps, id.key, id.metric, cap) && n <= |steps|
    ensures Stand(views[n], id, LabelSets(steps, id.key, id.metric))
    ensures n < |steps| ==>
              SeriesSteps(PointsAt(views[n], id), PointsAt(views[n + 1], id), ValuesIn(steps[n], id), steps[n].ts, CutoffOf(steps[n], keep))
  {
    hide SeriesSteps, ValuesIn, CutoffOf, Follows, LabelSets, LabelsIn, Named, PointsAt, Stand;
    if n == 0 {
      NothingYet(id, LabelSets(steps, id.key, id.metric));
    } else {
      RunStands(steps, views, id, cap, keep, n - 1);
      if steps[n - 1].Take? && steps[n - 1].key == id.key { LabelsListed(steps, n - 1, id.key, id.metric); }
      StepStands(views[n - 1], views[n], steps[n - 1], id, LabelSets(steps, id.key, id.metric), cap, keep);
    }
    if n < |steps| {
      if steps[n].Take? && steps[n].key == id.key { LabelsListed(steps, n, id.key, id.metric); }
      StepStands(views[n], views[n + 1], steps[n], id, LabelSets(steps, id.key, id.metric), cap, keep);
    }
  }

  lemma NothingYet(id: SeriesId, labels: set<LabelSet>)
    ensures Stand(map[], id, labels)
  {}

  lemma ObservesHasValues(s: Step, id: SeriesId)
    ensures Observes(s, id) <==> ValuesIn(s, id) != {}
  {
    hide Kept, Named;
    if s.Take? && s.key == id.key != "" && id.metric != "" {
      NamedMembers(s.samples, id.metric);
      if Observes(s, id) {
        var x :| x in s.samples && x.name == id.metric && Kept(x.labels) == id.labels;
        assert x in Named(s.samples, id.metric) && x.value in ValuesIn(s, id);
      }
      if v :| v in ValuesIn(s, id) {
        var x :| x in Named(s.samples, id.metric) && Kept(x.labels) == id.labels && x.value == v;
        assert x in s.samples;
      }
    }
  }

  // No point of a series is newer than what was observed.
  lemma {:induction false} NoneNewer(steps: seq<Step>, views: seq<View>, id: SeriesId, cap: nat, keep: int, n: nat, t: int)
    requires HistoryOf(steps, views, cap, keep) && Roomy(steps, id.key, id.metric, cap) && n <= |steps|
    requires forall j :: 0 <= j < n && Observes(steps[j], id) ==> steps[j].ts <= t
    ensures forall p :: p in PointsAt(views[n], id) ==> p.ts <= t
  {
    if n > 0 {
      hide Observes, ValuesIn, Follows, LabelSets, Named, PointsAt, Stand, HistoryOf, Roomy, CutoffOf, TimesIncrease, SeriesSteps;
      NoneNewer(steps, views, id, cap, keep, n - 1, t);
      RunStands(steps, views, id, cap, keep, n - 1);
      ObservesHasValues(steps[n - 1], id);
      StepAddsNoNewer(PointsAt(views[n - 1], id), PointsAt(views[n], id), ValuesIn(steps[n - 1], id), steps[n - 1].ts, CutoffOf(steps[n - 1], keep), t);
    } else {
      assert PointsAt(views[0], id) == [];
    }
  }

  lemma StepAddsNoNewer(before: seq<Point>, after: seq<Point>, values: set<real>, ts: int, cutoff: Option<int>, t: int)
    requires SeriesSteps(before, after, values, ts, cutoff) && (values != {} ==> ts <= t)
    requires forall p :: p in before ==> p.ts <= t
    ensures forall p :: p in after ==> p.ts <= t
  {
    hide TimesIncrease;
  }

  // Some observed value of that second is there.
  ghost predicate HasOneOf(points: seq<Point>, values: set<real>, ts: int) { exists x :: x in values && Point(ts, x) in points }

  lemma TakesIt(before: seq<Point>, after: seq<Point>, values: set<real>, ts: int, cutoff: Option<int>)
    requires SeriesSteps(before, after, values, ts, cutoff) && values != {} && (cutoff.Some? ==> cutoff.value <= ts)
    requires forall p :: p in before ==> p.ts <= ts
    ensures HasOneOf(after, values, ts)
  {
    assert before != [] ==> before[|before| - 1] in before;
  }

  lemma KeepsIt(before: seq<Point>, after: seq<Point>, values: set<real>, ts: int, cutoff: Option<int>, p: Point)
    requires SeriesSteps(before, after, values, ts, cutoff) && p in before && (cutoff.Some? ==> cutoff.value <= p.ts)
    requires values == {} || ts != p.ts
    ensures p in after
  {
    hide TimesIncrease;
  }

  // The series was observed at step i, at a time not before any observation of it
  // until then; it was not observed again in that second; and no observation or
  // query of the store came so late that the time is out of retention.
  ghost predicate StillShown(steps: seq<Step>, id: SeriesId, i: nat, n: nat, keep: int)
    requires i < n <= |steps|
  {
    && Observes(steps[i], id)
    && (forall j :: 0 <= j < i && Observes(steps[j], id) ==> steps[j].ts <= steps[i].ts)
    && (forall j :: i < j < n && Observes(steps[j], id) ==> steps[j].ts != steps[i].ts)
    && (forall j :: i <= j < n ==> CutoffOf(steps[j], keep).None? || steps[j].ts - keep <= steps[i].ts)
  }

  // Then the series has a point for it still.
  lemma {:induction false} ObservedIsKept(steps: seq<Step>, views: seq<View>, id: SeriesId, cap: nat, keep: int, i: nat, n: nat)
    requires HistoryOf(steps, views, cap, keep) && Roomy(steps, id.key, id.metric, cap)
    requires i < n <= |steps| && StillShown(steps, id, i, n, keep)
    ensures HasOneOf(PointsAt(views[n], id), ValuesIn(steps[i], id), steps[i].ts)
  {
    hide Observes, ValuesIn, Follows, LabelSets, Named, PointsAt, Stand, Roomy, SeriesSteps;
    ObservesHasValues(steps[n - 1], id);
    RunStands(steps, views, id, cap, keep, n - 1);
    if n == i + 1 {
      NoneNewer(steps, views, id, cap, keep, i, steps[i].ts);
      TakesIt(PointsAt(views[i], id), PointsAt(views[n], id), ValuesIn(steps[i], id), steps[i].ts, CutoffOf(steps[i], keep));
    } else {
      ObservedIsKept(steps, views, id, cap, keep, i, n - 1);
      var x :| x in ValuesIn(steps[i], id) && Point(steps[i].ts, x) in PointsAt(views[n - 1], id);
      KeepsIt(PointsAt(views[n - 1], id), PointsAt(views[n], id), ValuesIn(steps[n - 1], id), steps[n - 1].ts, CutoffOf(steps[n - 1], keep), Point(steps[i].ts, x));
    }
  }

  // An answer shows the point of a series.
  ghost predicate ShowsPoint(metrics: seq<MetricSeries>, id: SeriesId, p: Point) {
    exists m, s :: m in metrics && m.name == id.metric && s in m.series && s.labels == id.labels && p in s.points
  }

  lemma PointIsAnswered(v: View, d: Dict, descs: map<nat, EncodedDesc>, id: SeriesId, metrics: seq<MetricSeries>, from: int, to: int, p: Point)
    requires AnswersKey(v, d, descs, id.key, metrics, from, to)
    requires TimesIncrease(PointsAt(v, id)) && p in PointsAt(v, id) && from <= p.ts <= to
    ensures ShowsPoint(metrics, id, p)
  {
    hide Leq, Canonical, Range, DescOf, TimesIncrease;
    InRange(PointsAt(v, id), from, to, p);
    var m :| m in metrics && m.name == id.metric;
    assert MetricFor(v, d, descs, id.key, m, from, to);
    var s :| s in m.series && s.labels == id.labels;
    assert Measures(v, id.key, m.name, s, from, to);
  }

  lemma InRange(points: seq<Point>, from: int, to: int, p: Point)
    requires TimesIncrease(points) && p in points && from <= p.ts <= to
    ensures p in Range(points, from, to) && Range(points, from, to) != []
  {
    SinceMembers(points, from, p);
    UntilMembers(Since(points, from), to, p);
  }

  // A sample that a metric had for its labels at some observation, at a time not
  // before any earlier one of that series and not observed again, is returned by a
  // query whose range holds the time, as long as it is within retention and there
  // is room for the series of the metric under the cap.
  lemma SampleIsReturned(steps: seq<Step>, views: seq<View>, cap: nat, keep: int, i: nat, sample: Sample,
                         d: Dict, descs: map<nat, EncodedDesc>, metrics: seq<MetricSeries>, from: int)
    requires HistoryOf(steps, views, cap, keep) && i + 1 < |steps| && steps[|steps| - 1].Read?
    requires steps[i].Take? && steps[i].key != "" && sample in steps[i].samples && sample.name != ""
    requires forall x :: x in steps[i].samples && x.name == sample.name && Kept(x.labels) == Kept(sample.labels) ==> x.value == sample.value
    requires Roomy(steps, steps[i].key, sample.name, cap)
    requires StillShown(steps, SeriesId(steps[i].key, sample.name, Kept(sample.labels)), i, |steps|, keep)
    requires from <= steps[i].ts <= steps[|steps| - 1].ts
    requires AnswersKey(views[|steps|], d, descs, steps[i].key, metrics, from, steps[|steps| - 1].ts)
    ensures ShowsPoint(metrics, SeriesId(steps[i].key, sample.name, Kept(sample.labels)), Point(steps[i].ts, sample.value))
  {
    hide Kept, Follows, LabelSets, Named, PointsAt, AnswersKey, Roomy, StillShown, ShowsPoint, TimesIncrease;
    var id := SeriesId(steps[i].key, sample.name, Kept(sample.labels));
    ObservedIsKept(steps, views, id, cap, keep, i, |steps|);
    RunStands(steps, views, id, cap, keep, |steps|);
    OnlyValue(steps[i], id, sample.value);
    PointIsAnswered(views[|steps|], d, descs, id, metrics, from, steps[|steps| - 1].ts, Point(steps[i].ts, sample.value));
  }

  lemma OnlyValue(s: Step, id: SeriesId, value: real)
    requires s.Take? && forall x :: x in s.samples && x.name == id.metric && Kept(x.labels) == id.labels ==> x.value == value
    ensures forall v :: v in ValuesIn(s, id) ==> v == value
  {
    hide Kept, Named;
    NamedMembers(s.samples, id.metric);
  }
}
