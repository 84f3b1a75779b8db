// One encoded time series: parallel columns and a cached run of equal values at
// the end (encodedSeries, updateConstantRun, constantRunEndingAt in
// storage/metrics.go).

module SeriesColumns {
  import opened StringDictionary

  datatype Series = Series(
    postings: seq<Posting>,
    timestamps: seq<int>,
    values: seq<real>,
    constantValue: real,
    constantCount: nat)

  datatype Point = Point(ts: int, value: real)

  // How many values at the end are equal.
  function RunLength(values: seq<real>): nat {
    if |values| <= 1 then |values|
    else if values[|values| - 1] == values[|values| - 2] then RunLength(values[..|values| - 1]) + 1
    else 1
  }

  ghost predicate Increasing(ts: seq<int>) { forall i, j :: 0 <= i < j < |ts| ==> ts[i] < ts[j] }

  // Columns of one length, times increasing, and the cached run exact.
  ghost predicate SeriesOk(s: Series) {
    && |s.timestamps| == |s.values| && Increasing(s.timestamps)
    && s.constantCount == RunLength(s.values)
    && (s.values != [] ==> s.constantValue == s.values[|s.values| - 1])
  }

  function PointsOf(s: Series): seq<Point>
    requires |s.timestamps| == |s.values|
  {
    seq(|s.values|, i requires 0 <= i < |s.values| => Point(s.timestamps[i], s.values[i]))
  }

  // A plain list of points takes in one more: an older one is ignored, one of
  // the same second replaces the last.
  function ObservePoints(points: seq<Point>, ts: int, value: real): seq<Point> {
    if points == [] || points[|points| - 1].ts < ts then points + [Point(ts, value)]
    else if points[|points| - 1].ts == ts then points[..|points| - 1] + [Point(ts, value)]
    else points
  }

  function Since(points: seq<Point>, cutoff: int): seq<Point> {
    if points == [] then [] else if points[0].ts < cutoff then Since(points[1..], cutoff) else points
  }

  function Until(points: seq<Point>, to: int): seq<Point> {
    if points == [] then [] else if points[|points| - 1].ts > to then Until(points[..|points| - 1], to) else points
  }

  // ---------------------------------------------------------------- the run length

  ghost predicate EqualFrom(values: seq<real>, k: nat) {
    forall i, j :: k <= i < |values| && k <= j < |values| ==> values[i] == values[j]
  }

  // RunLength is the longest run of equal values at the end.
  lemma {:induction false} RunLengthIsLongest(values: seq<real>, n: nat)
    requires n <= |values|
    ensures RunLength(values) <= |values| && (values != [] ==> RunLength(values) > 0)
    ensures n <= RunLength(values) <==> EqualFrom(values, |values| - n)
  {
    if |values| > 1 {
      var rest := values[..|values| - 1];
      RunLengthIsLongest(rest, if n == 0 then 0 else n - 1);
      if n > 1 {
        assert values[|values| - 2] == rest[|rest| - 1];
        assert EqualFrom(values, |values| - n) ==> EqualFrom(rest, |rest| - (n - 1)) by {
          if EqualFrom(values, |values| - n) {
            forall i, j | |rest| - (n - 1) <= i < |rest| && |rest| - (n - 1) <= j < |rest| ensures rest[i] == rest[j] {
              assert values[i] == values[j];
            }
          }
        }
        if values[|values| - 1] == values[|values| - 2] && EqualFrom(rest, |rest| - (n - 1)) {
          ExtendEqual(values, |values| - n);
        } else if values[|values| - 1] != values[|values| - 2] {
          assert !EqualFrom(values, |values| - n);
        }
      }
    }
  }

  lemma ExtendEqual(values: seq<real>, k: nat)
    requires |values| > 1 && k < |values| - 1 && EqualFrom(values[..|values| - 1], k)
    requires values[|values| - 1] == values[|values| - 2]
    ensures EqualFrom(values, k)
  {
    var rest := values[..|values| - 1];
    forall i | k <= i < |values| ensures values[i] == values[|values| - 2] {
      if i < |rest| { assert rest[i] == rest[|rest| - 1]; }
    }
  }

  // Dropping values from the front cuts the run at most to what is left.
  lemma {:induction false} RunAfterDrop(values: seq<real>, first: nat)
    requires first <= |values|
    ensures RunLength(values[first..]) == if RunLength(values) > |values| - first then |values| - first else RunLength(values)
  {
    if first < |values| {
      if |values| > 1 && first < |values| - 1 {
        var rest := values[..|values| - 1];
        RunAfterDrop(rest, first);
        assert values[first..][..|values| - first - 1] == rest[first..];
      } else {
        RunLengthIsLongest(values, 1);
      }
    }
  }

  // ---------------------------------------------------------------- the operations

  method UpdateConstantRun(s: Series) returns (r: Series)
    ensures r == s.(constantValue := r.constantValue, constantCount := RunLength(s.values))
    ensures r.constantValue == if s.values == [] then 0.0 else s.values[|s.values| - 1]
  {
    var n := |s.values|;
    if n == 0 {
      return s.(constantValue := 0.0, constantCount := 0);
    }
    var count := RunBefore(s.values, n);
    assert s.values[..n] == s.values;
    return s.(constantValue := s.values[n - 1], constantCount := count);
  }

  // The loop that counts back from an end while values stay equal.
  method RunBefore(values: seq<real>, end: nat) returns (count: nat)
    requires 0 < end <= |values|
    ensures count == RunLength(values[..end])
  {
    var value := values[end - 1];
    count := 1;
    var i := end - 2;
    while i >= 0 && values[i] == value
      invariant -1 <= i <= end - 2 && count == end - 1 - i
      invariant forall k :: i < k < end ==> values[k] == value
    {
      count := count + 1;
      i := i - 1;
    }
    var part := values[..end];
    RunLengthIsLongest(part, count);
    assert EqualFrom(part, |part| - count);
    if count < |part| {
      RunLengthIsLongest(part, count + 1);
      assert part[i] != part[end - 1];
    }
  }

  method ConstantRunEndingAt(s: Series, end: nat) returns (count: nat)
    requires SeriesOk(s) && end <= |s.values|
    ensures count == RunLength(s.values[..end])
  {
    if end == |s.values| {
      assert s.values[..end] == s.values;
      return s.constantCount;
    }
    if end <= 0 {
      return 0;
    }
    count := RunBefore(s.values, end);
  }

  method ReplaceLast(s: Series, value: real) returns (r: Series)
    requires SeriesOk(s) && s.values != []
    ensures SeriesOk(r) && r.postings == s.postings && r.values != []
    ensures PointsOf(r) == PointsOf(s)[..|s.values| - 1] + [Point(s.timestamps[|s.values| - 1], value)]
  {
    r := s.(values := s.values[|s.values| - 1 := value]);
    r := UpdateConstantRun(r);
  }

  // What IngestMetrics does with one sample of a series.
  method ObserveSample(s: Series, ts: int, value: real) returns (r: Series)
    requires SeriesOk(s)
    ensures SeriesOk(r) && r.postings == s.postings && r.values != []
    ensures PointsOf(r) == ObservePoints(PointsOf(s), ts, value)
  {
    r := s;
    var n := |s.timestamps|;
    if n > 0 {
      var lastTimestamp := s.timestamps[n - 1];
      if ts < lastTimestamp {
        return;
      }
      if ts == lastTimestamp {
        if s.values[n - 1] == value {
          assert PointsOf(s)[..n - 1] + [Point(ts, value)] == PointsOf(s);
          return;
        }
        r := ReplaceLast(s, value);
        return;
      }
    }
    r := r.(timestamps := r.timestamps + [ts], values := r.values + [value]);
    assert r.values[..n] == s.values;
    if n > 0 && s.constantValue == value {
      r := r.(constantCount := r.constantCount + 1);
    } else {
      r := r.(constantValue := value, constantCount := 1);
    }
  }

  // sort.Search for the first time that is at least t.
  method FirstAtLeast(timestamps: seq<int>, t: int) returns (first: nat)
    requires Increasing(timestamps)
    ensures first <= |timestamps|
    ensures forall i :: 0 <= i < first ==> timestamps[i] < t
    ensures forall i :: first <= i < |timestamps| ==> t <= timestamps[i]
  {
    var lo, hi := 0, |timestamps|;
    while lo < hi
      invariant 0 <= lo <= hi <= |timestamps|
      invariant forall i :: 0 <= i < lo ==> timestamps[i] < t
      invariant forall i :: hi <= i < |timestamps| ==> t <= timestamps[i]
    {
      var mid := (lo + hi) / 2;
      if timestamps[mid] >= t { hi := mid; } else { lo := mid + 1; }
    }
    first := lo;
  }

  lemma {:induction false} SinceIsDrop(points: seq<Point>, cutoff: int, first: nat)
    requires first <= |points| && forall i :: 0 <= i < first ==> points[i].ts < cutoff
    requires first < |points| ==> cutoff <= points[first].ts
    ensures Since(points, cutoff) == points[first..]
  {
    if first > 0 { SinceIsDrop(points[1..], cutoff, first - 1); }
  }

  lemma {:induction false} UntilIsTake(points: seq<Point>, to: int, end: nat)
    requires end <= |points| && forall i :: end <= i < |points| ==> points[i].ts > to
    requires end > 0 ==> points[end - 1].ts <= to
    ensures Until(points, to) == points[..end]
  {
    if end < |points| {
      UntilIsTake(points[..|points| - 1], to, end);
      assert points[..|points| - 1][..end] == points[..end];
    } else {
      assert points[..end] == points;
    }
  }

  // One turn of the loop of trimLocked.
  method TrimSeries(s: Series, cutoff: int) returns (r: Series)
    requires SeriesOk(s)
    ensures SeriesOk(r) && r.postings == s.postings
    ensures PointsOf(r) == Since(PointsOf(s), cutoff)
  {
    var first := FirstAtLeast(s.timestamps, cutoff);
    SinceIsDrop(PointsOf(s), cutoff, first);
    r := s;
    if first > 0 {
      RunAfterDrop(s.values, first);
      r := r.(timestamps := r.timestamps[first..], values := r.values[first..]);
      if r.constantCount > |r.values| {
        r := r.(constantCount := |r.values|);
      }
    }
  }

  // One turn of the inner loop of Metrics: the points of a range, and whether
  // they all have the same value.
  method Slice(s: Series, from: int, to: int) returns (points: seq<Point>, constant: bool)
    requires SeriesOk(s) && from <= to
    ensures points == Until(Since(PointsOf(s), from), to)
    ensures points != [] ==>
      constant == forall i, j :: 0 <= i < |points| && 0 <= j < |points| ==> points[i].value == points[j].value
  {
    var start := FirstAtLeast(s.timestamps, from);
    var end := FirstAtLeast(s.timestamps, to + 1);
    SliceIs(s, from, to, start, end);
    if start == end {
      return [], false;
    }
    points := PointsOf(s)[start..end];
    var run := ConstantRunEndingAt(s, end);
    constant := run >= end - start;
    RunLengthIsLongest(s.values[..end], end - start);
    ConstantMeansEqual(s, start, end);
  }

  lemma SliceIs(s: Series, from: int, to: int, start: nat, end: nat)
    requires SeriesOk(s) && from <= to && start <= |s.values| && end <= |s.values|
    requires forall i :: 0 <= i < start ==> s.timestamps[i] < from
    requires forall i :: start <= i < |s.values| ==> from <= s.timestamps[i]
    requires forall i :: 0 <= i < end ==> s.timestamps[i] < to + 1
    requires forall i :: end <= i < |s.values| ==> to + 1 <= s.timestamps[i]
    ensures start <= end && Until(Since(PointsOf(s), from), to) == PointsOf(s)[start..end]
  {
    var points := PointsOf(s);
    assert end < |s.values| ==> from <= s.timestamps[end];
    SinceIsDrop(points, from, start);
    UntilIsTake(points[start..], to, end - start);
    assert points[start..][..end - start] == points[start..end];
  }

  lemma ConstantMeansEqual(s: Series, start: nat, end: nat)
    requires start < end <= |s.values| == |s.timestamps|
    ensures EqualFrom(s.values[..end], start) <==>
      (forall i, j :: 0 <= i < end - start && 0 <= j < end - start ==> PointsOf(s)[start..end][i].value == PointsOf(s)[start..end][j].value)
  {
    var points, part := PointsOf(s)[start..end], s.values[..end];
    assert forall i :: 0 <= i < end - start ==> points[i].value == part[start + i];
    if forall i, j :: 0 <= i < end - start && 0 <= j < end - start ==> points[i].value == points[j].value {
      forall i, j | start <= i < end && start <= j < end ensures part[i] == part[j] {
        assert points[i - start].value == points[j - start].value;
      }
    }
  }
}
