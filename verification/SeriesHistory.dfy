// What a series holds after any observations, told by the observations alone
// (IngestMetrics in storage/metrics.go).

module SeriesHistory {
  import opened StringDictionary
  import opened SeriesColumns
  import opened MetricsModel

  // A series fed one observation after another.
  function Fed(points: seq<Point>, log: seq<Point>): seq<Point> {
    if log == [] then points else
      var o := log[|log| - 1];
      ObservePoints(Fed(points, log[..|log| - 1]), o.ts, o.value)
  }

  // An observation counts unless it is older than one before it.
  ghost predicate Counts(log: seq<Point>, i: nat)
    requires i < |log|
  {
    forall j :: 0 <= j < i ==> log[j].ts <= log[i].ts
  }

  // Of those of one second the last one stands.
  ghost predicate Stands(log: seq<Point>, i: nat) {
    i < |log| && Counts(log, i) && forall j :: i < j < |log| && Counts(log, j) ==> log[j].ts != log[i].ts
  }

  ghost predicate IsStanding(log: seq<Point>, p: Point) { exists i: nat :: Stands(log, i) && log[i] == p }

  // The last point is of the newest time observed.
  ghost predicate Newest(points: seq<Point>, log: seq<Point>) {
    && (points == [] <==> log == [])
    && (points != [] ==> (forall j :: 0 <= j < |log| ==> log[j].ts <= points[|points| - 1].ts)
                         && exists j :: 0 <= j < |log| && log[j].ts == points[|points| - 1].ts)
  }

  // What one observation does to points in time order.
  lemma ObserveOnce(points: seq<Point>, o: Point)
    requires TimesIncrease(points)
    ensures var after := ObservePoints(points, o.ts, o.value);
            && TimesIncrease(after) && after != []
            && (points != [] && o.ts < points[|points| - 1].ts ==> after == points)
            && (points == [] || points[|points| - 1].ts <= o.ts ==>
                  after[|after| - 1] == o && forall p :: p in after <==> p == o || (p in points && p.ts != o.ts))
  {
    var after := ObservePoints(points, o.ts, o.value);
    if points == [] || points[|points| - 1].ts < o.ts {
      assert after == points + [o];
    } else if points[|points| - 1].ts == o.ts {
      var rest := points[..|points| - 1];
      assert after == rest + [o] && points == rest + [points[|points| - 1]];
    }
  }

  lemma NewestNext(points: seq<Point>, log: seq<Point>, o: Point)
    requires TimesIncrease(points) && Newest(points, log)
    ensures Newest(ObservePoints(points, o.ts, o.value), log + [o])
    ensures Counts(log + [o], |log|) <==> points == [] || points[|points| - 1].ts <= o.ts
  {
    ObserveOnce(points, o);
    var more := log + [o];
    assert more[|log|] == o && forall j :: 0 <= j < |log| ==> more[j] == log[j];
    if points != [] {
      var j :| 0 <= j < |log| && log[j].ts == points[|points| - 1].ts;
      assert more[j].ts == points[|points| - 1].ts;
    }
  }

  // What stands after one more observation.
  lemma StandsNext(log: seq<Point>, o: Point, p: Point)
    ensures var more := log + [o];
            IsStanding(more, p) <==>
              if Counts(more, |log|) then p == o || (IsStanding(log, p) && p.ts != o.ts) else IsStanding(log, p)
  {
    var more := log + [o];
    assert more[|log|] == o && forall j :: 0 <= j < |log| ==> more[j] == log[j];
    forall i: nat | i < |log| ensures Counts(more, i) <==> Counts(log, i) {}
    forall i: nat | i < |log| ensures Stands(more, i) <==> Stands(log, i) && !(Counts(more, |log|) && o.ts == log[i].ts) {}
    assert Stands(more, |log|) <==> Counts(more, |log|);
    if IsStanding(log, p) {
      var i: nat :| Stands(log, i) && log[i] == p;
      assert more[i] == p;
    }
  }

  // A series fed any observations has its points in time order, one a second at
  // most, and they are exactly the observations that stand: those not older than
  // one before, and of these the last of each second.
  lemma {:induction false} SeriesIsItsLog(log: seq<Point>)
    ensures TimesIncrease(Fed([], log)) && Newest(Fed([], log), log)
    ensures forall p :: p in Fed([], log) <==> IsStanding(log, p)
  {
    if log != [] {
      hide ObservePoints, Newest, IsStanding, Counts, TimesIncrease;
      var rest, o := log[..|log| - 1], log[|log| - 1];
      var points := Fed([], rest);
      SeriesIsItsLog(rest);
      assert rest + [o] == log;
      ObserveOnce(points, o);
      NewestNext(points, rest, o);
      forall p ensures p in Fed([], log) <==> IsStanding(log, p) { StandsNext(rest, o, p); }
    } else {
      NothingStands();
    }
  }

  lemma NothingStands()
    ensures TimesIncrease([]) && Newest([], []) && forall p :: !IsStanding([], p)
  {}

  // With times that do not go back there is exactly one point for each second
  // observed, with the last value observed in it.
  lemma OnePointASecond(log: seq<Point>)
    requires forall i, j :: 0 <= i < j < |log| ==> log[i].ts <= log[j].ts
    ensures TimesIncrease(Fed([], log))
    ensures forall p :: p in Fed([], log) <==> IsLastOfItsSecond(log, p)
  {
    hide Fed;
    SeriesIsItsLog(log);
    forall p ensures IsStanding(log, p) <==> IsLastOfItsSecond(log, p) {
      if IsStanding(log, p) {
        var i: nat :| Stands(log, i) && log[i] == p;
        assert LastOfItsSecond(log, i);
      }
      if IsLastOfItsSecond(log, p) {
        var i: nat :| LastOfItsSecond(log, i) && log[i] == p;
        assert Stands(log, i);
      }
    }
  }

  ghost predicate LastOfItsSecond(log: seq<Point>, i: nat) { i < |log| && forall j :: i < j < |log| ==> log[j].ts != log[i].ts }

  ghost predicate IsLastOfItsSecond(log: seq<Point>, p: Point) { exists i: nat :: LastOfItsSecond(log, i) && log[i] == p }
}
