// Why pruning in the HTTP collector cannot be seen from outside, and how the
// numbers of one snapshot bound each other.

module HttpPruning {
  import opened Basics
  import opened EpochCounter
  import opened HttpMetrics

  // ---------------------------------------------- one counter, with and without

  // The slots of a pruned and of a never-pruned counter at some point of a
  // bucket: equal, except that the pruned one may have lost a previous bucket
  // too small to show again.
  ghost predicate SlotsAgree(p: Counter, u: Counter, i: nat, ts: Seconds)
    requires i < |p.curr| == |p.prev| == |u.curr| == |u.prev|
  {
    && 0 <= u.curr[i] && 0 <= u.prev[i]
    && p.curr[i] == u.curr[i]
    && (p.prev[i] == u.prev[i] || (p.prev[i] == 0 && u.prev[i] * (u.span - (ts - u.start)) < u.span))
  }

  // Both counters turned to time ts.
  ghost predicate TurnedAgree(p: Counter, u: Counter, ts: Seconds) {
    && p.Valid() && u.Valid()
    && p.span == u.span && |p.curr| == |u.curr|
    && p.start == u.start == BucketStart(ts, u.span)
    && forall i :: 0 <= i < |p.curr| ==> SlotsAgree(p, u, i, ts)
  }

  // A pruned counter that is absent counts as one just created.
  function At(p: Option<Counter>, span: int, ts: Seconds, width: nat): Counter
    requires span > 0 && (p.Some? ==> p.value.span > 0)
  {
    match p
    case None => New(span, ts, width)
    case Some(c) => Rotate(c, ts)
  }

  ghost predicate Agree(p: Option<Counter>, u: Counter, ts: Seconds) {
    && u.Valid() && u.start <= BucketStart(ts, u.span)
    && (p.Some? ==> p.value.Valid() && p.value.start <= BucketStart(ts, u.span) && p.value.span == u.span)
    && TurnedAgree(At(p, u.span, ts, |u.curr|), Rotate(u, ts), ts)
  }

  lemma TurnedLater(p: Counter, u: Counter, a: Seconds, b: Seconds)
    requires TurnedAgree(p, u, a) && a <= b
    ensures TurnedAgree(Rotate(p, b), Rotate(u, b), b)
  {
    RotateValid(p, b);
    RotateValid(u, b);
    BucketAligned(a, u.span);
    BucketAligned(b, u.span);
    BucketMonotone(a, b, u.span);
    var p', u' := Rotate(p, b), Rotate(u, b);
    forall i | 0 <= i < |p.curr| ensures SlotsAgree(p', u', i, b) {
      assert SlotsAgree(p, u, i, a);
      if BucketStart(b, u.span) == u.start {
        MulMonotone(u.prev[i], u.span - (b - u.start), u.span - (a - u.start));
      }
    }
  }

  lemma NewTurned(span: int, a: Seconds, b: Seconds, width: nat)
    requires 0 < span < U32 && a <= b
    ensures Rotate(New(span, a, width), b) == New(span, b, width)
  {
    BucketAligned(a, span);
    BucketAligned(b, span);
    BucketMonotone(a, b, span);
  }

  // Agreement outlives the passing of time.
  lemma AgreeLater(p: Option<Counter>, u: Counter, a: Seconds, b: Seconds)
    requires Agree(p, u, a) && a <= b
    ensures Agree(p, u, b)
  {
    BucketMonotone(a, b, u.span);
    TurnedLater(At(p, u.span, a, |u.curr|), Rotate(u, a), a, b);
    RotateTwice(u, a, b);
    match p
    case None => NewTurned(u.span, a, b, |u.curr|);
    case Some(c) => RotateTwice(c, a, b);
  }

  lemma AgreeTurned(p: Option<Counter>, u: Counter, ts: Seconds)
    requires Agree(p, u, ts)
    ensures Agree(p, Rotate(u, ts), ts)
    ensures Agree(Some(At(p, u.span, ts, |u.curr|)), Rotate(u, ts), ts)
  {
    RotateTwice(u, ts, ts);
    RotateValid(u, ts);
    match p
    case None => NewTurned(u.span, ts, ts, |u.curr|);
    case Some(c) => RotateTwice(c, ts, ts);
  }

  lemma AgreeAdd(p: Option<Counter>, u: Counter, ts: Seconds, values: seq<int>)
    requires Agree(p, u, ts) && |u.curr| == |values|
    requires forall i :: 0 <= i < |values| ==> 0 <= values[i]
    ensures Agree(Some(Add(At(p, u.span, ts, |u.curr|), ts, values)), Add(u, ts, values), ts)
  {
    AgreeTurned(p, u, ts);
    var p0, u0 := At(p, u.span, ts, |u.curr|), Rotate(u, ts);
    var p1, u1 := Add(p0, ts, values), Add(u, ts, values);
    AddValid(p0, ts, values);
    AddValid(u, ts, values);
    assert u1 == u0.(curr := Plus(u0.curr, values)) && p1 == p0.(curr := Plus(p0.curr, values));
    assert Rotate(u1, ts) == u1 && Rotate(p1, ts) == p1;
    forall i | 0 <= i < |values| ensures SlotsAgree(p1, u1, i, ts) {
      assert SlotsAgree(p0, u0, i, ts);
    }
  }

  lemma SmallShareIsZero(prev: int, span: int, elapsed: int)
    requires prev >= 0 && 0 <= elapsed < span
    ensures GoDiv(prev * (span - elapsed), span) == 0 <==> prev * (span - elapsed) < span
  {
    var a := prev * (span - elapsed);
    MulMonotone(prev, 0, span - elapsed);
    assert a == span * (a / span) + a % span;
    if a / span >= 1 { MulMonotone(span, 1, a / span); }
  }

  lemma SlotEstimatesAgree(p: Counter, u: Counter, i: nat, ts: Seconds)
    requires TurnedAgree(p, u, ts) && i < |u.curr|
    ensures |Window(p, ts)| == |Window(u, ts)| == |u.curr|
    ensures Window(p, ts)[i] == Window(u, ts)[i] >= 0
  {
    BucketAligned(ts, u.span);
    assert SlotsAgree(p, u, i, ts);
    FadedShare(u.prev[i], u.span, ts - u.start);
    SmallShareIsZero(u.prev[i], u.span, ts - u.start);
    SmallShareIsZero(0, u.span, ts - u.start);
  }

  lemma WindowTurned(c: Counter, ts: Seconds)
    requires c.Valid() && c.start <= BucketStart(ts, c.span)
    ensures Rotate(c, ts).Valid() && Window(Rotate(c, ts), ts) == Window(c, ts)
  {
    RotateValid(c, ts);
    RotateTwice(c, ts, ts);
  }

  // Agreeing counters report the same values.
  lemma EstimatesAgree(c: Counter, u: Counter, ts: Seconds)
    requires Agree(Some(c), u, ts)
    ensures |c.curr| == |u.curr|
    ensures forall i :: 0 <= i < |u.curr| ==> Estimate(c, ts, i) == Estimate(u, ts, i)
  {
    RotateValid(c, ts);
    WindowTurned(c, ts);
    WindowTurned(u, ts);
    forall i | 0 <= i < |u.curr| ensures Estimate(c, ts, i) == Estimate(u, ts, i) {
      SlotEstimatesAgree(Rotate(c, ts), Rotate(u, ts), i, ts);
    }
  }

  lemma AbsentEstimates(u: Counter, ts: Seconds)
    requires Agree(None, u, ts)
    ensures forall i :: 0 <= i < |u.curr| ==> Estimate(u, ts, i) == 0
  {
    AgreeTurned(None, u, ts);
    EstimatesAgree(New(u.span, ts, |u.curr|), Rotate(u, ts), ts);
    WindowTurned(u, ts);
    var n := New(u.span, ts, |u.curr|);
    BucketAligned(ts, u.span);
    forall i | 0 <= i < |u.curr| ensures Estimate(u, ts, i) == 0 {
      assert Estimate(n, ts, i) == Estimate(Rotate(u, ts), ts, i);
      SmallShareIsZero(0, u.span, ts - n.start);
    }
  }

  // A counter whose estimates are all zero may be forgotten.
  lemma ForgetZero(p: Option<Counter>, u: Counter, ts: Seconds)
    requires Agree(p, u, ts)
    requires forall i :: 0 <= i < |u.curr| ==> Estimate(u, ts, i) == 0
    ensures Agree(None, u, ts)
  {
    RotateValid(u, ts);
    WindowTurned(u, ts);
    BucketAligned(ts, u.span);
    var u0, n, p0 := Rotate(u, ts), New(u.span, ts, |u.curr|), At(p, u.span, ts, |u.curr|);
    forall i | 0 <= i < |u.curr| ensures SlotsAgree(n, u0, i, ts) {
      assert SlotsAgree(p0, u0, i, ts);
      assert Estimate(u, ts, i) == 0;
      FadedShare(u0.prev[i], u.span, ts - u0.start);
      SmallShareIsZero(u0.prev[i], u.span, ts - u0.start);
    }
  }

  // --------------------------------------------------------- one path's counts

  function CurrMap(statuses: map<int, Single>): map<int, int> {
    map s | s in statuses :: statuses[s].curr[0]
  }

  function PrevMap(statuses: map<int, Single>): map<int, int> {
    map s | s in statuses :: statuses[s].prev[0]
  }

  // All counters of a path stand in the same bucket.
  ghost predicate InBucket(t: PathMetrics, span: int, start: int) {
    && t.totals.span == span && t.totals.start == start
    && forall s :: s in t.statuses ==> t.statuses[s].span == span && t.statuses[s].start == start
  }

  // Per bucket, errors are at most the requests and the status counts add up to
  // the requests.
  ghost predicate Balanced(t: PathMetrics) {
    && 0 <= t.totals.curr[ERRORS] <= t.totals.curr[REQUESTS]
    && 0 <= t.totals.prev[ERRORS] <= t.totals.prev[REQUESTS]
    && 0 <= t.totals.curr[DURATION] && 0 <= t.totals.prev[DURATION]
    && (forall s :: s in t.statuses ==> 0 <= t.statuses[s].curr[0] && 0 <= t.statuses[s].prev[0])
    && SumMap(CurrMap(t.statuses)) == t.totals.curr[REQUESTS]
    && SumMap(PrevMap(t.statuses)) == t.totals.prev[REQUESTS]
  }

  ghost predicate Current(c: Counter, span: int, ts: Seconds)
    requires span > 0
  {
    c.Valid() && c.span == span && c.start <= BucketStart(ts, span)
  }

  ghost predicate CurrentPath(u: PathMetrics, span: int, ts: Seconds)
    requires span > 0
  {
    Current(u.totals, span, ts) && forall s :: s in u.statuses ==> Current(u.statuses[s], span, ts)
  }

  // The counters of a path that was never pruned.
  ghost predicate Accounted(u: PathMetrics, span: int, ts: Seconds)
    requires span > 0
  {
    CurrentPath(u, span, ts) && Balanced(KeepPath(u, ts))
  }

  lemma CurrentLater(c: Counter, span: int, a: Seconds, b: Seconds)
    requires span > 0 && Current(c, span, a) && a <= b
    ensures Current(c, span, b) && Current(Rotate(c, a), span, b)
    ensures Rotate(Rotate(c, a), b) == Rotate(c, b)
    ensures Rotate(c, a).start == BucketStart(a, span)
  {
    BucketMonotone(a, b, span);
    RotateTwice(c, a, b);
    RotateValid(c, a);
  }

  lemma KeepTwice(u: PathMetrics, span: int, a: Seconds, b: Seconds)
    requires span > 0 && CurrentPath(u, span, a) && a <= b
    ensures CurrentPath(u, span, b) && CurrentPath(KeepPath(u, a), span, b)
    ensures KeepPath(KeepPath(u, a), b) == KeepPath(u, b)
    ensures InBucket(KeepPath(u, a), span, BucketStart(a, span))
  {
    CurrentLater(u.totals, span, a, b);
    forall s | s in u.statuses
      ensures Current(u.statuses[s], span, b) && Current(Rotate(u.statuses[s], a), span, b)
      ensures Rotate(Rotate(u.statuses[s], a), b) == Rotate(u.statuses[s], b)
      ensures Rotate(u.statuses[s], a).start == BucketStart(a, span)
    {
      CurrentLater(u.statuses[s], span, a, b);
    }
    var twice, once := KeepPath(KeepPath(u, a), b).statuses, KeepPath(u, b).statuses;
    assert twice.Keys == once.Keys;
    assert forall s :: s in once ==> twice[s] == once[s];
  }

  lemma BalancedLater(t: PathMetrics, span: int, a: Seconds, b: Seconds)
    requires span > 0 && InBucket(t, span, BucketStart(a, span)) && Balanced(t) && a <= b
    ensures Balanced(KeepPath(t, b))
  {
    hide SumMap, BucketStart;
    BucketMonotone(a, b, span);
    var k, x, y := KeepPath(t, b), BucketStart(a, span), BucketStart(b, span);
    forall s | s in t.statuses
      ensures y == x ==> k.statuses[s] == t.statuses[s]
      ensures y > x ==> k.statuses[s].curr == [0]
      ensures y == x + span ==> k.statuses[s].prev == t.statuses[s].curr
      ensures y > x && y != x + span ==> k.statuses[s].prev == [0]
    {}
    if y == x {
      assert k.statuses == t.statuses;
    } else {
      SumMapZero(CurrMap(k.statuses));
      if y == x + span {
        assert PrevMap(k.statuses) == CurrMap(t.statuses);
      } else {
        SumMapZero(PrevMap(k.statuses));
      }
    }
  }

  lemma AccountedLater(u: PathMetrics, span: int, a: Seconds, b: Seconds)
    requires span > 0 && Accounted(u, span, a) && a <= b
    ensures Accounted(u, span, b) && Accounted(KeepPath(u, a), span, b)
  {
    KeepTwice(u, span, a, b);
    BalancedLater(KeepPath(u, a), span, a, b);
  }

  // Rounding down each share loses at least as much as rounding down the whole.
  lemma FadeSplit(a: int, b: int, w: int, span: int)
    requires 0 <= a && 0 <= b && 0 <= w && span > 0
    ensures Fade(a, w, span) + Fade(b, w, span) <= Fade(a + b, w, span)
  {
    var x, y := a * w, b * w;
    MulMonotone(a, 0, w);
    MulMonotone(b, 0, w);
    assert (a + b) * w == x + y;
    DivSplit(x, y, span);
  }

  lemma DivSplit(x: int, y: int, d: int)
    requires 0 <= x && 0 <= y && d > 0
    ensures x / d + y / d <= (x + y) / d
  {
    var m, n := x / d, y / d;
    assert d * (m + n) <= x + y by {
      assert x == d * m + x % d && y == d * n + y % d;
      assert d * (m + n) == d * m + d * n;
    }
    DivMonotone(d * (m + n), x + y, d);
    DivExact(m + n, d);
  }

  function Fade(x: int, w: int, span: int): int
    requires span > 0
  {
    GoDiv(x * w, span)
  }

  function FadeMap(c: map<int, int>, p: map<int, int>, w: int, span: int): map<int, int>
    requires c.Keys == p.Keys && span > 0
  {
    map s | s in c :: c[s] + Fade(p[s], w, span)
  }

  lemma FadeMapRemove(c: map<int, int>, p: map<int, int>, w: int, span: int, s: int)
    requires c.Keys == p.Keys && span > 0 && s in c
    ensures (c - {s}).Keys == (p - {s}).Keys
    ensures FadeMap(c, p, w, span) - {s} == FadeMap(c - {s}, p - {s}, w, span)
  {}

  lemma {:induction false} FadeSum(c: map<int, int>, p: map<int, int>, w: int, span: int)
    requires c.Keys == p.Keys && span > 0 && 0 <= w
    requires forall s :: s in c ==> 0 <= p[s]
    ensures SumMap(FadeMap(c, p, w, span)) <= SumMap(c) + Fade(SumMap(p), w, span)
    decreases |c|
  {
    if |c| == 0 {
      assert c == map[] && p == map[] && FadeMap(c, p, w, span) == map[];
      assert SumMap(p) * w == 0;
    } else {
      var s := SomeKey(c);
      SmallerMap(c, s);
      SumMapRemove(c, s);
      SumMapRemove(p, s);
      SumMapRemove(FadeMap(c, p, w, span), s);
      FadeMapRemove(c, p, w, span, s);
      FadeSum(c - {s}, p - {s}, w, span);
      SumMapNonNegative(p - {s});
      FadeSplit(p[s], SumMap(p - {s}), w, span);
    }
  }

  function StatusEstimates(statuses: map<int, Single>, ts: Seconds): map<int, int> {
    map s | s in statuses :: Estimate(statuses[s], ts, 0)
  }

  lemma WindowHere(c: Counter, ts: Seconds)
    requires c.Valid() && c.start == BucketStart(ts, c.span)
    ensures |Window(c, ts)| == |c.curr|
    ensures forall i :: 0 <= i < |c.curr| ==> Window(c, ts)[i] == WindowSlot(c.curr[i], c.prev[i], c.span, ts - c.start)
  {}

  lemma BalancedEstimates(t: PathMetrics, span: int, ts: Seconds)
    requires 0 < span < U32 && InBucket(t, span, BucketStart(ts, span)) && Balanced(t)
    ensures |Window(t.totals, ts)| == WIDTH
    ensures 0 <= Window(t.totals, ts)[ERRORS] <= Window(t.totals, ts)[REQUESTS]
    ensures SumMap(StatusWindows(t, ts)) <= Window(t.totals, ts)[REQUESTS]
  {
    hide Window, BucketStart, GoDiv, FadeMap, StatusWindows;
    BucketAligned(ts, span);
    WindowHere(t.totals, ts);
    TotalsOrdered(t, span, ts - t.totals.start);
    StatusesFade(t, span, ts);
    FadeSum(CurrMap(t.statuses), PrevMap(t.statuses), span - (ts - t.totals.start), span);
  }

  lemma StatusesFade(t: PathMetrics, span: int, ts: Seconds)
    requires 0 < span < U32 && InBucket(t, span, BucketStart(ts, span)) && Balanced(t)
    ensures forall s :: s in t.statuses ==> 0 <= SingleWindow(t.statuses[s], ts)
    ensures StatusWindows(t, ts)
         == FadeMap(CurrMap(t.statuses), PrevMap(t.statuses), span - (ts - BucketStart(ts, span)), span)
  {
    hide Window, Rotate, BucketStart;
    var f := FadeMap(CurrMap(t.statuses), PrevMap(t.statuses), span - (ts - BucketStart(ts, span)), span);
    var w := StatusWindows(t, ts);
    assert w.Keys == f.Keys;
    forall s | s in t.statuses ensures 0 <= SingleWindow(t.statuses[s], ts) && w[s] == f[s] {
      StatusFade(t.statuses[s], ts);
    }
  }

  lemma StatusFade(c: Single, ts: Seconds)
    requires c.start == BucketStart(ts, c.span) && 0 <= c.curr[0] && 0 <= c.prev[0]
    ensures |Window(c, ts)| == 1
    ensures 0 <= Window(c, ts)[0] == WindowSlot(c.curr[0], c.prev[0], c.span, ts - c.start)
  {
    BucketAligned(ts, c.span);
    FadedShare(c.prev[0], c.span, ts - c.start);
  }

  function SingleWindow(c: Single, ts: Seconds): int {
    RotateValid(c, ts);
    Window(c, ts)[0]
  }

  function StatusWindows(t: PathMetrics, ts: Seconds): map<int, int> {
    map s | s in t.statuses :: SingleWindow(t.statuses[s], ts)
  }

  lemma TotalsOrdered(t: PathMetrics, span: int, e: int)
    requires 0 <= e < span && Balanced(t)
    ensures 0 <= WindowSlot(t.totals.curr[ERRORS], t.totals.prev[ERRORS], span, e)
              <= WindowSlot(t.totals.curr[REQUESTS], t.totals.prev[REQUESTS], span, e)
  {
    var small, large := t.totals.prev[ERRORS], t.totals.prev[REQUESTS];
    FadedShare(small, span, e);
    FadedShare(large, span, e);
    MulMonotone(span - e, small, large);
    MulMonotone(small, 0, span - e);
    DivMonotone(small * (span - e), large * (span - e), span);
  }

  // The estimates of one path: errors and the sum of the status counts stay
  // within the requests.
  lemma PathEstimatesBounded(u: PathMetrics, span: int, ts: Seconds)
    requires 0 < span < U32 && Accounted(u, span, ts)
    ensures 0 <= Estimate(u.totals, ts, ERRORS) <= Estimate(u.totals, ts, REQUESTS)
    ensures SumMap(StatusEstimates(u.statuses, ts)) <= Estimate(u.totals, ts, REQUESTS)
    ensures forall s :: s in u.statuses ==> 0 <= Estimate(u.statuses[s], ts, 0) <= Estimate(u.totals, ts, REQUESTS)
  {
    hide Window, SumMap, Balanced, Rotate, StatusWindows, BucketStart, StatusEstimates;
    var t := KeepPath(u, ts);
    KeepTwice(u, span, ts, ts);
    BalancedEstimates(t, span, ts);
    WindowTurned(u.totals, ts);
    EstimatesOfKept(u, span, ts);
    StatusesWithin(u.statuses, ts, Estimate(u.totals, ts, REQUESTS));
  }

  lemma StatusesWithin(statuses: map<int, Single>, ts: Seconds, bound: int)
    requires forall s :: s in statuses ==> 0 <= StatusEstimates(statuses, ts)[s]
    requires SumMap(StatusEstimates(statuses, ts)) <= bound
    ensures forall s :: s in statuses ==> 0 <= Estimate(statuses[s], ts, 0) <= bound
  {
    hide Estimate, SumMap;
    assert forall s :: s in StatusEstimates(statuses, ts) ==> 0 <= StatusEstimates(statuses, ts)[s];
    forall s | s in statuses ensures 0 <= Estimate(statuses[s], ts, 0) <= bound {
      SumMapAtLeast(StatusEstimates(statuses, ts), s);
    }
  }

  lemma EstimatesOfKept(u: PathMetrics, span: int, ts: Seconds)
    requires 0 < span < U32 && Accounted(u, span, ts)
    ensures StatusEstimates(u.statuses, ts) == StatusWindows(KeepPath(u, ts), ts)
    ensures forall s :: s in u.statuses ==> 0 <= StatusEstimates(u.statuses, ts)[s]
  {
    hide Window, Rotate;
    var t := KeepPath(u, ts);
    KeepTwice(u, span, ts, ts);
    StatusesFade(t, span, ts);
    var est, win := StatusEstimates(u.statuses, ts), StatusWindows(t, ts);
    assert est.Keys == win.Keys;
    forall s | s in u.statuses ensures 0 <= est[s] == win[s] {
      WindowTurned(u.statuses[s], ts);
    }
  }
}
