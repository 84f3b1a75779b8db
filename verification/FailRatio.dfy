// The pass/fail ratio state (state_failratio.go): outcomes counted in an
// epoch-weighted window, or cumulatively when the window is not positive.

module FailRatio {
  import opened Basics
  import opened EpochCounter

  const WIDTH := 2
  const TOTAL := 0
  const FAILURES := 1

  // On each bucket, 0 <= failures <= total.
  ghost predicate Bounded(c: Counter) {
    && c.Valid() && |c.curr| == WIDTH
    && 0 <= c.curr[FAILURES] <= c.curr[TOTAL]
    && 0 <= c.prev[FAILURES] <= c.prev[TOTAL]
  }

  lemma RotateBounded(c: Counter, t: Seconds)
    requires Bounded(c)
    ensures Bounded(Rotate(c, t))
  {
    RotateValid(c, t);
  }

  function Outcome(failed: bool): seq<int> { [1, if failed then 1 else 0] }

  lemma AddBounded(c: Counter, t: Seconds, failed: bool)
    requires Bounded(c)
    ensures Bounded(Add(c, t, Outcome(failed)))
  {
    RotateBounded(c, t);
    AddValid(c, t, Outcome(failed));
  }

  // A larger previous bucket never fades to less than a smaller one.
  lemma FadeMonotone(small: int, large: int, span: int, elapsed: int)
    requires 0 <= small <= large && 0 <= elapsed < span
    ensures 0 <= GoDiv(small * (span - elapsed), span) <= GoDiv(large * (span - elapsed), span)
  {
    FadedShare(small, span, elapsed);
    MulMonotone(span - elapsed, small, large);
    MulMonotone(small, 0, span - elapsed);
    DivMonotone(small * (span - elapsed), large * (span - elapsed), span);
  }

  // The window estimate of the failures never exceeds that of the total, so the
  // two estimates need no clamping: neither at zero nor of one by the other.
  lemma EstimatesOrdered(c: Counter, t: Seconds)
    requires Bounded(c)
    ensures |Window(c, t)| == WIDTH
    ensures 0 <= Window(c, t)[FAILURES] <= Window(c, t)[TOTAL]
  {
    if !Stale(c, t) {
      RotateBounded(c, t);
      RotateValid(c, t);
      BucketAligned(t, c.span);
      var r := Rotate(c, t);
      FadeMonotone(r.prev[FAILURES], r.prev[TOTAL], r.span, t - r.start);
    }
  }

  // ------------------------------------------------------------- the outcomes

  datatype Attempt = Attempt(t: Seconds, failed: bool)

  // How many of the outcomes, or of the failed ones, came in the seconds from lo on,
  // before hi.
  function Tried(attempts: seq<Attempt>, failed: bool, lo: int, hi: int): nat {
    if attempts == [] then 0 else
      var a := attempts[|attempts| - 1];
      Tried(attempts[..|attempts| - 1], failed, lo, hi) + (if (failed ==> a.failed) && lo <= a.t < hi then 1 else 0)
  }

  function FailedOf(attempts: seq<Attempt>): nat { Tried(attempts, true, 0, U32) }

  // What the counters should hold of them.
  function AttemptLog(attempts: seq<Attempt>): seq<Event> {
    if attempts == [] then [] else
      var a := attempts[|attempts| - 1];
      AttemptLog(attempts[..|attempts| - 1]) + [Event(a.t, Outcome(a.failed))]
  }

  lemma {:induction false} LogFollows(attempts: seq<Attempt>, t: int)
    requires forall a :: a in attempts ==> a.t <= t
    ensures forall e :: e in AttemptLog(attempts) ==> e.t <= t && |e.values| == WIDTH && 0 <= e.values[TOTAL] && 0 <= e.values[FAILURES]
  {
    if attempts != [] {
      assert attempts[|attempts| - 1] in attempts;
      LogFollows(attempts[..|attempts| - 1], t);
    }
  }

  lemma {:induction false} SumsAreTries(attempts: seq<Attempt>, lo: int, hi: int)
    ensures forall e :: e in AttemptLog(attempts) ==> |e.values| == WIDTH
    ensures SumIn(AttemptLog(attempts), TOTAL, lo, hi) == Tried(attempts, false, lo, hi)
    ensures SumIn(AttemptLog(attempts), FAILURES, lo, hi) == Tried(attempts, true, lo, hi)
  {
    if attempts != [] {
      var rest := attempts[..|attempts| - 1];
      SumsAreTries(rest, lo, hi);
      assert AttemptLog(attempts)[..|rest|] == AttemptLog(rest) by { LogLength(rest); }
      LogLength(attempts);
    }
  }

  lemma {:induction false} LogLength(attempts: seq<Attempt>)
    ensures |AttemptLog(attempts)| == |attempts|
  {
    if attempts != [] { LogLength(attempts[..|attempts| - 1]); }
  }

  // A count told at time t, against the outcomes: right for the last span seconds
  // but for what came in the bucket before the current one.
  ghost predicate Tells(count: int, attempts: seq<Attempt>, failed: bool, span: int, t: Seconds)
    requires span > 0
  {
    var b := BucketStart(t, span);
    var truth, before := Tried(attempts, failed, t - span + 1, t + 1), Tried(attempts, failed, b - span, b);
    truth - before <= count <= truth + before
  }

  lemma WindowTells(c: Counter, attempts: seq<Attempt>, t: Seconds)
    requires Bounded(c) && Refines(c, AttemptLog(attempts)) && c.start <= t && forall a :: a in attempts ==> a.t <= t
    ensures |Window(c, t)| == WIDTH
    ensures Tells(Window(c, t)[TOTAL], attempts, false, c.span, t)
    ensures Tells(Window(c, t)[FAILURES], attempts, true, c.span, t)
  {
    hide Window, Refines, SumIn, Tried, BucketStart;
    EstimatesOrdered(c, t);
    LogFollows(attempts, t);
    NotStale(c, t);
    EstimateAt(c, AttemptLog(attempts), t, TOTAL);
    EstimateAt(c, AttemptLog(attempts), t, FAILURES);
    SumsAreTries(attempts, t - c.span + 1, t + 1);
    SumsAreTries(attempts, BucketStart(t, c.span) - c.span, BucketStart(t, c.span));
  }

  // A time is stale exactly if it is before the current bucket.
  lemma NotStale(c: Counter, t: Seconds)
    requires c.Valid()
    ensures Stale(c, t) <==> t < c.start
  {
    BucketAligned(t, c.span);
    if BucketStart(t, c.span) < c.start { AlignedGap(BucketStart(t, c.span), c.start, c.span); }
  }

  lemma NothingTried(span: int, now: Seconds)
    requires 0 < span < U32
    ensures Bounded(New(span, now, WIDTH)) && Refines(New(span, now, WIDTH), AttemptLog([]))
  {
    BucketAligned(now, span);
  }

  lemma AttemptRefines(c: Counter, attempts: seq<Attempt>, a: Attempt)
    requires Bounded(c) && Refines(c, AttemptLog(attempts)) && c.start <= a.t
    ensures Refines(Add(c, a.t, Outcome(a.failed)), AttemptLog(attempts + [a]))
  {
    hide Refines;
    NotStale(c, a.t);
    assert (attempts + [a])[..|attempts|] == attempts;
    AddRefines(c, AttemptLog(attempts), Event(a.t, Outcome(a.failed)));
  }

  lemma FailedSnoc(attempts: seq<Attempt>, a: Attempt)
    ensures FailedOf(attempts + [a]) == FailedOf(attempts) + (if a.failed then 1 else 0)
  {
    assert (attempts + [a])[..|attempts|] == attempts;
  }

  lemma {:induction false} FailedAtMostAll(attempts: seq<Attempt>)
    ensures FailedOf(attempts) <= |attempts|
  {
    if attempts != [] { FailedAtMostAll(attempts[..|attempts| - 1]); }
  }

  class FailRatioState {
    const window: int
    const counters: EpochWeightedCounters
    var cumulativeTotal: int
    var cumulativeFailures: int
    // The outcomes that were counted: all of them, but for one that came before the
    // window's current bucket.
    ghost var recorded: seq<Attempt>

    ghost predicate Valid()
      reads this, counters, counters.curr, counters.prev
    {
      && counters.Valid() && Bounded(counters.Model())
      && (if window > 0 then Refines(counters.Model(), AttemptLog(recorded)) && counters.span == WindowSpan(window)
          else cumulativeTotal == |recorded| && cumulativeFailures == FailedOf(recorded))
    }

    // NewFailRatio; with a window that is not positive the counters stay unused.
    constructor (window: int, now: int)
      ensures Valid() && fresh(counters) && fresh(counters.curr) && fresh(counters.prev)
      ensures this.window == window && recorded == []
      ensures counters.Model() == New(if window > 0 then WindowSpan(window) else 1, UnixSeconds(now), WIDTH)
    {
      this.window := window;
      this.counters := new EpochWeightedCounters(if window > 0 then WindowSpan(window) else 1, UnixSeconds(now), WIDTH);
      this.cumulativeTotal, this.cumulativeFailures := 0, 0;
      this.recorded := [];
      new;
      NothingTried(counters.span, UnixSeconds(now));
    }

    method Record(failed: bool, now: int)
      requires Valid()
      modifies this, counters`start, counters.curr, counters.prev
      ensures Valid() && counters.curr == old(counters.curr) && counters.prev == old(counters.prev)
      ensures recorded == old(recorded) + (if window > 0 && UnixSeconds(now) < old(counters.start) then [] else [Attempt(UnixSeconds(now), failed)])
      ensures window <= 0 ==> counters.Model() == old(counters.Model())
      ensures window > 0 ==>
                && counters.Model() == Add(old(counters.Model()), UnixSeconds(now), Outcome(failed))
                && cumulativeTotal == old(cumulativeTotal) && cumulativeFailures == old(cumulativeFailures)
    {
      hide Refines, Tried, Add, UnixSeconds, WindowSpan, AttemptLog;
      ghost var a := Attempt(UnixSeconds(now), failed);
      if window <= 0 {
        FailedSnoc(recorded, a);
        cumulativeTotal := cumulativeTotal + 1;
        if failed {
          cumulativeFailures := cumulativeFailures + 1;
        }
        recorded := recorded + [a];
      } else {
        ghost var was := counters.Model();
        AddBounded(was, UnixSeconds(now), failed);
        NotStale(was, UnixSeconds(now));
        if was.start <= a.t { AttemptRefines(was, recorded, a); } else { StaleAdd(was, a.t, Outcome(failed)); }
        counters.AddValues(UnixSeconds(now), Outcome(failed));
        if was.start <= a.t { recorded := recorded + [a]; }
      }
    }

    // ratioCountsLocked. The clamps of the source are in the body; the contract
    // says that what is returned is the raw estimates, so they change nothing.
    method RatioCounts(now: int) returns (total: int, failures: int)
      requires Valid()
      modifies counters`start, counters.curr, counters.prev
      ensures Valid() && counters.curr == old(counters.curr) && counters.prev == old(counters.prev)
      ensures 0 <= failures <= total
      ensures window <= 0 ==> total == |recorded| && failures == FailedOf(recorded)
      ensures window > 0 ==> [total, failures] == Window(old(counters.Model()), UnixSeconds(now))
      ensures window > 0 && old(counters.start) <= UnixSeconds(now) && (forall a :: a in recorded ==> a.t <= UnixSeconds(now)) ==>
                && Tells(total, recorded, false, WindowSpan(window), UnixSeconds(now))
                && Tells(failures, recorded, true, WindowSpan(window), UnixSeconds(now))
    {
      hide Refines, Tried, Tells, Rotate, Window, UnixSeconds, WindowSpan, AttemptLog;
      if window <= 0 {
        FailedAtMostAll(recorded);
        return cumulativeTotal, cumulativeFailures;
      }
      ghost var was := counters.Model();
      RotateBounded(was, UnixSeconds(now));
      RotateRefines(was, AttemptLog(recorded), UnixSeconds(now));
      EstimatesOrdered(was, UnixSeconds(now));
      if was.start <= UnixSeconds(now) && forall a :: a in recorded ==> a.t <= UnixSeconds(now) {
        WindowTells(was, recorded, UnixSeconds(now));
      }
      var values := new int[WIDTH];
      counters.CurrentWindowValue(UnixSeconds(now), values);
      assert values[..counters.curr.Length] == values[..];
      total := if values[TOTAL] > 0 then values[TOTAL] else 0;
      failures := if values[FAILURES] > 0 then values[FAILURES] else 0;
      if failures > total {
        failures := total;
      }
    }
  }

  lemma StaleAdd(c: Counter, t: Seconds, values: seq<int>)
    requires c.Valid() && t < c.start && |c.curr| <= |values|
    ensures Add(c, t, values) == c
  {
    NotStale(c, t);
  }
}
