// Positional counts in two epoch-aligned time buckets (util/epoch_weighted_counter.go).

module EpochCounter {
  import opened Basics

  const U32 := 0x1_0000_0000

  type Seconds = t: int | 0 <= t < U32 witness 0

  function BucketStart(t: Seconds, span: int): Seconds
    requires span > 0
  {
    t - t % span
  }

  const NANOS := 1_000_000_000

  // uint32(window / time.Second) with 0 replaced by 1; window in nanoseconds.
  function WindowSpan(window: int): int
    requires window > 0
  {
    var seconds := (window / NANOS) % U32;
    if seconds == 0 then 1 else seconds
  }

  // uint32(t.Unix()); t in nanoseconds.
  function UnixSeconds(t: int): Seconds { (t / NANOS) % U32 }

  datatype Counter = Counter(curr: seq<int>, prev: seq<int>, span: int, start: Seconds) {
    predicate Valid() {
      0 < span < U32 && |curr| == |prev| && start % span == 0
    }
  }

  function Zeros(n: nat): seq<int> { seq(n, _ => 0) }

  function New(span: int, now: Seconds, width: nat): Counter
    requires span > 0
  {
    Counter(Zeros(width), Zeros(width), span, BucketStart(now, span))
  }

  // The counter after rotate(t), whether or not t is stale.
  function Rotate(c: Counter, t: Seconds): Counter
    requires c.span > 0
  {
    var b := BucketStart(t, c.span);
    if b <= c.start then c
    else if b == c.start + c.span then Counter(Zeros(|c.curr|), c.curr, c.span, b)
    else Counter(Zeros(|c.curr|), Zeros(|c.curr|), c.span, b)
  }

  predicate Stale(c: Counter, t: Seconds)
    requires c.span > 0
  {
    BucketStart(t, c.span) < c.start
  }

  function Plus(xs: seq<int>, ys: seq<int>): seq<int>
    requires |xs| <= |ys|
  {
    seq(|xs|, i requires 0 <= i < |xs| => xs[i] + ys[i])
  }

  function Add(c: Counter, t: Seconds, values: seq<int>): Counter
    requires c.span > 0 && |c.curr| <= |values|
  {
    if Stale(c, t) then c else
      var r := Rotate(c, t);
      r.(curr := Plus(r.curr, values))
  }

  // curr + prev*(span-elapsed)/span on one slot.
  function WindowSlot(curr: int, prev: int, span: int, elapsed: int): int
    requires span > 0
  {
    curr + GoDiv(prev * (span - elapsed), span)
  }

  // (prev*(span-elapsed) + curr*elapsed)/span on one slot.
  function BlendSlot(curr: int, prev: int, span: int, elapsed: int): int
    requires span > 0
  {
    GoDiv(prev * (span - elapsed) + curr * elapsed, span)
  }

  // What CurrentWindowValue writes at time t.
  function Window(c: Counter, t: Seconds): seq<int>
    requires c.span > 0 && |c.curr| == |c.prev|
  {
    if Stale(c, t) then Zeros(|c.curr|) else
      var r := Rotate(c, t);
      seq(|r.curr|, i requires 0 <= i < |r.curr| => WindowSlot(r.curr[i], r.prev[i], r.span, t - r.start))
  }

  // What CurrentValue writes at time t.
  function Blend(c: Counter, t: Seconds): seq<int>
    requires c.span > 0 && |c.curr| == |c.prev|
  {
    if Stale(c, t) then Zeros(|c.curr|) else
      var r := Rotate(c, t);
      seq(|r.curr|, i requires 0 <= i < |r.curr| => BlendSlot(r.curr[i], r.prev[i], r.span, t - r.start))
  }

  // ------------------------------------------------------------- arithmetic

  lemma AlignedGap(x: int, y: int, span: int)
    requires span > 0 && x % span == 0 && y % span == 0 && x < y
    ensures x + span <= y
  {
    assert x == span * (x / span) && y == span * (y / span);
    if x / span >= y / span { MulMonotone(span, y / span, x / span); }
    MulMonotone(span, x / span + 1, y / span);
  }

  lemma MulMonotone(k: int, a: int, b: int)
    requires k >= 0 && a <= b
    ensures k * a <= k * b
  {}

  lemma BucketAligned(t: Seconds, span: int)
    requires span > 0
    ensures BucketStart(t, span) % span == 0
    ensures BucketStart(t, span) <= t < BucketStart(t, span) + span
  {
    assert t == span * (t / span) + t % span;
    assert BucketStart(t, span) == span * (t / span);
    MultipleMod(t / span, span);
  }

  lemma MultipleMod(q: int, d: int)
    requires d > 0
    ensures (d * q) % d == 0
  {
    var m := (d * q) % d;
    assert d * q == d * ((d * q) / d) + m;
    assert m == d * (q - (d * q) / d);
    var k := q - (d * q) / d;
    if k >= 1 { MulMonotone(d, 1, k); }
    if k <= -1 { MulMonotone(d, k, -1); }
  }

  lemma BucketMonotone(a: Seconds, b: Seconds, span: int)
    requires span > 0 && a <= b
    ensures BucketStart(a, span) <= BucketStart(b, span)
  {
    BucketAligned(a, span);
    BucketAligned(b, span);
    if BucketStart(b, span) < BucketStart(a, span) {
      AlignedGap(BucketStart(b, span), BucketStart(a, span), span);
    }
  }

  lemma DivMonotone(a: int, b: int, d: int)
    requires 0 <= a <= b && d > 0
    ensures a / d <= b / d
  {
    assert a == d * (a / d) + a % d && b == d * (b / d) + b % d;
    if a / d > b / d { MulMonotone(d, b / d + 1, a / d); }
  }

  // The faded share of a previous bucket lies between nothing and all of it.
  lemma FadedShare(prev: int, span: int, elapsed: int)
    requires prev >= 0 && 0 <= elapsed < span
    ensures 0 <= GoDiv(prev * (span - elapsed), span) <= prev
  {
    var a := prev * (span - elapsed);
    MulMonotone(prev, 0, span - elapsed);
    MulMonotone(prev, span - elapsed, span);
    DivMonotone(a, prev * span, span);
    assert prev * span / span == prev by { MultipleMod(prev, span); assert prev * span == span * prev; DivExact(prev, span); }
  }

  lemma DivExact(q: int, d: int)
    requires d > 0
    ensures (d * q) / d == q
  {
    MultipleMod(q, d);
    assert d * q == d * ((d * q) / d);
    var k := q - (d * q) / d;
    assert d * k == 0;
    if k >= 1 { MulMonotone(d, 1, k); }
    if k <= -1 { MulMonotone(d, k, -1); }
  }

  lemma WeighedSum(low: int, high: int, x: int, y: int, v: int, w: int)
    requires low <= x <= high && low <= y <= high && v >= 0 && w >= 0
    ensures low * (v + w) <= x * v + y * w <= high * (v + w)
  {
    MulMonotone(v, low, x);
    MulMonotone(v, x, high);
    MulMonotone(w, low, y);
    MulMonotone(w, y, high);
  }

  lemma QuotientBetween(low: int, high: int, sum: int, d: int)
    requires d > 0 && 0 <= low && low * d <= sum <= high * d && 0 <= sum
    ensures low <= sum / d <= high
  {
    DivExact(low, d);
    DivExact(high, d);
    MulMonotone(d, 0, low);
    DivMonotone(low * d, sum, d);
    DivMonotone(sum, high * d, d);
  }

  lemma BlendBetween(curr: int, prev: int, span: int, elapsed: int)
    requires curr >= 0 && prev >= 0 && 0 <= elapsed < span
    ensures Min(prev, curr) <= BlendSlot(curr, prev, span, elapsed) <= Max(prev, curr)
    ensures 0 <= prev * (span - elapsed) + curr * elapsed - span * BlendSlot(curr, prev, span, elapsed) < span
  {
    var low, high, sum := Min(prev, curr), Max(prev, curr), prev * (span - elapsed) + curr * elapsed;
    WeighedSum(0, high, prev, curr, span - elapsed, elapsed);
    WeighedSum(low, high, prev, curr, span - elapsed, elapsed);
    QuotientBetween(low, high, sum, span);
    assert sum == span * (sum / span) + sum % span;
  }

  lemma BlendAtStart(curr: int, prev: int, span: int)
    requires prev >= 0 && span > 0
    ensures BlendSlot(curr, prev, span, 0) == prev
  {
    DivExact(prev, span);
    MulMonotone(prev, 0, span);
  }

  // ---------------------------------------------------------- reads rotate

  lemma RotateValid(c: Counter, t: Seconds)
    requires c.Valid()
    ensures Rotate(c, t).Valid() && |Rotate(c, t).curr| == |c.curr|
    ensures !Stale(c, t) ==> Rotate(c, t).start == BucketStart(t, c.span)
  {
    BucketAligned(t, c.span);
  }

  lemma AddValid(c: Counter, t: Seconds, values: seq<int>)
    requires c.Valid() && |c.curr| <= |values|
    ensures Add(c, t, values).Valid() && |Add(c, t, values).curr| == |c.curr|
  {
    RotateValid(c, t);
  }

  // Rotating in two steps is rotating once.
  lemma RotateTwice(c: Counter, a: Seconds, b: Seconds)
    requires c.Valid() && a <= b
    ensures Rotate(Rotate(c, a), b) == Rotate(c, b)
    ensures !Stale(c, b) ==> !Stale(Rotate(c, a), b)
    ensures Stale(Rotate(c, a), b) ==> Stale(c, b)
  {
    BucketAligned(a, c.span);
    BucketAligned(b, c.span);
    BucketMonotone(a, b, c.span);
    var x, y := BucketStart(a, c.span), BucketStart(b, c.span);
    if c.start < x { AlignedGap(c.start, x, c.span); }
    if x < y { AlignedGap(x, y, c.span); }
  }

  datatype Op = AddOp(t: Seconds, values: seq<int>) | ReadOp(t: Seconds)

  function Do(c: Counter, op: Op): Counter
    requires c.span > 0
  {
    match op
    case AddOp(t, values) => if |c.curr| <= |values| then Add(c, t, values) else c
    case ReadOp(t) => Rotate(c, t)
  }

  function Run(c: Counter, ops: seq<Op>): Counter
    requires c.Valid()
    ensures Run(c, ops).Valid() && |Run(c, ops).curr| == |c.curr| && Run(c, ops).span == c.span
  {
    if ops == [] then c else
      var r := Run(c, ops[..|ops| - 1]);
      var op := ops[|ops| - 1];
      RotateValid(r, op.t);
      Do(r, op)
  }

  ghost predicate AllFrom(ops: seq<Op>, a: Seconds) {
    forall k :: 0 <= k < |ops| ==> a <= ops[k].t
  }

  lemma {:induction false} ReadThenRun(c: Counter, a: Seconds, ops: seq<Op>)
    requires c.Valid() && AllFrom(ops, a)
    ensures Rotate(c, a).Valid()
    ensures Run(Rotate(c, a), ops) == Run(c, ops)
         || (Run(Rotate(c, a), ops) == Rotate(Run(c, ops), a))
  {
    RotateValid(c, a);
    if ops != [] {
      var rest, op := ops[..|ops| - 1], ops[|ops| - 1];
      ReadThenRun(c, a, rest);
      RotateTwice(Run(c, rest), a, op.t);
    }
  }

  // Extra reads are invisible: a read at time a changes no value reported at or
  // after a, whatever adds and reads happen in between.
  lemma ReadsAreInvisible(c: Counter, a: Seconds, ops: seq<Op>, b: Seconds)
    requires c.Valid() && AllFrom(ops, a) && a <= b
    ensures Rotate(c, a).Valid()
    ensures Window(Run(Rotate(c, a), ops), b) == Window(Run(c, ops), b)
    ensures Blend(Run(Rotate(c, a), ops), b) == Blend(Run(c, ops), b)
  {
    ReadThenRun(c, a, ops);
    RotateTwice(Run(c, ops), a, b);
  }

  // -------------------------------------------------- refinement of the log

  datatype Event = Event(t: Seconds, values: seq<int>)

  // The adds among ops that were not stale when they came.
  function Accepted(c: Counter, ops: seq<Op>): seq<Event>
    requires c.Valid()
  {
    if ops == [] then [] else
      var rest, op := ops[..|ops| - 1], ops[|ops| - 1];
      Accepted(c, rest) +
      (if op.AddOp? && |c.curr| <= |op.values| && !Stale(Run(c, rest), op.t) then [Event(op.t, op.values)] else [])
  }

  // The true count on slot i over the times lo <= t < hi.
  function SumIn(log: seq<Event>, i: nat, lo: int, hi: int): int
    requires forall e :: e in log ==> i < |e.values|
  {
    if log == [] then 0 else
      var e := log[|log| - 1];
      SumIn(log[..|log| - 1], i, lo, hi) + (if lo <= e.t < hi then e.values[i] else 0)
  }

  ghost predicate LogFits(log: seq<Event>, width: nat, before: int) {
    forall e :: e in log ==> width <= |e.values| && e.t < before
  }

  lemma {:induction false} SumInEmpty(log: seq<Event>, i: nat, lo: int, hi: int)
    requires forall e :: e in log ==> i < |e.values| && !(lo <= e.t < hi)
    ensures SumIn(log, i, lo, hi) == 0
  {
    if log != [] { SumInEmpty(log[..|log| - 1], i, lo, hi); }
  }

  lemma {:induction false} SumInSplit(log: seq<Event>, i: nat, lo: int, mid: int, hi: int)
    requires lo <= mid <= hi
    requires forall e :: e in log ==> i < |e.values|
    ensures SumIn(log, i, lo, hi) == SumIn(log, i, lo, mid) + SumIn(log, i, mid, hi)
  {
    if log != [] { SumInSplit(log[..|log| - 1], i, lo, mid, hi); }
  }

  lemma {:induction false} SumInNonNegative(log: seq<Event>, i: nat, lo: int, hi: int)
    requires forall e :: e in log ==> i < |e.values| && 0 <= e.values[i]
    ensures 0 <= SumIn(log, i, lo, hi)
  {
    if log != [] { SumInNonNegative(log[..|log| - 1], i, lo, hi); }
  }

  ghost predicate Refines(c: Counter, log: seq<Event>) {
    c.Valid() && SumsMatch(c, log, c.start)
  }

  ghost predicate SumsMatch(c: Counter, log: seq<Event>, lo: int) {
    && |c.prev| == |c.curr|
    && LogFits(log, |c.curr|, lo + c.span)
    && forall i :: 0 <= i < |c.curr| ==>
         && c.curr[i] == SumIn(log, i, lo, lo + c.span)
         && c.prev[i] == SumIn(log, i, lo - c.span, lo)
  }

  lemma ShiftSums(c: Counter, log: seq<Event>, b: int, r: Counter)
    requires SumsMatch(c, log, c.start) && r.span == c.span > 0
    requires r.curr == Zeros(|c.curr|)
    requires (b == c.start + c.span && r.prev == c.curr) || (b >= c.start + 2 * c.span && r.prev == Zeros(|c.curr|))
    ensures SumsMatch(r, log, b)
  {
    forall i | 0 <= i < |c.curr|
      ensures r.curr[i] == SumIn(log, i, b, b + c.span)
      ensures r.prev[i] == SumIn(log, i, b - c.span, b)
    {
      SumInEmpty(log, i, b, b + c.span);
      if b != c.start + c.span { SumInEmpty(log, i, b - c.span, b); }
    }
  }

  lemma RotateRefines(c: Counter, log: seq<Event>, t: Seconds)
    requires Refines(c, log)
    ensures Refines(Rotate(c, t), log)
  {
    RotateValid(c, t);
    var b := BucketStart(t, c.span);
    if b > c.start {
      BucketAligned(t, c.span);
      AlignedGap(c.start, b, c.span);
      if b != c.start + c.span { SkipGap(c.start, b, c.span); }
      ShiftSums(c, log, b, Rotate(c, t));
    }
  }

  lemma SkipGap(x: int, y: int, span: int)
    requires span > 0 && x % span == 0 && y % span == 0 && x + span < y
    ensures x + 2 * span <= y
  {
    assert (x + span) % span == 0 by {
      assert x + span == span * (x / span + 1);
      MultipleMod(x / span + 1, span);
    }
    AlignedGap(x + span, y, span);
  }

  lemma AddRefines(c: Counter, log: seq<Event>, e: Event)
    requires Refines(c, log) && |c.curr| <= |e.values| && !Stale(c, e.t)
    ensures Refines(Add(c, e.t, e.values), log + [e])
  {
    RotateRefines(c, log, e.t);
    RotateValid(c, e.t);
    BucketAligned(e.t, c.span);
    var a := Add(c, e.t, e.values);
    AddSums(Rotate(c, e.t), log, e, a);
  }

  lemma AddSums(r: Counter, log: seq<Event>, e: Event, a: Counter)
    requires SumsMatch(r, log, r.start) && |r.curr| <= |e.values| && r.start <= e.t < r.start + r.span
    requires a == r.(curr := Plus(r.curr, e.values))
    ensures SumsMatch(a, log + [e], a.start)
  {
    assert (log + [e])[..|log|] == log;
    assert forall x :: x in log + [e] ==> x in log || x == e;
  }

  // curr and prev are at all times the sums of the accepted adds in the current
  // and in the preceding bucket.
  lemma {:induction false} CountersRefineLog(span: int, now: Seconds, width: nat, ops: seq<Op>)
    requires 0 < span < U32
    ensures New(span, now, width).Valid()
    ensures Refines(Run(New(span, now, width), ops), Accepted(New(span, now, width), ops))
  {
    var c := New(span, now, width);
    BucketAligned(now, span);
    if ops != [] {
      var rest, op := ops[..|ops| - 1], ops[|ops| - 1];
      CountersRefineLog(span, now, width, rest);
      StepRefines(c, rest, op);
      assert Accepted(c, rest) + [] == Accepted(c, rest);
    }
  }

  lemma StepRefines(c: Counter, rest: seq<Op>, op: Op)
    requires c.Valid() && Refines(Run(c, rest), Accepted(c, rest))
    ensures var kept := if op.AddOp? && |c.curr| <= |op.values| && !Stale(Run(c, rest), op.t)
                        then [Event(op.t, op.values)] else [];
            Refines(Do(Run(c, rest), op), Accepted(c, rest) + kept)
  {
    var r, log := Run(c, rest), Accepted(c, rest);
    assert log + [] == log;
    match op
    case AddOp(t, values) =>
      if |c.curr| <= |values| && !Stale(r, t) { AddRefines(r, log, Event(t, values)); }
    case ReadOp(t) => RotateRefines(r, log, t);
  }

  ghost predicate InOrder(now: Seconds, ops: seq<Op>) {
    && (forall k :: 0 <= k < |ops| ==> now <= ops[k].t)
    && (forall j, k :: 0 <= j < k < |ops| ==> ops[j].t <= ops[k].t)
  }

  function Adds(ops: seq<Op>, width: nat): seq<Event> {
    if ops == [] then [] else
      var op := ops[|ops| - 1];
      Adds(ops[..|ops| - 1], width) +
      (if op.AddOp? && width <= |op.values| then [Event(op.t, op.values)] else [])
  }

  lemma {:induction false} StartBound(c: Counter, ops: seq<Op>, t: Seconds)
    requires c.Valid() && c.start <= t
    requires forall k :: 0 <= k < |ops| ==> ops[k].t <= t
    ensures Run(c, ops).start <= BucketStart(t, c.span)
  {
    BucketAligned(t, c.span);
    if ops == [] {
      if BucketStart(t, c.span) < c.start { AlignedGap(BucketStart(t, c.span), c.start, c.span); }
    } else {
      StartBound(c, ops[..|ops| - 1], t);
      BucketMonotone(ops[|ops| - 1].t, t, c.span);
    }
  }

  // With times in order no add is dropped.
  lemma {:induction false} InOrderAcceptsAll(span: int, now: Seconds, width: nat, ops: seq<Op>)
    requires 0 < span < U32 && InOrder(now, ops)
    ensures New(span, now, width).Valid()
    ensures Accepted(New(span, now, width), ops) == Adds(ops, width)
  {
    var c := New(span, now, width);
    BucketAligned(now, span);
    if ops != [] {
      var rest, op := ops[..|ops| - 1], ops[|ops| - 1];
      InOrderAcceptsAll(span, now, width, rest);
      StartBound(c, rest, op.t);
    }
  }

  // The window estimate on one slot, against the true count of the last span
  // seconds: off by at most the count of the preceding bucket.
  lemma WindowErrorBound(c: Counter, log: seq<Event>, t: Seconds, i: nat)
    requires Refines(c, log) && !Stale(c, t) && i < |c.curr|
    requires forall e :: e in log ==> 0 <= e.values[i] && e.t <= t
    ensures Rotate(c, t).Valid() && i < |Rotate(c, t).prev|
    ensures var prev := Rotate(c, t).prev[i];
            var truth := SumIn(log, i, t - c.span + 1, t + 1);
            -prev <= Window(c, t)[i] - truth <= prev
  {
    RotateRefines(c, log, t);
    RotateValid(c, t);
    BucketAligned(t, c.span);
    var r := Rotate(c, t);
    SumInNonNegative(log, i, r.start - r.span, t - r.span + 1);
    SumInNonNegative(log, i, t - r.span + 1, r.start);
    SumInSplit(log, i, r.start - r.span, t - r.span + 1, r.start);
    SumInSplit(log, i, t - r.span + 1, r.start, t + 1);
    SumInSplit(log, i, r.start, t + 1, r.start + r.span);
    SumInEmpty(log, i, t + 1, r.start + r.span);
    FadedShare(r.prev[i], r.span, t - r.start);
  }

  // Over any run with times in order and counts that are not negative, the
  // reported window value differs from the number of adds in the last span
  // seconds by at most the number of adds in the bucket before the current one.
  lemma WindowEstimatesTruth(c: Counter, now: Seconds, ops: seq<Op>, t: Seconds, i: nat)
    requires c.Valid() && c == New(c.span, now, |c.curr|)
    requires InOrder(now, ops) && now <= t && i < |c.curr|
    requires forall k :: 0 <= k < |ops| ==> ops[k].t <= t
    requires forall e :: e in Adds(ops, |c.curr|) ==> |c.curr| <= |e.values| && 0 <= e.values[i]
    ensures i < |Window(Run(c, ops), t)|
    ensures var b := BucketStart(t, c.span);
            var log := Adds(ops, |c.curr|);
            var before := SumIn(log, i, b - c.span, b);
            -before <= Window(Run(c, ops), t)[i] - SumIn(log, i, t - c.span + 1, t + 1) <= before
  {
    hide BucketStart, Window, SumIn, Refines, Run, Accepted;
    CountersRefineLog(c.span, now, |c.curr|, ops);
    InOrderAcceptsAll(c.span, now, |c.curr|, ops);
    StartBefore(c, now);
    StartBound(c, ops, t);
    AddsTimes(ops, |c.curr|, t);
    EstimateAt(Run(c, ops), Adds(ops, |c.curr|), t, i);
  }

  lemma StartBefore(c: Counter, now: Seconds)
    requires c.span > 0 && c.start == BucketStart(now, c.span)
    ensures c.start <= now
  {
    BucketAligned(now, c.span);
  }

  lemma EstimateAt(c: Counter, log: seq<Event>, t: Seconds, i: nat)
    requires Refines(c, log) && c.start <= BucketStart(t, c.span) && i < |c.curr|
    requires forall e :: e in log ==> 0 <= e.values[i] && e.t <= t
    ensures i < |Window(c, t)|
    ensures var b := BucketStart(t, c.span);
            var before := SumIn(log, i, b - c.span, b);
            -before <= Window(c, t)[i] - SumIn(log, i, t - c.span + 1, t + 1) <= before
  {
    RotateRefines(c, log, t);
    RotateValid(c, t);
    WindowErrorBound(c, log, t, i);
  }

  lemma {:induction false} AddsTimes(ops: seq<Op>, width: nat, t: Seconds)
    requires forall k :: 0 <= k < |ops| ==> ops[k].t <= t
    ensures forall e :: e in Adds(ops, width) ==> e.t <= t
  {
    if ops != [] { AddsTimes(ops[..|ops| - 1], width, t); }
  }

  // The blended value of a slot lies between the counts of the preceding and of the
  // current bucket, weighed by the time the current one has lasted: at its start it
  // is the preceding count.
  lemma BlendWeighsBuckets(c: Counter, log: seq<Event>, t: Seconds, i: nat)
    requires Refines(c, log) && c.start <= BucketStart(t, c.span) && i < |c.curr|
    requires forall e :: e in log ==> 0 <= e.values[i]
    ensures i < |Blend(c, t)|
    ensures var b := BucketStart(t, c.span);
            var before, now, value := SumIn(log, i, b - c.span, b), SumIn(log, i, b, b + c.span), Blend(c, t)[i];
            && Min(before, now) <= value <= Max(before, now)
            && 0 <= before * (c.span - (t - b)) + now * (t - b) - c.span * value < c.span
            && (t == b ==> value == before)
  {
    var b := BucketStart(t, c.span);
    RotateRefines(c, log, t);
    RotateValid(c, t);
    BucketAligned(t, c.span);
    SumInNonNegative(log, i, b - c.span, b);
    SumInNonNegative(log, i, b, b + c.span);
    BlendBetween(SumIn(log, i, b, b + c.span), SumIn(log, i, b - c.span, b), c.span, t - b);
    BlendAtStart(SumIn(log, i, b, b + c.span), SumIn(log, i, b - c.span, b), c.span);
  }

  // ------------------------------------------------------------- the object

  class EpochWeightedCounters {
    var curr: array<int>
    var prev: array<int>
    const span: int
    var start: Seconds

    ghost predicate Valid()
      reads this, curr, prev
    {
      curr != prev && Model().Valid()
    }

    ghost function Model(): Counter
      reads this, curr, prev
    {
      Counter(curr[..], prev[..], span, start)
    }

    constructor (span: int, now: Seconds, width: nat)
      requires 0 < span < U32
      ensures Valid() && fresh(curr) && fresh(prev)
      ensures this.span == span && Model() == New(span, now, width)
    {
      this.curr := new int[width](_ => 0);
      this.prev := new int[width](_ => 0);
      this.span := span;
      this.start := BucketStart(now, span);
      new;
      BucketAligned(now, span);
      assert curr[..] == Zeros(width) && prev[..] == Zeros(width);
    }

    method RotateTo(timestamp: Seconds) returns (ok: bool)
      requires Valid()
      modifies this`start, curr, prev
      ensures Valid() && curr == old(curr) && prev == old(prev)
      ensures ok == !Stale(old(Model()), timestamp)
      ensures Model() == Rotate(old(Model()), timestamp)
    {
      ghost var was := Model();
      RotateValid(was, timestamp);
      BucketAligned(timestamp, span);
      var newStart := BucketStart(timestamp, span);
      var from := start;
      if newStart == from {
        return true;
      }
      if newStart < from {
        return false;
      }
      AlignedGap(from, newStart, span);
      start := newStart;
      // uint32 addition; it cannot wrap here because newStart fits.
      if newStart == (from + span) % U32 {
        for i := 0 to curr.Length
          invariant curr[i..] == was.curr[i..]
          invariant curr[..i] == Zeros(i)
          invariant prev[..i] == was.curr[..i] && start == newStart
        {
          assert curr[i] == was.curr[i];
          prev[i] := curr[i];
          curr[i] := 0;
        }
        assert prev[..] == was.curr && curr[..] == Zeros(|was.curr|);
        assert Model() == Rotate(was, timestamp);
      } else {
        for i := 0 to curr.Length
          invariant curr[..i] == Zeros(i) && prev[..i] == Zeros(i) && start == newStart
        {
          prev[i] := 0;
          curr[i] := 0;
        }
        assert prev[..] == Zeros(|was.curr|) && curr[..] == Zeros(|was.curr|);
        assert Model() == Rotate(was, timestamp);
      }
      return true;
    }

    method AddValues(timestamp: Seconds, values: seq<int>)
      requires Valid() && curr.Length <= |values|
      modifies this`start, curr, prev
      ensures Valid() && curr == old(curr) && prev == old(prev)
      ensures Model() == Add(old(Model()), timestamp, values)
    {
      ghost var was := Model();
      var ok := RotateTo(timestamp);
      if !ok {
        return;
      }
      ghost var rotated := Model();
      for i := 0 to curr.Length
        invariant curr[i..] == rotated.curr[i..]
        invariant forall k :: 0 <= k < i ==> curr[k] == rotated.curr[k] + values[k]
        invariant prev[..] == rotated.prev && start == rotated.start
      {
        assert curr[i] == rotated.curr[i];
        curr[i] := curr[i] + values[i];
      }
      assert curr[..] == Plus(rotated.curr, values);
    }

    method CurrentWindowValue(timestamp: Seconds, dst: array<int>)
      requires Valid() && curr.Length <= dst.Length && dst != curr && dst != prev
      modifies this`start, curr, prev, dst
      ensures Valid() && curr == old(curr) && prev == old(prev)
      ensures Model() == Rotate(old(Model()), timestamp)
      ensures dst[..curr.Length] == Window(old(Model()), timestamp)
      ensures dst[curr.Length..] == old(dst[curr.Length..])
    {
      hide Rotate, WindowSlot, BlendSlot, BucketStart;
      var ok := RotateTo(timestamp);
      if ok { RotateValid(old(Model()), timestamp); BucketAligned(timestamp, span); }
      for i := 0 to curr.Length
        invariant dst[..i] == Window(old(Model()), timestamp)[..i]
        invariant dst[curr.Length..] == old(dst[curr.Length..])
        invariant Model() == Rotate(old(Model()), timestamp) && Valid()
      {
        if ok {
          dst[i] := WindowSlot(curr[i], prev[i], span, timestamp - start);
        } else {
          dst[i] := 0;
        }
      }
    }

    method CurrentValue(timestamp: Seconds, dst: array<int>)
      requires Valid() && curr.Length <= dst.Length && dst != curr && dst != prev
      modifies this`start, curr, prev, dst
      ensures Valid() && curr == old(curr) && prev == old(prev)
      ensures Model() == Rotate(old(Model()), timestamp)
      ensures dst[..curr.Length] == Blend(old(Model()), timestamp)
      ensures dst[curr.Length..] == old(dst[curr.Length..])
    {
      hide Rotate, WindowSlot, BlendSlot, BucketStart;
      var ok := RotateTo(timestamp);
      if ok { RotateValid(old(Model()), timestamp); BucketAligned(timestamp, span); }
      for i := 0 to curr.Length
        invariant dst[..i] == Blend(old(Model()), timestamp)[..i]
        invariant dst[curr.Length..] == old(dst[curr.Length..])
        invariant Model() == Rotate(old(Model()), timestamp) && Valid()
      {
        if ok {
          dst[i] := BlendSlot(curr[i], prev[i], span, timestamp - start);
        } else {
          dst[i] := 0;
        }
      }
    }
  }
}
