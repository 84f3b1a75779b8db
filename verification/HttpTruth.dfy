// What a snapshot of the HTTP collector says, against the calls themselves
// (observe and Snapshot in collectors/http.go).

module HttpTruth {
  import opened Basics
  import opened EpochCounter
  import opened HttpMetrics
  import opened HttpPruning
  import opened HttpCollector

  // ------------------------------------------------------------------- the calls

  // One request as it counts for one path.
  datatype Hit = Hit(t: Seconds, status: int, duration: int)

  datatype Kind = Requests | Errors | Status(code: int)

  predicate Is(h: Hit, kind: Kind) {
    match kind
    case Requests => true
    case Errors => h.status >= 500
    case Status(code) => h.status == code
  }

  // A request counts for its own path and for the global one. One whose path is the
  // global one's name counts for that twice.
  function HitsOf(op: Call, path: string): seq<Hit> {
    match op
    case SnapshotOp(_) => []
    case ObserveOp(now, own, status, duration) =>
      var h := Hit(UnixSeconds(now), status, duration);
      (if path == "-" then [h] else []) + (if path == own then [h] else [])
  }

  function Hits(ops: seq<Call>, path: string): seq<Hit> {
    if ops == [] then [] else Hits(ops[..|ops| - 1], path) + HitsOf(ops[|ops| - 1], path)
  }

  // How many of a kind came in the seconds from lo on, before hi.
  function Count(hits: seq<Hit>, kind: Kind, lo: int, hi: int): nat {
    if hits == [] then 0 else
      var h := hits[|hits| - 1];
      Count(hits[..|hits| - 1], kind, lo, hi) + (if Is(h, kind) && lo <= h.t < hi then 1 else 0)
  }

  // The time they took.
  function Spent(hits: seq<Hit>, lo: int, hi: int): int {
    if hits == [] then 0 else
      var h := hits[|hits| - 1];
      Spent(hits[..|hits| - 1], lo, hi) + (if lo <= h.t < hi then h.duration else 0)
  }

  // ------------------------------------------------------------ as counters see them

  function TotalsEvent(h: Hit): Event { Event(h.t, [1, if Is(h, Errors) then 1 else 0, h.duration]) }

  function TotalsLog(hits: seq<Hit>): seq<Event> {
    if hits == [] then [] else TotalsLog(hits[..|hits| - 1]) + [TotalsEvent(hits[|hits| - 1])]
  }

  function StatusLog(hits: seq<Hit>, code: int): seq<Event> {
    if hits == [] then [] else
      var h := hits[|hits| - 1];
      StatusLog(hits[..|hits| - 1], code) + (if Is(h, Status(code)) then [Event(h.t, [1])] else [])
  }

  lemma {:induction false} TotalsLogFits(hits: seq<Hit>)
    ensures forall e :: e in TotalsLog(hits) ==> |e.values| == 3
  {
    if hits != [] { TotalsLogFits(hits[..|hits| - 1]); }
  }

  lemma {:induction false} StatusLogFits(hits: seq<Hit>, code: int)
    ensures forall e :: e in StatusLog(hits, code) ==> e.values == [1]
    ensures StatusLog(hits, code) != [] <==> exists i :: 0 <= i < |hits| && hits[i].status == code
  {
    if hits != [] {
      StatusLogFits(hits[..|hits| - 1], code);
      assert hits == hits[..|hits| - 1] + [hits[|hits| - 1]];
    }
  }

  ghost predicate UpTo(hits: seq<Hit>, t: int) { forall i :: 0 <= i < |hits| ==> hits[i].t <= t && 0 <= hits[i].duration }

  lemma {:induction false} LogTimes(hits: seq<Hit>, code: int, t: int)
    requires UpTo(hits, t)
    ensures forall e :: e in TotalsLog(hits) ==> e.t <= t && |e.values| == 3 && forall i :: 0 <= i < 3 ==> 0 <= e.values[i]
    ensures forall e :: e in StatusLog(hits, code) ==> e.t <= t
  {
    if hits != [] {
      assert UpTo(hits[..|hits| - 1], t);
      LogTimes(hits[..|hits| - 1], code, t);
    }
  }

  lemma SumSnoc(log: seq<Event>, e: Event, i: nat, lo: int, hi: int)
    requires forall x :: x in log + [e] ==> i < |x.values|
    ensures SumIn(log + [e], i, lo, hi) == SumIn(log, i, lo, hi) + (if lo <= e.t < hi then e.values[i] else 0)
  {
    assert (log + [e])[..|log|] == log && e in log + [e];
  }

  lemma {:induction false} SumsAreCounts(hits: seq<Hit>, code: int, lo: int, hi: int)
    ensures forall e :: e in TotalsLog(hits) ==> |e.values| == 3
    ensures forall e :: e in StatusLog(hits, code) ==> |e.values| == 1
    ensures SumIn(TotalsLog(hits), 0, lo, hi) == Count(hits, Requests, lo, hi)
    ensures SumIn(TotalsLog(hits), 1, lo, hi) == Count(hits, Errors, lo, hi)
    ensures SumIn(TotalsLog(hits), 2, lo, hi) == Spent(hits, lo, hi)
    ensures SumIn(StatusLog(hits, code), 0, lo, hi) == Count(hits, Status(code), lo, hi)
  {
    hide SumIn;
    TotalsLogFits(hits);
    StatusLogFits(hits, code);
    if hits == [] {
      SumInEmpty([], 0, lo, hi);
      SumInEmpty([], 1, lo, hi);
      SumInEmpty([], 2, lo, hi);
    } else {
      var rest, h := hits[..|hits| - 1], hits[|hits| - 1];
      SumsAreCounts(rest, code, lo, hi);
      SumSnoc(TotalsLog(rest), TotalsEvent(h), 0, lo, hi);
      SumSnoc(TotalsLog(rest), TotalsEvent(h), 1, lo, hi);
      SumSnoc(TotalsLog(rest), TotalsEvent(h), 2, lo, hi);
      if Is(h, Status(code)) {
        SumSnoc(StatusLog(rest, code), Event(h.t, [1]), 0, lo, hi);
      } else {
        assert StatusLog(rest, code) + [] == StatusLog(rest, code);
      }
    }
  }

  // ------------------------------------------------------------- counters and calls

  ghost predicate Tallies(c: Counter, log: seq<Event>, span: int, ts: Seconds)
    requires span > 0
  {
    Refines(c, log) && c.span == span && c.start <= BucketStart(ts, span)
  }

  // A path's counters, against the requests that counted for it.
  ghost predicate PathTallied(pm: PathMetrics, hits: seq<Hit>, span: int, ts: Seconds)
    requires span > 0
  {
    && Tallies(pm.totals, TotalsLog(hits), span, ts)
    && (forall s :: s in pm.statuses <==> StatusLog(hits, s) != [])
    && (forall s :: s in pm.statuses ==> Tallies(pm.statuses[s], StatusLog(hits, s), span, ts))
  }

  ghost predicate PathsTallied(paths: Paths, logs: string -> seq<Hit>, span: int, ts: Seconds)
    requires span > 0
  {
    forall p: string :: (p in paths <==> logs(p) != []) && (p in paths ==> PathTallied(paths[p], logs(p), span, ts))
  }

  lemma NewTallies(span: int, ts: Seconds, width: nat)
    requires 0 < span < U32
    ensures Tallies(New(span, ts, width), [], span, ts)
  {
    BucketAligned(ts, span);
  }

  lemma AddTallies(c: Counter, log: seq<Event>, span: int, ts: Seconds, values: seq<int>)
    requires span > 0 && Tallies(c, log, span, ts) && |c.curr| <= |values|
    ensures Tallies(Add(c, ts, values), log + [Event(ts, values)], span, ts)
  {
    AddRefines(c, log, Event(ts, values));
    RotateValid(c, ts);
  }

  lemma RotateTallies(c: Counter, log: seq<Event>, span: int, ts: Seconds)
    requires span > 0 && Tallies(c, log, span, ts)
    ensures Tallies(Rotate(c, ts), log, span, ts)
  {
    RotateRefines(c, log, ts);
    RotateValid(c, ts);
  }

  lemma PathsTalliedLater(paths: Paths, logs: string -> seq<Hit>, span: int, a: Seconds, b: Seconds)
    requires span > 0 && PathsTallied(paths, logs, span, a) && a <= b
    ensures PathsTallied(paths, logs, span, b)
  {
    hide Refines, BucketStart, TotalsLog, StatusLog;
    BucketMonotone(a, b, span);
  }

  lemma ObservedTallied(pm: Option<PathMetrics>, hits: seq<Hit>, h: Hit, span: int, ts: Seconds)
    requires 0 < span < U32 && h.t == ts
    requires if pm.Some? then PathTallied(pm.value, hits, span, ts) else hits == []
    ensures PathTallied(Observed(Or(pm, span, ts), h.status, h.duration, span, ts), hits + [h], span, ts)
  {
    hide Refines, BucketStart, Add, New;
    var more := hits + [h];
    assert more[..|hits|] == hits;
    NewTallies(span, ts, WIDTH);
    NewTallies(span, ts, 1);
    var pm0 := Or(pm, span, ts);
    AddTallies(pm0.totals, TotalsLog(hits), span, ts, Values(h.status, h.duration));
    var sc := if h.status in pm0.statuses then pm0.statuses[h.status] else NewSingle(span, ts);
    AddTallies(sc, StatusLog(hits, h.status), span, ts, [1]);
    forall s | s != h.status ensures StatusLog(more, s) == StatusLog(hits, s) {
      assert StatusLog(hits, s) + [] == StatusLog(hits, s);
    }
  }

  // Observing a hit on one path.
  lemma ObservePathTallied(paths: Paths, logs: string -> seq<Hit>, path: string, h: Hit, span: int, ts: Seconds)
    requires 0 < span < U32 && h.t == ts && PathsTallied(paths, logs, span, ts)
    ensures PathsTallied(ObservePath(paths, path, h.status, h.duration, ts, span), p => if p == path then logs(p) + [h] else logs(p), span, ts)
  {
    hide PathTallied, AddTotals, AddOne, NewTotals, NewSingle;
    ObservedTallied(Lookup(paths, path), logs(path), h, span, ts);
  }

  lemma KeepTallied(paths: Paths, logs: string -> seq<Hit>, span: int, ts: Seconds)
    requires span > 0 && PathsTallied(paths, logs, span, ts)
    ensures PathsTallied(Keep(paths, ts), logs, span, ts)
  {
    hide Tallies, TotalsLog, StatusLog, Rotate;
    forall p: string | p in paths ensures PathTallied(KeepPath(paths[p], ts), logs(p), span, ts) {
      RotateTallies(paths[p].totals, TotalsLog(logs(p)), span, ts);
      forall s | s in paths[p].statuses ensures Tallies(Rotate(paths[p].statuses[s], ts), StatusLog(logs(p), s), span, ts) {
        RotateTallies(paths[p].statuses[s], StatusLog(logs(p), s), span, ts);
      }
    }
  }

  lemma SameLogs(paths: Paths, logs: string -> seq<Hit>, other: string -> seq<Hit>, span: int, ts: Seconds)
    requires span > 0 && PathsTallied(paths, logs, span, ts) && forall p :: logs(p) == other(p)
    ensures PathsTallied(paths, other, span, ts)
  {
    hide PathTallied;
  }

  lemma StepTallied(cfg: Config, u: Collector, ops: seq<Call>, op: Call, last: Seconds)
    requires cfg.window > 0 && PathsTallied(u.paths, p => Hits(ops, p), WindowSpan(cfg.window), last) && last <= UnixSeconds(op.now)
    ensures PathsTallied(Step(cfg, u, op, false).0.paths, p => Hits(ops + [op], p), WindowSpan(cfg.window), UnixSeconds(op.now))
  {
    hide PathsTallied, ObservePath, Keep, UnixSeconds, WindowSpan;
    var ts, span := UnixSeconds(op.now), WindowSpan(cfg.window);
    SpanFits(cfg);
    assert (ops + [op])[..|ops|] == ops;
    PathsTalliedLater(u.paths, p => Hits(ops, p), span, last, ts);
    match op
    case ObserveOp(now, path, status, duration) =>
      var h := Hit(ts, status, duration);
      ObservePathTallied(u.paths, p => Hits(ops, p), GLOBAL, h, span, ts);
      var once := ObservePath(u.paths, GLOBAL, status, duration, ts, span);
      var logs := p => if p == GLOBAL then Hits(ops, p) + [h] else Hits(ops, p);
      SameLogs(once, p => if p == GLOBAL then (q => Hits(ops, q))(p) + [h] else (q => Hits(ops, q))(p), logs, span, ts);
      ObservePathTallied(once, logs, path, h, span, ts);
      SameLogs(ObservePath(once, path, status, duration, ts, span), p => if p == path then logs(p) + [h] else logs(p),
               p => Hits(ops + [op], p), span, ts);
    case SnapshotOp(now) =>
      KeepTallied(u.paths, p => Hits(ops, p), span, ts);
      assert forall p :: Hits(ops, p) + [] == Hits(ops, p);
      SameLogs(u.paths, p => Hits(ops, p), p => Hits(ops + [op], p), span, ts);
      SameLogs(Keep(u.paths, ts), p => Hits(ops, p), p => Hits(ops + [op], p), span, ts);
  }

  lemma SpanFits(cfg: Config)
    requires cfg.window > 0
    ensures 0 < WindowSpan(cfg.window) < U32
  {}

  // The collector that never deletes has counted exactly the calls.
  lemma {:induction false} RunTallied(cfg: Config, ops: seq<Call>)
    requires cfg.window > 0 && Orderly(ops)
    ensures PathsTallied(HttpCollector.Run(cfg, ops, false).0.paths, p => Hits(ops, p), WindowSpan(cfg.window), LastTime(ops))
  {
    hide Step, PathsTallied, WindowSpan, UnixSeconds;
    if ops == [] {
      NothingTallied(cfg);
    } else {
      var rest, op := ops[..|ops| - 1], ops[|ops| - 1];
      RunTallied(cfg, rest);
      if rest != [] { SecondsInOrder(rest[|rest| - 1].now, op.now); }
      assert rest + [op] == ops;
      StepTallied(cfg, HttpCollector.Run(cfg, rest, false).0, rest, op, LastTime(rest));
    }
  }

  lemma NothingTallied(cfg: Config)
    requires cfg.window > 0
    ensures PathsTallied(map[], p => Hits([], p), WindowSpan(cfg.window), 0)
  {}

  // --------------------------------------------------------------- what is reported

  ghost predicate Within(x: int, truth: int, slack: int) { truth - slack <= x <= truth + slack }

  // A reported value of one slot, against what came in the last span seconds: off by
  // at most what came in the bucket before the current one, and no less than what
  // came in the current one.
  lemma EstimateTells(c: Counter, log: seq<Event>, span: int, ts: Seconds, i: nat)
    requires 0 < span < U32 && Tallies(c, log, span, ts) && i < |c.curr|
    requires forall e :: e in log ==> e.t <= ts && i < |e.values| && 0 <= e.values[i]
    ensures var b := BucketStart(ts, span);
            && Within(Estimate(c, ts, i), SumIn(log, i, ts - span + 1, ts + 1), SumIn(log, i, b - span, b))
            && SumIn(log, i, b, ts + 1) <= Estimate(c, ts, i)
  {
    hide SumIn;
    EstimateAt(c, log, ts, i);
    SumInNonNegative(log, i, ts - span + 1, ts + 1);
    RotateRefines(c, log, ts);
    RotateValid(c, ts);
    BucketAligned(ts, span);
    var b := BucketStart(ts, span);
    SumInSplit(log, i, b, ts + 1, b + span);
    SumInNonNegative(log, i, ts + 1, b + span);
    SumInNonNegative(log, i, b - span, b);
    FadedShare(Rotate(c, ts).prev[i], span, ts - b);
  }

  function ShownIn(view: PathSnapshot, kind: Kind): int {
    match kind
    case Requests => view.requests
    case Errors => view.errors
    case Status(code) => if code in view.responseCodes then view.responseCodes[code] else 0
  }

  // The counts of a view are right within the bucket before the current one.
  ghost predicate CountsRight(view: PathSnapshot, hits: seq<Hit>, kind: Kind, span: int, ts: Seconds)
    requires span > 0
  {
    var b := BucketStart(ts, span);
    Within(ShownIn(view, kind), Count(hits, kind, ts - span + 1, ts + 1), Count(hits, kind, b - span, b))
  }

  // The average is that of an estimate of the time spent which is as right.
  ghost predicate LatencyRight(view: PathSnapshot, hits: seq<Hit>, span: int, ts: Seconds)
    requires span > 0
  {
    exists spent :: SpentRight(spent, hits, span, ts) && view.averageLatency == if view.requests > 0 then spent / view.requests else 0
  }

  ghost predicate SpentRight(spent: int, hits: seq<Hit>, span: int, ts: Seconds)
    requires span > 0
  {
    var b := BucketStart(ts, span);
    Within(spent, Spent(hits, ts - span + 1, ts + 1), Spent(hits, b - span, b))
  }

  lemma TotalsTell(pm: PathMetrics, hits: seq<Hit>, span: int, ts: Seconds)
    requires 0 < span < U32 && PathTallied(pm, hits, span, ts) && UpTo(hits, ts)
    ensures var b := BucketStart(ts, span);
            && Within(Estimate(pm.totals, ts, 0), Count(hits, Requests, ts - span + 1, ts + 1), Count(hits, Requests, b - span, b))
            && Within(Estimate(pm.totals, ts, 1), Count(hits, Errors, ts - span + 1, ts + 1), Count(hits, Errors, b - span, b))
            && Within(Estimate(pm.totals, ts, 2), Spent(hits, ts - span + 1, ts + 1), Spent(hits, b - span, b))
            && Count(hits, Requests, b, ts + 1) <= Estimate(pm.totals, ts, 0)
  {
    hide SumIn, Estimate, Refines, Count, Spent, TotalsLog, BucketStart;
    var b := BucketStart(ts, span);
    LogTimes(hits, 0, ts);
    EstimateTells(pm.totals, TotalsLog(hits), span, ts, 0);
    EstimateTells(pm.totals, TotalsLog(hits), span, ts, 1);
    EstimateTells(pm.totals, TotalsLog(hits), span, ts, 2);
    SumsAreCounts(hits, 0, ts - span + 1, ts + 1);
    SumsAreCounts(hits, 0, b - span, b);
    SumsAreCounts(hits, 0, b, ts + 1);
  }

  lemma {:induction false} NoneCounted(hits: seq<Hit>, code: int, lo: int, hi: int)
    requires forall i :: 0 <= i < |hits| ==> hits[i].status != code
    ensures Count(hits, Status(code), lo, hi) == 0
  {
    if hits != [] { NoneCounted(hits[..|hits| - 1], code, lo, hi); }
  }

  lemma StatusTells(pm: PathMetrics, hits: seq<Hit>, code: int, span: int, ts: Seconds)
    requires 0 < span < U32 && PathTallied(pm, hits, span, ts) && UpTo(hits, ts)
    ensures var b := BucketStart(ts, span);
            Within(ShownIn(PathView(pm, ts), Status(code)), Count(hits, Status(code), ts - span + 1, ts + 1), Count(hits, Status(code), b - span, b))
  {
    hide SumIn, Estimate, Refines, Count, StatusLog, BucketStart;
    var b := BucketStart(ts, span);
    if code in pm.statuses {
      LogTimes(hits, code, ts);
      StatusLogFits(hits, code);
      EstimateTells(pm.statuses[code], StatusLog(hits, code), span, ts, 0);
      SumsAreCounts(hits, code, ts - span + 1, ts + 1);
      SumsAreCounts(hits, code, b - span, b);
    } else {
      StatusLogFits(hits, code);
      NoneCounted(hits, code, ts - span + 1, ts + 1);
      NoneCounted(hits, code, b - span, b);
    }
  }

  lemma {:induction false} NothingIn(hits: seq<Hit>, kind: Kind, lo: int, hi: int)
    requires Count(hits, Requests, lo, hi) == 0
    ensures Count(hits, kind, lo, hi) == 0 && Spent(hits, lo, hi) == 0
  {
    if hits != [] { NothingIn(hits[..|hits| - 1], kind, lo, hi); }
  }

  lemma {:induction false} CountInside(hits: seq<Hit>, lo: int, hi: int, from: int, to: int)
    requires lo <= from && to <= hi
    ensures Count(hits, Requests, from, to) <= Count(hits, Requests, lo, hi)
  {
    if hits != [] { CountInside(hits[..|hits| - 1], lo, hi, from, to); }
  }

  // A path is listed if something came in the current bucket, and only if something
  // came in it or in the one before.
  lemma VisibleTells(pm: PathMetrics, hits: seq<Hit>, span: int, ts: Seconds)
    requires 0 < span < U32 && PathTallied(pm, hits, span, ts) && UpTo(hits, ts)
    ensures var b := BucketStart(ts, span);
            && (Count(hits, Requests, b, ts + 1) > 0 ==> Visible(pm.totals, ts))
            && (Visible(pm.totals, ts) ==> Count(hits, Requests, b - span, ts + 1) > 0)
  {
    hide Estimate, Count, Spent, PathTallied, BucketStart;
    var b := BucketStart(ts, span);
    TotalsTell(pm, hits, span, ts);
    BucketAligned(ts, span);
    if Count(hits, Requests, b - span, ts + 1) == 0 {
      CountInside(hits, b - span, ts + 1, ts - span + 1, ts + 1);
      CountInside(hits, b - span, ts + 1, b - span, b);
      NothingIn(hits, Errors, ts - span + 1, ts + 1);
      NothingIn(hits, Errors, b - span, b);
    }
  }

  // What a snapshot has for a path; nothing is none of it.
  const NO_VIEW := PathSnapshot(0, 0, 0, map[])

  function ViewIn(snap: Snapshot, path: string): PathSnapshot { if path in snap.paths then snap.paths[path] else NO_VIEW }

  // What a snapshot says of a path, against the requests that counted for it.
  ghost predicate TellsPath(snap: Snapshot, path: string, hits: seq<Hit>, span: int, ts: Seconds)
    requires span > 0
  {
    var b := BucketStart(ts, span);
    && (forall kind: Kind :: CountsRight(ViewIn(snap, path), hits, kind, span, ts))
    && (path in snap.paths ==> LatencyRight(snap.paths[path], hits, span, ts))
    && (Count(hits, Requests, b, ts + 1) > 0 ==> path in snap.paths)
    && (path in snap.paths ==> Count(hits, Requests, b - span, ts + 1) > 0)
  }

  lemma ViewTells(pm: PathMetrics, hits: seq<Hit>, span: int, ts: Seconds)
    requires 0 < span < U32 && PathTallied(pm, hits, span, ts) && UpTo(hits, ts)
    ensures forall kind: Kind :: CountsRight(PathView(pm, ts), hits, kind, span, ts)
    ensures LatencyRight(PathView(pm, ts), hits, span, ts)
  {
    hide Estimate, Count, Spent, PathTallied, BucketStart, Codes, Visible;
    TotalsTell(pm, hits, span, ts);
    forall kind: Kind ensures CountsRight(PathView(pm, ts), hits, kind, span, ts) {
      match kind
      case Requests =>
      case Errors =>
      case Status(code) => StatusTells(pm, hits, code, span, ts);
    }
    assert SpentRight(Estimate(pm.totals, ts, 2), hits, span, ts);
  }

  lemma ListedTells(snap: Snapshot, path: string, pm: PathMetrics, hits: seq<Hit>, span: int, ts: Seconds)
    requires 0 < span < U32 && PathTallied(pm, hits, span, ts) && UpTo(hits, ts)
    requires path in snap.paths <==> Visible(pm.totals, ts)
    requires path in snap.paths ==> snap.paths[path] == PathView(pm, ts)
    ensures TellsPath(snap, path, hits, span, ts)
  {
    hide Estimate, Count, Spent, PathTallied, BucketStart, Codes;
    TotalsTell(pm, hits, span, ts);
    VisibleTells(pm, hits, span, ts);
    if path in snap.paths {
      ViewTells(pm, hits, span, ts);
    } else {
      HiddenTells(snap, path, pm, hits, span, ts);
    }
  }

  // Of a path that is not listed, what came in the last span seconds came in the
  // bucket before, within the rounding.
  lemma HiddenTells(snap: Snapshot, path: string, pm: PathMetrics, hits: seq<Hit>, span: int, ts: Seconds)
    requires 0 < span < U32 && PathTallied(pm, hits, span, ts) && UpTo(hits, ts) && path !in snap.paths && !Visible(pm.totals, ts)
    ensures forall kind: Kind :: CountsRight(ViewIn(snap, path), hits, kind, span, ts)
  {
    hide Count, Spent, PathTallied, BucketStart, Estimate;
    VisibleTells(pm, hits, span, ts);
    var b := BucketStart(ts, span);
    BucketAligned(ts, span);
    forall kind: Kind ensures CountsRight(ViewIn(snap, path), hits, kind, span, ts) {
      NothingIn(hits, kind, b, ts + 1);
      OnlyBefore(hits, kind, b, span, ts);
    }
  }

  lemma {:induction false} OnlyBefore(hits: seq<Hit>, kind: Kind, b: int, span: int, ts: int)
    requires b <= ts < b + span && Count(hits, kind, b, ts + 1) == 0
    ensures Count(hits, kind, ts - span + 1, ts + 1) <= Count(hits, kind, b - span, b)
  {
    if hits != [] { OnlyBefore(hits[..|hits| - 1], kind, b, span, ts); }
  }

  lemma NeverTells(snap: Snapshot, path: string, span: int, ts: Seconds)
    requires span > 0 && path !in snap.paths
    ensures TellsPath(snap, path, [], span, ts)
  {}

  // What a snapshot says as a whole: of every path what its requests were, of all
  // together what the global path has, and of the paths with failing or unknown
  // requests how many they had.
  ghost predicate Tells(snap: Snapshot, ops: seq<Call>, span: int, ts: Seconds)
    requires span > 0
  {
    && (forall path: string :: TellsPath(snap, path, Hits(ops, path), span, ts))
    && snap.requests == ViewIn(snap, "-").requests && snap.errors == ViewIn(snap, "-").errors
    && snap.responseCodes == ViewIn(snap, "-").responseCodes
    && (forall path: string, code :: FailingIn(snap, path, code) == if path != "-" && code >= 500 then ShownIn(ViewIn(snap, path), Status(code)) else 0)
    && (forall path: string :: UnknownIn(snap, path) == if path != "-" then ShownIn(ViewIn(snap, path), Status(404)) else 0)
  }

  function FailingIn(snap: Snapshot, path: string, code: int): int {
    if path in snap.errorURLs && code in snap.errorURLs[path] then snap.errorURLs[path][code] else 0
  }

  function UnknownIn(snap: Snapshot, path: string): int { if path in snap.unknownURLs then snap.unknownURLs[path] else 0 }

  lemma AssembledTells(views: map<string, PathSnapshot>)
    ensures var snap := Assemble(views);
            && snap.paths == views
            && snap.requests == ViewIn(snap, "-").requests && snap.errors == ViewIn(snap, "-").errors
            && snap.responseCodes == ViewIn(snap, "-").responseCodes
            && (forall path: string, code :: FailingIn(snap, path, code) == if path != "-" && code >= 500 then ShownIn(ViewIn(snap, path), Status(code)) else 0)
            && (forall path: string :: UnknownIn(snap, path) == if path != "-" then ShownIn(ViewIn(snap, path), Status(404)) else 0)
  {
    var snap := Assemble(views);
    forall path: string, code ensures FailingIn(snap, path, code) == if path != "-" && code >= 500 then ShownIn(ViewIn(snap, path), Status(code)) else 0 {
      if path in views && code in ServerErrors(views[path].responseCodes) { assert ServerErrors(views[path].responseCodes) != map[]; }
    }
  }

  lemma SnapshotTells(u: Paths, ops: seq<Call>, span: int, ts: Seconds)
    requires 0 < span < U32 && PathsTallied(u, p => Hits(ops, p), span, ts) && forall p :: UpTo(Hits(ops, p), ts)
    ensures Tells(SnapshotOf(u, ts), ops, span, ts)
  {
    hide TellsPath, PathTallied, Visible, PathView, Assemble, ShownIn, UpTo, Hits, FailingIn, UnknownIn;
    var snap := SnapshotOf(u, ts);
    AssembledTells(PathViews(u, ts));
    forall path: string ensures TellsPath(snap, path, Hits(ops, path), span, ts) {
      if path in u {
        ListedTells(snap, path, u[path], Hits(ops, path), span, ts);
      } else {
        NeverTells(snap, path, span, ts);
      }
    }
  }

  lemma {:induction false} HitsUpTo(ops: seq<Call>, path: string, ts: Seconds)
    requires Orderly(ops) && LastTime(ops) <= ts
    ensures UpTo(Hits(ops, path), ts)
  {
    if ops != [] {
      hide UnixSeconds;
      var rest, op := ops[..|ops| - 1], ops[|ops| - 1];
      if rest != [] { SecondsInOrder(rest[|rest| - 1].now, op.now); }
      HitsUpTo(rest, path, ts);
    }
  }

  // Over any run of requests and snapshots in time order, a snapshot that is taken,
  // and not served from the cache, tells the requests themselves: every path that
  // was requested in the current bucket is listed, and none that was not requested
  // in it or the one before; and of every path, as of all together, the requests,
  // the errors and each status are right but for what came in the bucket before the
  // current one.
  lemma SnapshotTellsTheCalls(cfg: Config, ops: seq<Call>, now: int)
    requires cfg.window > 0 && Orderly(ops + [SnapshotOp(now)]) && !CacheFresh(cfg, HttpCollector.Run(cfg, ops, true).0, now)
    ensures var out := Step(cfg, HttpCollector.Run(cfg, ops, true).0, SnapshotOp(now), true).1;
            out.Some? && Tells(out.value, ops, WindowSpan(cfg.window), UnixSeconds(now))
  {
    hide PathsTallied, Tells, PathsAgree, SnapshotBounded, WindowSpan, UnixSeconds, SnapshotOf, Hits, UpTo;
    var ts, span := UnixSeconds(now), WindowSpan(cfg.window);
    SpanFits(cfg);
    var all := ops + [SnapshotOp(now)];
    assert all[..|ops|] == ops && all[|ops|] == SnapshotOp(now) && forall k :: 0 <= k < |ops| ==> ops[k] == all[k];
    if ops != [] { SecondsInOrder(ops[|ops| - 1].now, now); }
    RunRelated(cfg, ops);
    RunTallied(cfg, ops);
    var p, u := HttpCollector.Run(cfg, ops, true).0, HttpCollector.Run(cfg, ops, false).0;
    StepRelated(cfg, p, u, LastTime(ops), SnapshotOp(now));
    PathsTalliedLater(u.paths, q => Hits(ops, q), span, LastTime(ops), ts);
    forall q: string ensures UpTo(Hits(ops, q), ts) { HitsUpTo(ops, q, ts); }
    SnapshotTells(u.paths, ops, span, ts);
  }

  // What the cache holds was taken at the time it says.
  lemma {:induction false} CacheHoldsATaken(cfg: Config, ops: seq<Call>)
    requires cfg.window > 0
    ensures var c := HttpCollector.Run(cfg, ops, true).0;
            c.cachedAt.Some? ==> exists j :: Filled(cfg, ops, j, c.cachedAt.value, c.cached)
  {
    if ops != [] {
      hide Filled, SnapshotOf, Observe, Prune, UnixSeconds, WindowSpan, CacheFresh;
      var rest, op := ops[..|ops| - 1], ops[|ops| - 1];
      CacheHoldsATaken(cfg, rest);
      var c, r := HttpCollector.Run(cfg, ops, true).0, HttpCollector.Run(cfg, rest, true).0;
      if op.SnapshotOp? && !CacheFresh(cfg, r, op.now) {
        FilledNow(cfg, ops, op.now);
      } else if r.cachedAt.Some? {
        var j :| Filled(cfg, rest, j, r.cachedAt.value, r.cached);
        FilledBefore(cfg, ops, j, r.cachedAt.value, r.cached);
      }
    }
  }

  // The call takes a snapshot, rather than serve one from the cache.
  ghost predicate TakenAt(cfg: Config, ops: seq<Call>, j: nat)
    requires cfg.window > 0 && j < |ops|
  {
    ops[j].SnapshotOp? && !CacheFresh(cfg, HttpCollector.Run(cfg, ops[..j], true).0, ops[j].now)
  }

  function TakenSnapshot(cfg: Config, ops: seq<Call>, j: nat): Snapshot
    requires cfg.window > 0 && j < |ops|
  {
    SnapshotOf(HttpCollector.Run(cfg, ops[..j], true).0.paths, UnixSeconds(ops[j].now))
  }

  ghost predicate Filled(cfg: Config, ops: seq<Call>, j: nat, at: int, snap: Snapshot)
    requires cfg.window > 0
  {
    j < |ops| && TakenAt(cfg, ops, j) && ops[j].now == at && snap == TakenSnapshot(cfg, ops, j)
  }

  lemma FilledNow(cfg: Config, ops: seq<Call>, now: int)
    requires cfg.window > 0 && ops != [] && ops[|ops| - 1] == SnapshotOp(now)
    requires !CacheFresh(cfg, HttpCollector.Run(cfg, ops[..|ops| - 1], true).0, now)
    ensures var c := HttpCollector.Run(cfg, ops, true).0; c.cachedAt == Some(now) && Filled(cfg, ops, |ops| - 1, now, c.cached)
  {
    hide SnapshotOf, Prune, UnixSeconds, WindowSpan, CacheFresh;
  }

  lemma FilledBefore(cfg: Config, ops: seq<Call>, j: nat, at: int, snap: Snapshot)
    requires cfg.window > 0 && ops != [] && Filled(cfg, ops[..|ops| - 1], j, at, snap)
    ensures Filled(cfg, ops, j, at, snap)
  {
    hide SnapshotOf, HttpCollector.Run, UnixSeconds, CacheFresh;
    assert ops[..|ops| - 1][..j] == ops[..j];
  }

  // So every snapshot a run returns tells the requests up to some time: its own, or
  // one less than the refresh time before.
  lemma EverySnapshotTellsCalls(cfg: Config, ops: seq<Call>, now: int)
    requires cfg.window > 0 && Orderly(ops + [SnapshotOp(now)])
    ensures var out := Step(cfg, HttpCollector.Run(cfg, ops, true).0, SnapshotOp(now), true).1;
            out.Some? && exists j :: 0 <= j <= |ops| && TellsSince(cfg, ops + [SnapshotOp(now)], j, out.value)
                                     && (j == |ops| || now - (ops + [SnapshotOp(now)])[j].now < cfg.refresh)
  {
    hide TellsSince, Filled, Orderly, HttpCollector.Run, SnapshotOf, UnixSeconds, WindowSpan, Prune;
    var all, c := ops + [SnapshotOp(now)], HttpCollector.Run(cfg, ops, true).0;
    assert all[..|ops|] == ops && all[|ops|] == SnapshotOp(now);
    if CacheFresh(cfg, c, now) {
      CacheHoldsATaken(cfg, ops);
      var j :| Filled(cfg, ops, j, c.cachedAt.value, c.cached);
      FilledBefore(cfg, all, j, c.cachedAt.value, c.cached);
      FilledTells(cfg, all, j, c.cachedAt.value, c.cached);
    } else {
      FilledNow(cfg, all, now);
      FilledTells(cfg, all, |ops|, now, HttpCollector.Run(cfg, all, true).0.cached);
      RunSnoc(cfg, ops, SnapshotOp(now));
    }
  }

  lemma RunSnoc(cfg: Config, ops: seq<Call>, op: Call)
    requires cfg.window > 0
    ensures HttpCollector.Run(cfg, ops + [op], true).0 == Step(cfg, HttpCollector.Run(cfg, ops, true).0, op, true).0
  {
    assert (ops + [op])[..|ops|] == ops;
  }

  lemma FilledTells(cfg: Config, ops: seq<Call>, j: nat, at: int, snap: Snapshot)
    requires cfg.window > 0 && Orderly(ops) && Filled(cfg, ops, j, at, snap)
    ensures j < |ops| && ops[j].now == at && TellsSince(cfg, ops, j, snap)
  {
    hide Tells, SnapshotOf, UnixSeconds, WindowSpan, HttpCollector.Run, Prune, Orderly, CacheFresh;
    OrderlyPart(ops, j);
    SnapshotTellsTheCalls(cfg, ops[..j], ops[j].now);
  }

  ghost predicate TellsSince(cfg: Config, ops: seq<Call>, j: nat, snap: Snapshot)
    requires cfg.window > 0 && j < |ops|
  {
    ops[j].SnapshotOp? && Tells(snap, ops[..j], WindowSpan(cfg.window), UnixSeconds(ops[j].now))
  }

  lemma OrderlyPart(ops: seq<Call>, j: nat)
    requires Orderly(ops) && j < |ops| && ops[j].SnapshotOp?
    ensures Orderly(ops[..j] + [SnapshotOp(ops[j].now)])
  {
    assert ops[..j] + [SnapshotOp(ops[j].now)] == ops[..j + 1];
  }
}
