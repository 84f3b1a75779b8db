// The HTTP collector (collectors/http.go): per-path epoch-weighted counters that
// Snapshot prunes once their estimate has faded to zero.

module HttpMetrics {
  import opened Basics
  import opened EpochCounter

  const GLOBAL := "-"
  const REQUESTS := 0
  const ERRORS := 1
  const DURATION := 2
  const WIDTH := 3

  type Totals = c: Counter | c.Valid() && |c.curr| == WIDTH witness Counter([0, 0, 0], [0, 0, 0], 1, 0)

  type Single = c: Counter | c.Valid() && |c.curr| == 1 witness Counter([0], [0], 1, 0)

  datatype PathMetrics = PathMetrics(totals: Totals, statuses: map<int, Single>)

  type Paths = map<string, PathMetrics>

  datatype PathSnapshot = PathSnapshot(requests: int, errors: int, averageLatency: int, responseCodes: map<int, int>)

  datatype Snapshot = Snapshot(
    requests: int,
    errors: int,
    paths: map<string, PathSnapshot>,
    responseCodes: map<int, int>,
    errorURLs: map<string, map<int, int>>,
    unknownURLs: map<string, int>)

  // -------------------------------------------------------------- observing

  function Values(status: int, duration: int): seq<int> {
    [1, if status >= 500 then 1 else 0, duration]
  }

  function NewTotals(span: int, ts: Seconds): Totals
    requires 0 < span < U32
  {
    BucketAligned(ts, span);
    New(span, ts, WIDTH)
  }

  function NewSingle(span: int, ts: Seconds): Single
    requires 0 < span < U32
  {
    BucketAligned(ts, span);
    New(span, ts, 1)
  }

  function AddTotals(c: Totals, ts: Seconds, status: int, duration: int): Totals {
    AddValid(c, ts, Values(status, duration));
    Add(c, ts, Values(status, duration))
  }

  function AddOne(c: Single, ts: Seconds): Single {
    AddValid(c, ts, [1]);
    Add(c, ts, [1])
  }

  function ObservePath(paths: Paths, path: string, status: int, duration: int, ts: Seconds, span: int): Paths
    requires 0 < span < U32
  {
    var pm := if path in paths then paths[path] else PathMetrics(NewTotals(span, ts), map[]);
    var sc := if status in pm.statuses then pm.statuses[status] else NewSingle(span, ts);
    paths[path := PathMetrics(AddTotals(pm.totals, ts, status, duration), pm.statuses[status := AddOne(sc, ts)])]
  }

  function Observe(paths: Paths, path: string, status: int, duration: int, ts: Seconds, span: int): Paths
    requires 0 < span < U32
  {
    ObservePath(ObservePath(paths, GLOBAL, status, duration, ts, span), path, status, duration, ts, span)
  }

  // ---------------------------------------------------------------- reading

  function TurnTotals(c: Totals, ts: Seconds): Totals {
    RotateValid(c, ts);
    Rotate(c, ts)
  }

  function TurnSingle(c: Single, ts: Seconds): Single {
    RotateValid(c, ts);
    Rotate(c, ts)
  }

  // max(estimate, 0) on one slot.
  function Estimate(c: Counter, ts: Seconds, slot: nat): int
    requires c.Valid() && slot < |c.curr|
  {
    RotateValid(c, ts);
    Max(Window(c, ts)[slot], 0)
  }

  predicate Visible(totals: Totals, ts: Seconds)
  {
    !(Estimate(totals, ts, REQUESTS) == 0 && Estimate(totals, ts, ERRORS) == 0 && Estimate(totals, ts, DURATION) == 0)
  }

  function Codes(statuses: map<int, Single>, ts: Seconds): map<int, int>
  {
    map s | s in statuses && Estimate(statuses[s], ts, 0) != 0 :: Estimate(statuses[s], ts, 0)
  }

  function PathView(pm: PathMetrics, ts: Seconds): PathSnapshot
  {
    var requests := Estimate(pm.totals, ts, REQUESTS);
    PathSnapshot(
      requests,
      Estimate(pm.totals, ts, ERRORS),
      if requests > 0 then Estimate(pm.totals, ts, DURATION) / requests else 0,
      Codes(pm.statuses, ts))
  }

  function ServerErrors(codes: map<int, int>): map<int, int> {
    map s | s in codes && s >= 500 :: codes[s]
  }

  function PathViews(paths: Paths, ts: Seconds): map<string, PathSnapshot>
  {
    map p | p in paths && Visible(paths[p].totals, ts) :: PathView(paths[p], ts)
  }

  // Everything in a snapshot follows from its per-path part.
  function Assemble(views: map<string, PathSnapshot>): Snapshot {
    Snapshot(
      if GLOBAL in views then views[GLOBAL].requests else 0,
      if GLOBAL in views then views[GLOBAL].errors else 0,
      views,
      if GLOBAL in views then views[GLOBAL].responseCodes else map[],
      ErrorURLs(views),
      UnknownURLs(views))
  }

  function ErrorURLs(views: map<string, PathSnapshot>): map<string, map<int, int>> {
    map p | p in views && p != GLOBAL && ServerErrors(views[p].responseCodes) != map[] :: ServerErrors(views[p].responseCodes)
  }

  function UnknownURLs(views: map<string, PathSnapshot>): map<string, int> {
    map p | p in views && p != GLOBAL && 404 in views[p].responseCodes :: views[p].responseCodes[404]
  }

  function SnapshotOf(paths: Paths, ts: Seconds): Snapshot
  {
    Assemble(PathViews(paths, ts))
  }

  function PrunePath(pm: PathMetrics, ts: Seconds): PathMetrics
  {
    PathMetrics(
      TurnTotals(pm.totals, ts),
      map s | s in pm.statuses && Estimate(pm.statuses[s], ts, 0) != 0 :: TurnSingle(pm.statuses[s], ts))
  }

  // The counters Snapshot leaves behind.
  function Prune(paths: Paths, ts: Seconds): Paths
  {
    map p | p in paths && Visible(paths[p].totals, ts) :: PrunePath(paths[p], ts)
  }

  function KeepPath(pm: PathMetrics, ts: Seconds): PathMetrics
  {
    PathMetrics(TurnTotals(pm.totals, ts), map s | s in pm.statuses :: TurnSingle(pm.statuses[s], ts))
  }

  // The counters a Snapshot that never deletes would leave behind.
  function Keep(paths: Paths, ts: Seconds): Paths
  {
    map p | p in paths :: KeepPath(paths[p], ts)
  }

  // ------------------------------------------------------------- collectors

  datatype Config = Config(window: int, refresh: int)

  datatype Collector = Collector(paths: Paths, cachedAt: Option<int>, cached: Snapshot)

  datatype Call =
    | ObserveOp(now: int, path: string, status: int, duration: int)
    | SnapshotOp(now: int)

  const EMPTY := Snapshot(0, 0, map[], map[], map[], map[])

  predicate CacheFresh(cfg: Config, c: Collector, now: int) {
    c.cachedAt.Some? && cfg.refresh > 0 && now - c.cachedAt.value < cfg.refresh
  }

  // One call on the collector; `prune` tells the real one from the reference.
  function Step(cfg: Config, c: Collector, op: Call, prune: bool): (Collector, Option<Snapshot>)
    requires cfg.window > 0
  {
    var ts := UnixSeconds(op.now);
    match op
    case ObserveOp(now, path, status, duration) =>
      (c.(paths := Observe(c.paths, path, status, duration, ts, WindowSpan(cfg.window))), None)
    case SnapshotOp(now) =>
      if CacheFresh(cfg, c, now) then (c, Some(c.cached)) else
        var snap := SnapshotOf(c.paths, ts);
        (Collector(if prune then Prune(c.paths, ts) else Keep(c.paths, ts), Some(now), snap), Some(snap))
  }
}
