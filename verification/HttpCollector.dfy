// Runs of the HTTP collector against a reference collector that never deletes a
// counter, and the collector as an object.

module HttpCollector {
  import opened Basics
  import opened EpochCounter
  import opened HttpMetrics
  import opened HttpPruning

  function TotalsOf(p: Option<PathMetrics>): Option<Counter> {
    match p case None => None case Some(pm) => Some(pm.totals)
  }

  function StatusOf(p: Option<PathMetrics>, s: int): Option<Counter> {
    match p case None => None case Some(pm) => if s in pm.statuses then Some(pm.statuses[s]) else None
  }

  function Lookup(paths: Paths, path: string): Option<PathMetrics> {
    if path in paths then Some(paths[path]) else None
  }

  // A path of the pruning collector against the same path never pruned.
  ghost predicate PathAgree(p: Option<PathMetrics>, u: PathMetrics, ts: Seconds) {
    && Agree(TotalsOf(p), u.totals, ts)
    && (forall s :: s in u.statuses ==> Agree(StatusOf(p, s), u.statuses[s], ts))
    && (p.Some? ==> p.value.statuses.Keys <= u.statuses.Keys)
  }

  ghost predicate PathsAgree(p: Paths, u: Paths, span: int, ts: Seconds)
    requires span > 0
  {
    && p.Keys <= u.Keys
    && forall q :: q in u ==> Accounted(u[q], span, ts) && PathAgree(Lookup(p, q), u[q], ts)
  }

  lemma PathsAgreeLater(p: Paths, u: Paths, span: int, a: Seconds, b: Seconds)
    requires span > 0 && PathsAgree(p, u, span, a) && a <= b
    ensures PathsAgree(p, u, span, b)
  {
    forall q | q in u ensures Accounted(u[q], span, b) && PathAgree(Lookup(p, q), u[q], b) {
      AccountedLater(u[q], span, a, b);
      PathAgreeLater(Lookup(p, q), u[q], a, b);
    }
  }

  lemma PathAgreeLater(p: Option<PathMetrics>, u: PathMetrics, a: Seconds, b: Seconds)
    requires PathAgree(p, u, a) && a <= b
    ensures PathAgree(p, u, b)
  {
    AgreeLater(TotalsOf(p), u.totals, a, b);
    forall s | s in u.statuses ensures Agree(StatusOf(p, s), u.statuses[s], b) {
      AgreeLater(StatusOf(p, s), u.statuses[s], a, b);
    }
  }

  // -------------------------------------------------------------- observing

  lemma AgreeNew(span: int, ts: Seconds, width: nat)
    requires 0 < span < U32
    ensures Agree(None, New(span, ts, width), ts)
  {
    BucketAligned(ts, span);
    NewTurned(span, ts, ts, width);
  }

  // Adding to the counter each collector has, or makes on the spot.
  lemma AgreeObserve(p: Option<Counter>, u: Option<Counter>, span: int, ts: Seconds, values: seq<int>)
    requires 0 < span < U32
    requires forall i :: 0 <= i < |values| ==> 0 <= values[i]
    requires u.None? ==> p.None?
    requires u.Some? ==> Agree(p, u.value, ts) && u.value.span == span && |u.value.curr| == |values|
    ensures var u0 := if u.Some? then u.value else New(span, ts, |values|);
            var p0 := if p.Some? then p.value else New(span, ts, |values|);
            && p0.Valid() && |p0.curr| == |values|
            && Agree(Some(Add(p0, ts, values)), Add(u0, ts, values), ts)
  {
    AgreeNew(span, ts, |values|);
    var u0 := if u.Some? then u.value else New(span, ts, |values|);
    AgreeAdd(p, u0, ts, values);
    match p
    case None => NewTurned(span, ts, ts, |values|);
    case Some(c) => RotateTwice(c, ts, ts); RotateValid(c, ts);
  }

  function Or(p: Option<PathMetrics>, span: int, ts: Seconds): PathMetrics
    requires 0 < span < U32
  {
    if p.Some? then p.value else PathMetrics(NewTotals(span, ts), map[])
  }

  function Observed(pm: PathMetrics, status: int, duration: int, span: int, ts: Seconds): PathMetrics
    requires 0 < span < U32
  {
    var sc := if status in pm.statuses then pm.statuses[status] else NewSingle(span, ts);
    PathMetrics(AddTotals(pm.totals, ts, status, duration), pm.statuses[status := AddOne(sc, ts)])
  }

  lemma NewAccounted(span: int, ts: Seconds)
    requires 0 < span < U32
    ensures Accounted(PathMetrics(NewTotals(span, ts), map[]), span, ts)
  {
    NewTurned(span, ts, ts, WIDTH);
    BucketAligned(ts, span);
    var k := KeepPath(PathMetrics(NewTotals(span, ts), map[]), ts);
    assert CurrMap(k.statuses) == map[] && PrevMap(k.statuses) == map[];
  }

  lemma ObservedBalanced(t: PathMetrics, status: int, duration: int, span: int, ts: Seconds)
    requires 0 < span < U32 && 0 <= duration
    requires InBucket(t, span, BucketStart(ts, span)) && Balanced(t)
    ensures Balanced(Observed(t, status, duration, span, ts))
  {
    hide SumMap;
    BucketAligned(ts, span);
    var o := Observed(t, status, duration, span, ts);
    var c, p := CurrMap(t.statuses), PrevMap(t.statuses);
    var old' := if status in c then c[status] else 0;
    assert CurrMap(o.statuses) == c[status := old' + 1];
    assert PrevMap(o.statuses) == p[status := if status in p then p[status] else 0];
    SumMapUpdate(c, status, old' + 1);
    SumMapUpdate(p, status, if status in p then p[status] else 0);
    if status in c {
      SumMapRemove(c, status);
      SumMapRemove(p, status);
    } else {
      assert c - {status} == c && p - {status} == p;
    }
  }

  lemma ObservedAccounted(u: PathMetrics, status: int, duration: int, span: int, ts: Seconds)
    requires 0 < span < U32 && 0 <= duration && Accounted(u, span, ts)
    ensures Accounted(Observed(u, status, duration, span, ts), span, ts)
  {
    var k, o := KeepPath(u, ts), Observed(u, status, duration, span, ts);
    KeepTwice(u, span, ts, ts);
    ObservedBalanced(k, status, duration, span, ts);
    ObserveKeeps(u, status, duration, span, ts);
  }

  // Turning the counters first makes no difference to an observation.
  lemma ObserveKeeps(u: PathMetrics, status: int, duration: int, span: int, ts: Seconds)
    requires 0 < span < U32 && CurrentPath(u, span, ts)
    ensures CurrentPath(Observed(u, status, duration, span, ts), span, ts)
    ensures KeepPath(Observed(u, status, duration, span, ts), ts) == Observed(KeepPath(u, ts), status, duration, span, ts)
  {
    var o, k := Observed(u, status, duration, span, ts), Observed(KeepPath(u, ts), status, duration, span, ts);
    AddTurned(u.totals, span, ts, Values(status, duration));
    if status in u.statuses {
      AddTurned(u.statuses[status], span, ts, [1]);
    } else {
      BucketAligned(ts, span);
      NewTurned(span, ts, ts, 1);
      AddTurned(NewSingle(span, ts), span, ts, [1]);
    }
    var ok := KeepPath(o, ts);
    assert ok.statuses.Keys == k.statuses.Keys;
    forall s | s in k.statuses ensures ok.statuses[s] == k.statuses[s] {}
  }

  lemma AddTurned(c: Counter, span: int, ts: Seconds, values: seq<int>)
    requires span > 0 && Current(c, span, ts) && |c.curr| == |values|
    ensures Current(Add(c, ts, values), span, ts)
    ensures Rotate(c, ts).Valid() && |Rotate(c, ts).curr| == |c.curr|
    ensures Rotate(Add(c, ts, values), ts) == Add(c, ts, values) == Add(Rotate(c, ts), ts, values)
  {
    RotateValid(c, ts);
    AddValid(c, ts, values);
    RotateTwice(c, ts, ts);
  }

  lemma ObservedTotalsAgree(p: Option<PathMetrics>, u: Option<PathMetrics>, status: int, duration: int, span: int, ts: Seconds)
    requires 0 < span < U32 && 0 <= duration
    requires u.None? ==> p.None?
    requires u.Some? ==> u.value.totals.span == span && Agree(TotalsOf(p), u.value.totals, ts)
    ensures Agree(Some(Observed(Or(p, span, ts), status, duration, span, ts).totals),
                  Observed(Or(u, span, ts), status, duration, span, ts).totals, ts)
  {
    AgreeObserve(TotalsOf(p), TotalsOf(u), span, ts, Values(status, duration));
  }

  lemma ObservedStatusAgree(p: Option<PathMetrics>, u: Option<PathMetrics>, status: int, duration: int, span: int, ts: Seconds)
    requires 0 < span < U32
    requires StatusOf(u, status).None? ==> StatusOf(p, status).None?
    requires StatusOf(u, status).Some? ==>
               StatusOf(u, status).value.span == span && |StatusOf(u, status).value.curr| == 1
               && Agree(StatusOf(p, status), StatusOf(u, status).value, ts)
    ensures Agree(Some(Observed(Or(p, span, ts), status, duration, span, ts).statuses[status]),
                  Observed(Or(u, span, ts), status, duration, span, ts).statuses[status], ts)
  {
    AgreeObserve(StatusOf(p, status), StatusOf(u, status), span, ts, [1]);
  }

  lemma ObservedAgree(p: Option<PathMetrics>, u: Option<PathMetrics>, status: int, duration: int, span: int, ts: Seconds)
    requires 0 < span < U32 && 0 <= duration
    requires u.None? ==> p.None?
    requires u.Some? ==> Accounted(u.value, span, ts) && PathAgree(p, u.value, ts)
    ensures var p1 := Observed(Or(p, span, ts), status, duration, span, ts);
            var u1 := Observed(Or(u, span, ts), status, duration, span, ts);
            PathAgree(Some(p1), u1, ts)
  {
    hide Agree, Balanced, Rotate, Add, New;
    var p1, u1 := Observed(Or(p, span, ts), status, duration, span, ts), Observed(Or(u, span, ts), status, duration, span, ts);
    ObservedTotalsAgree(p, u, status, duration, span, ts);
    ObservedStatusAgree(p, u, status, duration, span, ts);
    forall s | s in u1.statuses ensures Agree(StatusOf(Some(p1), s), u1.statuses[s], ts) {
      if s != status { assert StatusOf(Some(p1), s) == StatusOf(p, s) && u.Some? && s in u.value.statuses; }
    }
  }

  lemma ObservedOrNew(u: Option<PathMetrics>, status: int, duration: int, span: int, ts: Seconds)
    requires 0 < span < U32 && 0 <= duration
    requires u.Some? ==> Accounted(u.value, span, ts)
    ensures Accounted(Observed(Or(u, span, ts), status, duration, span, ts), span, ts)
  {
    NewAccounted(span, ts);
    ObservedAccounted(Or(u, span, ts), status, duration, span, ts);
  }

  lemma ObservePathAgree(p: Paths, u: Paths, path: string, status: int, duration: int, span: int, ts: Seconds)
    requires 0 < span < U32 && 0 <= duration && PathsAgree(p, u, span, ts)
    ensures PathsAgree(ObservePath(p, path, status, duration, ts, span),
                       ObservePath(u, path, status, duration, ts, span), span, ts)
  {
    hide Agree, Accounted;
    ObservedAgree(Lookup(p, path), Lookup(u, path), status, duration, span, ts);
    ObservedOrNew(Lookup(u, path), status, duration, span, ts);
    ReplacedAgree(p, u, path, Observed(Or(Lookup(p, path), span, ts), status, duration, span, ts),
                  Observed(Or(Lookup(u, path), span, ts), status, duration, span, ts), span, ts);
  }

  lemma ReplacedAgree(p: Paths, u: Paths, path: string, p1: PathMetrics, u1: PathMetrics, span: int, ts: Seconds)
    requires span > 0 && PathsAgree(p, u, span, ts) && Accounted(u1, span, ts) && PathAgree(Some(p1), u1, ts)
    ensures PathsAgree(p[path := p1], u[path := u1], span, ts)
  {
    hide Accounted, PathAgree;
    var p', u' := p[path := p1], u[path := u1];
    forall q | q in u' ensures Accounted(u'[q], span, ts) && PathAgree(Lookup(p', q), u'[q], ts) {
      if q != path { assert Lookup(p', q) == Lookup(p, q) && q in u; }
    }
  }

  // ---------------------------------------------------------------- reading

  lemma CodesAgree(p: Option<PathMetrics>, u: PathMetrics, ts: Seconds)
    requires PathAgree(p, u, ts)
    ensures p.Some? ==> Codes(p.value.statuses, ts) == Codes(u.statuses, ts)
  {
    if p.Some? {
      var ps := p.value.statuses;
      forall s | s in u.statuses
        ensures s in ps ==> Estimate(ps[s], ts, 0) == Estimate(u.statuses[s], ts, 0)
        ensures s !in ps ==> Estimate(u.statuses[s], ts, 0) == 0
      {
        if s in ps {
          EstimatesAgree(ps[s], u.statuses[s], ts);
        } else {
          AbsentEstimates(u.statuses[s], ts);
        }
      }
    }
  }

  lemma ViewsAgree(p: Paths, u: Paths, span: int, ts: Seconds)
    requires span > 0 && PathsAgree(p, u, span, ts)
    ensures PathViews(p, ts) == PathViews(u, ts)
  {
    hide Estimate, Codes, Agree;
    forall q | q in u
      ensures q in p ==> Visible(p[q].totals, ts) == Visible(u[q].totals, ts)
      ensures q in p ==> PathView(p[q], ts) == PathView(u[q], ts)
      ensures q !in p ==> !Visible(u[q].totals, ts)
    {
      var pl := Lookup(p, q);
      if q in p {
        EstimatesAgree(p[q].totals, u[q].totals, ts);
        CodesAgree(pl, u[q], ts);
      } else {
        AbsentEstimates(u[q].totals, ts);
      }
    }
  }

  lemma HiddenMeansZero(c: Totals, ts: Seconds)
    requires !Visible(c, ts)
    ensures forall i :: 0 <= i < |c.curr| ==> Estimate(c, ts, i) == 0
  {
    hide Estimate;
    forall i | 0 <= i < |c.curr| ensures Estimate(c, ts, i) == 0 {
      assert i == REQUESTS || i == ERRORS || i == DURATION;
    }
  }

  lemma HiddenPathAgree(p: Option<PathMetrics>, u: PathMetrics, span: int, ts: Seconds)
    requires 0 < span < U32 && Accounted(u, span, ts) && PathAgree(p, u, ts) && !Visible(u.totals, ts)
    ensures PathAgree(None, KeepPath(u, ts), ts)
  {
    hide Estimate, Rotate, BucketStart;
    KeepTwice(u, span, ts, ts);
    PathEstimatesBounded(u, span, ts);
    HiddenMeansZero(u.totals, ts);
    ForgetZero(TotalsOf(p), u.totals, ts);
    AgreeTurned(None, u.totals, ts);
    forall s | s in u.statuses ensures Agree(None, KeepPath(u, ts).statuses[s], ts) {
      ForgetZero(StatusOf(p, s), u.statuses[s], ts);
      AgreeTurned(None, u.statuses[s], ts);
    }
  }

  lemma VisiblePathAgree(p: PathMetrics, u: PathMetrics, span: int, ts: Seconds)
    requires 0 < span < U32 && Accounted(u, span, ts) && PathAgree(Some(p), u, ts)
    ensures PathAgree(Some(PrunePath(p, ts)), KeepPath(u, ts), ts)
  {
    var p', u' := PrunePath(p, ts), KeepPath(u, ts);
    AgreeTurned(Some(p.totals), u.totals, ts);
    forall s | s in u.statuses ensures Agree(StatusOf(Some(p'), s), u'.statuses[s], ts) {
      if s in p.statuses {
        EstimatesAgree(p.statuses[s], u.statuses[s], ts);
        if s in p'.statuses {
          AgreeTurned(Some(p.statuses[s]), u.statuses[s], ts);
        } else {
          ForgetZero(Some(p.statuses[s]), u.statuses[s], ts);
          AgreeTurned(None, u.statuses[s], ts);
        }
      } else {
        AgreeTurned(None, u.statuses[s], ts);
      }
    }
  }

  lemma SnapshotAgree(p: Paths, u: Paths, span: int, ts: Seconds)
    requires 0 < span < U32 && PathsAgree(p, u, span, ts)
    ensures PathsAgree(Prune(p, ts), Keep(u, ts), span, ts)
  {
    var p', u' := Prune(p, ts), Keep(u, ts);
    forall q | q in u' ensures Accounted(u'[q], span, ts) && PathAgree(Lookup(p', q), u'[q], ts) {
      AccountedLater(u[q], span, ts, ts);
      if q in p {
        EstimatesAgree(p[q].totals, u[q].totals, ts);
        VisiblePathAgree(p[q], u[q], span, ts);
      }
      if !Visible(u[q].totals, ts) {
        HiddenPathAgree(Lookup(p, q), u[q], span, ts);
      } else if q !in p {
        AbsentEstimates(u[q].totals, ts);
      }
    }
  }

  // ------------------------------------------------------------------- runs

  function Run(cfg: Config, ops: seq<Call>, prune: bool): (Collector, seq<Option<Snapshot>>)
    requires cfg.window > 0
  {
    if ops == [] then (Collector(map[], None, EMPTY), []) else
      var (c, outs) := Run(cfg, ops[..|ops| - 1], prune);
      var (c', out) := Step(cfg, c, ops[|ops| - 1], prune);
      (c', outs + [out])
  }

  // Calls come in time order, before the 32-bit seconds run out, and no request
  // takes negative time.
  ghost predicate Orderly(ops: seq<Call>) {
    && (forall k :: 0 <= k < |ops| ==> 0 <= ops[k].now < U32 * NANOS)
    && (forall k :: 0 <= k < |ops| && ops[k].ObserveOp? ==> 0 <= ops[k].duration)
    && (forall j, k :: 0 <= j < k < |ops| ==> ops[j].now <= ops[k].now)
  }

  function LastTime(ops: seq<Call>): Seconds {
    if ops == [] then 0 else UnixSeconds(ops[|ops| - 1].now)
  }

  lemma SecondsInOrder(a: int, b: int)
    requires 0 <= a <= b < U32 * NANOS
    ensures UnixSeconds(a) <= UnixSeconds(b)
  {}

  ghost predicate PathBounded(view: PathSnapshot) {
    && 0 <= view.errors <= view.requests
    && SumMap(view.responseCodes) <= view.requests
  }

  ghost predicate SnapshotBounded(snap: Snapshot) {
    forall q :: q in snap.paths ==> PathBounded(snap.paths[q])
  }

  lemma ViewBounded(u: Paths, span: int, ts: Seconds)
    requires 0 < span < U32 && forall q :: q in u ==> Accounted(u[q], span, ts)
    ensures SnapshotBounded(SnapshotOf(u, ts))
  {
    var views := PathViews(u, ts);
    forall q | q in views ensures PathBounded(views[q]) {
      PathEstimatesBounded(u[q], span, ts);
      SumMapHideZeros(StatusEstimates(u[q].statuses, ts), Codes(u[q].statuses, ts));
    }
  }

  ghost predicate Related(cfg: Config, p: Collector, u: Collector, ts: Seconds)
    requires cfg.window > 0
  {
    && PathsAgree(p.paths, u.paths, WindowSpan(cfg.window), ts)
    && p.cachedAt == u.cachedAt && p.cached == u.cached
    && SnapshotBounded(p.cached)
  }

  lemma StepRelated(cfg: Config, p: Collector, u: Collector, last: Seconds, op: Call)
    requires cfg.window > 0 && Related(cfg, p, u, last) && last <= UnixSeconds(op.now)
    requires op.ObserveOp? ==> 0 <= op.duration
    ensures Step(cfg, p, op, true).1 == Step(cfg, u, op, false).1
    ensures Step(cfg, p, op, true).1.Some? ==> SnapshotBounded(Step(cfg, p, op, true).1.value)
    ensures Related(cfg, Step(cfg, p, op, true).0, Step(cfg, u, op, false).0, UnixSeconds(op.now))
  {
    hide PathsAgree, PathViews, Prune, Keep, ObservePath, SnapshotBounded, UnixSeconds;
    var ts, span := UnixSeconds(op.now), WindowSpan(cfg.window);
    PathsAgreeLater(p.paths, u.paths, span, last, ts);
    match op
    case ObserveOp(now, path, status, duration) =>
      ObservePathAgree(p.paths, u.paths, GLOBAL, status, duration, span, ts);
      var p1 := ObservePath(p.paths, GLOBAL, status, duration, ts, span);
      var u1 := ObservePath(u.paths, GLOBAL, status, duration, ts, span);
      ObservePathAgree(p1, u1, path, status, duration, span, ts);
    case SnapshotOp(now) =>
      ViewsAgree(p.paths, u.paths, span, ts);
      ViewBounded(u.paths, span, ts);
      SnapshotAgree(p.paths, u.paths, span, ts);
  }

  lemma NothingRelated(cfg: Config)
    requires cfg.window > 0
    ensures Related(cfg, Collector(map[], None, EMPTY), Collector(map[], None, EMPTY), 0)
  {}

  lemma {:induction false} RunRelated(cfg: Config, ops: seq<Call>)
    requires cfg.window > 0 && Orderly(ops)
    ensures Related(cfg, Run(cfg, ops, true).0, Run(cfg, ops, false).0, LastTime(ops))
    ensures Run(cfg, ops, true).1 == Run(cfg, ops, false).1
    ensures forall k :: 0 <= k < |Run(cfg, ops, true).1| ==>
              Run(cfg, ops, true).1[k].Some? ==> SnapshotBounded(Run(cfg, ops, true).1[k].value)
  {
    hide Related, Step, SnapshotBounded;
    if ops == [] {
      NothingRelated(cfg);
    } else {
      var rest, op := ops[..|ops| - 1], ops[|ops| - 1];
      RunRelated(cfg, rest);
      if rest != [] { SecondsInOrder(rest[|rest| - 1].now, op.now); }
      StepRelated(cfg, Run(cfg, rest, true).0, Run(cfg, rest, false).0, LastTime(rest), op);
    }
  }

  // Deleting a path or status counter once its estimate is zero never changes
  // any snapshot: whatever requests and reads follow, the collector returns what
  // a collector that never deletes returns.
  lemma PruningIsInvisible(cfg: Config, ops: seq<Call>)
    requires cfg.window > 0 && Orderly(ops)
    ensures Run(cfg, ops, true).1 == Run(cfg, ops, false).1
  {
    RunRelated(cfg, ops);
  }

  // In every snapshot ever returned, the errors of a path are at most its
  // requests, and its status counts do not sum above its requests.
  lemma SnapshotsAreConsistent(cfg: Config, ops: seq<Call>, k: nat)
    requires cfg.window > 0 && Orderly(ops)
    requires k < |Run(cfg, ops, true).1| && Run(cfg, ops, true).1[k].Some?
    ensures SnapshotBounded(Run(cfg, ops, true).1[k].value)
  {
    RunRelated(cfg, ops);
  }

  // ------------------------------------------------------------- the object

  function Only(paths: Paths, keys: set<string>): Paths {
    map p | p in paths && p in keys :: paths[p]
  }

  function OnlyStatuses(statuses: map<int, Single>, keys: set<int>): map<int, Single> {
    map s | s in statuses && s in keys :: statuses[s]
  }

  function PruneStatuses(statuses: map<int, Single>, ts: Seconds): map<int, Single> {
    map s | s in statuses && Estimate(statuses[s], ts, 0) != 0 :: TurnSingle(statuses[s], ts)
  }

  lemma StatusStep(all: map<int, Single>, done: set<int>, s: int, ts: Seconds)
    requires s in all && s !in done
    ensures var n, kept, codes := Estimate(all[s], ts, 0), PruneStatuses(OnlyStatuses(all, done), ts), Codes(OnlyStatuses(all, done), ts);
            && PruneStatuses(OnlyStatuses(all, done + {s}), ts) == (if n == 0 then kept else kept[s := TurnSingle(all[s], ts)])
            && Codes(OnlyStatuses(all, done + {s}), ts) == (if n == 0 then codes else codes[s := n])
  {
    hide Estimate, Rotate;
  }

  lemma ErrorStep(codes: map<int, int>, s: int, n: int)
    ensures ServerErrors(codes[s := n]) == if s >= 500 then ServerErrors(codes)[s := n] else ServerErrors(codes) - {s}
  {}

  // The inner loop of Snapshot: reads every status counter of one path and drops
  // those whose estimate is zero.
  method ReadStatuses(statuses: map<int, Single>, ts: Seconds) returns (kept: map<int, Single>, codes: map<int, int>, errors: map<int, int>)
    ensures kept == PruneStatuses(statuses, ts)
    ensures codes == Codes(statuses, ts)
    ensures errors == ServerErrors(codes)
  {
    hide Estimate, Rotate, PruneStatuses, Codes, OnlyStatuses, ServerErrors;
    var todo := statuses.Keys;
    kept, codes, errors := map[], map[], map[];
    NoStatuses(statuses, ts);
    while todo != {}
      invariant todo <= statuses.Keys
      invariant kept == PruneStatuses(OnlyStatuses(statuses, statuses.Keys - todo), ts)
      invariant codes == Codes(OnlyStatuses(statuses, statuses.Keys - todo), ts)
      invariant errors == ServerErrors(codes) && codes.Keys !! todo && errors.Keys <= codes.Keys
      decreases todo
    {
      ghost var some := SomeElement(todo);
      var s :| s in todo;
      StatusStep(statuses, statuses.Keys - todo, s, ts);
      assert statuses.Keys - (todo - {s}) == statuses.Keys - todo + {s};
      todo := todo - {s};
      var count := Estimate(statuses[s], ts, 0);
      if count != 0 {
        kept := kept[s := TurnSingle(statuses[s], ts)];
        ErrorStep(codes, s, count);
        assert errors - {s} == errors;
        codes := codes[s := count];
        if s >= 500 {
          errors := errors[s := count];
        }
      }
    }
    AllStatuses(statuses);
  }

  lemma NoStatuses(statuses: map<int, Single>, ts: Seconds)
    ensures PruneStatuses(OnlyStatuses(statuses, statuses.Keys - statuses.Keys), ts) == map[]
    ensures Codes(OnlyStatuses(statuses, statuses.Keys - statuses.Keys), ts) == map[]
    ensures ServerErrors(map[]) == map[]
  {}

  lemma AllStatuses(statuses: map<int, Single>)
    ensures OnlyStatuses(statuses, statuses.Keys - {}) == statuses
  {}

  lemma ViewsStep(all: Paths, done: set<string>, p: string, ts: Seconds)
    requires p in all && p !in done
    ensures Visible(all[p].totals, ts) ==>
              PathViews(Only(all, done + {p}), ts) == PathViews(Only(all, done), ts)[p := PathView(all[p], ts)]
    ensures !Visible(all[p].totals, ts) ==> PathViews(Only(all, done + {p}), ts) == PathViews(Only(all, done), ts)
  {
    hide Visible, PathView;
  }

  // Where the loop of Snapshot stands: paths done are pruned, others untouched.
  function Partly(all: Paths, done: set<string>, todo: set<string>, ts: Seconds): Paths {
    Prune(Only(all, done), ts) + Only(all, todo)
  }

  lemma PruneStep(all: Paths, done: set<string>, todo: set<string>, p: string, ts: Seconds)
    requires p in all && p !in done && p in todo && done !! todo
    ensures Visible(all[p].totals, ts) ==>
              Partly(all, done + {p}, todo - {p}, ts) == Partly(all, done, todo, ts)[p := PrunePath(all[p], ts)]
    ensures !Visible(all[p].totals, ts) ==>
              Partly(all, done + {p}, todo - {p}, ts) == Partly(all, done, todo, ts) - {p}
  {
    hide Prune, PrunePath;
    PruneNext(all, done, p, ts);
    OnlyRest(all, todo, p);
    PruneWithin(all, done, ts);
  }

  lemma OnlyRest(all: Paths, todo: set<string>, p: string)
    requires p in all && p in todo
    ensures Only(all, todo) == Only(all, todo - {p})[p := all[p]] && p !in Only(all, todo - {p})
  {}

  lemma PruneWithin(all: Paths, done: set<string>, ts: Seconds)
    ensures Prune(Only(all, done), ts).Keys <= done
  {}

  lemma PruneNext(all: Paths, done: set<string>, p: string, ts: Seconds)
    requires p in all && p !in done
    ensures Prune(Only(all, done + {p}), ts) ==
      if Visible(all[p].totals, ts) then Prune(Only(all, done), ts)[p := PrunePath(all[p], ts)] else Prune(Only(all, done), ts)
  {
    hide Visible, PrunePath;
  }

  lemma AssembleGlobal(views: map<string, PathSnapshot>, view: PathSnapshot)
    requires GLOBAL !in views
    ensures var a, b := Assemble(views), Assemble(views[GLOBAL := view]);
            b.responseCodes == view.responseCodes && b.errorURLs == a.errorURLs && b.unknownURLs == a.unknownURLs
  {
    hide ServerErrors;
    var a, b := Assemble(views), Assemble(views[GLOBAL := view]);
    assert b.errorURLs.Keys == a.errorURLs.Keys && b.unknownURLs.Keys == a.unknownURLs.Keys;
  }

  lemma ErrorURLsStep(views: map<string, PathSnapshot>, p: string, view: PathSnapshot)
    requires p !in views && p != GLOBAL
    ensures ErrorURLs(views[p := view]) == if ServerErrors(view.responseCodes) == map[] then ErrorURLs(views)
                                           else ErrorURLs(views)[p := ServerErrors(view.responseCodes)]
  {
    hide ServerErrors;
  }

  lemma UnknownURLsStep(views: map<string, PathSnapshot>, p: string, view: PathSnapshot)
    requires p !in views && p != GLOBAL
    ensures UnknownURLs(views[p := view]) == if 404 in view.responseCodes then UnknownURLs(views)[p := view.responseCodes[404]]
                                             else UnknownURLs(views)
  {}

  lemma AssemblePath(views: map<string, PathSnapshot>, p: string, view: PathSnapshot)
    requires p !in views && p != GLOBAL
    ensures var a, b := Assemble(views), Assemble(views[p := view]);
            && b.responseCodes == a.responseCodes
            && b.errorURLs == (if ServerErrors(view.responseCodes) == map[] then a.errorURLs
                               else a.errorURLs[p := ServerErrors(view.responseCodes)])
            && b.unknownURLs == (if 404 in view.responseCodes then a.unknownURLs[p := view.responseCodes[404]]
                                 else a.unknownURLs)
  {
    hide ServerErrors, ErrorURLs, UnknownURLs;
    ErrorURLsStep(views, p, view);
    UnknownURLsStep(views, p, view);
  }

  class HTTPMetrics {
    const cfg: Config
    var paths: Paths
    var cachedAt: Option<int>
    var cachedSnapshot: Snapshot
    // Lifetime totals, which no window touches.
    var totalRequests: int
    var totalErrors: int

    ghost function Model(): Collector
      reads this
    {
      Collector(paths, cachedAt, cachedSnapshot)
    }

    constructor (cfg: Config)
      requires cfg.window > 0
      ensures this.cfg == cfg && Model() == Collector(map[], None, EMPTY)
      ensures totalRequests == 0 && totalErrors == 0
    {
      this.cfg := cfg;
      this.paths, this.cachedAt, this.cachedSnapshot := map[], None, EMPTY;
      this.totalRequests, this.totalErrors := 0, 0;
    }

    method ObservePathLocked(path: string, status: int, duration: int, now: int)
      requires cfg.window > 0
      modifies this`paths
      ensures paths == ObservePath(old(paths), path, status, duration, UnixSeconds(now), WindowSpan(cfg.window))
    {
      var ts, span := UnixSeconds(now), WindowSpan(cfg.window);
      if path !in paths {
        paths := paths[path := PathMetrics(NewTotals(span, ts), map[])];
      }
      var pm := paths[path];
      var totals := AddTotals(pm.totals, ts, status, duration);
      var statuses := pm.statuses;
      if status !in statuses {
        statuses := statuses[status := NewSingle(span, ts)];
      }
      statuses := statuses[status := AddOne(statuses[status], ts)];
      paths := paths[path := PathMetrics(totals, statuses)];
      assert statuses == pm.statuses[status := statuses[status]];
      assert paths == old(paths)[path := paths[path]];
    }

    method Observe(path: string, status: int, duration: int, now: int)
      requires cfg.window > 0
      modifies this
      ensures (Model(), None) == Step(cfg, old(Model()), ObserveOp(now, path, status, duration), true)
      ensures totalRequests == old(totalRequests) + 1
      ensures totalErrors == old(totalErrors) + (if status >= 500 then 1 else 0)
    {
      totalRequests := totalRequests + 1;
      if status >= 500 {
        totalErrors := totalErrors + 1;
      }
      ObservePathLocked(GLOBAL, status, duration, now);
      ObservePathLocked(path, status, duration, now);
    }

    method TakeSnapshot(now: int) returns (snap: Snapshot)
      requires cfg.window > 0
      modifies this`paths, this`cachedAt, this`cachedSnapshot
      ensures (Model(), Some(snap)) == Step(cfg, old(Model()), SnapshotOp(now), true)
    {
      hide PathView, PrunePath, Assemble, Visible, PathViews, Prune, Only, UnixSeconds;
      if CacheFresh(cfg, Collector(paths, cachedAt, cachedSnapshot), now) {
        return cachedSnapshot;
      }
      var ts := UnixSeconds(now);
      ghost var all := paths;
      var views, codes, errorURLs, unknownURLs := map[], map[], map[], map[];
      var todo := paths.Keys;
      Beginning(all, ts);
      while todo != {}
        invariant todo <= all.Keys
        invariant paths == Partly(all, all.Keys - todo, todo, ts)
        invariant forall p :: p in todo ==> p in paths && paths[p] == all[p]
        invariant views == PathViews(Only(all, all.Keys - todo), ts)
        invariant forall p :: p in todo ==> p !in views
        invariant codes == Assemble(views).responseCodes
        invariant errorURLs == Assemble(views).errorURLs
        invariant unknownURLs == Assemble(views).unknownURLs
        invariant cachedAt == old(cachedAt) && cachedSnapshot == old(cachedSnapshot)
        decreases todo
      {
        var p :| p in todo;
        ghost var done := all.Keys - todo;
        ViewsStep(all, done, p, ts);
        PruneStep(all, done, todo, p, ts);
        assert all.Keys - (todo - {p}) == done + {p};
        todo := todo - {p};
        var pm := paths[p];
        if !Visible(pm.totals, ts) {
          paths := paths - {p};
          continue;
        }
        var kept, responseCodes, errors := ReadStatuses(pm.statuses, ts);
        var view := ViewFrom(pm, responseCodes, ts);
        if p == GLOBAL { AssembleGlobal(views, view); } else { AssemblePath(views, p, view); }
        paths := paths[p := KeptFrom(pm, kept, ts)];
        views := views[p := view];
        if p == GLOBAL {
          codes := responseCodes;
        } else {
          if errors != map[] {
            errorURLs := errorURLs[p := errors];
          }
          if 404 in responseCodes {
            unknownURLs := unknownURLs[p := responseCodes[404]];
          }
        }
      }
      Finished(all, ts);
      var requests, errors := 0, 0;
      if GLOBAL in views && (views[GLOBAL].requests > 0 || views[GLOBAL].errors > 0) {
        requests, errors := views[GLOBAL].requests, views[GLOBAL].errors;
      }
      snap := Snapshot(requests, errors, views, codes, errorURLs, unknownURLs);
      GlobalCounts(all, ts);
      cachedAt := Some(now);
      cachedSnapshot := snap;
    }
  }

  function ViewFrom(pm: PathMetrics, codes: map<int, int>, ts: Seconds): (view: PathSnapshot)
    requires codes == Codes(pm.statuses, ts)
    ensures view == PathView(pm, ts) && view.responseCodes == codes
  {
    var requests := Estimate(pm.totals, ts, REQUESTS);
    PathSnapshot(
      requests,
      Estimate(pm.totals, ts, ERRORS),
      if requests > 0 then Estimate(pm.totals, ts, DURATION) / requests else 0,
      codes)
  }

  function KeptFrom(pm: PathMetrics, kept: map<int, Single>, ts: Seconds): (r: PathMetrics)
    requires kept == PruneStatuses(pm.statuses, ts)
    ensures r == PrunePath(pm, ts)
  {
    PathMetrics(TurnTotals(pm.totals, ts), kept)
  }

  lemma Beginning(all: Paths, ts: Seconds)
    ensures Partly(all, all.Keys - all.Keys, all.Keys, ts) == all
    ensures PathViews(Only(all, all.Keys - all.Keys), ts) == map[]
    ensures Assemble(map[]) == EMPTY
  {
    assert Only(all, all.Keys - all.Keys) == map[];
    assert Only(all, all.Keys) == all;
    assert PathViews(map[], ts) == map[];
    assert Assemble(map[]) == EMPTY;
  }

  lemma Finished(all: Paths, ts: Seconds)
    ensures Partly(all, all.Keys - {}, {}, ts) == Prune(all, ts)
    ensures PathViews(Only(all, all.Keys - {}), ts) == PathViews(all, ts)
  {
    assert Only(all, all.Keys - {}) == all;
    assert Only(all, {}) == map[];
  }

  lemma GlobalCounts(all: Paths, ts: Seconds)
    ensures var views, snap := PathViews(all, ts), SnapshotOf(all, ts);
            && snap == Assemble(views) && snap.paths == views
            && snap.requests == (if GLOBAL in views then views[GLOBAL].requests else 0)
            && snap.errors == (if GLOBAL in views then views[GLOBAL].errors else 0)
            && (GLOBAL in views ==> 0 <= views[GLOBAL].requests && 0 <= views[GLOBAL].errors)
  {}
}
