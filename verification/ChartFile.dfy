// The file-backed charting store (storage/chart_file.go): every non-empty write
// goes to the segment file of its day unless it repeats the write before it, and
// the segments are replayed on open. A segment is the list of its records.

module ChartFile {
  import opened Basics
  import opened ChartDigest
  import opened ChartRing
  import opened ChartStore

  const DAY := 86_400_000_000_000

  // The UTC date of a time, as a day number. Names of segments sort like dates.
  function DayOf(t: int): int { t / DAY }

  type Files = map<int, seq<Record>>

  function SegmentAt(files: Files, day: int): seq<Record> {
    if day in files then files[day] else []
  }

  // sweepSegments: drops the segments whose whole day lies before the cutoff.
  function Sweep(files: Files, cutoff: int): Files {
    map day | day in files && !((day + 1) * DAY < cutoff) :: files[day]
  }

  datatype Disk = Disk(files: Files, openDay: Option<int>, lastBucket: int, lastDigest: seq<State>)

  // append, for a record whose time is its bucket.
  function Append(disk: Disk, r: Record, now: int, keep: int): Disk {
    var day := DayOf(r.t);
    var files := if disk.openDay == Some(day) then disk.files else Sweep(disk.files, now - keep);
    disk.(files := files[day := SegmentAt(files, day) + [r]], openDay := Some(day))
  }

  // The file side of Record; keep is window * bucketSize.
  function Write(order: Order, disk: Disk, t: int, states: seq<State>, now: int, d: int, keep: int): Disk
    requires d > 0
  {
    var b := Truncate(t, d);
    if states == [] || (b == disk.lastBucket && Digest(order, states) == disk.lastDigest) then disk
    else Append(disk, Record(b, states), now, keep).(lastBucket := b, lastDigest := Digest(order, states))
  }

  // ------------------------------------------------------- what is on the disk

  // The records of the days lo <= day < hi, in day order and file order.
  function Concat(files: Files, lo: int, hi: int): seq<Record>
    decreases hi - lo
  {
    if hi <= lo then [] else Concat(files, lo, hi - 1) + SegmentAt(files, hi - 1)
  }

  function Newer(log: seq<Record>, cutoff: int): seq<Record> {
    if log == [] then [] else
      Newer(log[..|log| - 1], cutoff) + (if log[|log| - 1].t > cutoff then [log[|log| - 1]] else [])
  }

  lemma {:induction false} NewerConcat(a: seq<Record>, b: seq<Record>, cutoff: int)
    ensures Newer(a + b, cutoff) == Newer(a, cutoff) + Newer(b, cutoff)
  {
    if b == [] {
      assert a + b == a;
    } else {
      assert (a + b)[..|a + b| - 1] == a + b[..|b| - 1];
      NewerConcat(a, b[..|b| - 1], cutoff);
    }
  }

  lemma NewerLast(log: seq<Record>, r: Record, cutoff: int)
    ensures Newer(log + [r], cutoff) == Newer(log, cutoff) + (if r.t > cutoff then [r] else [])
  {
    assert (log + [r])[..|log|] == log;
  }

  lemma {:induction false} NewerEmpty(log: seq<Record>, cutoff: int)
    requires forall r :: r in log ==> r.t <= cutoff
    ensures Newer(log, cutoff) == []
  {
    if log != [] { NewerEmpty(log[..|log| - 1], cutoff); }
  }

  // The records of each segment belong to its day.
  ghost predicate Filed(files: Files) {
    forall day, r :: day in files && r in files[day] ==> DayOf(r.t) == day
  }

  ghost predicate DaysWithin(files: Files, lo: int, hi: int) {
    forall day :: day in files ==> lo <= day < hi
  }

  // Sweeping touches no record that the cutoff admits, now or later.
  lemma {:induction false} SweepKeepsAdmissible(files: Files, lo: int, hi: int, swept: int, cutoff: int)
    requires Filed(files) && swept <= cutoff
    ensures Newer(Concat(Sweep(files, swept), lo, hi), cutoff) == Newer(Concat(files, lo, hi), cutoff)
    decreases hi - lo
  {
    if lo < hi {
      var day := hi - 1;
      SweepKeepsAdmissible(files, lo, day, swept, cutoff);
      var a, b := SegmentAt(files, day), SegmentAt(Sweep(files, swept), day);
      NewerConcat(Concat(files, lo, day), a, cutoff);
      NewerConcat(Concat(Sweep(files, swept), lo, day), b, cutoff);
      if a != b {
        SweptIsOld(a, day, cutoff);
        NewerEmpty(a, cutoff);
      }
    }
  }

  // A segment goes exactly if its whole day, the end of it included, lies before the
  // cutoff; what stays is not touched.
  lemma SweptExactly(files: Files, cutoff: int, day: int)
    requires day in files
    ensures day !in Sweep(files, cutoff) <==> forall t :: DayOf(t) == day ==> t + 1 < cutoff
    ensures day in Sweep(files, cutoff) ==> Sweep(files, cutoff)[day] == files[day]
  {
    var last := (day + 1) * DAY - 1;
    assert DayOf(last) == day;
    forall t | DayOf(t) == day ensures t <= last { assert t == DAY * (t / DAY) + t % DAY; }
  }

  lemma SweptIsOld(segment: seq<Record>, day: int, cutoff: int)
    requires (day + 1) * DAY < cutoff && forall r :: r in segment ==> DayOf(r.t) == day
    ensures forall r :: r in segment ==> r.t <= cutoff
  {
    forall r | r in segment ensures r.t <= cutoff {
      assert r.t == DAY * (r.t / DAY) + r.t % DAY;
    }
  }

  lemma {:induction false} ConcatSame(a: Files, b: Files, lo: int, hi: int)
    requires forall day :: lo <= day < hi ==> SegmentAt(a, day) == SegmentAt(b, day)
    ensures Concat(a, lo, hi) == Concat(b, lo, hi)
    decreases hi - lo
  {
    if lo < hi { ConcatSame(a, b, lo, hi - 1); }
  }

  lemma {:induction false} ConcatBeyond(files: Files, lo: int, hi: int, end: int)
    requires hi <= end
    requires forall day :: day in files ==> day < hi
    ensures Concat(files, lo, end) == Concat(files, lo, hi)
    decreases end - hi
  {
    if hi < end {
      ConcatBeyond(files, lo, hi, end - 1);
      if end <= lo {
        assert Concat(files, lo, end) == [] == Concat(files, lo, hi);
      }
    }
  }

  // Appending to the newest day appends to the whole.
  lemma ConcatAppend(files: Files, lo: int, day: int, r: Record)
    requires lo <= day && forall d :: d in files ==> d <= day
    ensures Concat(files[day := SegmentAt(files, day) + [r]], lo, day + 1) == Concat(files, lo, day + 1) + [r]
  {
    var next := files[day := SegmentAt(files, day) + [r]];
    ConcatSame(files, next, lo, day);
    assert Concat(files, lo, day) + (SegmentAt(files, day) + [r]) == Concat(files, lo, day) + SegmentAt(files, day) + [r];
  }

  // --------------------------------------------- runs of writes and restarts

  // A write, or a restart: the store is opened again on what is on the disk.
  datatype Action =
    | Call(t: int, states: seq<State>, now: int)
    | Reopen(now: int)

  // The bucket and the identities of every write.
  function WritesOf(actions: seq<Action>, d: int): set<(int, seq<string>)>
    requires d > 0
  {
    set k | 0 <= k < |actions| && actions[k].Call? :: (Truncate(actions[k].t, d), Names(actions[k].states))
  }

  // Long writes to one bucket, of which the sort may reorder equal identities, are
  // of identities it treats alike. There is nothing to ask of shorter ones.
  ghost predicate LongWritesAgree(order: Order, writes: set<(int, seq<string>)>) {
    forall u, v :: u in writes && v in writes && u.0 == v.0 && |u.1| > INSERTION ==> Agree(order, u.1, v.1)
  }

  // Writes in time order, and none in the future of the clock.
  ghost predicate Orderly(actions: seq<Action>, d: int)
    requires d > 0
  {
    && (forall k :: 0 <= k < |actions| && actions[k].Call? ==> 0 <= Truncate(actions[k].t, d) && actions[k].t <= actions[k].now)
    && (forall j, k :: 0 <= j < k < |actions| ==> actions[j].now <= actions[k].now)
    && (forall j, k :: 0 <= j < k < |actions| && actions[j].Call? && actions[k].Call? ==> actions[j].t <= actions[k].t)
  }

  ghost predicate WrittenBy(actions: seq<Action>, t: int) {
    forall k :: 0 <= k < |actions| && actions[k].Call? ==> actions[k].t <= t
  }

  lemma OrderlyPrefix(actions: seq<Action>, d: int)
    requires d > 0 && Orderly(actions, d) && actions != []
    ensures Orderly(actions[..|actions| - 1], d)
    ensures WritesOf(actions[..|actions| - 1], d) <= WritesOf(actions, d)
    ensures var a := actions[|actions| - 1]; a.Call? ==> (Truncate(a.t, d), Names(a.states)) in WritesOf(actions, d)
    ensures actions[|actions| - 1].Call? ==> WrittenBy(actions[..|actions| - 1], actions[|actions| - 1].t)
    ensures forall t :: WrittenBy(actions, t) ==> WrittenBy(actions[..|actions| - 1], t)
    ensures var rest, a := actions[..|actions| - 1], actions[|actions| - 1];
            && (rest != [] ==> rest[|rest| - 1].now <= a.now)
            && (a.Call? ==> 0 <= Truncate(a.t, d) && forall t :: WrittenBy(actions, t) ==> a.t <= t)
  {
    hide Truncate;
    var rest := actions[..|actions| - 1];
    assert forall k :: 0 <= k < |rest| ==> rest[k] == actions[k];
  }

  function Fresh(): Disk { Disk(map[], None, ZERO_TIME, []) }

  // What the store has of its own is gone after a restart; what is left on the
  // disk is swept.
  function Reopened(files: Files, now: int, keep: int): Disk {
    Disk(Sweep(files, now - keep), None, ZERO_TIME, [])
  }

  // The day after the bucket of the last write.
  function DayAfter(actions: seq<Action>, d: int): int
    requires d > 0
  {
    if actions == [] then 0
    else if actions[|actions| - 1].Call? then DayOf(Truncate(actions[|actions| - 1].t, d)) + 1
    else DayAfter(actions[..|actions| - 1], d)
  }

  // The records a store opened with this cutoff replays.
  function Replayed(files: Files, end: int, cutoff: int): seq<Record> {
    Newer(Concat(Sweep(files, cutoff), 0, end), cutoff)
  }

  // The disk, and the ring of the store that is running on it.
  datatype World = World(disk: Disk, slots: seq<Slot>)

  // A run that starts on an empty directory.
  function Run(order: Order, actions: seq<Action>, d: int, window: nat): (w: World)
    requires d > 0 && window > 0
    ensures |w.slots| == window
  {
    if actions == [] then World(Fresh(), EmptyRing(window)) else
      var w := Run(order, actions[..|actions| - 1], d, window);
      match actions[|actions| - 1]
      case Call(t, states, now) => World(Write(order, w.disk, t, states, now, d, window * d), RecordIn(w.slots, d, Record(t, states)))
      case Reopen(now) =>
        World(Reopened(w.disk.files, now, window * d),
              Ring(Replayed(w.disk.files, DayAfter(actions, d), now - window * d), d, window))
  }

  // Everything recorded, over all restarts.
  function LogOf(actions: seq<Action>): seq<Record> {
    if actions == [] then [] else
      LogOf(actions[..|actions| - 1]) +
      match actions[|actions| - 1]
      case Call(t, states, _) => [Record(t, states)]
      case Reopen(_) => []
  }

  predicate Skips(order: Order, disk: Disk, t: int, states: seq<State>, d: int)
    requires d > 0
  {
    states == [] || (Truncate(t, d) == disk.lastBucket && Digest(order, states) == disk.lastDigest)
  }

  // Every record ever appended, were nothing swept.
  ghost function Written(order: Order, actions: seq<Action>, d: int, window: nat): seq<Record>
    requires d > 0 && window > 0
  {
    if actions == [] then [] else
      var before := Written(order, actions[..|actions| - 1], d, window);
      match actions[|actions| - 1]
      case Call(t, states, _) =>
        if Skips(order, Run(order, actions[..|actions| - 1], d, window).disk, t, states, d) then before else before + [Record(Truncate(t, d), states)]
      case Reopen(_) => before
  }

  // What the ring of the running store was fed since that store was opened.
  ghost function Fed(order: Order, actions: seq<Action>, d: int, window: nat): seq<Record>
    requires d > 0 && window > 0
  {
    if actions == [] then [] else
      match actions[|actions| - 1]
      case Call(t, states, _) => Fed(order, actions[..|actions| - 1], d, window) + [Record(t, states)]
      case Reopen(now) =>
        Replayed(Run(order, actions[..|actions| - 1], d, window).disk.files, DayAfter(actions, d), now - window * d)
  }

  lemma LastCall(order: Order, actions: seq<Action>, d: int, window: nat)
    requires d > 0 && window > 0 && actions != [] && actions[|actions| - 1].Call?
    ensures var rest, a := actions[..|actions| - 1], actions[|actions| - 1];
            var w := Run(order, rest, d, window);
            && Run(order, actions, d, window).disk == Write(order, w.disk, a.t, a.states, a.now, d, window * d)
            && LogOf(actions) == LogOf(rest) + [Record(a.t, a.states)]
            && Fed(order, actions, d, window) == Fed(order, rest, d, window) + [Record(a.t, a.states)]
            && DayAfter(actions, d) == DayOf(Truncate(a.t, d)) + 1
            && Written(order, actions, d, window) == Written(order, rest, d, window) +
                 (if Skips(order, w.disk, a.t, a.states, d) then [] else [Record(Truncate(a.t, d), a.states)])
  {
    hide Write, Truncate, RecordIn, Skips;
  }

  lemma LastReopen(order: Order, actions: seq<Action>, d: int, window: nat)
    requires d > 0 && window > 0 && actions != [] && actions[|actions| - 1].Reopen?
    ensures var rest, now := actions[..|actions| - 1], actions[|actions| - 1].now;
            var disk := Run(order, rest, d, window).disk;
            && Run(order, actions, d, window).disk == Reopened(disk.files, now, window * d)
            && LogOf(actions) == LogOf(rest) && Written(order, actions, d, window) == Written(order, rest, d, window)
            && DayAfter(actions, d) == DayAfter(rest, d)
            && Fed(order, actions, d, window) == Replayed(disk.files, DayAfter(rest, d), now - window * d)
  {
    hide Replayed, Reopened;
  }

  lemma {:induction false} SlotsAreFed(order: Order, actions: seq<Action>, d: int, window: nat)
    requires d > 0 && window > 0
    ensures Run(order, actions, d, window).slots == Ring(Fed(order, actions, d, window), d, window)
  {
    if actions != [] {
      hide RecordIn, Truncate, Newer, Concat, Write;
      var rest, a := actions[..|actions| - 1], actions[|actions| - 1];
      SlotsAreFed(order, rest, d, window);
      if a.Call? { RingNext(Fed(order, rest, d, window), Record(a.t, a.states), d, window); }
    }
  }

  // ----------------------------------------------- skipped writes change nothing

  lemma MergedLast(log: seq<Record>, r: Record, d: int, b: int)
    requires d > 0
    ensures Merged(log + [r], d, b) ==
            if Truncate(r.t, d) == b then Merge(Merged(log, d, b), r.states) else Merged(log, d, b)
  {
    assert (log + [r])[..|log|] == log;
  }

  // What the next write is compared with: the last one on the disk, or nothing
  // after a restart.
  ghost predicate Remembers(order: Order, disk: Disk, written: seq<Record>, known: set<(int, seq<string>)>) {
    && (forall k :: 0 <= k < |written| ==> (written[k].t, Names(written[k].states)) in known)
    && (disk.lastBucket == ZERO_TIME
        || (written != [] && disk.lastBucket == written[|written| - 1].t
            && disk.lastDigest == Digest(order, written[|written| - 1].states)))
  }

  lemma {:induction false} WrittenMerges(order: Order, actions: seq<Action>, d: int, window: nat, b: int)
    requires SortsAll(order) && d > 0 && window > 0 && Orderly(actions, d) && LongWritesAgree(order, WritesOf(actions, d))
    ensures Merged(Written(order, actions, d, window), d, b) == Merged(LogOf(actions), d, b)
    ensures Remembers(order, Run(order, actions, d, window).disk, Written(order, actions, d, window), WritesOf(actions, d))
  {
    if actions != [] {
      hide Truncate, WritesOf, Merged, Merge, Digest, Run, LogOf, Written, Orderly, Append, Remembers, Sweep, SortsAll, Agree, Names, Skips;
      var rest, a := actions[..|actions| - 1], actions[|actions| - 1];
      OrderlyPrefix(actions, d);
      WrittenMerges(order, rest, d, window, b);
      var written, disk := Written(order, rest, d, window), Run(order, rest, d, window).disk;
      if a.Call? {
        LastCall(order, actions, d, window);
        RemembersWrite(order, disk, written, a, WritesOf(rest, d), WritesOf(actions, d), d, window * d);
        MergedLast(LogOf(rest), Record(a.t, a.states), d, b);
        TruncateFacts(a.t, d);
        if Skips(order, disk, a.t, a.states, d) {
          SkippedWrite(order, disk, written, WritesOf(actions, d), a, d, b);
          assert written + [] == written;
        } else {
          MergedLast(written, Record(Truncate(a.t, d), a.states), d, b);
        }
      } else {
        LastReopen(order, actions, d, window);
        RemembersNothing(order, disk, written, a.now, window * d, WritesOf(rest, d), WritesOf(actions, d));
      }
    }
  }

  lemma RemembersWrite(order: Order, disk: Disk, written: seq<Record>, c: Action, known: set<(int, seq<string>)>, more: set<(int, seq<string>)>,
                       d: int, keep: int)
    requires d > 0 && c.Call? && Remembers(order, disk, written, known)
    requires known <= more && (Truncate(c.t, d), Names(c.states)) in more
    ensures Remembers(order, Write(order, disk, c.t, c.states, c.now, d, keep),
                      written + (if Skips(order, disk, c.t, c.states, d) then [] else [Record(Truncate(c.t, d), c.states)]), more)
    ensures Remembers(order, disk, written, more)
  {
    hide Truncate, Digest, Sweep, Names;
  }

  lemma RemembersNothing(order: Order, disk: Disk, written: seq<Record>, now: int, keep: int, known: set<(int, seq<string>)>, more: set<(int, seq<string>)>)
    requires Remembers(order, disk, written, known) && known <= more
    ensures Remembers(order, Reopened(disk.files, now, keep), written, more)
  {
    hide Sweep, Digest, Names;
  }

  lemma SkippedWrite(order: Order, disk: Disk, written: seq<Record>, known: set<(int, seq<string>)>, c: Action, d: int, b: int)
    requires SortsAll(order) && d > 0 && c.Call? && 0 <= Truncate(c.t, d) && Skips(order, disk, c.t, c.states, d)
    requires Remembers(order, disk, written, known) && LongWritesAgree(order, known) && (Truncate(c.t, d), Names(c.states)) in known
    ensures Truncate(c.t, d) == b ==> Merge(Merged(written, d, b), c.states) == Merged(written, d, b)
  {
    hide Truncate, Merged, Digest, Merge, Names, Agree, SortsAll;
    if c.states == [] {
      MergeNothing(Merged(written, d, b));
    } else {
      var rest, r := written[..|written| - 1], written[|written| - 1];
      assert written == rest + [r];
      MergedLast(rest, r, d, b);
      TruncateFacts(c.t, d);
      assert (r.t, Names(r.states)) in known;
      if |Names(r.states)| <= INSERTION { ShortAgree(order, Names(r.states), Names(c.states)); }
      MergeAgain(order, Merged(rest, d, b), r.states, c.states);
    }
  }

  lemma MergeNothing(states: map<string, State>)
    ensures Merge(states, []) == states
  {}

  // ------------------------------------------------------------------ recovery

  // Time order and place of everything written.
  ghost predicate WellWritten(written: seq<Record>, d: int, last: int)
    requires d > 0
  {
    && (forall k :: 0 <= k < |written| ==> 0 <= written[k].t <= last && Truncate(written[k].t, d) == written[k].t)
    && (forall j, k :: 0 <= j < k < |written| ==> written[j].t <= written[k].t)
  }

  lemma {:induction false} WrittenInOrder(order: Order, actions: seq<Action>, d: int, window: nat, t: int)
    requires d > 0 && window > 0 && Orderly(actions, d) && WrittenBy(actions, t)
    ensures WellWritten(Written(order, actions, d, window), d, Truncate(t, d))
  {
    if actions != [] {
      hide Truncate, Orderly, WrittenBy, WellWritten, Run, Written, LogOf, Fed, DayAfter, Skips;
      var rest, a := actions[..|actions| - 1], actions[|actions| - 1];
      OrderlyPrefix(actions, d);
      WrittenInOrder(order, rest, d, window, if a.Call? then a.t else t);
      if a.Call? {
        LastCall(order, actions, d, window);
        TruncateFacts(a.t, d);
        TruncateMonotone(a.t, t, d);
        WellWrittenSnoc(Written(order, rest, d, window), Record(Truncate(a.t, d), a.states), d, Truncate(t, d));
        assert Written(order, rest, d, window) + [] == Written(order, rest, d, window);
      } else {
        LastReopen(order, actions, d, window);
      }
    }
  }

  // The disk holds, for every cutoff still to come, what was written after it.
  ghost predicate DiskHolds(disk: Disk, written: seq<Record>, end: int, cutoff: int) {
    Newer(Concat(disk.files, 0, end), cutoff) == Newer(written, cutoff)
  }

  function Rolled(disk: Disk, day: int, swept: int): Files {
    if disk.openDay == Some(day) then disk.files else Sweep(disk.files, swept)
  }

  lemma AppendPlaces(disk: Disk, r: Record, now: int, keep: int)
    requires Filed(disk.files) && DaysWithin(disk.files, 0, DayOf(r.t) + 1) && 0 <= r.t
    ensures var files := Rolled(disk, DayOf(r.t), now - keep);
            && Append(disk, r, now, keep).files == files[DayOf(r.t) := SegmentAt(files, DayOf(r.t)) + [r]]
            && DaysWithin(files, 0, DayOf(r.t) + 1)
    ensures Filed(Append(disk, r, now, keep).files) && DaysWithin(Append(disk, r, now, keep).files, 0, DayOf(r.t) + 1)
  {
    hide DayOf;
    DayOfLater(r.t);
  }

  lemma AppendHolds(disk: Disk, written: seq<Record>, r: Record, now: int, keep: int, end: int, cutoff: int)
    requires Filed(disk.files) && DaysWithin(disk.files, 0, DayOf(r.t) + 1) && 0 <= r.t && DayOf(r.t) < end
    requires now - keep <= cutoff && DiskHolds(disk, written, end, cutoff)
    ensures DiskHolds(Append(disk, r, now, keep), written + [r], end, cutoff)
  {
    hide DayOf, Newer, Concat, Sweep, Filed, Append;
    var day := DayOf(r.t);
    DayOfLater(r.t);
    AppendPlaces(disk, r, now, keep);
    var files := Rolled(disk, day, now - keep);
    SweepKeepsAdmissible(disk.files, 0, end, now - keep, cutoff);
    var next := files[day := SegmentAt(files, day) + [r]];
    ConcatBeyond(files, 0, day + 1, end);
    ConcatBeyond(next, 0, day + 1, end);
    ConcatAppend(files, 0, day, r);
    NewerLast(Concat(files, 0, end), r, cutoff);
    NewerLast(written, r, cutoff);
  }

  lemma DayOfLater(t: int)
    requires 0 <= t
    ensures 0 <= DayOf(t)
  {}

  lemma DayOfMonotone(s: int, t: int)
    requires s <= t
    ensures DayOf(s) <= DayOf(t)
  {}

  lemma DaysWiden(files: Files, hi: int, end: int)
    requires DaysWithin(files, 0, hi) && hi <= end
    ensures DaysWithin(files, 0, end)
  {}

  lemma {:induction false} DayAfterWithin(actions: seq<Action>, d: int, t: int)
    requires d > 0 && Orderly(actions, d) && WrittenBy(actions, t) && 0 <= Truncate(t, d)
    ensures 0 <= DayAfter(actions, d) <= DayOf(Truncate(t, d)) + 1
  {
    hide Truncate, DayOf;
    DayOfLater(Truncate(t, d));
    if actions != [] {
      var rest, a := actions[..|actions| - 1], actions[|actions| - 1];
      OrderlyPrefix(actions, d);
      if a.Call? {
        DayOfLater(Truncate(a.t, d));
        TruncateMonotone(a.t, t, d);
        DayOfMonotone(Truncate(a.t, d), Truncate(t, d));
      } else {
        DayAfterWithin(rest, d, t);
      }
    }
  }

  // The disk holds what was written, in segments before day hi.
  ghost predicate RunsOn(disk: Disk, written: seq<Record>, hi: int, end: int, cutoff: int) {
    Filed(disk.files) && DaysWithin(disk.files, 0, hi) && DiskHolds(disk, written, end, cutoff)
  }

  lemma CallRunsOn(order: Order, disk: Disk, written: seq<Record>, c: Action, hi: int, d: int, keep: int, end: int, cutoff: int)
    requires d > 0 && c.Call? && 0 <= Truncate(c.t, d) && c.now - keep <= cutoff
    requires RunsOn(disk, written, hi, end, cutoff) && hi <= DayOf(Truncate(c.t, d)) + 1 <= end
    ensures RunsOn(Write(order, disk, c.t, c.states, c.now, d, keep),
                   written + (if Skips(order, disk, c.t, c.states, d) then [] else [Record(Truncate(c.t, d), c.states)]),
                   DayOf(Truncate(c.t, d)) + 1, end, cutoff)
  {
    hide Truncate, Digest, DayOf, Newer, Concat, Sweep, Append, Filed, DaysWithin;
    var r := Record(Truncate(c.t, d), c.states);
    DaysWiden(disk.files, hi, DayOf(r.t) + 1);
    if Skips(order, disk, c.t, c.states, d) {
      assert written + [] == written;
    } else {
      AppendPlaces(disk, r, c.now, keep);
      AppendHolds(disk, written, r, c.now, keep, end, cutoff);
    }
  }

  lemma ReopenRunsOn(disk: Disk, written: seq<Record>, hi: int, now: int, keep: int, end: int, cutoff: int)
    requires RunsOn(disk, written, hi, end, cutoff) && now - keep <= cutoff
    ensures RunsOn(Reopened(disk.files, now, keep), written, hi, end, cutoff)
  {
    SweepKeepsAdmissible(disk.files, 0, end, now - keep, cutoff);
  }

  lemma NothingRunsOn(end: int, cutoff: int)
    requires 0 <= end
    ensures RunsOn(Fresh(), [], 0, end, cutoff)
  {
    ConcatBeyond(map[], 0, 0, end);
  }

  lemma {:induction false} RunHolds(order: Order, actions: seq<Action>, d: int, window: nat, end: int, cutoff: int)
    requires d > 0 && window > 0 && Orderly(actions, d) && DayAfter(actions, d) <= end
    requires actions != [] ==> actions[|actions| - 1].now - window * d <= cutoff
    ensures RunsOn(Run(order, actions, d, window).disk, Written(order, actions, d, window), DayAfter(actions, d), end, cutoff)
  {
    if actions == [] {
      NothingRunsOn(end, cutoff);
    } else {
      hide Truncate, Orderly, WrittenBy, Skips, Reopened, DayOf, Write, RunsOn, Run, Written, LogOf, Fed, DayAfter;
      var rest, a := actions[..|actions| - 1], actions[|actions| - 1];
      OrderlyPrefix(actions, d);
      var disk, written, hi := Run(order, rest, d, window).disk, Written(order, rest, d, window), DayAfter(rest, d);
      if a.Call? {
        LastCall(order, actions, d, window);
        DayAfterWithin(rest, d, a.t);
        RunHolds(order, rest, d, window, end, cutoff);
        CallRunsOn(order, disk, written, a, hi, d, window * d, end, cutoff);
      } else {
        LastReopen(order, actions, d, window);
        RunHolds(order, rest, d, window, end, cutoff);
        ReopenRunsOn(disk, written, hi, a.now, window * d, end, cutoff);
      }
    }
  }

  lemma {:induction false} NewerMerges(written: seq<Record>, d: int, cutoff: int, b: int)
    requires d > 0 && cutoff < b
    requires forall k :: 0 <= k < |written| ==> Truncate(written[k].t, d) == written[k].t
    ensures Merged(Newer(written, cutoff), d, b) == Merged(written, d, b)
  {
    if written != [] {
      hide Truncate, Merge, Merged, Newer;
      var rest, r := written[..|written| - 1], written[|written| - 1];
      assert forall k :: 0 <= k < |rest| ==> rest[k] == written[k];
      assert Truncate(r.t, d) == r.t;
      NewerMerges(rest, d, cutoff, b);
      assert written == rest + [r];
      NewerLast(rest, r, cutoff);
      MergedLast(rest, r, d, b);
      MergedLast(Newer(rest, cutoff), r, d, b);
      assert Newer(rest, cutoff) + [] == Newer(rest, cutoff);
    } else {
      NewerOfNothing(cutoff);
    }
  }

  lemma WellWrittenInit(written: seq<Record>, d: int, last: int)
    requires d > 0 && written != [] && WellWritten(written, d, last)
    ensures var r := written[|written| - 1];
            WellWritten(written[..|written| - 1], d, r.t) && 0 <= r.t <= last && Truncate(r.t, d) == r.t
  {
    hide Truncate;
  }

  lemma WellWrittenSnoc(written: seq<Record>, r: Record, d: int, last: int)
    requires d > 0 && WellWritten(written, d, r.t) && 0 <= r.t <= last && Truncate(r.t, d) == r.t
    ensures WellWritten(written, d, last) && WellWritten(written + [r], d, last)
  {
    hide Truncate;
  }

  lemma {:induction false} NewerForward(written: seq<Record>, d: int, cutoff: int, last: int)
    requires d > 0 && WellWritten(written, d, last)
    ensures WellWritten(Newer(written, cutoff), d, last)
    ensures forall k :: 0 <= k < |Newer(written, cutoff)| ==> cutoff < Newer(written, cutoff)[k].t
  {
    if written != [] {
      hide Truncate, Newer, WellWritten;
      var rest, r := written[..|written| - 1], written[|written| - 1];
      assert written == rest + [r];
      WellWrittenInit(written, d, last);
      NewerForward(rest, d, cutoff, r.t);
      NewerLast(rest, r, cutoff);
      WellWrittenSnoc(Newer(rest, cutoff), r, d, last);
    } else {
      NewerOfNothing(cutoff);
    }
  }

  // The cutoff on open admits exactly the last `window` buckets up to now.
  lemma CutoffIsWindow(now: int, d: int, window: nat, b: int)
    requires d > 0 && window > 0 && Aligned(b, d)
    ensures now - window * d < b <= now <==>
            exists k :: 0 <= k < window && b == Truncate(now, d) - k * d
  {
    TruncateFacts(now, d);
    var t := Truncate(now, d);
    var k := AlignedDistance(b, t, d);
    if now - window * d < b <= now {
      if k < 0 { MulLeq(d, k, -1); }
      if k >= window { MulLeq(d, window, k); }
      assert 0 <= k < window && b == t - k * d;
    }
    if exists i :: 0 <= i < window && b == t - i * d {
      var i :| 0 <= i < window && b == t - i * d;
      MulLeq(d, 0, i);
      MulLeq(d, i, window - 1);
    }
  }

  // What a store opened after a run replays is what the run wrote after the cutoff.
  lemma ReplayedIsNewer(order: Order, actions: seq<Action>, d: int, window: nat, now: int, end: int)
    requires d > 0 && window > 0 && Orderly(actions, d) && DayAfter(actions, d) <= end
    requires actions != [] ==> actions[|actions| - 1].now <= now
    ensures Replayed(Run(order, actions, d, window).disk.files, end, now - window * d) == Newer(Written(order, actions, d, window), now - window * d)
  {
    hide Newer, Concat, Run, Written, Filed, DaysWithin;
    RunHolds(order, actions, d, window, end, now - window * d);
    ReopenRunsOn(Run(order, actions, d, window).disk, Written(order, actions, d, window), DayAfter(actions, d), now, window * d, end, now - window * d);
  }

  // In order up to time t, and merging to the log in bucket b.
  ghost predicate Follows(fed: seq<Record>, log: seq<Record>, d: int, t: int, b: int)
    requires d > 0
  {
    && Forward(fed, d) && (forall k :: 0 <= k < |fed| ==> fed[k].t <= t)
    && Merged(fed, d, b) == Merged(log, d, b)
  }

  lemma CallFollows(fed: seq<Record>, log: seq<Record>, r: Record, d: int, t: int, b: int)
    requires d > 0 && Follows(fed, log, d, r.t, b) && 0 <= Truncate(r.t, d) && r.t <= t
    ensures Follows(fed + [r], log + [r], d, t, b)
  {
    hide Truncate, Merged, Merge;
    ForwardSnoc(fed, r, d);
    MergedLast(fed, r, d, b);
    MergedLast(log, r, d, b);
  }

  lemma ReplayFollows(order: Order, actions: seq<Action>, d: int, window: nat, cutoff: int, t: int, b: int)
    requires d > 0 && window > 0 && Orderly(actions, d) && WrittenBy(actions, t) && cutoff < b
    requires SortsAll(order) && LongWritesAgree(order, WritesOf(actions, d))
    ensures Follows(Newer(Written(order, actions, d, window), cutoff), LogOf(actions), d, t, b)
  {
    hide LongWritesAgree, WritesOf, SortsAll, Truncate, Orderly, WrittenBy, Merged, Newer, Written, Run, LogOf, WellWritten, Forward;
    var written := Written(order, actions, d, window);
    WrittenInOrder(order, actions, d, window, t);
    TruncateFacts(t, d);
    NewerForward(written, d, cutoff, Truncate(t, d));
    WellWrittenForward(Newer(written, cutoff), d, Truncate(t, d));
    WellWrittenForward(written, d, Truncate(t, d));
    NewerMerges(written, d, cutoff, b);
    WrittenMerges(order, actions, d, window, b);
  }

  // What the running store was fed is in order, and merges to the whole log in
  // every bucket its window still admits.
  lemma {:induction false} FedMerges(order: Order, actions: seq<Action>, d: int, window: nat, t: int, b: int)
    requires d > 0 && window > 0 && Orderly(actions, d) && WrittenBy(actions, t)
    requires SortsAll(order) && LongWritesAgree(order, WritesOf(actions, d))
    requires actions != [] ==> actions[|actions| - 1].now - window * d < b
    ensures Follows(Fed(order, actions, d, window), LogOf(actions), d, t, b)
  {
    hide WritesOf, Agree, SortsAll, Truncate, Orderly, WrittenBy, Follows, Newer, Replayed, Written, Run, DayAfter, LogOf, Fed;
    if actions == [] {
      NothingFollows(order, actions, d, window, t, b);
    } else {
      var rest, a := actions[..|actions| - 1], actions[|actions| - 1];
      OrderlyPrefix(actions, d);
      if a.Call? {
        LastCall(order, actions, d, window);
        FedMerges(order, rest, d, window, a.t, b);
        CallFollows(Fed(order, rest, d, window), LogOf(rest), Record(a.t, a.states), d, t, b);
      } else {
        LastReopen(order, actions, d, window);
        ReplayedIsNewer(order, rest, d, window, a.now, DayAfter(rest, d));
        ReplayFollows(order, rest, d, window, a.now - window * d, t, b);
      }
    }
  }

  lemma NothingFollows(order: Order, actions: seq<Action>, d: int, window: nat, t: int, b: int)
    requires d > 0 && window > 0 && actions == []
    ensures Follows(Fed(order, actions, d, window), LogOf(actions), d, t, b)
  {}

  lemma ForwardSnoc(log: seq<Record>, r: Record, d: int)
    requires d > 0 && Forward(log, d) && 0 <= Truncate(r.t, d) && forall k :: 0 <= k < |log| ==> log[k].t <= r.t
    ensures Forward(log + [r], d)
  {
    hide Truncate;
  }

  lemma WellWrittenForward(written: seq<Record>, d: int, last: int)
    requires d > 0 && WellWritten(written, d, last)
    ensures Forward(written, d) && forall k :: 0 <= k < |written| ==> Truncate(written[k].t, d) == written[k].t <= last
  {
    hide Truncate;
  }

  // Over every run of writes and restarts, the running store answers like the
  // unbounded log of everything recorded since the directory was empty, on every
  // bucket among the last `window`.
  lemma LiveAnswersLikeLog(order: Order, actions: seq<Action>, d: int, window: nat, now: int, b: int)
    requires d > 0 && window > 0 && Orderly(actions, d) && Aligned(b, d) && b != ZERO_TIME
    requires SortsAll(order) && LongWritesAgree(order, WritesOf(actions, d))
    requires actions != [] ==> actions[|actions| - 1].now <= now
    requires now - window * d < b
    ensures Held(Run(order, actions, d, window).slots, d, b) == Merged(LogOf(actions), d, b)
  {
    hide LongWritesAgree, WritesOf, SortsAll, Truncate, Held, Merged, Ring, Run, Fed;
    var fed := Fed(order, actions, d, window);
    SlotsAreFed(order, actions, d, window);
    assert WrittenBy(actions, now);
    FedMerges(order, actions, d, window, now, b);
    RingAgreesWithLog(fed, d, window, b);
    if fed != [] { TruncateFacts(fed[|fed| - 1].t, d); }
  }

  // And so does the store that is opened next, on what such a run left on the disk.
  lemma ReopenedAnswersLikeLive(order: Order, actions: seq<Action>, d: int, window: nat, now: int, end: int, b: int)
    requires d > 0 && window > 0 && Orderly(actions, d) && Aligned(b, d) && b != ZERO_TIME
    requires SortsAll(order) && LongWritesAgree(order, WritesOf(actions, d))
    requires DayAfter(actions, d) <= end
    requires actions != [] ==> actions[|actions| - 1].now <= now
    requires now - window * d < b
    ensures var w := Run(order, actions, d, window);
            var reopened := Ring(Replayed(w.disk.files, end, now - window * d), d, window);
            && Held(reopened, d, b) == Held(w.slots, d, b) == Merged(LogOf(actions), d, b)
            && reopened == Run(order, actions + [Reopen(now)], d, window).slots
  {
    hide LongWritesAgree, WritesOf, SortsAll, Truncate, Held, Merged, Ring, Replayed, Fed, Orderly, DayAfter, Written, Run, LogOf;
    var next := actions + [Reopen(now)];
    assert next[..|actions|] == actions && next[|actions|] == Reopen(now);
    OrderlyReopen(actions, now, d);
    LastReopen(order, next, d, window);
    SlotsAreFed(order, next, d, window);
    ReplayedIsNewer(order, actions, d, window, now, end);
    ReplayedIsNewer(order, actions, d, window, now, DayAfter(actions, d));
    LiveAnswersLikeLog(order, actions, d, window, now, b);
    LiveAnswersLikeLog(order, next, d, window, now, b);
  }

  // Nothing is asked of writes that are short, name each identity once, or list
  // their identities in the same order as the others to their bucket.
  lemma OrdinaryWritesAgree(order: Order, writes: set<(int, seq<string>)>)
    requires SortsAll(order)
    requires forall u, v :: u in writes && v in writes && u.0 == v.0 && |u.1| > INSERTION ==> u.1 == v.1 || NamesOnce(u.1)
    ensures LongWritesAgree(order, writes)
  {
    hide Agree, SortsAll, NamesOnce;
    forall u, v | u in writes && v in writes && u.0 == v.0 && |u.1| > INSERTION ensures Agree(order, u.1, v.1) {
      if u.1 == v.1 { SameAgree(order, u.1); } else { OnceAgree(order, u.1, v.1); }
    }
  }

  // And what is asked of the others is needed: where two lists of identities do
  // not agree, a store that is given two such writes answers right, and the one
  // opened after it does not.
  lemma DisagreeingStoreIsWrong(order: Order, x: seq<string>, y: seq<string>, d: int, window: nat, t: int)
    returns (a: seq<State>, b: seq<State>)
    requires SortsAll(order) && !Agree(order, x, y) && d > 0 && window > 0 && 0 <= Truncate(t, d)
    ensures Names(a) == x && Names(b) == y
    ensures var actions, bucket := [Call(t, a, t), Call(t, b, t)], Truncate(t, d);
            var w := Run(order, actions, d, window);
            var reopened := Ring(Replayed(w.disk.files, DayAfter(actions, d), t - window * d), d, window);
            && Orderly(actions, d) && Held(w.slots, d, bucket) == Merged(LogOf(actions), d, bucket)
            && Held(reopened, d, bucket) != Merged(LogOf(actions), d, bucket)
  {
    hide SortsAll, Agree, Names, Digest, Merge, Truncate, Held, Ring, Newer, Replayed, Write, Fed, Run, Written, LogOf, Orderly, DayAfter;
    a, b := DisagreeMisleads(order, x, y);
    var actions, bucket := [Call(t, a, t), Call(t, b, t)], Truncate(t, d);
    TwoWrites(order, a, b, d, window, t);
    TwoRecords(a, b, d, window, t);
    TruncateFacts(t, d);
    MulLeq(d, 1, window);
    ReplayedIsNewer(order, actions, d, window, t, DayAfter(actions, d));
    RingAgreesWithLog([Record(bucket, a)], d, window, bucket);
    RingAgreesWithLog([Record(t, a), Record(t, b)], d, window, bucket);
    SlotsAreFed(order, actions, d, window);
    LeftByTwo(order, a, b);
  }

  lemma LeftByTwo(order: Order, a: seq<State>, b: seq<State>)
    requires SortsAll(order) && Digest(order, a) == Digest(order, b)
    ensures Merge(Merge(map[], a), b) == Merge(map[], b)
  {
    hide SortsAll, Digest, Merge;
    MergeOver(Merge(map[], a), b);
    SameNamesLeft(order, a, b);
  }

  lemma TwoWrites(order: Order, a: seq<State>, b: seq<State>, d: int, window: nat, t: int)
    requires d > 0 && window > 0 && 0 <= Truncate(t, d) && Digest(order, a) == Digest(order, b) && a != []
    ensures var actions := [Call(t, a, t), Call(t, b, t)];
            && Orderly(actions, d) && LogOf(actions) == Fed(order, actions, d, window) == [Record(t, a), Record(t, b)]
            && Written(order, actions, d, window) == [Record(Truncate(t, d), a)]
  {
    hide Digest, Merge, Truncate, Append, Run, Sweep, Merged;
    var none: seq<Action>, one, two := [], [Call(t, a, t)], [Call(t, a, t), Call(t, b, t)];
    assert one[..0] == none && two[..1] == one;
    LastCall(order, one, d, window);
    LastCall(order, two, d, window);
    FreshWrites(order, a, d, window, t);
  }

  lemma TwoRecords(a: seq<State>, b: seq<State>, d: int, window: nat, t: int)
    requires d > 0 && window > 0 && 0 <= Truncate(t, d)
    ensures var bucket, one, two := Truncate(t, d), [Record(Truncate(t, d), a)], [Record(t, a), Record(t, b)];
            && Merged(two, d, bucket) == Merge(Merge(map[], a), b) && Merged(one, d, bucket) == Merge(map[], a)
            && Newer(one, t - window * d) == one && Forward(one, d) && Forward(two, d)
  {
    hide Merge, Truncate;
    TruncateFacts(t, d);
    MulLeq(d, 1, window);
    var r := Record(Truncate(t, d), a);
    MergedLast([], r, d, Truncate(t, d));
    MergedLast([], Record(t, a), d, Truncate(t, d));
    MergedLast([Record(t, a)], Record(t, b), d, Truncate(t, d));
    NewerLast([], r, t - window * d);
    assert [] + [r] == [r] && [] + [Record(t, a)] == [Record(t, a)];
    assert [Record(t, a)] + [Record(t, b)] == [Record(t, a), Record(t, b)];
  }

  lemma FreshWrites(order: Order, a: seq<State>, d: int, window: nat, t: int)
    requires d > 0 && window > 0 && 0 <= Truncate(t, d) && a != []
    ensures Run(order, [], d, window).disk == Fresh() && !Skips(order, Fresh(), t, a, d)
    ensures var disk := Write(order, Fresh(), t, a, t, d, window * d);
            disk.lastBucket == Truncate(t, d) && disk.lastDigest == Digest(order, a)
  {
    hide Truncate, Digest, Sweep;
  }

  lemma OrderlyReopen(actions: seq<Action>, now: int, d: int)
    requires d > 0 && Orderly(actions, d) && (actions != [] ==> actions[|actions| - 1].now <= now)
    ensures Orderly(actions + [Reopen(now)], d) && WritesOf(actions + [Reopen(now)], d) == WritesOf(actions, d)
  {
    hide Truncate;
    var next := actions + [Reopen(now)];
    assert forall k :: 0 <= k < |actions| ==> next[k] == actions[k];
    assert WritesOf(next, d) == WritesOf(actions, d);
  }

  lemma NewerOfNothing(cutoff: int)
    ensures Newer([], cutoff) == []
  {}

  // ------------------------------------------------------------------ the object

  method LeastDay(days: set<int>) returns (day: int)
    requires days != {}
    ensures day in days && forall x :: x in days ==> day <= x
  {
    ghost var some := SomeElement(days);
    day :| day in days;
    var rest := days - {day};
    while rest != {}
      invariant rest <= days && day in days
      invariant forall x :: x in days && x !in rest ==> day <= x
      decreases rest
    {
      ghost var other := SomeElement(rest);
      var x :| x in rest;
      rest := rest - {x};
      if x < day {
        day := x;
      }
    }
  }

  class FileChartStore {
    const memory: MemoryChartStore
    const bucketSize: int
    const window: nat
    const order: Order
    var files: Files
    var openDay: Option<int>
    var lastBucket: int
    var lastDigest: seq<State>

    ghost predicate Valid()
      reads this, memory, memory.buckets
    {
      && bucketSize > 0 && window > 0
      && memory.Valid() && memory.bucketSize == bucketSize && memory.buckets.Length == window
    }

    ghost function Model(): Disk
      reads this
    {
      Disk(files, openDay, lastBucket, lastDigest)
    }

    // Opens the store on the segments found on disk; end bounds their days.
    constructor (files: Files, bucketSize: int, window: int, order: Order, now: int, ghost end: int)
      requires DaysWithin(files, 0, end) && 0 <= end
      ensures Valid() && fresh(memory) && fresh(memory.buckets)
      ensures this.bucketSize == (if bucketSize <= 0 then 60_000_000_000 else bucketSize)
      ensures this.window == (if window <= 0 then 24 * 60 else window) && this.order == order
      ensures memory.buckets[..] == Ring(Replayed(files, end, now - this.window * this.bucketSize), this.bucketSize, this.window)
      ensures Model() == Reopened(files, now, this.window * this.bucketSize)
    {
      hide Newer, Concat, Ring, Sweep, MemoryChartStore.Valid, DaysWithin;
      var d := if bucketSize <= 0 then 60_000_000_000 else bucketSize;
      var w := if window <= 0 then 24 * 60 else window;
      this.memory := new MemoryChartStore(d, w);
      this.bucketSize, this.window, this.order := d, w, order;
      this.files, this.openDay := Sweep(files, now - w * d), None;
      this.lastBucket, this.lastDigest := ZERO_TIME, [];
      new;
      SweptWithin(files, now - w * d, end);
      Replay(now - w * d, end);
    }

    method Replay(cutoff: int, ghost end: int)
      requires Valid() && DaysWithin(files, 0, end) && 0 <= end
      requires memory.buckets[..] == EmptyRing(window)
      modifies memory.buckets
      ensures Valid()
      ensures memory.buckets[..] == Ring(Newer(Concat(files, 0, end), cutoff), bucketSize, window)
    {
      hide RecordIn, Truncate, Newer;
      var days := files.Keys;
      ghost var read := 0;
      NewerOfNothing(cutoff);
      while days != {}
        invariant Valid() && days <= files.Keys && 0 <= read <= end
        invariant forall day :: day in files ==> (day in days <==> read <= day)
        invariant memory.buckets[..] == Ring(Newer(Concat(files, 0, read), cutoff), bucketSize, window)
        decreases days
      {
        var day := LeastDay(days);
        days := days - {day};
        ConcatGap(files, read, day);
        NewerConcat(Concat(files, 0, day), files[day], cutoff);
        ReplaySegment(files[day], cutoff, Newer(Concat(files, 0, day), cutoff));
        read := day + 1;
      }
      ConcatGap(files, read, end);
    }

    method ReplaySegment(segment: seq<Record>, cutoff: int, ghost before: seq<Record>)
      requires Valid() && memory.buckets[..] == Ring(before, bucketSize, window)
      modifies memory.buckets
      ensures Valid()
      ensures memory.buckets[..] == Ring(before + Newer(segment, cutoff), bucketSize, window)
    {
      hide RecordIn, Truncate;
      assert before + Newer(segment[..0], cutoff) == before;
      for i := 0 to |segment|
        invariant Valid()
        invariant memory.buckets[..] == Ring(before + Newer(segment[..i], cutoff), bucketSize, window)
      {
        var record := segment[i];
        assert segment[..i + 1][..i] == segment[..i];
        if record.t > cutoff {
          RingNext(before + Newer(segment[..i], cutoff), record, bucketSize, window);
          assert before + Newer(segment[..i + 1], cutoff) == before + Newer(segment[..i], cutoff) + [record];
          memory.Record(record.t, record.states);
        } else {
          assert Newer(segment[..i + 1], cutoff) == Newer(segment[..i], cutoff);
        }
      }
      assert segment[..|segment|] == segment;
    }

    method Record(bucket: int, triggering: seq<State>, now: int)
      requires Valid()
      modifies this`files, this`openDay, this`lastBucket, this`lastDigest, memory.buckets
      ensures Valid()
      ensures memory.buckets[..] == RecordIn(old(memory.buckets[..]), bucketSize, ChartRing.Record(bucket, triggering))
      ensures Model() == Write(order, old(Model()), bucket, triggering, now, bucketSize, window * bucketSize)
    {
      hide RecordIn, Truncate;
      memory.Record(bucket, triggering);
      if |triggering| == 0 {
        return;
      }
      var t := Truncate(bucket, bucketSize);
      var digest := Digest(order, triggering);
      if t == lastBucket && digest == lastDigest {
        return;
      }
      AppendRecord(ChartRing.Record(t, triggering), now);
      lastBucket := t;
      lastDigest := digest;
    }

    method AppendRecord(record: Record, now: int)
      requires window > 0 && bucketSize > 0
      modifies this`files, this`openDay
      ensures Model() == Append(old(Model()), record, now, window * bucketSize)
    {
      var day := DayOf(record.t);
      if openDay != Some(day) {
        files := Sweep(files, now - window * bucketSize);
        openDay := Some(day);
      }
      files := files[day := SegmentAt(files, day) + [record]];
    }
  }

  lemma SweptWithin(files: Files, cutoff: int, end: int)
    requires DaysWithin(files, 0, end)
    ensures DaysWithin(Sweep(files, cutoff), 0, end)
  {}

  lemma RingNext(log: seq<Record>, r: Record, d: int, window: nat)
    requires d > 0 && window > 0
    ensures Ring(log + [r], d, window) == RecordIn(Ring(log, d, window), d, r)
  {
    assert (log + [r])[..|log|] == log;
  }

  lemma {:induction false} ConcatGap(files: Files, lo: int, hi: int)
    requires 0 <= lo <= hi && forall day :: lo <= day < hi ==> day !in files
    ensures Concat(files, 0, hi) == Concat(files, 0, lo)
    decreases hi - lo
  {
    if lo < hi { ConcatGap(files, lo, hi - 1); }
  }
}
