// From a component's state tracker (state_tracker.go) through the displayed
// history to the store's ring: what reaches the ring of the transitions the
// tracker recorded.

module Tracker {
  import opened Basics
  import opened Snapshots
  import opened TransitionRing

  const MAX_HISTORY := 10

  datatype TrackerState = TrackerState(
    informational: bool,
    status: Status,
    reason: string,
    updatedAt: int,
    changedAt: int,
    history: seq<HistoryEntry>)

  // Informational states never report worse than warn.
  function Capped(t: TrackerState, status: Status): Status {
    if t.informational && Rank(status) > Rank(Warn) then Warn else status
  }

  // Whether setting this status records a transition.
  predicate Records(t: TrackerState, status: Status) {
    !(Capped(t, status) == t.status && |t.history| > 0)
  }

  function SetTo(t: TrackerState, status: Status, reason: string, now: int): TrackerState {
    var s := Capped(t, status);
    if !Records(t, status) then t.(updatedAt := now, reason := reason)
    else t.(status := s, reason := reason, updatedAt := now, changedAt := now,
            history := LastOf(t.history + [HistoryEntry(now, s, reason)], MAX_HISTORY))
  }

  function Reversed<T>(xs: seq<T>): seq<T> { seq(|xs|, i requires 0 <= i < |xs| => xs[|xs| - 1 - i]) }

  function SnapshotOf(t: TrackerState, name: string): Snapshot {
    Snapshot(name, "", "", t.status, t.reason, t.changedAt, Reversed(t.history), [])
  }

  class StateTracker {
    const name: string
    const informational: bool
    var status: Status
    var reason: string
    var updatedAt: int
    var changedAt: int
    var history: seq<HistoryEntry>

    ghost function Model(): TrackerState
      reads this
    {
      TrackerState(informational, status, reason, updatedAt, changedAt, history)
    }

    constructor (name: string, informational: bool, now: int)
      ensures this.name == name && Model() == TrackerState(informational, Pass, "", now, now, [])
    {
      this.name, this.informational := name, informational;
      this.status, this.reason, this.updatedAt, this.changedAt, this.history := Pass, "", now, now, [];
    }

    method Set(status0: Status, reason: string, now: int)
      modifies this
      ensures Model() == SetTo(old(Model()), status0, reason, now)
    {
      var status := status0;
      if informational && Rank(status) > Rank(Warn) {
        status := Warn;
      }
      updatedAt := now;
      if status == this.status && |history| > 0 {
        this.reason := reason;
        return;
      }
      changedAt := now;
      history := history + [HistoryEntry(now, status, reason)];
      if |history| > MAX_HISTORY {
        history := history[|history| - MAX_HISTORY..];
      }
      this.status := status;
      this.reason := reason;
    }

    method TakeSnapshot() returns (snap: Snapshot)
      ensures snap == SnapshotOf(Model(), name)
    {
      if |history| == 0 {
        return Snapshot(name, "", "", status, reason, changedAt, [], []);
      }
      var reversed := new HistoryEntry[|history|](_ => HistoryEntry(0, Pass, ""));
      for i := 0 to |history|
        invariant forall k :: 0 <= k < i ==> reversed[|history| - 1 - k] == history[k]
      {
        reversed[|history| - 1 - i] := history[i];
      }
      assert reversed[..] == Reversed(history) by {
        forall k | 0 <= k < |history| ensures reversed[k] == history[|history| - 1 - k] {
          assert reversed[|history| - 1 - (|history| - 1 - k)] == history[|history| - 1 - k];
        }
      }
      snap := Snapshot(name, "", "", status, reason, changedAt, reversed[..], []);
    }
  }

  // ------------------------------------------------ from snapshot to transitions

  function AppendNew(xs: seq<Transition>, t: Transition): seq<Transition> {
    if Has(xs, KeyOf(t)) then xs else xs + [t]
  }

  function OfHistory(e: HistoryEntry): Transition { Transition(e.timestamp, StatusName(e.status), e.reason) }

  // The backward walk of snapshotTransitions over a newest-first history.
  function HistoryTransitions(history: seq<HistoryEntry>): seq<Transition> {
    if history == [] then [] else
      var older := HistoryTransitions(history[1..]);
      if history[0].timestamp == ZERO_TIME then older else AppendNew(older, OfHistory(history[0]))
  }

  function SnapshotTransitions(snap: Snapshot, changedAt: int): seq<Transition> {
    AppendNew(HistoryTransitions(snap.history), Transition(changedAt, StatusName(snap.status), snap.reason))
  }

  method CollectTransitions(snap: Snapshot, changedAt: int) returns (out: seq<Transition>)
    ensures out == SnapshotTransitions(snap, changedAt)
  {
    out := [];
    var i := |snap.history|;
    while i > 0
      invariant 0 <= i <= |snap.history|
      invariant out == HistoryTransitions(snap.history[i..])
    {
      i := i - 1;
      var entry := snap.history[i];
      assert snap.history[i..][1..] == snap.history[i + 1..];
      if entry.timestamp == ZERO_TIME {
        continue;
      }
      out := AppendTransition(out, OfHistory(entry));
    }
    assert snap.history[0..] == snap.history;
    out := AppendTransition(out, Transition(changedAt, StatusName(snap.status), snap.reason));
  }

  method AppendTransition(xs: seq<Transition>, t: Transition) returns (ys: seq<Transition>)
    ensures ys == AppendNew(xs, t)
  {
    for i := 0 to |xs|
      invariant forall k :: 0 <= k < i ==> KeyOf(xs[k]) != KeyOf(t)
    {
      if xs[i].changedAt == t.changedAt && xs[i].status == t.status {
        return xs;
      }
    }
    return xs + [t];
  }

  // ------------------------------------------------------------------- runs

  datatype Event = Change(status: Status, reason: string, now: int) | Ingest(format: string)

  // What a component shows for the status it was set to: an optional one never
  // reports worse than a warning, any other reports what it was told.
  function Reported(informational: bool, status: Status): (r: Status)
    ensures !informational ==> r == status
    ensures informational ==> (r == Pass <==> status == Pass) && (r == Pass || r == Warn)
  {
    match status
    case Pass => Pass
    case Warn => Warn
    case Fail => if informational then Warn else Fail
    case Down => if informational then Warn else Down
  }

  // The transitions of a component, told by what it was set to alone: a change to
  // what it reports already is none, but for the first.
  function NextRecorded(informational: bool, recorded: seq<Transition>, e: Event): seq<Transition> {
    if e.Ingest? then recorded else
      var name := StatusName(Reported(informational, e.status));
      if recorded != [] && recorded[|recorded| - 1].status == name then recorded
      else recorded + [Transition(e.now, name, e.reason)]
  }

  function Recorded(informational: bool, events: seq<Event>): seq<Transition> {
    if events == [] then [] else NextRecorded(informational, Recorded(informational, events[..|events| - 1]), events[|events| - 1])
  }

  // recorded: the transitions of the component; sent: every transition an ingest
  // passed to the ring; since: how many there were since the last ingest that
  // worked.
  datatype World = World(informational: bool, tracker: TrackerState, recorded: seq<Transition>, sent: seq<Transition>, since: nat)

  function Begin(informational: bool, now: int): World {
    World(informational, TrackerState(informational, Pass, "", now, now, []), [], [], 0)
  }

  // What one ingest of the displayed state gives the ring.
  function Sent(t: TrackerState, format: string): Result<seq<Transition>> {
    match Displayed([SnapshotOf(t, "")], format)
    case Err(e) => Err(e)
    case Ok(snaps) => if |snaps| == 1 then Ok(SnapshotTransitions(snaps[0], snaps[0].changedAt)) else Err("no state")
  }

  function Step(w: World, e: Event): World {
    match e
    case Change(status, reason, now) =>
      var recorded := NextRecorded(w.informational, w.recorded, e);
      w.(tracker := SetTo(w.tracker, status, reason, now), recorded := recorded,
         since := if recorded == w.recorded then w.since else w.since + 1)
    case Ingest(format) =>
      match Sent(w.tracker, format)
      case Err(_) => w
      case Ok(transitions) => w.(sent := w.sent + transitions, since := 0)
  }

  function Run(w: World, events: seq<Event>): World {
    if events == [] then w else Step(Run(w, events[..|events| - 1]), events[|events| - 1])
  }

  function RingOf(w: World, cap: nat): seq<Transition> { AddAll([], w.sent, cap) }

  // How many recorded transitions one display can carry.
  function Capacity(format: string): nat {
    if format == "" then DEFAULT_HISTORY_LIMIT else if format == "verbose" then MAX_HISTORY else 1
  }

  predicate Supported(format: string) { format == "" || format == "verbose" || format == "short" }

  // How many transitions there were since the last ingest in a format there is.
  function Since(informational: bool, events: seq<Event>): nat {
    if events == [] then 0 else
      var rest, e := events[..|events| - 1], events[|events| - 1];
      if e.Ingest? then (if Supported(e.format) then 0 else Since(informational, rest))
      else if Recorded(informational, events) == Recorded(informational, rest) then Since(informational, rest)
      else Since(informational, rest) + 1
  }

  // No ingest of the run came after more transitions than its format carries.
  predicate Frequent(informational: bool, events: seq<Event>) {
    events == [] ||
    (Frequent(informational, events[..|events| - 1]) &&
     var e := events[|events| - 1];
     (e.Ingest? && Supported(e.format) ==> Since(informational, events[..|events| - 1]) <= Capacity(e.format)))
  }

  // The clock of the run starts after `now` and strictly increases.
  ghost predicate Ticking(events: seq<Event>, now: int) {
    && now > ZERO_TIME
    && (forall k :: 0 <= k < |events| && events[k].Change? ==> now < events[k].now)
    && (forall j, k :: 0 <= j < k < |events| && events[j].Change? && events[k].Change? ==> events[j].now < events[k].now)
  }

  // ------------------------------------------------------------- the invariant

  ghost predicate TrackerOk(t: TrackerState, recorded: seq<Transition>, start: int) {
    && start > ZERO_TIME
    && Window(t.history, recorded)
    && (forall i :: 0 <= i < |recorded| ==> start < recorded[i].changedAt)
    && (forall i, j :: 0 <= i < j < |recorded| ==> recorded[i].changedAt < recorded[j].changedAt)
    && (if recorded == [] then t.changedAt == start && t.status == Pass
        else t.changedAt == recorded[|recorded| - 1].changedAt
             && StatusName(t.status) == recorded[|recorded| - 1].status)
  }

  ghost predicate Known(xs: seq<Transition>, recorded: seq<Transition>, start: int) {
    KeySet(xs) <= KeySet(recorded) + {Key(start, "pass")}
  }

  // A newest-first, limited history walked backward gives back the last recorded.
  lemma {:induction false} WalkBack(history: seq<HistoryEntry>, expected: seq<Transition>)
    requires |history| == |expected|
    requires forall i :: 0 <= i < |history| ==> OfHistory(history[i]) == expected[|expected| - 1 - i]
    requires forall i :: 0 <= i < |expected| ==> expected[i].changedAt > ZERO_TIME
    requires forall i, j :: 0 <= i < j < |expected| ==> expected[i].changedAt < expected[j].changedAt
    ensures HistoryTransitions(history) == expected
  {
    if history != [] {
      WalkBack(history[1..], expected[..|expected| - 1]);
      assert expected == expected[..|expected| - 1] + [OfHistory(history[0])];
    }
  }

  // The history as displayed in a format.
  function Shown(t: TrackerState, format: string): seq<HistoryEntry> {
    var history := Reversed(t.history);
    var limit := if format == "" then DEFAULT_HISTORY_LIMIT else if format == "verbose" then |history| else 0;
    if |history| > limit then history[..limit] else history
  }

  lemma SentFromShown(t: TrackerState, format: string)
    requires Supported(format)
    ensures Sent(t, format) == Ok(AppendNew(HistoryTransitions(Shown(t, format)), Transition(t.changedAt, StatusName(t.status), t.reason)))
  {
    hide HistoryTransitions, AppendNew;
    var snap := SnapshotOf(t, "");
    LimitedAllAt([snap], DEFAULT_HISTORY_LIMIT, 0);
    LimitedAllAt([snap], 0, 0);
    var history := Reversed(t.history);
    assert |history| <= 0 ==> history == [];
    assert history[..0] == [];
  }

  lemma ShownIsLast(t: TrackerState, recorded: seq<Transition>, start: int, format: string)
    requires TrackerOk(t, recorded, start) && Supported(format)
    ensures |Shown(t, format)| <= |recorded|
    ensures HistoryTransitions(Shown(t, format)) == LastOf(recorded, |Shown(t, format)|)
    ensures |Shown(t, format)| == Min(|recorded|, if format == "short" then 0 else Capacity(format))
  {
    var shown := Shown(t, format);
    WalkBack(shown, LastOf(recorded, |shown|));
  }

  // What an ingest sends: the last transitions its format carries, or the
  // state's beginning when nothing was recorded yet.
  lemma SentIs(t: TrackerState, recorded: seq<Transition>, start: int, format: string)
    requires TrackerOk(t, recorded, start) && Supported(format)
    ensures Sent(t, format).Ok?
    ensures recorded == [] ==> Keys(Sent(t, format).value) == [Key(start, "pass")]
    ensures recorded != [] ==> Keys(Sent(t, format).value) == Keys(LastOf(recorded, Capacity(format)))
  {
    hide HistoryTransitions, Sent, Shown;
    SentFromShown(t, format);
    ShownIsLast(t, recorded, start, format);
    var boundary := Transition(t.changedAt, StatusName(t.status), t.reason);
    var expected := LastOf(recorded, |Shown(t, format)|);
    if expected != [] {
      assert KeyOf(expected[|expected| - 1]) == KeyOf(boundary);
    } else {
      assert AppendNew(expected, boundary) == [boundary];
    }
  }

  // The window of the newest entries slides with the log it shows.
  ghost predicate Window(history: seq<HistoryEntry>, recorded: seq<Transition>) {
    && |history| == Min(|recorded|, MAX_HISTORY)
    && (forall i :: 0 <= i < |history| ==> OfHistory(history[i]) == recorded[|recorded| - |history| + i])
  }

  lemma WindowSlides(history: seq<HistoryEntry>, recorded: seq<Transition>, entry: HistoryEntry)
    requires Window(history, recorded)
    ensures Window(LastOf(history + [entry], MAX_HISTORY), recorded + [OfHistory(entry)])
  {
    var slid, later := LastOf(history + [entry], MAX_HISTORY), recorded + [OfHistory(entry)];
    var skip := |history| + 1 - |slid|;
    forall i | 0 <= i < |slid| ensures OfHistory(slid[i]) == later[|later| - |slid| + i] {
      assert slid[i] == (history + [entry])[skip + i];
    }
  }

  lemma SetOk(t: TrackerState, recorded: seq<Transition>, start: int, status: Status, reason: string, now: int)
    requires TrackerOk(t, recorded, start) && start < now
    requires recorded != [] ==> recorded[|recorded| - 1].changedAt < now
    ensures var t' := SetTo(t, status, reason, now);
            TrackerOk(t', if Records(t, status) then recorded + [Transition(now, StatusName(t'.status), reason)] else recorded, start)
  {
    hide LastOf, Window;
    WindowSlides(t.history, recorded, HistoryEntry(now, Capped(t, status), reason));
  }

  // ------------------------------------------------------- what a run delivers

  // The transitions recorded up to the last ingest that worked.
  function Settled(w: World): seq<Transition> {
    if w.since <= |w.recorded| then w.recorded[..|w.recorded| - w.since] else []
  }

  ghost predicate Covered(w: World) {
    forall i :: 0 <= i < |Settled(w)| ==> KeyOf(Settled(w)[i]) in KeySet(w.sent)
  }

  ghost predicate WorldOk(w: World, start: int) {
    && TrackerOk(w.tracker, w.recorded, start) && w.tracker.informational == w.informational
    && w.since <= |w.recorded|
    && Known(w.sent, Settled(w), start)
  }

  lemma KeySetConcat(xs: seq<Transition>, ys: seq<Transition>)
    ensures KeySet(xs + ys) == KeySet(xs) + KeySet(ys)
  {
    assert forall t :: t in xs + ys <==> t in xs || t in ys;
    assert forall k :: k in KeySet(xs + ys) <==> k in KeySet(xs) || k in KeySet(ys);
  }

  lemma SameKeys(xs: seq<Transition>, ys: seq<Transition>)
    requires Keys(xs) == Keys(ys)
    ensures KeySet(xs) == KeySet(ys)
  {
    forall k ensures k in KeySet(xs) <==> k in KeySet(ys) {
      HasIsMember(xs, k);
      HasIsMember(ys, k);
      assert forall i :: 0 <= i < |xs| ==> Keys(xs)[i] == KeyOf(xs[i]) && Keys(ys)[i] == KeyOf(ys[i]);
    }
  }

  lemma LastInRecorded(recorded: seq<Transition>, c: nat)
    ensures KeySet(LastOf(recorded, c)) <= KeySet(recorded)
    ensures forall i :: |recorded| - c <= i < |recorded| && 0 <= i ==> KeyOf(recorded[i]) in KeySet(LastOf(recorded, c))
  {
    var last := LastOf(recorded, c);
    var skip := |recorded| - |last|;
    assert forall i :: skip <= i < |recorded| ==> recorded[i] == last[i - skip];
  }

  // The keys an ingest can send.
  function Fresh(w: World, start: int, c: nat): set<Key> {
    if w.recorded == [] then {Key(start, "pass")} else KeySet(LastOf(w.recorded, c))
  }

  lemma IngestKeys(w: World, start: int, format: string)
    requires TrackerOk(w.tracker, w.recorded, start) && Supported(format)
    ensures var w' := Step(w, Ingest(format));
            && w'.informational == w.informational && w'.tracker == w.tracker && w'.recorded == w.recorded && w'.since == 0
            && KeySet(w'.sent) == KeySet(w.sent) + Fresh(w, start, Capacity(format))
  {
    hide Sent, TrackerOk, KeySet;
    SentIs(w.tracker, w.recorded, start, format);
    var more := Sent(w.tracker, format).value;
    KeySetConcat(w.sent, more);
    if w.recorded == [] {
      SameKeys(more, [Transition(start, "pass", "")]);
      SingleKey(Transition(start, "pass", ""));
    } else {
      SameKeys(more, LastOf(w.recorded, Capacity(format)));
    }
  }

  lemma IngestStep(w: World, start: int, format: string)
    requires WorldOk(w, start) && Supported(format)
    ensures var w' := Step(w, Ingest(format));
            && WorldOk(w', start) && Settled(w') == w'.recorded == w.recorded
            && KeySet(w'.sent) == KeySet(w.sent) + Fresh(w, start, Capacity(format))
            && (Covered(w) && w.since <= Capacity(format) ==> Covered(w'))
  {
    hide Step, TrackerOk, KeySet;
    IngestKeys(w, start, format);
    LastInRecorded(w.recorded, Capacity(format));
    SettledInRecorded(w);
    var w' := Step(w, Ingest(format));
    assert Settled(w') == w.recorded;
    if Covered(w) && w.since <= Capacity(format) {
      forall i | 0 <= i < |w.recorded| ensures KeyOf(w.recorded[i]) in KeySet(w'.sent) {
        if i < |Settled(w)| { assert Settled(w)[i] == w.recorded[i]; }
      }
    }
  }

  lemma SettledInRecorded(w: World)
    ensures KeySet(Settled(w)) <= KeySet(w.recorded)
  {}

  lemma SingleKey(t: Transition)
    ensures KeySet([t]) == {KeyOf(t)}
  {}

  lemma TickingPrefix(events: seq<Event>, now: int)
    requires Ticking(events, now) && events != []
    ensures Ticking(events[..|events| - 1], now)
  {}

  lemma {:induction false} RecordedBefore(informational: bool, start: int, events: seq<Event>, now: int)
    requires Ticking(events, start)
    requires forall k :: 0 <= k < |events| && events[k].Change? ==> events[k].now < now
    ensures forall t :: t in Run(Begin(informational, start), events).recorded ==> t.changedAt < now
  {
    if events != [] {
      TickingPrefix(events, start);
      RecordedBefore(informational, start, events[..|events| - 1], now);
    }
  }

  lemma ChangeStep(w: World, start: int, status: Status, reason: string, now: int)
    requires WorldOk(w, start) && start < now
    requires forall t :: t in w.recorded ==> t.changedAt < now
    ensures var w' := Step(w, Change(status, reason, now));
            WorldOk(w', start) && Settled(w') == Settled(w) && w'.sent == w.sent
  {
    hide TrackerOk, Known, NextRecorded, Reported;
    RecordsNext(w.tracker, w.recorded, start, status, reason, now);
    SetOk(w.tracker, w.recorded, start, status, reason, now);
    assert Settled(Step(w, Change(status, reason, now))) == Settled(w);
  }

  // The tracker records a transition exactly when there is one, and the same.
  lemma RecordsNext(t: TrackerState, recorded: seq<Transition>, start: int, status: Status, reason: string, now: int)
    requires TrackerOk(t, recorded, start)
    ensures NextRecorded(t.informational, recorded, Change(status, reason, now)) ==
      if Records(t, status) then recorded + [Transition(now, StatusName(SetTo(t, status, reason, now).status), reason)] else recorded
    ensures SetTo(t, status, reason, now).informational == t.informational
  {}

  lemma BeginOk(informational: bool, start: int)
    requires start > ZERO_TIME
    ensures WorldOk(Begin(informational, start), start) && Covered(Begin(informational, start))
    ensures Follows(Begin(informational, start), informational, [])
  {
    assert KeySet([]) == {};
  }

  lemma {:induction false} RunOk(informational: bool, start: int, events: seq<Event>)
    requires Ticking(events, start)
    ensures WorldOk(Run(Begin(informational, start), events), start) && Follows(Run(Begin(informational, start), events), informational, events)
    ensures Frequent(informational, events) ==> Covered(Run(Begin(informational, start), events))
  {
    hide WorldOk, Step, Begin, Capacity, Covered, Recorded, NextRecorded, Since, Follows;
    if events == [] {
      BeginOk(informational, start);
    } else {
      var rest, e := events[..|events| - 1], events[|events| - 1];
      TickingPrefix(events, start);
      RunOk(informational, start, rest);
      var w := Run(Begin(informational, start), rest);
      StepFollows(w, informational, rest, e, start);
      SinceIs(w, informational, rest);
      assert events == rest + [e] && forall k :: 0 <= k < |rest| ==> rest[k] == events[k];
      match e
      case Change(status, reason, now) =>
        RecordedBefore(informational, start, rest, now);
        ChangeStep(w, start, status, reason, now);
        SameCover(w, Step(w, e));
      case Ingest(format) =>
        if Supported(format) { IngestStep(w, start, format); } else { NothingIngested(w, format); }
    }
  }

  // What a run keeps account of is told by its events alone.
  ghost predicate Follows(w: World, informational: bool, events: seq<Event>) {
    w.informational == informational && w.recorded == Recorded(informational, events) && w.since == Since(informational, events)
  }

  lemma SinceIs(w: World, informational: bool, events: seq<Event>)
    requires Follows(w, informational, events)
    ensures w.since == Since(informational, events)
  {}

  lemma StepFollows(w: World, informational: bool, events: seq<Event>, e: Event, start: int)
    requires Follows(w, informational, events) && WorldOk(w, start)
    ensures Follows(Step(w, e), informational, events + [e])
  {
    hide NextRecorded, TrackerOk, Known, Sent, SetTo;
    assert (events + [e])[..|events|] == events;
    if e.Ingest? {
      if Supported(e.format) { IngestKeys(w, start, e.format); } else { NotSent(w.tracker, e.format); }
      NoChange(informational, w.recorded, e);
    }
  }

  lemma NoChange(informational: bool, recorded: seq<Transition>, e: Event)
    requires e.Ingest?
    ensures NextRecorded(informational, recorded, e) == recorded
  {}

  lemma SameCover(w: World, w': World)
    requires Settled(w') == Settled(w) && w'.sent == w.sent
    ensures Covered(w') == Covered(w)
  {}

  lemma NothingIngested(w: World, format: string)
    requires !Supported(format)
    ensures Step(w, Ingest(format)) == w
  {
    NotSent(w.tracker, format);
  }

  lemma NotSent(t: TrackerState, format: string)
    requires !Supported(format)
    ensures Sent(t, format).Err?
  {}

  // The reason last given, if any.
  function LastReason(events: seq<Event>): string {
    if events == [] then "" else
      var e := events[|events| - 1];
      if e.Change? then e.reason else LastReason(events[..|events| - 1])
  }

  // What the tracker shows is told by what it was set to: its status and the time
  // of its last transition are those of the last recorded, its history is the
  // newest ten of them, and its reason is the last given.
  lemma TrackerShowsRecorded(informational: bool, start: int, events: seq<Event>)
    requires Ticking(events, start)
    ensures var t, recorded := Run(Begin(informational, start), events).tracker, Recorded(informational, events);
            && (if recorded == [] then t.status == Pass && t.changedAt == start
                else StatusName(t.status) == recorded[|recorded| - 1].status && t.changedAt == recorded[|recorded| - 1].changedAt)
            && |t.history| == Min(|recorded|, 10)
            && (forall i :: 0 <= i < |t.history| ==> OfHistory(t.history[i]) == recorded[|recorded| - |t.history| + i])
            && t.reason == LastReason(events)
  {
    hide Run, Recorded, Since, Frequent, Covered, Known, LastReason;
    RunOk(informational, start, events);
    ReasonIsLast(informational, start, events);
  }

  lemma {:induction false} ReasonIsLast(informational: bool, start: int, events: seq<Event>)
    ensures Run(Begin(informational, start), events).tracker.reason == LastReason(events)
  {
    if events != [] {
      hide Step, Begin;
      ReasonIsLast(informational, start, events[..|events| - 1]);
      StepReason(Run(Begin(informational, start), events[..|events| - 1]), events[|events| - 1]);
    }
  }

  lemma StepReason(w: World, e: Event)
    ensures Step(w, e).tracker.reason == if e.Change? then e.reason else w.tracker.reason
  {
    hide Sent;
  }

  // When every ingest comes after no more transitions than its format carries,
  // then right after an ingest the store's ring holds the newest transitions there
  // ever were: all of them, or as many as it has room for.
  lemma NoTransitionIsLost(informational: bool, start: int, events: seq<Event>, format: string, cap: nat, i: nat)
    requires Supported(format) && Ticking(events + [Ingest(format)], start)
    requires Frequent(informational, events + [Ingest(format)])
    requires |Recorded(informational, events)| - cap <= i < |Recorded(informational, events)|
    ensures var w := Run(Begin(informational, start), events + [Ingest(format)]);
            KeyOf(Recorded(informational, events)[i]) in KeySet(RingOf(w, cap))
  {
    var all := events + [Ingest(format)];
    assert all[..|all| - 1] == events;
    RunOk(informational, start, all);
    RunOk(informational, start, events);
    NoChange(informational, Recorded(informational, events), Ingest(format));
    var w := Run(Begin(informational, start), all);
    IngestStep(Run(Begin(informational, start), events), start, format);
    assert Settled(w) == w.recorded;
    AddAllRetains(w.sent, cap);
    RecentIsHeld(w, start, cap, i);
  }

  lemma RecentIsHeld(w: World, start: int, cap: nat, i: nat)
    requires WorldOk(w, start) && Covered(w) && Settled(w) == w.recorded
    requires Retains(RingOf(w, cap), KeySet(w.sent), cap)
    requires |w.recorded| - cap <= i < |w.recorded|
    ensures KeyOf(w.recorded[i]) in KeySet(RingOf(w, cap))
  {
    hide RingOf, KeySet;
    var ring, k, tail := RingOf(w, cap), KeyOf(w.recorded[i]), w.recorded[i..];
    KeySetSize(ring);
    assert k in KeySet(w.sent);
    if k !in KeySet(ring) {
      forall x | x in KeySet(ring) ensures x in KeySet(tail) - {k} {
        MissedNotNewer(ring, KeySet(w.sent), cap, k, x);
        TailMember(w.recorded, start, i, x);
      }
      DistinctTail(w.recorded, i);
      KeySetSize(tail);
      assert tail[0] == w.recorded[i];
      HasIsMember(tail, k);
      SubsetSize(KeySet(ring) + {k}, KeySet(tail));
      if |ring| == |KeySet(w.sent)| { EverythingHeld(ring, KeySet(w.sent)); }
    }
  }

  lemma TailMember(recorded: seq<Transition>, start: int, i: nat, x: Key)
    requires i < |recorded| && x in KeySet(recorded) + {Key(start, "pass")}
    requires forall j :: 0 <= j < |recorded| ==> start < recorded[j].changedAt
    requires forall j, k :: 0 <= j < k < |recorded| ==> recorded[j].changedAt < recorded[k].changedAt
    requires recorded[i].changedAt <= x.time
    ensures x in KeySet(recorded[i..])
  {
    HasIsMember(recorded, x);
    var j :| 0 <= j < |recorded| && KeyOf(recorded[j]) == x;
    assert j >= i;
    assert recorded[i..][j - i] == recorded[j];
  }

  lemma DistinctTail(recorded: seq<Transition>, i: nat)
    requires i <= |recorded|
    requires forall j, k :: 0 <= j < k < |recorded| ==> recorded[j].changedAt < recorded[k].changedAt
    ensures Distinct(recorded[i..])
  {}

  // ------------------------------------------------- when a transition is lost

  ghost predicate OnlyFormat(events: seq<Event>, format: string) {
    forall k :: 0 <= k < |events| && events[k].Ingest? ==> events[k].format == format
  }

  // Some settled transition was missed and is out of reach of any later display.
  ghost predicate Lost(w: World, c: nat) {
    exists i :: 0 <= i < |Settled(w)| - c && KeyOf(w.recorded[i]) !in KeySet(w.sent)
  }

  lemma {:induction false} LostForGood(informational: bool, start: int, events: seq<Event>, format: string)
    requires Ticking(events, start) && Supported(format) && OnlyFormat(events, format)
    requires !Frequent(informational, events)
    ensures Lost(Run(Begin(informational, start), events), Capacity(format))
  {
    hide TrackerOk, Sent, KeySet;
    var rest, e := events[..|events| - 1], events[|events| - 1];
    TickingPrefix(events, start);
    assert OnlyFormat(rest, format);
    RunOk(informational, start, rest);
    RunOk(informational, start, events);
    var w, c := Run(Begin(informational, start), rest), Capacity(format);
    var w' := Step(w, e);
    if !Frequent(informational, rest) {
      LostForGood(informational, start, rest, format);
      var i :| 0 <= i < |Settled(w)| - c && KeyOf(w.recorded[i]) !in KeySet(w.sent);
      if e.Ingest? {
        IngestStep(w, start, format);
        NotAmongLast(w.tracker, w.recorded, start, c, i);
        assert w'.recorded[i] == w.recorded[i];
      } else {
        assert Settled(w') == Settled(w) && w'.recorded[i] == w.recorded[i];
      }
      assert KeyOf(w'.recorded[i]) !in KeySet(w'.sent);
    } else {
      var i := |w.recorded| - c - 1;
      IngestStep(w, start, format);
      NotAmongLast(w.tracker, w.recorded, start, c, i);
      NotSettled(w, start, i);
      assert KeyOf(w'.recorded[i]) !in KeySet(w'.sent);
    }
  }

  lemma NotAmongLast(t: TrackerState, recorded: seq<Transition>, start: int, c: nat, i: nat)
    requires TrackerOk(t, recorded, start) && i + c < |recorded|
    ensures KeyOf(recorded[i]) !in KeySet(LastOf(recorded, c))
  {
    var last := LastOf(recorded, c);
    forall j | 0 <= j < |last| ensures KeyOf(last[j]) != KeyOf(recorded[i]) {
      assert last[j] == recorded[|recorded| - c + j];
    }
    HasIsMember(last, KeyOf(recorded[i]));
  }

  lemma NotSettled(w: World, start: int, i: nat)
    requires WorldOk(w, start) && |Settled(w)| <= i < |w.recorded|
    ensures KeyOf(w.recorded[i]) !in KeySet(w.sent)
  {
    forall j | 0 <= j < |Settled(w)| ensures KeyOf(Settled(w)[j]) != KeyOf(w.recorded[i]) {
      assert Settled(w)[j] == w.recorded[j];
    }
    HasIsMember(Settled(w), KeyOf(w.recorded[i]));
  }

  // With one display format, a run that ends in an ingest has delivered every
  // recorded transition exactly when no ingest came too late.
  lemma DeliveredExactlyWhenFrequent(informational: bool, start: int, events: seq<Event>, format: string)
    requires Supported(format) && Ticking(events, start) && OnlyFormat(events, format)
    requires events != [] && events[|events| - 1].Ingest?
    ensures var recorded, sent := Recorded(informational, events), Run(Begin(informational, start), events).sent;
            (forall i :: 0 <= i < |recorded| ==> KeyOf(recorded[i]) in KeySet(sent)) <==> Frequent(informational, events)
  {
    hide Begin, Recorded, Since, Frequent, TrackerOk, Known, Step, OnlyFormat, KeySet, Lost;
    var w := Run(Begin(informational, start), events);
    var rest := events[..|events| - 1];
    TickingPrefix(events, start);
    RunOk(informational, start, rest);
    RunOk(informational, start, events);
    LastFormat(events, format);
    IngestStep(Run(Begin(informational, start), rest), start, format);
    if Frequent(informational, events) { AllCovered(w); }
    if !Frequent(informational, events) {
      LostForGood(informational, start, events, format);
      var i := SomeLost(w, Capacity(format));
      assert w.recorded == Recorded(informational, events);
      assert KeyOf(Recorded(informational, events)[i]) !in KeySet(w.sent);
    }
  }

  lemma LastFormat(events: seq<Event>, format: string)
    requires OnlyFormat(events, format) && events != [] && events[|events| - 1].Ingest?
    ensures events[|events| - 1] == Ingest(format)
  {}

  lemma AllCovered(w: World)
    requires Covered(w) && Settled(w) == w.recorded
    ensures forall i :: 0 <= i < |w.recorded| ==> KeyOf(w.recorded[i]) in KeySet(w.sent)
  {}

  lemma SomeLost(w: World, c: nat) returns (i: nat)
    requires Lost(w, c) && w.since <= |w.recorded|
    ensures i < |w.recorded| && KeyOf(w.recorded[i]) !in KeySet(w.sent)
  {
    i :| 0 <= i < |Settled(w)| - c && KeyOf(w.recorded[i]) !in KeySet(w.sent);
  }
}
