// The escalation source of a component (escalation.go): numbered events kept per
// incident until a scraper acknowledges them.

module EscalationModel {
  import opened Basics
  import opened Cursor

  datatype Event = Event(cursor: string, timestamp: int, topic: string, message: string)

  datatype Status = Open | Closed | Acknowledged

  // The id is the number in ID-%010d.
  datatype Incident = Incident(
    id: nat,
    title: string,
    status: Status,
    createdAt: int,
    expiresAt: int,
    lastUpdatedAt: int,
    events: seq<Event>,
    lastSeq: nat,
    ackedSeq: nat)

  datatype Policy = Policy(maxUnacknowledged: int, ttl: int)

  datatype Spec = Spec(title: string, ttl: int)

  datatype IncidentDoc = IncidentDoc(id: nat, title: string, status: Status, createdAt: int, expiresAt: int, lastUpdatedAt: int, events: seq<Event>)

  datatype Doc = Doc(watermark: string, incidents: seq<IncidentDoc>)

  // One event ever appended. The entry at index k has sequence number k + 1.
  datatype Entry = Entry(id: nat, createdAt: int, event: Event)

  // The fields of a source, and the log of everything it appended.
  datatype Source = Source(
    epoch: string,
    nextID: nat,
    nextSeq: nat,
    incidents: map<nat, Incident>,
    order: seq<nat>,
    log: seq<Entry>)

  // ---------------------------------------------------------- the operations

  function NewSource(epoch: string): Source { Source(epoch, 0, 0, map[], [], []) }

  predicate Expired(inc: Incident, now: int) { inc.expiresAt != ZERO_TIME && now > inc.expiresAt }

  function KeepIds(order: seq<nat>, incidents: map<nat, Incident>, now: int): seq<nat> {
    if order == [] then [] else
      var id := order[|order| - 1];
      KeepIds(order[..|order| - 1], incidents, now) +
      (if id in incidents && !Expired(incidents[id], now) then [id] else [])
  }

  function Survivors(incidents: map<nat, Incident>, now: int): map<nat, Incident> {
    map id | id in incidents && !Expired(incidents[id], now) :: incidents[id]
  }

  function Expire(s: Source, now: int): Source {
    s.(incidents := Survivors(s.incidents, now), order := KeepIds(s.order, s.incidents, now))
  }

  function Pending(incidents: map<nat, Incident>): set<nat> {
    set id | id in incidents && incidents[id].lastSeq > incidents[id].ackedSeq
  }

  function Unacknowledged(incidents: map<nat, Incident>): nat { |Pending(incidents)| }

  function Append(s: Source, id: nat, ts: int, topic: string, message: string): Source
    requires id in s.incidents
  {
    var inc, n := s.incidents[id], s.nextSeq + 1;
    var event := Event(FormatCursor(n, s.epoch), ts, topic, message);
    s.(nextSeq := n,
       incidents := s.incidents[id := inc.(lastSeq := n, lastUpdatedAt := ts, events := inc.events + [event])],
       log := s.log + [Entry(id, inc.createdAt, event)])
  }

  predicate OverBudget(s: Source, policy: Policy) {
    policy.maxUnacknowledged > 0 && Unacknowledged(s.incidents) >= policy.maxUnacknowledged
  }

  // A new incident, before its first event.
  function Opened(s: Source, policy: Policy, spec: Spec, now: int): Source {
    var id := s.nextID + 1;
    var ttl := if spec.ttl <= 0 then policy.ttl else spec.ttl;
    s.(nextID := id,
       incidents := s.incidents[id := Incident(id, spec.title, Open, now, now + ttl, now, [], 0, 0)],
       order := s.order + [id])
  }

  function Start(s: Source, policy: Policy, spec: Spec, now: int): Source {
    var live := Expire(s, now);
    if OverBudget(live, policy) then live
    else Append(Opened(live, policy, spec, now), live.nextID + 1, now, "incident", "created")
  }

  function Add(s: Source, id: nat, ts: int, topic: string, message: string): Source {
    if id in s.incidents then Append(s, id, ts, topic, message) else s
  }

  function Close(s: Source, id: nat, now: int, reason: string): Source {
    if id !in s.incidents then s else
      Append(s.(incidents := s.incidents[id := s.incidents[id].(status := Closed)]), id, now, "incident", reason)
  }

  // The events whose cursor, read under an epoch, is past n.
  function After(events: seq<Event>, epoch: string, n: nat): seq<Event> {
    if events == [] then [] else
      var e := events[|events| - 1];
      After(events[..|events| - 1], epoch, n) + (if ParseCursor(e.cursor, epoch) > n then [e] else [])
  }

  function AckIncident(inc: Incident, epoch: string, n: nat): Incident {
    var acked := if n > inc.ackedSeq then (if n < inc.lastSeq then n else inc.lastSeq) else inc.ackedSeq;
    inc.(ackedSeq := acked,
         events := After(inc.events, epoch, n),
         status := if inc.status == Closed && acked >= inc.lastSeq then Acknowledged else inc.status)
  }

  function Ack(s: Source, n: nat): Source {
    s.(incidents := map id | id in s.incidents :: AckIncident(s.incidents[id], s.epoch, n))
  }

  function SnapshotOf(inc: Incident, n: nat): IncidentDoc {
    IncidentDoc(inc.id, inc.title, inc.status, inc.createdAt, inc.expiresAt, inc.lastUpdatedAt, After(inc.events, "", n))
  }

  predicate Shown(inc: Incident, n: nat) {
    inc.lastSeq > n && !(inc.events == [] && inc.ackedSeq >= inc.lastSeq)
  }

  function Snapshots(order: seq<nat>, incidents: map<nat, Incident>, n: nat): seq<IncidentDoc> {
    if order == [] then [] else
      var id := order[|order| - 1];
      Snapshots(order[..|order| - 1], incidents, n) +
      (if id in incidents && Shown(incidents[id], n) then [SnapshotOf(incidents[id], n)] else [])
  }

  function Served(s: Source, ack: string, now: int): Source {
    var live := Expire(s, now);
    var n := ParseCursor(ack, s.epoch);
    if n > 0 then Ack(live, n) else live
  }

  function DocOf(s: Source, after: string): Doc {
    Doc(FormatCursor(s.nextSeq, s.epoch), Snapshots(s.order, s.incidents, ParseCursor(after, s.epoch)))
  }

  // -------------------------------------------------------------- invariant

  // The events of an incident among the log entries from index lo on.
  function EventsOf(log: seq<Entry>, id: nat, lo: nat): seq<Event> {
    if |log| <= lo then [] else
      var e := log[|log| - 1];
      EventsOf(log[..|log| - 1], id, lo) + (if e.id == id then [e.event] else [])
  }

  ghost predicate LogOk(log: seq<Entry>, epoch: string) {
    && EpochOk(epoch) && |log| <= MAX_UINT64
    && forall k :: 0 <= k < |log| ==> log[k].event.cursor == FormatCursor(k + 1, epoch)
  }

  // An incident's buffer is exactly what was appended to it past its
  // acknowledged number; its last number is where its last event stands; and it
  // is not left closed with nothing to acknowledge.
  ghost predicate IncidentOk(log: seq<Entry>, inc: Incident) {
    && inc.ackedSeq <= inc.lastSeq <= |log| && 0 < inc.lastSeq
    && log[inc.lastSeq - 1].id == inc.id
    && (forall k :: inc.lastSeq <= k < |log| ==> log[k].id != inc.id)
    && (forall k :: 0 <= k < |log| && log[k].id == inc.id ==> log[k].createdAt == inc.createdAt)
    && inc.events == EventsOf(log, inc.id, inc.ackedSeq)
    && (inc.status == Closed ==> inc.ackedSeq < inc.lastSeq)
  }

  ghost predicate Distinct(order: seq<nat>) {
    forall i, j :: 0 <= i < j < |order| ==> order[i] != order[j]
  }

  ghost predicate OrderOk(order: seq<nat>, incidents: map<nat, Incident>) {
    Distinct(order) && forall id :: id in order <==> id in incidents
  }

  ghost predicate SourceOk(s: Source) {
    && LogOk(s.log, s.epoch) && s.nextSeq == |s.log|
    && (forall k :: 0 <= k < |s.log| ==> s.log[k].id <= s.nextID)
    && OrderOk(s.order, s.incidents)
    && (forall id :: id in s.incidents ==> id <= s.nextID && s.incidents[id].id == id && IncidentOk(s.log, s.incidents[id]))
  }

  lemma NewOk(epoch: string)
    requires EpochOk(epoch)
    ensures SourceOk(NewSource(epoch))
  {}

  lemma {:induction false} KeepIdsMember(order: seq<nat>, incidents: map<nat, Incident>, now: int)
    ensures forall id :: id in KeepIds(order, incidents, now) <==> id in order && id in incidents && !Expired(incidents[id], now)
  {
    if order != [] {
      KeepIdsMember(order[..|order| - 1], incidents, now);
      assert order == order[..|order| - 1] + [order[|order| - 1]];
    }
  }

  lemma {:induction false} KeepIdsOk(order: seq<nat>, incidents: map<nat, Incident>, now: int)
    requires Distinct(order)
    ensures Distinct(KeepIds(order, incidents, now))
  {
    if order != [] {
      var rest, last := order[..|order| - 1], order[|order| - 1];
      KeepIdsOk(rest, incidents, now);
      KeepIdsMember(rest, incidents, now);
      assert last !in rest;
    }
  }

  lemma ExpireOk(s: Source, now: int)
    requires SourceOk(s)
    ensures SourceOk(Expire(s, now))
  {
    KeepIdsOk(s.order, s.incidents, now);
    KeepIdsMember(s.order, s.incidents, now);
  }

  lemma EventsOfSnoc(log: seq<Entry>, e: Entry, id: nat, lo: nat)
    requires lo <= |log|
    ensures EventsOf(log + [e], id, lo) == EventsOf(log, id, lo) + (if e.id == id then [e.event] else [])
  {
    assert (log + [e])[..|log|] == log;
  }

  // Past its last event there is nothing of an incident in the log.
  lemma {:induction false} EventsOfNone(log: seq<Entry>, id: nat, lo: nat)
    requires forall k :: lo <= k < |log| ==> log[k].id != id
    ensures EventsOf(log, id, lo) == []
  {
    if |log| > lo { EventsOfNone(log[..|log| - 1], id, lo); }
  }

  // Filtering a buffer by cursor is moving its lower bound.
  lemma {:induction false} AfterEventsOf(log: seq<Entry>, epoch: string, reader: string, id: nat, lo: nat, n: nat)
    requires LogOk(log, epoch) && (reader == epoch || reader == "")
    ensures After(EventsOf(log, id, lo), reader, n) == EventsOf(log, id, if lo < n then n else lo)
  {
    hide FormatCursor, ParseCursor;
    if |log| > lo {
      var rest, e := log[..|log| - 1], log[|log| - 1];
      AfterEventsOf(rest, epoch, reader, id, lo, n);
      CursorRoundTrip(|log|, epoch, reader);
      var before := EventsOf(rest, id, lo);
      if e.id == id {
        assert (before + [e.event])[..|before|] == before;
      } else {
        assert before + [] == before;
      }
      if n >= |log| {
        EventsOfEmpty(rest, id, n);
      }
    }
  }

  lemma EventsOfEmpty(log: seq<Entry>, id: nat, lo: nat)
    requires |log| <= lo
    ensures EventsOf(log, id, lo) == []
  {}

  lemma OtherIncidentOk(log: seq<Entry>, e: Entry, inc: Incident)
    requires IncidentOk(log, inc) && e.id != inc.id
    ensures IncidentOk(log + [e], inc)
  {
    EventsOfSnoc(log, e, inc.id, inc.ackedSeq);
  }

  lemma GrownIncidentOk(log: seq<Entry>, e: Entry, inc: Incident)
    requires inc.ackedSeq <= |log| && e.id == inc.id && e.createdAt == inc.createdAt
    requires forall k :: 0 <= k < |log| && log[k].id == inc.id ==> log[k].createdAt == inc.createdAt
    requires inc.events == EventsOf(log, inc.id, inc.ackedSeq)
    ensures IncidentOk(log + [e], inc.(lastSeq := |log| + 1, lastUpdatedAt := e.event.timestamp, events := inc.events + [e.event]))
  {
    EventsOfSnoc(log, e, inc.id, inc.ackedSeq);
  }

  // An incident that may be new, ready for one more event.
  ghost predicate Growable(s: Source, id: nat) {
    && id in s.incidents && id <= s.nextID
    && var inc := s.incidents[id];
       && inc.id == id && inc.ackedSeq <= |s.log|
       && (forall k :: 0 <= k < |s.log| && s.log[k].id == id ==> s.log[k].createdAt == inc.createdAt)
       && inc.events == EventsOf(s.log, id, inc.ackedSeq)
  }

  lemma AppendOk(s: Source, id: nat, ts: int, topic: string, message: string)
    requires LogOk(s.log, s.epoch) && s.nextSeq == |s.log| < MAX_UINT64
    requires forall k :: 0 <= k < |s.log| ==> s.log[k].id <= s.nextID
    requires OrderOk(s.order, s.incidents) && Growable(s, id)
    requires forall j :: j in s.incidents && j != id ==> j <= s.nextID && s.incidents[j].id == j && IncidentOk(s.log, s.incidents[j])
    ensures SourceOk(Append(s, id, ts, topic, message))
  {
    hide EventsOf, FormatCursor, IncidentOk, EpochOk;
    var s' := Append(s, id, ts, topic, message);
    var e := s'.log[|s.log|];
    assert s'.log == s.log + [e];
    assert OrderOk(s'.order, s'.incidents);
    GrownIncidentOk(s.log, e, s.incidents[id]);
    forall j | j in s'.incidents && j != id ensures s'.incidents[j].id == j && IncidentOk(s'.log, s'.incidents[j]) {
      OtherIncidentOk(s.log, e, s.incidents[j]);
    }
  }

  lemma OpenedReady(live: Source, policy: Policy, spec: Spec, now: int)
    requires SourceOk(live)
    ensures var begun := Opened(live, policy, spec, now);
            && begun.log == live.log && begun.epoch == live.epoch && begun.nextSeq == live.nextSeq
            && begun.nextID == live.nextID + 1
            && OrderOk(begun.order, begun.incidents) && Growable(begun, live.nextID + 1)
            && forall j :: j in begun.incidents && j != live.nextID + 1 ==> j in live.incidents && begun.incidents[j] == live.incidents[j]
  {
    hide IncidentOk;
    assert live.nextID + 1 !in live.incidents;
    EventsOfNone(live.log, live.nextID + 1, 0);
  }

  lemma StartOk(s: Source, policy: Policy, spec: Spec, now: int)
    requires SourceOk(s) && s.nextSeq < MAX_UINT64
    ensures SourceOk(Start(s, policy, spec, now))
  {
    hide OverBudget, Expire, Opened, Append, IncidentOk, OrderOk, Growable;
    ExpireOk(s, now);
    ExpireKeeps(s, now);
    var live := Expire(s, now);
    if !OverBudget(live, policy) {
      OpenedReady(live, policy, spec, now);
      AppendOk(Opened(live, policy, spec, now), live.nextID + 1, now, "incident", "created");
    }
  }

  lemma ExpireKeeps(s: Source, now: int)
    ensures Expire(s, now).log == s.log && Expire(s, now).nextSeq == s.nextSeq && Expire(s, now).epoch == s.epoch
    ensures Expire(s, now).nextID == s.nextID
    ensures forall id :: id in Expire(s, now).incidents ==> id in s.incidents && Expire(s, now).incidents[id] == s.incidents[id]
  {}

  lemma AddOk(s: Source, id: nat, ts: int, topic: string, message: string)
    requires SourceOk(s) && s.nextSeq < MAX_UINT64
    ensures SourceOk(Add(s, id, ts, topic, message))
  {
    if id in s.incidents { AppendOk(s, id, ts, topic, message); }
  }

  lemma CloseOk(s: Source, id: nat, now: int, reason: string)
    requires SourceOk(s) && s.nextSeq < MAX_UINT64
    ensures SourceOk(Close(s, id, now, reason))
  {
    if id in s.incidents {
      var closed := s.(incidents := s.incidents[id := s.incidents[id].(status := Closed)]);
      assert OrderOk(closed.order, closed.incidents);
      AppendOk(closed, id, now, "incident", reason);
    }
  }

  lemma AckIncidentOk(log: seq<Entry>, epoch: string, inc: Incident, n: nat)
    requires LogOk(log, epoch) && IncidentOk(log, inc)
    ensures IncidentOk(log, AckIncident(inc, epoch, n))
  {
    hide FormatCursor, ParseCursor, After;
    AfterEventsOf(log, epoch, epoch, inc.id, inc.ackedSeq, n);
    if n >= inc.lastSeq {
      EventsOfNone(log, inc.id, n);
      EventsOfNone(log, inc.id, inc.lastSeq);
      EventsOfNone(log, inc.id, if inc.ackedSeq < n then n else inc.ackedSeq);
    }
  }

  lemma AckOk(s: Source, n: nat)
    requires SourceOk(s)
    ensures SourceOk(Ack(s, n))
  {
    forall id | id in s.incidents ensures IncidentOk(s.log, AckIncident(s.incidents[id], s.epoch, n)) {
      AckIncidentOk(s.log, s.epoch, s.incidents[id], n);
    }
    assert OrderOk(s.order, Ack(s, n).incidents);
  }

  lemma ServedOk(s: Source, ack: string, now: int)
    requires SourceOk(s)
    ensures SourceOk(Served(s, ack, now))
  {
    ExpireOk(s, now);
    var n := ParseCursor(ack, s.epoch);
    if n > 0 { AckOk(Expire(s, now), n); }
  }

  // ------------------------------------------------------------------ the budget

  lemma PendingAfter(incidents: map<nat, Incident>, id: nat, inc: Incident)
    requires inc.lastSeq > inc.ackedSeq
    ensures Pending(incidents[id := inc]) == Pending(incidents) + {id}
  {}

  lemma AppendPends(s: Source, id: nat, ts: int, topic: string, message: string)
    requires id in s.incidents && s.incidents[id].ackedSeq <= s.nextSeq
    ensures Pending(Append(s, id, ts, topic, message).incidents) == Pending(s.incidents) + {id}
  {
    hide FormatCursor;
    PendingAfter(s.incidents, id, Append(s, id, ts, topic, message).incidents[id]);
  }

  // Adding to an incident makes one more of them pending exactly when it had been
  // acknowledged in full. Nothing checks the budget here.
  lemma AddMayExceedBudget(s: Source, id: nat, ts: int, topic: string, message: string)
    requires SourceOk(s) && id in s.incidents
    ensures Unacknowledged(Add(s, id, ts, topic, message).incidents)
         == Unacknowledged(s.incidents) + (if s.incidents[id].lastSeq > s.incidents[id].ackedSeq then 0 else 1)
  {
    hide Append, EventsOf, OrderOk, LogOk;
    assert IncidentOk(s.log, s.incidents[id]);
    AppendPends(s, id, ts, topic, message);
    assert id in Pending(s.incidents) <==> s.incidents[id].lastSeq > s.incidents[id].ackedSeq;
    if id in Pending(s.incidents) {
      assert Pending(s.incidents) + {id} == Pending(s.incidents);
    }
  }

  // Start, on the other hand, keeps to it.
  lemma StartKeepsBudget(s: Source, policy: Policy, spec: Spec, now: int)
    requires SourceOk(s) && 0 < policy.maxUnacknowledged
    requires !OverBudget(Expire(s, now), policy)
    ensures Unacknowledged(Start(s, policy, spec, now).incidents) == Unacknowledged(Expire(s, now).incidents) + 1
    ensures Unacknowledged(Start(s, policy, spec, now).incidents) <= policy.maxUnacknowledged
  {
    hide Append, EventsOf, Expire, KeepIds, IncidentOk;
    ExpireOk(s, now);
    var live := Expire(s, now);
    var begun, id := Opened(live, policy, spec, now), live.nextID + 1;
    assert id !in live.incidents;
    AppendPends(begun, id, now, "incident", "created");
    assert Pending(begun.incidents) == Pending(live.incidents);
  }
}
