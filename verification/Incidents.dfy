// The store's side of escalations: what an ingest makes of the stored incidents,
// how closed ones leave, and what is left of everything ever ingested
// (storage/storage.go).

module Incidents {
  import opened Basics
  import opened EscalationModel
  import opened EventOrder
  import opened EventListing

  datatype StoredIncident = StoredIncident(
    key: IncidentKey,
    scrapePath: string,
    title: string,
    status: Status,
    expiresAt: int,
    lastUpdatedAt: int,
    observedAt: int,
    events: seq<IncidentEvent>)

  // An incident of an ingested document, with what scrapers on the way wrote on it.
  datatype Incoming = Incoming(scrapedFrom: string, scrapePath: string, doc: IncidentDoc)

  type Table = map<IncidentKey, StoredIncident>

  function KeyFor(source: string, incoming: Incoming): IncidentKey {
    IncidentKey(FirstNonEmpty(incoming.scrapedFrom, source), incoming.doc.id, incoming.doc.createdAt)
  }

  predicate AllNumbered(events: seq<Event>) { forall i :: 0 <= i < |events| ==> SeqNumber(events[i].cursor).Some? }

  // The events of an incident after more of them arrive; a known one is replaced.
  function Put(m: Events, incident: IncidentKey, events: seq<Event>, at: int): Events {
    if events == [] then m else
      var e := events[|events| - 1];
      var key := EventKey(incident, e.cursor);
      Put(m, incident, events[..|events| - 1], at)[key := IncidentEvent(key, e, at)]
  }

  function EventsAt(table: Table, k: IncidentKey): Events { if k in table then MapOf(table[k].events) else map[] }

  ghost predicate TableOk(table: Table) {
    forall k :: k in table ==> table[k].key == k && Ordered(table[k].events) && OneIncident(KeysOf(table[k].events), k)
  }

  lemma {:induction false} PutOrderly(m: Events, incident: IncidentKey, events: seq<Event>, at: int)
    requires Orderly(m, incident) && AllNumbered(events)
    ensures Orderly(Put(m, incident, events, at), incident)
  {
    if events != [] {
      var rest := events[..|events| - 1];
      assert forall i :: 0 <= i < |rest| ==> rest[i] == events[i];
      PutOrderly(m, incident, rest, at);
      assert SeqNumber(events[|events| - 1].cursor).Some?;
    }
  }

  lemma {:induction false} PutIsUnion(m: Events, incident: IncidentKey, events: seq<Event>, at: int)
    ensures Put(m, incident, events, at) == m + Put(map[], incident, events, at)
  {
    if events != [] { PutIsUnion(m, incident, events[..|events| - 1], at); }
  }

  ghost predicate LastWith(events: seq<Event>, i: nat, cursor: string) {
    i < |events| && events[i].cursor == cursor && forall j :: i < j < |events| ==> events[j].cursor != cursor
  }

  // Of events that arrive, the last under a cursor is what is held under it; what
  // none of them replaces stays.
  lemma {:induction false} PutIsLastWord(m: Events, incident: IncidentKey, events: seq<Event>, at: int, key: EventKey)
    ensures key in Put(m, incident, events, at) <==> key in m || (key.incident == incident && exists i: nat :: LastWith(events, i, key.cursor))
    ensures forall i: nat :: LastWith(events, i, key.cursor) && key.incident == incident ==>
              Put(m, incident, events, at)[key] == IncidentEvent(key, events[i], at)
    ensures key in m && (key.incident != incident || forall i: nat :: !LastWith(events, i, key.cursor)) ==>
              Put(m, incident, events, at)[key] == m[key]
  {
    if events != [] {
      var rest, last := events[..|events| - 1], |events| - 1;
      PutIsLastWord(m, incident, rest, at, key);
      if events[last].cursor == key.cursor {
        assert LastWith(events, last, key.cursor);
      } else {
        forall i: nat ensures LastWith(events, i, key.cursor) <==> LastWith(rest, i, key.cursor) {}
      }
    }
  }

  // ------------------------------------------------------------ the sorted list

  lemma {:induction false} NewestExists(s: set<EventKey>, incident: IncidentKey) returns (k: EventKey)
    requires s != {} && OneIncident(s, incident)
    ensures k in s && forall j :: j in s && j != k ==> Newer(k, j)
  {
    hide Newer;
    k :| k in s;
    if s != {k} {
      var j := NewestExists(s - {k}, incident);
      NewerIsOrder(j, k, j);
      forall x | x in s && x != (if Newer(j, k) then j else k) ensures Newer(if Newer(j, k) then j else k, x) {
        if !Newer(j, k) && x != j { NewerIsOrder(k, j, x); }
      }
      k := if Newer(j, k) then j else k;
    }
  }

  lemma {:induction false} ListingExists(m: Events, incident: IncidentKey) returns (list: seq<IncidentEvent>)
    requires Orderly(m, incident)
    ensures Lists(list, m)
    decreases |m|
  {
    hide Newer, Orderly, Lists;
    if |m| == 0 {
      list := [];
      NothingListed();
      assert m == map[];
    } else {
      var some := SomeKey(m);
      OrderlyKeys(m, incident);
      var k := NewestExists(m.Keys, incident);
      SmallerMap(m, k);
      OrderlyWithout(m, k, incident);
      var rest := ListingExists(m - {k}, incident);
      list := rest + [m[k]];
      GrowListing(m, k, rest);
    }
  }

  lemma GrowListing(m: Events, k: EventKey, rest: seq<IncidentEvent>)
    requires k in m && m[k].key == k && Lists(rest, m - {k})
    requires forall j :: j in m && j != k ==> Newer(k, j)
    ensures Lists(rest + [m[k]], m)
  {
    hide Newer, Ordered, KeysOf, MapOf;
    MapOfMembers(rest);
    AppendNewest(rest, m[k]);
    assert (m - {k})[k := m[k]] == m;
  }

  lemma OrderlyKeys(m: Events, incident: IncidentKey)
    requires Orderly(m, incident)
    ensures OneIncident(m.Keys, incident)
  {}

  lemma OrderlyWithout(m: Events, k: EventKey, incident: IncidentKey)
    requires Orderly(m, incident) && k in m
    ensures Orderly(m - {k}, incident) && m[k].key == k
  {}

  lemma AppendNewest(rest: seq<IncidentEvent>, e: IncidentEvent)
    requires Ordered(rest) && forall k :: k in KeysOf(rest) ==> Newer(e.key, k)
    ensures Ordered(rest + [e]) && MapOf(rest + [e]) == MapOf(rest)[e.key := e]
  {
    hide Newer;
    forall i | 0 <= i < |rest| ensures Newer(e.key, rest[i].key) { KeyIn(rest, i); }
    assert (rest + [e])[..|rest|] == rest;
  }

  // The one sorted list of an incident's events.
  ghost function SortedEvents(m: Events, incident: IncidentKey): (list: seq<IncidentEvent>)
    requires Orderly(m, incident)
    ensures Lists(list, m)
  {
    assert exists list :: Lists(list, m) by { var list := ListingExists(m, incident); }
    var list :| Lists(list, m);
    list
  }

  lemma SortedIs(list: seq<IncidentEvent>, m: Events, incident: IncidentKey)
    requires Orderly(m, incident) && Lists(list, m)
    ensures list == SortedEvents(m, incident)
  {
    MapOfMembers(list);
    ListingUnique(list, SortedEvents(m, incident), incident);
  }

  // --------------------------------------------------------------- the operations

  lemma StoredOrderly(table: Table, k: IncidentKey)
    requires TableOk(table)
    ensures Orderly(EventsAt(table, k), k)
  {
    if k in table { MapOfMembers(table[k].events); }
  }

  lemma KeptOrderly(m: Events, incident: IncidentKey, cap: nat)
    requires Orderly(m, incident)
    ensures Orderly(Keep(m, cap), incident)
  {}

  ghost function KeptEvents(table: Table, k: IncidentKey, events: seq<Event>, at: int, cap: nat): (m: Events)
    requires TableOk(table) && AllNumbered(events)
    ensures Orderly(m, k)
  {
    StoredOrderly(table, k);
    PutOrderly(EventsAt(table, k), k, events, at);
    KeptOrderly(Put(EventsAt(table, k), k, events, at), k, cap);
    Keep(Put(EventsAt(table, k), k, events, at), cap)
  }

  ghost function Stored(table: Table, source: string, incoming: Incoming, at: int, cap: nat): StoredIncident
    requires TableOk(table) && AllNumbered(incoming.doc.events)
  {
    var k, doc := KeyFor(source, incoming), incoming.doc;
    StoredIncident(k, FirstNonEmpty(incoming.scrapePath, source), doc.title, doc.status, doc.expiresAt, doc.lastUpdatedAt, at,
                   SortedEvents(KeptEvents(table, k, doc.events, at, cap), k))
  }

  ghost function IngestOne(table: Table, source: string, incoming: Incoming, at: int, cap: nat): (r: Table)
    requires TableOk(table) && AllNumbered(incoming.doc.events)
    ensures TableOk(r)
  {
    var s := Stored(table, source, incoming, at, cap);
    MapOfMembers(s.events);
    table[s.key := s]
  }

  ghost predicate AllIncomingNumbered(incoming: seq<Incoming>) {
    forall i :: 0 <= i < |incoming| ==> AllNumbered(incoming[i].doc.events)
  }

  ghost function IngestAll(table: Table, source: string, incoming: seq<Incoming>, at: int, cap: nat): (r: Table)
    requires TableOk(table) && AllIncomingNumbered(incoming)
    ensures TableOk(r)
  {
    if incoming == [] then table else
      IngestOne(IngestAll(table, source, incoming[..|incoming| - 1], at, cap), source, incoming[|incoming| - 1], at, cap)
  }

  // A closed incident goes once its last activity is longer ago than the time to live.
  predicate Stale(inc: StoredIncident, now: int, ttl: int) {
    inc.status == Closed && now - Max(inc.lastUpdatedAt, inc.observedAt) > ttl
  }

  function Sweep(table: Table, now: int, ttl: int): Table {
    map k | k in table && !Stale(table[k], now, ttl) :: table[k]
  }

  predicate Candidate(table: Table, k: IncidentKey, source: string, id: nat) {
    k in table && k.origin == source && k.id == id
  }

  // The incident an acknowledgement by source and id is for: the last one created.
  ghost predicate IsLatest(table: Table, k: IncidentKey, source: string, id: nat) {
    Candidate(table, k, source, id) && forall j :: Candidate(table, j, source, id) ==> j.createdAt <= k.createdAt
  }

  function Acknowledge(table: Table, k: IncidentKey, at: int): Table
    requires k in table
  {
    table[k := table[k].(status := Acknowledged, observedAt := at)]
  }

  // ------------------------------------------------- what is left of all that came

  // Everything ever ingested for an incident since it was first stored, the cap aside.
  type Seen = map<IncidentKey, Events>

  function SeenAt(seen: Seen, k: IncidentKey): Events { if k in seen then seen[k] else map[] }

  datatype Step =
    | Ingest(source: string, incoming: Incoming, at: int)
    | SweepAt(now: int)
    | AcknowledgeOne(source: string, id: nat, at: int)

  datatype Sink = Sink(table: Table, seen: Seen)

  ghost predicate SinkOk(s: Sink, cap: nat) {
    && TableOk(s.table) && s.table.Keys == s.seen.Keys
    && forall k :: k in s.table ==> Orderly(s.seen[k], k) && MapOf(s.table[k].events) == Keep(s.seen[k], cap)
  }

  ghost function Do(s: Sink, step: Step, cap: nat, ttl: int): Sink
    requires SinkOk(s, cap)
  {
    match step
    case Ingest(source, incoming, at) =>
      if !AllNumbered(incoming.doc.events) then s else
        var k := KeyFor(source, incoming);
        Sink(IngestOne(s.table, source, incoming, at, cap), s.seen[k := Put(SeenAt(s.seen, k), k, incoming.doc.events, at)])
    case SweepAt(now) =>
      var table := Sweep(s.table, now, ttl);
      Sink(table, map k | k in table :: s.seen[k])
    case AcknowledgeOne(source, id, at) =>
      if !(exists k :: IsLatest(s.table, k, source, id)) then s else
        var k :| IsLatest(s.table, k, source, id);
        s.(table := Acknowledge(s.table, k, at))
  }

  // Closed, and neither updated nor observed for longer than the time to live.
  ghost predicate ClosedAndIdle(inc: StoredIncident, now: int, ttl: int) {
    inc.status == Closed && now - inc.lastUpdatedAt > ttl && now - inc.observedAt > ttl
  }

  // A stored incident goes exactly when a sweep finds it closed and idle. One still
  // open, or acknowledged, never does.
  lemma OnlyClosedIdleGo(s: Sink, step: Step, cap: nat, ttl: int, k: IncidentKey)
    requires SinkOk(s, cap) && k in s.table
    ensures k !in Do(s, step, cap, ttl).table <==> step.SweepAt? && ClosedAndIdle(s.table[k], step.now, ttl)
  {
    hide Put, KeptEvents, SortedEvents;
  }

  // What an ingest stores of an incident is what its document says; what it says of
  // one incident changes no other.
  lemma StoredAsGiven(s: Sink, source: string, incoming: Incoming, at: int, cap: nat, ttl: int)
    requires SinkOk(s, cap) && AllNumbered(incoming.doc.events)
    ensures var k, table, doc := KeyFor(source, incoming), Do(s, Ingest(source, incoming, at), cap, ttl).table, incoming.doc;
            && table.Keys == s.table.Keys + {k} && (forall j :: j in s.table && j != k ==> table[j] == s.table[j])
            && table[k].title == doc.title && table[k].status == doc.status && table[k].expiresAt == doc.expiresAt
            && table[k].lastUpdatedAt == doc.lastUpdatedAt && table[k].observedAt == at
            && k.origin == (if incoming.scrapedFrom != "" then incoming.scrapedFrom else source)
            && table[k].scrapePath == (if incoming.scrapePath != "" then incoming.scrapePath else source)
            && k.id == doc.id && k.createdAt == doc.createdAt
  {
    hide Put, KeptEvents, SortedEvents;
  }

  // An acknowledgement changes the status and the time of the last created incident
  // of that source and number, and nothing else; if there is none, nothing at all.
  lemma AcknowledgedAsAsked(s: Sink, source: string, id: nat, at: int, cap: nat, ttl: int, k: IncidentKey)
    requires SinkOk(s, cap) && k in s.table
    ensures var table := Do(s, AcknowledgeOne(source, id, at), cap, ttl).table;
            && table.Keys == s.table.Keys
            && (table[k] == s.table[k] || table[k] == s.table[k].(status := Acknowledged, observedAt := at))
            && (k.origin == source && k.id == id
                && (forall j :: j in s.table && j.origin == source && j.id == id && j != k ==> j.createdAt < k.createdAt)
                ==> table[k].status == Acknowledged && table[k].observedAt == at)
            && (k.origin != source || k.id != id
                || (exists j :: j in s.table && j.origin == source && j.id == id && j.createdAt > k.createdAt)
                ==> table[k] == s.table[k])
  {
    if k.origin == source && k.id == id
       && (forall j :: j in s.table && j.origin == source && j.id == id && j != k ==> j.createdAt < k.createdAt) {
      assert IsLatest(s.table, k, source, id);
    }
  }

  lemma KeepMerged(before: Events, seen: Events, incident: IncidentKey, events: seq<Event>, at: int, cap: nat)
    requires Orderly(seen, incident) && before == Keep(seen, cap) && AllNumbered(events)
    ensures Keep(Put(before, incident, events, at), cap) == Keep(Put(seen, incident, events, at), cap)
  {
    hide Newer, Keep, Put;
    var more := Put(map[], incident, events, at);
    PutIsUnion(before, incident, events, at);
    PutIsUnion(seen, incident, events, at);
    PutOrderly(map[], incident, events, at);
    KeepAbsorbs(seen, more, incident, cap);
  }

  lemma IngestKeepsSink(s: Sink, source: string, incoming: Incoming, at: int, cap: nat, ttl: int)
    requires SinkOk(s, cap)
    ensures SinkOk(Do(s, Ingest(source, incoming, at), cap, ttl), cap)
  {
    hide Newer, Keep, Put, MapOf, KeysOf, Ordered, OneIncident;
    if AllNumbered(incoming.doc.events) {
      var k := KeyFor(source, incoming);
      var events := incoming.doc.events;
      var table' := IngestOne(s.table, source, incoming, at, cap);
      if k !in s.table { NothingKept(k, cap); }
      PutOrderly(SeenAt(s.seen, k), k, events, at);
      KeepMerged(EventsAt(s.table, k), SeenAt(s.seen, k), k, events, at, cap);
      assert MapOf(table'[k].events) == KeptEvents(s.table, k, events, at, cap);
    }
  }

  lemma NothingKept(k: IncidentKey, cap: nat)
    ensures Keep(map[], cap) == map[] && Orderly(map[], k)
  {}

  lemma StepKeepsSink(s: Sink, step: Step, cap: nat, ttl: int)
    requires SinkOk(s, cap)
    ensures SinkOk(Do(s, step, cap, ttl), cap)
  {
    hide Newer, Keep, Put, MapOf, KeysOf, Ordered, OneIncident;
    if step.Ingest? { IngestKeepsSink(s, step.source, step.incoming, step.at, cap, ttl); }
  }

  ghost function Run(steps: seq<Step>, cap: nat, ttl: int): (s: Sink)
    ensures SinkOk(s, cap)
  {
    if steps == [] then Sink(map[], map[]) else
      var before := Run(steps[..|steps| - 1], cap, ttl);
      StepKeepsSink(before, steps[|steps| - 1], cap, ttl);
      Do(before, steps[|steps| - 1], cap, ttl)
  }

  // Over any run of ingests, sweeps and acknowledgements, an incident stores, in
  // order, exactly the newest cap of all events ingested for it, however they
  // were spread over documents and repeated.
  lemma StoredAreNewest(steps: seq<Step>, cap: nat, ttl: int, k: IncidentKey)
    requires k in Run(steps, cap, ttl).table
    ensures var s := Run(steps, cap, ttl);
            var list := s.table[k].events;
            && k in s.seen && Ordered(list) && MapOf(list) == Keep(s.seen[k], cap) && |list| <= cap
            && forall j :: j in s.seen[k] && j !in MapOf(list) ==> |list| == cap && forall e :: e in list ==> Newer(e.key, j)
  {
    hide Newer, Run, MapOf, Keep, Ordered, OneIncident, KeysOf;
    var s := Run(steps, cap, ttl);
    KeptList(s.table[k].events, s.seen[k], k, cap);
  }

  lemma KeptList(list: seq<IncidentEvent>, seen: Events, k: IncidentKey, cap: nat)
    requires Ordered(list) && OneIncident(KeysOf(list), k)
    requires OneIncident(seen.Keys, k) && MapOf(list) == Keep(seen, cap)
    ensures |list| <= cap
    ensures forall j :: j in seen && j !in MapOf(list) ==> |list| == cap && forall e :: e in list ==> Newer(e.key, j)
  {
    hide Newer, MapOf, Top, Ordered, OneIncident, Apart;
    MapOfMembers(list);
    OrderedApart(list, k);
    CountKeys(list);
    assert KeysOf(list) == Top(seen.Keys, cap);
    TopSize(seen.Keys, k, cap);
    forall j | j in seen && j !in MapOf(list)
      ensures |list| == cap && forall e :: e in list ==> Newer(e.key, j)
    {
      DroppedIsOlder(seen.Keys, k, j, cap);
    }
  }
}
