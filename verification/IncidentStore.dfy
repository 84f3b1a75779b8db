// The part of MemoryStore that holds incidents (storage/storage.go).

module IncidentStore {
  import opened Basics
  import opened EscalationModel
  import opened EventOrder
  import opened EventListing
  import opened Incidents
  import opened JournalFile
  import opened IncidentRecovery

  // A source and an incident id; the source joins them with a line break.
  datatype IndexKey = IndexKey(source: string, id: nat)

  type Index = map<IndexKey, set<IncidentKey>>

  function IndexOf(k: IncidentKey): IndexKey { IndexKey(k.origin, k.id) }

  function Filed(index: Index, q: IndexKey): set<IncidentKey> { if q in index then index[q] else {} }

  // The index finds the incidents of every source and id, and keeps no empty sets.
  ghost predicate Indexed(table: Table, index: Index) {
    && (forall k :: k in table ==> k in Filed(index, IndexOf(k)))
    && (forall q, k :: q in index && k in index[q] ==> k in table && IndexOf(k) == q)
    && (forall q :: q in index ==> index[q] != {})
  }

  function IndexAdd(index: Index, k: IncidentKey): Index { index[IndexOf(k) := Filed(index, IndexOf(k)) + {k}] }

  function IndexRemove(index: Index, k: IncidentKey): Index {
    var left := Filed(index, IndexOf(k)) - {k};
    if left == {} then index - {IndexOf(k)} else index[IndexOf(k) := left]
  }

  lemma AddIndexed(table: Table, index: Index, inc: StoredIncident)
    requires Indexed(table, index)
    ensures Indexed(table[inc.key := inc], IndexAdd(index, inc.key))
  {}

  lemma RemoveIndexed(table: Table, index: Index, k: IncidentKey)
    requires Indexed(table, index) && k in table
    ensures Indexed(table - {k}, IndexRemove(index, k))
  {}

  lemma SameKeysIndexed(table: Table, index: Index, k: IncidentKey, inc: StoredIncident)
    requires Indexed(table, index) && k in table
    ensures Indexed(table[k := inc], index)
  {}

  lemma FiledAreCandidates(table: Table, index: Index, source: string, id: nat)
    requires Indexed(table, index)
    ensures forall k :: k in Filed(index, IndexKey(source, id)) <==> Candidate(table, k, source, id)
  {
    forall k ensures k in Filed(index, IndexKey(source, id)) <==> Candidate(table, k, source, id) {
      var q := IndexKey(source, id);
      if Candidate(table, k, source, id) {
        assert k in Filed(index, IndexOf(k)) && IndexOf(k) == q;
      }
      if k in Filed(index, q) {
        assert k in table && IndexOf(k) == q;
      }
    }
  }

  class IncidentStore {
    const eventCap: nat
    const closedTTL: int
    var incidents: Table
    var incidentEvents: map<IncidentKey, Events>
    var incidentIndex: Index

    // The two views of an incident's events agree, and the index is right.
    ghost predicate Valid()
      reads this
    {
      && TableOk(incidents) && incidentEvents.Keys == incidents.Keys && Indexed(incidents, incidentIndex)
      && forall k :: k in incidents ==> incidentEvents[k] == MapOf(incidents[k].events)
    }

    constructor (eventCap: nat, closedTTL: int)
      ensures Valid() && incidents == map[] && this.eventCap == eventCap && this.closedTTL == closedTTL
    {
      this.eventCap, this.closedTTL := eventCap, closedTTL;
      incidents, incidentEvents, incidentIndex := map[], map[], map[];
    }

    static method PutEvents(m: Events, k: IncidentKey, events: seq<Event>, at: int) returns (r: Events)
      ensures r == Put(m, k, events, at)
    {
      r := m;
      for i := 0 to |events|
        invariant r == Put(m, k, events[..i], at)
      {
        assert events[..i + 1][..i] == events[..i];
        var key := EventKey(k, events[i].cursor);
        r := r[key := IncidentEvent(key, events[i], at)];
      }
      assert events[..|events|] == events;
    }

    // One turn of the loop of IngestEscalations.
    method IngestIncident(source: string, incoming: Incoming, at: int, journal: Journal?)
      requires Valid() && AllNumbered(incoming.doc.events) && (journal != null ==> journal.Valid())
      modifies this`incidents, this`incidentEvents, this`incidentIndex, journal
      ensures Valid() && incidents == IngestOne(old(incidents), source, incoming, at, eventCap)
      ensures journal != null ==> (journal.Valid() &&
        journal.file == old(journal.file) + [IncidentEntry(incidents[KeyFor(source, incoming)])])
    {
      hide SumMap, MapOf, KeysOf, OneIncident, Ordered, Put, Keep, Indexed;
      var k, doc := KeyFor(source, incoming), incoming.doc;
      ghost var before := incidents;
      StoredOrderly(before, k);
      var events: Events := map[];
      if k in incidentEvents {
        events := incidentEvents[k];
      }
      assert events == EventsAt(before, k);
      PutOrderly(events, k, doc.events, at);
      events := PutEvents(events, k, doc.events, at);
      var list, kept := CapEvents(events, eventCap, k);
      assert kept == KeptEvents(before, k, doc.events, at, eventCap);
      SortedIs(list, kept, k);
      incidentEvents := incidentEvents[k := kept];
      var incident := StoredIncident(k, FirstNonEmpty(incoming.scrapePath, source), doc.title, doc.status,
                                     doc.expiresAt, doc.lastUpdatedAt, at, list);
      assert incident == Stored(before, source, incoming, at, eventCap);
      AddIndexed(before, incidentIndex, incident);
      incidents := incidents[k := incident];
      IndexIncident(incident);
      assert incidents == IngestOne(before, source, incoming, at, eventCap);
      if journal != null {
        journal.AppendEntry(IncidentEntry(incident));
      }
    }

    method IndexIncident(incident: StoredIncident)
      modifies this`incidentIndex
      ensures incidentIndex == IndexAdd(old(incidentIndex), incident.key)
    {
      var q := IndexOf(incident.key);
      if q !in incidentIndex {
        incidentIndex := incidentIndex[q := {}];
      }
      incidentIndex := incidentIndex[q := incidentIndex[q] + {incident.key}];
    }

    method IngestEscalations(source: string, incoming: seq<Incoming>, at: int, journal: Journal?)
      requires Valid() && AllIncomingNumbered(incoming) && (journal != null ==> journal.Valid())
      modifies this`incidents, this`incidentEvents, this`incidentIndex, journal
      ensures Valid() && incidents == Sweep(IngestAll(old(incidents), source, incoming, at, eventCap), at, closedTTL)
      ensures journal != null ==> (journal.Valid() &&
        journal.file == old(journal.file) + Upserts(old(incidents), source, incoming, at, eventCap))
    {
      hide TableOk, Indexed, IngestOne, AllNumbered, MapOf, SizeOf, IngestAll, Upserts;
      IngestNone(incidents, source, at, eventCap);
      for i := 0 to |incoming|
        invariant Valid() && incidents == IngestAll(old(incidents), source, incoming[..i], at, eventCap)
        invariant journal != null ==> (journal.Valid() &&
          journal.file == old(journal.file) + Upserts(old(incidents), source, incoming[..i], at, eventCap))
      {
        IngestNext(old(incidents), source, incoming, i, at, eventCap);
        IngestIncident(source, incoming[i], at, journal);
      }
      assert incoming[..|incoming|] == incoming;
      SweepClosedIncidents(at);
    }

    method SweepClosedIncidents(now: int)
      requires Valid()
      modifies this`incidents, this`incidentEvents, this`incidentIndex
      ensures Valid() && incidents == Sweep(old(incidents), now, closedTTL)
    {
      hide TableOk, MapOf, Indexed;
      var rest := incidents.Keys;
      ghost var before, gone: set<IncidentKey> := incidents, {};
      while rest != {}
        invariant rest <= before.Keys && Valid() && incidents == before - gone
        invariant forall k :: k in gone <==> k in before && k !in rest && Stale(before[k], now, closedTTL)
        decreases rest
      {
        var k :| k in rest;
        rest := rest - {k};
        var incident := incidents[k];
        if incident.status != Closed {
          continue;
        }
        var lastActivity := incident.lastUpdatedAt;
        if incident.observedAt > lastActivity {
          lastActivity := incident.observedAt;
        }
        if now - lastActivity <= closedTTL {
          continue;
        }
        gone := gone + {k};
        Remove(k);
      }
      SweptAre(before, gone, now, closedTTL);
    }

    method Remove(k: IncidentKey)
      requires Valid() && k in incidents
      modifies this`incidents, this`incidentEvents, this`incidentIndex
      ensures Valid() && incidents == old(incidents) - {k}
    {
      hide MapOf, Ordered, OneIncident, Indexed;
      RemoveIndexed(incidents, incidentIndex, k);
      incidents := incidents - {k};
      incidentEvents := incidentEvents - {k};
      UnindexIncident(k);
    }

    method UnindexIncident(k: IncidentKey)
      modifies this`incidentIndex
      ensures incidentIndex == IndexRemove(old(incidentIndex), k)
    {
      var q := IndexOf(k);
      if q in incidentIndex {
        incidentIndex := incidentIndex[q := incidentIndex[q] - {k}];
        if incidentIndex[q] == {} {
          incidentIndex := incidentIndex - {q};
        }
      }
    }

    // The incident acknowledged is the last created of that source and id.
    method AcknowledgeIncident(source: string, id: nat, at: int, now: int, journal: Journal?) returns (found: bool, ghost k: IncidentKey)
      requires Valid() && (journal != null ==> journal.Valid())
      modifies this`incidents, journal
      ensures Valid()
      ensures found ==> IsLatest(old(incidents), k, source, id)
      ensures found ==> incidents == Acknowledge(old(incidents), k, if at == ZERO_TIME then now else at)
      ensures !found ==> incidents == old(incidents) && forall j :: !Candidate(incidents, j, source, id)
      ensures journal != null ==> (journal.Valid() &&
        journal.file == old(journal.file) + (if found then [IncidentEntry(incidents[k])] else []))
    {
      hide MapOf, Ordered, OneIncident, SizeOf, Indexed;
      var candidates := Filed(incidentIndex, IndexKey(source, id));
      FiledAreCandidates(incidents, incidentIndex, source, id);
      if candidates == {} {
        return false, IncidentKey(source, id, 0);
      }
      var latest := LatestOf(candidates);
      var observedAt := at;
      if observedAt == ZERO_TIME {
        observedAt := now;
      }
      var incident := incidents[latest].(status := EscalationModel.Acknowledged, observedAt := observedAt);
      SameKeysIndexed(incidents, incidentIndex, latest, incident);
      incidents := incidents[latest := incident];
      if journal != null {
        journal.AppendEntry(IncidentEntry(incident));
      }
      return true, latest;
    }

    static method LatestOf(candidates: set<IncidentKey>) returns (k: IncidentKey)
      requires candidates != {}
      ensures k in candidates && forall j :: j in candidates ==> j.createdAt <= k.createdAt
    {
      k :| k in candidates;
      var rest := candidates - {k};
      while rest != {}
        invariant rest <= candidates && k in candidates
        invariant forall j :: j in candidates - rest ==> j.createdAt <= k.createdAt
        decreases rest
      {
        var j :| j in rest;
        rest := rest - {j};
        if j.createdAt > k.createdAt {
          k := j;
        }
      }
    }

    method ReplayIncident(incident: StoredIncident)
      requires Valid() && Ordered(incident.events) && OneIncident(KeysOf(incident.events), incident.key)
      modifies this`incidents, this`incidentEvents, this`incidentIndex
      ensures Valid() && incidents == old(incidents)[incident.key := incident]
    {
      hide Ordered, OneIncident, KeysOf, Indexed;
      var events: Events := map[];
      for i := 0 to |incident.events|
        invariant events == MapOf(incident.events[..i])
      {
        assert incident.events[..i + 1][..i] == incident.events[..i];
        events := events[incident.events[i].key := incident.events[i]];
      }
      assert incident.events[..|incident.events|] == incident.events;
      incidentEvents := incidentEvents[incident.key := events];
      AddIndexed(incidents, incidentIndex, incident);
      incidents := incidents[incident.key := incident];
      IndexIncident(incident);
    }

    // An incident with its events sorted again, which is as it is stored.
    method WithEvents(k: IncidentKey) returns (incident: StoredIncident)
      requires Valid() && k in incidents
      ensures incident == incidents[k] && incident.key == k
    {
      hide MapOf, Ordered, OneIncident, KeysOf, Indexed;
      StoredOrderly(incidents, k);
      var list := SortEvents(incidentEvents[k], k);
      SortedIs(list, incidentEvents[k], k);
      SortedIs(incidents[k].events, incidentEvents[k], k);
      incident := incidents[k].(events := list);
    }

    // The part of compactJournal that lists the incidents.
    method ListIncidents() returns (entries: seq<JournalEntry>)
      requires Valid()
      ensures ReplayedTable(entries) == incidents
      ensures forall e :: e in entries ==> e.IncidentEntry? && e.incident.key in incidents && e.incident == incidents[e.incident.key]
    {
      hide Valid, ReplayedTable;
      entries := [];
      assert ReplayedTable(entries) == map[] by { NothingReplayed(); }
      var rest := incidents.Keys;
      while rest != {}
        invariant rest <= incidents.Keys && ReplayedTable(entries) == incidents - rest
        invariant forall e :: e in entries ==> e.IncidentEntry? && e.incident.key in incidents && e.incident == incidents[e.incident.key]
        decreases rest
      {
        var k :| k in rest;
        rest := rest - {k};
        var incident := WithEvents(k);
        ReplayOne(entries, IncidentEntry(incident));
        entries := entries + [IncidentEntry(incident)];
      }
    }
  }

  lemma NothingReplayed()
    ensures ReplayedTable([]) == map[]
  {}

  // What an ingest appends to the journal.
  ghost function Upserts(table: Table, source: string, incoming: seq<Incoming>, at: int, cap: nat): seq<JournalEntry>
    requires TableOk(table) && AllIncomingNumbered(incoming)
  {
    if incoming == [] then [] else
      var n := |incoming| - 1;
      Upserts(table, source, incoming[..n], at, cap) +
      [IncidentEntry(IngestAll(table, source, incoming, at, cap)[KeyFor(source, incoming[n])])]
  }

  lemma IngestNone(table: Table, source: string, at: int, cap: nat)
    requires TableOk(table)
    ensures IngestAll(table, source, [], at, cap) == table && Upserts(table, source, [], at, cap) == []
  {}

  lemma IngestNext(table: Table, source: string, incoming: seq<Incoming>, i: nat, at: int, cap: nat)
    requires TableOk(table) && AllIncomingNumbered(incoming) && i < |incoming|
    ensures AllNumbered(incoming[i].doc.events)
    ensures IngestAll(table, source, incoming[..i + 1], at, cap) ==
      IngestOne(IngestAll(table, source, incoming[..i], at, cap), source, incoming[i], at, cap)
    ensures Upserts(table, source, incoming[..i + 1], at, cap) == Upserts(table, source, incoming[..i], at, cap)
      + [IncidentEntry(IngestAll(table, source, incoming[..i + 1], at, cap)[KeyFor(source, incoming[i])])]
  {
    assert incoming[..i + 1][..i] == incoming[..i];
  }

  lemma {:induction false} UpsertsRebuild(file: seq<JournalEntry>, table: Table, source: string, incoming: seq<Incoming>, at: int, cap: nat, t: int, ttl: int)
    requires TableOk(table) && AllIncomingNumbered(incoming) && RebuildsTable(file, table, t, ttl)
    ensures RebuildsTable(file + Upserts(table, source, incoming, at, cap), IngestAll(table, source, incoming, at, cap), t, ttl)
    ensures forall e :: e in Upserts(table, source, incoming, at, cap) ==>
      e.IncidentEntry? && Ordered(e.incident.events) && OneIncident(KeysOf(e.incident.events), e.incident.key)
  {
    hide RebuildsTable, Stored, Ordered, OneIncident, KeysOf, AllNumbered;
    if incoming == [] {
      assert file + [] == file;
    } else {
      var n := |incoming| - 1;
      var rest, last := incoming[..n], incoming[n];
      assert forall i :: 0 <= i < n ==> rest[i] == incoming[i];
      assert AllNumbered(incoming[n].doc.events);
      UpsertsRebuild(file, table, source, rest, at, cap, t, ttl);
      var before, more := IngestAll(table, source, rest, at, cap), Upserts(table, source, rest, at, cap);
      var stored := Stored(before, source, last, at, cap);
      StoredKey(before, source, last, at, cap);
      UpsertRebuilds(file + more, before, stored, t, ttl);
      assert file + more + [IncidentEntry(stored)] == file + Upserts(table, source, incoming, at, cap);
    }
  }

  lemma SweptAre(table: Table, gone: set<IncidentKey>, now: int, ttl: int)
    requires forall k :: k in gone <==> k in table && Stale(table[k], now, ttl)
    ensures table - gone == Sweep(table, now, ttl)
  {}
}
