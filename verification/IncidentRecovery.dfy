// What the journal keeps of the incidents: replaying it gives the stored ones,
// up to a sweep of those closed too long (storage/storage.go).

module IncidentRecovery {
  import opened Basics
  import opened EscalationModel
  import opened EventOrder
  import opened Incidents
  import opened JournalFile

  // Replaying upserts in file order: the last one of an incident stands.
  function ReplayedTable(file: seq<JournalEntry>): Table {
    if file == [] then map[] else
      var before, e := ReplayedTable(file[..|file| - 1]), file[|file| - 1];
      if e.IncidentEntry? then before[e.incident.key := e.incident] else before
  }

  // A file as compaction writes it: each incident once, in the order of a Go map.
  ghost predicate CompactedTable(file: seq<JournalEntry>, table: Table) { ReplayedTable(file) == table }

  // The file holds every stored incident as it is, and whatever else it holds had
  // already gone stale at time t.
  ghost predicate RebuildsTable(file: seq<JournalEntry>, table: Table, t: int, ttl: int) {
    var replayed := ReplayedTable(file);
    && (forall k :: k in table ==> k in replayed && replayed[k] == table[k])
    && (forall k :: k in replayed && k !in table ==> Stale(replayed[k], t, ttl))
  }

  // sweptTo: the latest time of any sweep so far.
  datatype History = History(table: Table, file: seq<JournalEntry>, sweptTo: int)

  datatype Action =
    | Ingested(source: string, incoming: Incoming, at: int)
    | Swept(now: int)
    | Acknowledged(source: string, id: nat, at: int)
    | Compacted(file: seq<JournalEntry>)
    | Restarted(now: int, file: seq<JournalEntry>)

  datatype Limits = Limits(cap: nat, ttl: int)

  ghost function Do(h: History, a: Action, l: Limits): (r: History)
    requires TableOk(h.table)
    ensures TableOk(r.table)
  {
    match a
    case Ingested(source, incoming, at) =>
      if !AllNumbered(incoming.doc.events) then h else
        var table := IngestOne(h.table, source, incoming, at, l.cap);
        h.(table := table, file := h.file + [IncidentEntry(table[KeyFor(source, incoming)])])
    case Swept(now) => h.(table := Sweep(h.table, now, l.ttl), sweptTo := Max(h.sweptTo, now))
    case Acknowledged(source, id, at) =>
      if !(exists k :: IsLatest(h.table, k, source, id)) then h else
        var k :| IsLatest(h.table, k, source, id);
        var table := Acknowledge(h.table, k, at);
        h.(table := table, file := h.file + [IncidentEntry(table[k])])
    case Compacted(file) => if CompactedTable(file, h.table) then h.(file := file) else h
    case Restarted(now, file) =>
      var table := Sweep(ReplayedTable(h.file), now, l.ttl);
      if now >= h.sweptTo && TableOk(table) && CompactedTable(file, table) then History(table, file, now) else h
  }

  lemma ReplayOne(file: seq<JournalEntry>, e: JournalEntry)
    ensures ReplayedTable(file + [e]) ==
      if e.IncidentEntry? then ReplayedTable(file)[e.incident.key := e.incident] else ReplayedTable(file)
  {
    assert (file + [e])[..|file|] == file;
  }

  lemma StaleLater(inc: StoredIncident, t: int, u: int, ttl: int)
    requires Stale(inc, t, ttl) && t <= u
    ensures Stale(inc, u, ttl)
  {}

  lemma UpsertRebuilds(file: seq<JournalEntry>, table: Table, inc: StoredIncident, t: int, ttl: int)
    requires RebuildsTable(file, table, t, ttl)
    ensures RebuildsTable(file + [IncidentEntry(inc)], table[inc.key := inc], t, ttl)
  {
    ReplayOne(file, IncidentEntry(inc));
  }

  lemma SweepRebuilds(file: seq<JournalEntry>, table: Table, t: int, now: int, ttl: int)
    requires RebuildsTable(file, table, t, ttl)
    ensures RebuildsTable(file, Sweep(table, now, ttl), Max(t, now), ttl)
  {}

  lemma StepRebuilds(h: History, a: Action, l: Limits)
    requires TableOk(h.table) && RebuildsTable(h.file, h.table, h.sweptTo, l.ttl)
    ensures RebuildsTable(Do(h, a, l).file, Do(h, a, l).table, Do(h, a, l).sweptTo, l.ttl)
  {
    hide TableOk, RebuildsTable, Stored, Sweep;
    match a
    case Ingested(source, incoming, at) =>
      if AllNumbered(incoming.doc.events) {
        UpsertRebuilds(h.file, h.table, Stored(h.table, source, incoming, at, l.cap), h.sweptTo, l.ttl);
        StoredKey(h.table, source, incoming, at, l.cap);
      }
    case Swept(now) => SweepRebuilds(h.file, h.table, h.sweptTo, now, l.ttl);
    case Acknowledged(source, id, at) =>
      if exists k :: IsLatest(h.table, k, source, id) {
        var k :| IsLatest(h.table, k, source, id) && Do(h, a, l).table == Acknowledge(h.table, k, at)
          && Do(h, a, l).file == h.file + [IncidentEntry(Acknowledge(h.table, k, at)[k])];
        KeyOfEntry(h.table, k, source, id);
        UpsertRebuilds(h.file, h.table, Acknowledge(h.table, k, at)[k], h.sweptTo, l.ttl);
      }
    case Compacted(file) => if CompactedTable(file, h.table) { CompactionRebuilds(file, h.table, h.sweptTo, l.ttl); }
    case Restarted(now, file) =>
      var table := Sweep(ReplayedTable(h.file), now, l.ttl);
      if CompactedTable(file, table) { CompactionRebuilds(file, table, now, l.ttl); }
  }

  lemma StoredKey(table: Table, source: string, incoming: Incoming, at: int, cap: nat)
    requires TableOk(table) && AllNumbered(incoming.doc.events)
    ensures Stored(table, source, incoming, at, cap).key == KeyFor(source, incoming)
  {}

  lemma KeyOfEntry(table: Table, k: IncidentKey, source: string, id: nat)
    requires TableOk(table) && IsLatest(table, k, source, id)
    ensures table[k].key == k
  {}

  lemma CompactionRebuilds(file: seq<JournalEntry>, table: Table, t: int, ttl: int)
    requires CompactedTable(file, table)
    ensures RebuildsTable(file, table, t, ttl)
  {}

  ghost function Run(actions: seq<Action>, l: Limits): (h: History)
    ensures TableOk(h.table)
  {
    if actions == [] then History(map[], [], 0) else Do(Run(actions[..|actions| - 1], l), actions[|actions| - 1], l)
  }

  lemma {:induction false} RunRebuilds(actions: seq<Action>, l: Limits)
    ensures RebuildsTable(Run(actions, l).file, Run(actions, l).table, Run(actions, l).sweptTo, l.ttl)
  {
    if actions == [] {
      assert ReplayedTable([]) == map[];
    } else {
      hide TableOk, RebuildsTable, Do;
      RunRebuilds(actions[..|actions| - 1], l);
      StepRebuilds(Run(actions[..|actions| - 1], l), actions[|actions| - 1], l);
    }
  }

  // After any run whatever, a restart at a time no earlier than the last sweep
  // has exactly the incidents the running store has after sweeping at that time.
  lemma RestartRecovers(actions: seq<Action>, l: Limits, now: int)
    requires now >= Run(actions, l).sweptTo
    ensures Sweep(ReplayedTable(Run(actions, l).file), now, l.ttl) == Sweep(Run(actions, l).table, now, l.ttl)
  {
    hide Run, TableOk;
    RunRebuilds(actions, l);
    var h := Run(actions, l);
    var replayed := ReplayedTable(h.file);
    forall k | k in replayed && k !in h.table ensures Stale(replayed[k], now, l.ttl) {
      StaleLater(replayed[k], h.sweptTo, now, l.ttl);
    }
  }
}
