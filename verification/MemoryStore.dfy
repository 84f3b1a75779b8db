// The store: current states, bounded history, incidents and mutes, and the
// journal that carries the last three across a restart (MemoryStore in
// storage/storage.go).

module MemoryStore {
  import opened Basics
  import opened TransitionRing
  import opened Timelines
  import opened EventOrder
  import opened EventListing
  import opened Incidents
  import opened JournalFile
  import opened JournalMix
  import Snapshots
  import F = Flatten
  import FT = FlattenTree
  import D = DocumentScopes
  import DS = DocumentStates
  import R = RingRecovery
  import I = IncidentRecovery
  import M = MuteRecovery
  import O = RingOffers
  import TS = TimelineStore
  import IS = IncidentStore
  import MS = MuteStore

  class MemoryStore {
    const hash: F.Hash
    const evictionFallback: int
    const timelines: TS.TimelineStore
    const incidents: IS.IncidentStore
    const mutes: MS.MuteStore
    const journal: Journal?
    var details: map<string, F.Detail>
    var docScopeIdentities: map<D.DocKey, set<string>>
    var docLastSeen: map<D.DocKey, int>
    var docIntervals: map<D.DocKey, int>
    ghost var dropped: bool
    ghost var cut: bool
    ghost var sweptTo: int
    ghost var clock: int

    ghost function Current(): D.Scopes
      reads this`details, this`docScopeIdentities, this`docLastSeen, this`docIntervals
    {
      D.Scopes(details, docScopeIdentities, docLastSeen, docIntervals)
    }

    ghost function Durable(): L3
      reads this`dropped, this`cut, this`sweptTo, this`clock, timelines`timelines, timelines.timelines.Values, incidents`incidents, mutes
    {
      L3(timelines.Contents(), incidents.incidents, mutes.mutes, dropped, cut, sweptTo, clock)
    }

    function Limits(): Bounds { Bounds(timelines.cap, timelines.backstop, incidents.closedTTL) }

    ghost predicate Parts()
      reads timelines, timelines.timelines.Values, incidents, mutes
    {
      && F.NeverEmpty(hash) && timelines.Valid() && incidents.Valid()
      && forall id :: id in mutes.mutes ==> id != "" && mutes.mutes[id].identity == id
    }

    // With a journal, its file always suffices to recover what is to last.
    ghost predicate Valid()
      reads this, timelines, timelines.timelines.Values, incidents, mutes, journal
    {
      Parts() && (journal != null ==> journal.Valid() && Recovers(journal.file, Durable(), Limits()))
    }

    // The store before anything is replayed.
    constructor Blank(hash: F.Hash, evictionFallback: int, cap: nat, backstop: nat, eventCap: nat, closedTTL: int, journal: Journal?, now: int)
      requires F.NeverEmpty(hash) && cap > 0
      ensures Parts() && Current() == D.NO_SCOPES && Durable() == L3(map[], map[], map[], false, false, now, now)
      ensures this.journal == journal && this.hash == hash && this.evictionFallback == evictionFallback
      ensures timelines.cap == cap && timelines.backstop == backstop && incidents.closedTTL == closedTTL
      ensures fresh(timelines) && fresh(incidents) && fresh(mutes) && timelines.timelines == map[]
    {
      this.hash, this.evictionFallback, this.journal := hash, evictionFallback, journal;
      timelines := new TS.TimelineStore(cap, backstop);
      incidents := new IS.IncidentStore(eventCap, closedTTL);
      mutes := new MS.MuteStore();
      details, docScopeIdentities, docLastSeen, docIntervals := map[], map[], map[], map[];
      dropped, cut, sweptTo, clock := false, false, now, now;
    }

    // NewMemoryStore: replays the journal, if there is one, and compacts it.
    static method NewMemoryStore(hash: F.Hash, evictionFallback: int, cap: nat, backstop: nat, eventCap: nat, closedTTL: int, journal: Journal?, now: int)
      returns (s: MemoryStore)
      requires F.NeverEmpty(hash) && cap > 0 && (journal != null ==> WellFormed(journal.file))
      modifies journal
      ensures s.Valid() && s.Current() == D.NO_SCOPES && s.journal == journal && s.timelines.cap == cap
      ensures journal == null ==> s.Durable() == L3(map[], map[], map[], false, false, now, now)
      ensures journal != null ==> s.Restored(old(journal.file), now)
    {
      hide WellFormed, Recovers, RingsOk, TS.TimelineStore.Contents, TS.TimelineStore.Valid, IS.IncidentStore.Valid, F.NeverEmpty;
      hide MemoryStore.Restored;
      s := new MemoryStore.Blank(hash, evictionFallback, cap, backstop, eventCap, closedTTL, journal, now);
      if journal != null {
        s.ReplayJournal(now);
      }
    }

    // What the journal's file held is in the store again: the rings within
    // retention, cut to the backstop; the incidents not stale; the mutes still
    // active.
    ghost predicate Restored(file: seq<JournalEntry>, now: int)
      requires journal != null
      reads this`dropped, this`cut, this`sweptTo, this`clock, timelines`timelines, timelines.timelines.Values, incidents`incidents, mutes
    {
      && !dropped && !cut && sweptTo == now && clock == now
      && R.Restarted(file, now - journal.retention, timelines.cap, timelines.backstop, timelines.Contents())
      && incidents.incidents == Sweep(I.ReplayedTable(file), now, incidents.closedTTL)
      && mutes.mutes == M.ReplayedMutes(file, now)
    }

    // One turn of the first loop of replayJournal.
    method ReplayEntry(entry: JournalEntry, now: int, transitions: map<string, seq<Transition>>) returns (after: map<string, seq<Transition>>)
      requires incidents.Valid()
      requires entry.IncidentEntry? ==> Ordered(entry.incident.events) && OneIncident(KeysOf(entry.incident.events), entry.incident.key)
      modifies incidents`incidents, incidents`incidentEvents, incidents`incidentIndex, mutes
      ensures incidents.Valid()
      ensures after == if entry.TransitionEntry? && entry.identity != "" then
          transitions[entry.identity := (if entry.identity in transitions then transitions[entry.identity] else []) + [entry.transition]]
        else transitions
      ensures incidents.incidents == if entry.IncidentEntry? then old(incidents.incidents)[entry.incident.key := entry.incident] else old(incidents.incidents)
      ensures mutes.mutes == if entry.MuteEntry? && entry.mute.identity != "" && entry.mute.expiresAt > now
        then old(mutes.mutes)[entry.mute.identity := entry.mute] else old(mutes.mutes)
    {
      after := transitions;
      match entry
      case TransitionEntry(identity, transition) =>
        if identity != "" {
          var list := if identity in after then after[identity] else [];
          after := after[identity := list + [transition]];
        }
      case IncidentEntry(incident) => incidents.ReplayIncident(incident);
      case MuteEntry(mute) => mutes.Replay(mute, now);
    }

    method ReplayJournal(now: int)
      requires Parts() && journal != null && WellFormed(journal.file)
      requires timelines.Contents() == map[] && incidents.incidents == map[] && mutes.mutes == map[]
      requires clock == now && sweptTo == now
      modifies this`dropped, this`cut, this`clock, this`sweptTo, timelines`timelines, timelines`transitionTotal, timelines.timelines.Values
      modifies incidents`incidents, incidents`incidentEvents, incidents`incidentIndex, mutes, journal
      ensures Valid() && Restored(old(journal.file), now)
    {
      hide WellFormed, Recovers, RingsOk, Evicted, Sweep, R.Replayed, TS.Wanted, ReadTransitions, R.TransitionsFor, F.NeverEmpty;
      hide I.ReplayedTable, M.ReplayedMutes;
      hide TS.TimelineStore.Contents, TS.TimelineStore.Valid, IS.IncidentStore.Valid;
      ghost var file := journal.file;
      var cutoff := now - journal.retention;
      var transitions := ReadJournal(now);
      ReadIsReplayed(file, cutoff, timelines.cap);
      timelines.ReplayTransitions(transitions, cutoff);
      incidents.SweepClosedIncidents(now);
      ReplayedKeyed(file, now);
      dropped, cut := false, false;
      CompactJournal(now);
    }

    // The first loop of replayJournal.
    method ReadJournal(now: int) returns (transitions: map<string, seq<Transition>>)
      requires incidents.Valid() && journal != null && WellFormed(journal.file)
      requires incidents.incidents == map[] && mutes.mutes == map[]
      modifies incidents`incidents, incidents`incidentEvents, incidents`incidentIndex, mutes
      ensures incidents.Valid() && transitions == ReadTransitions(journal.file)
      ensures incidents.incidents == I.ReplayedTable(journal.file) && mutes.mutes == M.ReplayedMutes(journal.file, now)
    {
      hide WellFormed, Ordered, OneIncident, KeysOf, IS.IncidentStore.Valid, ReadTransitions;
      var file := journal.file;
      transitions := map[];
      NothingRead(now);
      for i := 0 to |file|
        invariant incidents.Valid() && transitions == ReadTransitions(file[..i])
        invariant incidents.incidents == I.ReplayedTable(file[..i])
        invariant mutes.mutes == M.ReplayedMutes(file[..i], now)
      {
        ReadNext(file, i, now);
        EntryWellFormed(file, i);
        transitions := ReplayEntry(file[i], now, transitions);
      }
      assert file[..|file|] == file;
    }

    method CompactJournal(now: int)
      requires Parts() && journal != null && now >= clock
      modifies journal, this`dropped, this`cut, this`clock
      ensures Valid() && Durable() == old(Durable()).(dropped := false, cut := false, clock := now)
    {
      hide Recovers, F.NeverEmpty, TS.TimelineStore.Contents, TS.TimelineStore.Valid, IS.IncidentStore.Valid;
      var entries := ListEntries(now);
      journal.Rewrite(entries);
      dropped, cut, clock := false, false, now;
    }

    // The entries compactJournal writes.
    method ListEntries(now: int) returns (entries: seq<JournalEntry>)
      requires Parts() && now >= clock
      ensures Recovers(entries, Durable().(dropped := false, cut := false, clock := now), Limits())
    {
      hide WellFormed, Recovers, RingsOk, M.CompactedMutes, R.CompactedRings, F.NeverEmpty;
      hide TS.TimelineStore.Contents, TS.TimelineStore.Valid, IS.IncidentStore.Valid;
      var rings := timelines.ListRings();
      var listed := incidents.ListIncidents();
      var active := mutes.ListMutes(now);
      ListsApart(rings, listed, active);
      TableOfValid(incidents);
      ListedWellFormed(listed, incidents.incidents);
      RingsOfValid(timelines);
      CompactedActive(active, mutes.mutes, now);
      Compacted(rings, listed, active, Durable(), now, Limits());
      entries := rings + listed + active;
    }

    method CompactIfNeeded(now: int)
      requires Valid() && now >= clock
      modifies journal, this`dropped, this`cut, this`clock
      ensures Valid() && Durable() == old(Durable()).(dropped := dropped, cut := cut, clock := clock) && (dropped ==> old(dropped)) && (cut ==> old(cut)) && clock <= now
    {
      hide Recovers, F.NeverEmpty, TS.TimelineStore.Valid, IS.IncidentStore.Valid, TS.TimelineStore.Contents;
      if journal != null && journal.NeedsCompaction() {
        CompactJournal(now);
      }
    }

    method IngestEscalations(source: string, incoming: seq<Incoming>, observedAt: int, now: int)
      requires Valid() && AllIncomingNumbered(incoming) && now >= clock
      modifies incidents`incidents, incidents`incidentEvents, incidents`incidentIndex, journal, this`dropped, this`cut, this`clock, this`sweptTo
      ensures Valid() && Current() == old(Current()) && TableOk(old(incidents.incidents))
      ensures var at := if observedAt == ZERO_TIME then now else observedAt;
        Durable() == old(Durable()).(
          incidents := Sweep(IngestAll(old(incidents.incidents), source, incoming, at, incidents.eventCap), at, incidents.closedTTL),
          sweptTo := Max(old(sweptTo), at), dropped := dropped, cut := cut, clock := clock)
      ensures (dropped ==> old(dropped)) && (cut ==> old(cut))
    {
      hide Recovers, F.NeverEmpty, TS.TimelineStore.Valid, IS.IncidentStore.Valid, TS.TimelineStore.Contents, IngestAll, IS.Upserts, Sweep;
      TableOfValid(incidents);
      var at := observedAt;
      if at == ZERO_TIME {
        at := now;
      }
      ghost var before := Durable();
      if journal != null { Delivered(journal.file, before, source, incoming, at, incidents.eventCap, Limits()); }
      incidents.IngestEscalations(source, incoming, at, journal);
      sweptTo := Max(sweptTo, at);
      CompactIfNeeded(now);
    }

    method AcknowledgeIncident(source: string, id: nat, at: int, now: int) returns (found: bool, ghost k: IncidentKey)
      requires Valid()
      modifies incidents`incidents, journal
      ensures Valid() && (found ==> IsLatest(old(incidents.incidents), k, source, id))
      ensures Durable() == old(Durable()).(incidents :=
        if found then Incidents.Acknowledge(old(incidents.incidents), k, if at == ZERO_TIME then now else at) else old(incidents.incidents))
      ensures !found ==> forall j :: !Candidate(old(incidents.incidents), j, source, id)
    {
      hide Recovers, F.NeverEmpty, TS.TimelineStore.Valid, IS.IncidentStore.Valid, TS.TimelineStore.Contents;
      hide Incidents.Acknowledge, Incidents.TableOk, Ordered, OneIncident, KeysOf;
      TableOfValid(incidents);
      ghost var before := Durable();
      found, k := incidents.AcknowledgeIncident(source, id, at, now, journal);
      if journal != null {
        if found {
          AcknowledgedOk(before.incidents, k, if at == ZERO_TIME then now else at);
          OneUpserted(old(journal.file), before, incidents.incidents[k], Limits());
        } else {
          assert old(journal.file) + [] == old(journal.file);
        }
      }
    }

    method UpsertMute(mute: Mute, now: int) returns (accepted: Result<Mute>)
      requires Valid() && now >= clock
      modifies mutes, journal, this`dropped, this`cut, this`clock
      ensures Valid() && accepted.Ok? == (mute.identity != "" && MS.KnownStatus(mute.status) && mute.expiresAt > now)
      ensures accepted.Ok? ==>
        accepted.value == mute.(updatedAt := now, createdAt := if mute.createdAt == ZERO_TIME then now else mute.createdAt)
      ensures Durable() == old(Durable()).(dropped := dropped, cut := cut, clock := clock, mutes :=
        if accepted.Ok? then M.Active(old(mutes.mutes)[mute.identity := accepted.value], now) else old(mutes.mutes))
      ensures (dropped ==> old(dropped)) && (cut ==> old(cut))
    {
      hide Valid, M.Active, TS.TimelineStore.Contents;
      accepted := StoreMute(mute, now);
      if accepted.Ok? {
        CompactIfNeeded(now);
      }
    }

    // UpsertMute up to the compaction.
    method StoreMute(mute: Mute, now: int) returns (accepted: Result<Mute>)
      requires Valid() && now >= clock
      modifies mutes, journal, this`clock
      ensures Valid() && accepted.Ok? == (mute.identity != "" && MS.KnownStatus(mute.status) && mute.expiresAt > now) && clock <= now
      ensures accepted.Ok? ==>
        accepted.value == mute.(updatedAt := now, createdAt := if mute.createdAt == ZERO_TIME then now else mute.createdAt)
      ensures Durable() == old(Durable()).(clock := clock, mutes :=
        if accepted.Ok? then M.Active(old(mutes.mutes)[mute.identity := accepted.value], now) else old(mutes.mutes))
    {
      hide Recovers, F.NeverEmpty, TS.TimelineStore.Valid, IS.IncidentStore.Valid, TS.TimelineStore.Contents, M.Active;
      ghost var before := Durable();
      accepted := mutes.Upsert(mute, now, journal);
      if accepted.Err? {
        if journal != null { assert old(journal.file) + [] == old(journal.file); }
        return;
      }
      UpsertedKeyed(before.mutes, accepted.value, now);
      if journal != null { MuteUpserted(old(journal.file), before, accepted.value, now, Limits()); }
      clock := now;
    }

    method DeleteMute(identity: string, now: int)
      requires Valid() && now >= clock
      modifies mutes, journal, this`dropped, this`cut, this`clock
      ensures Valid() && (dropped ==> old(dropped)) && (cut ==> old(cut))
      ensures Durable() == old(Durable()).(dropped := dropped, cut := cut, clock := clock, mutes :=
        if identity in old(mutes.mutes) then M.Active(old(mutes.mutes) - {identity}, now) else old(mutes.mutes))
    {
      hide Recovers, F.NeverEmpty, TS.TimelineStore.Valid, IS.IncidentStore.Valid, TS.TimelineStore.Contents;
      if identity !in mutes.mutes {
        return;
      }
      var found := mutes.Delete(identity);
      var expired := mutes.SweepExpired(now);
      clock := now;
      if journal != null {
        CompactJournal(now);
      }
    }

    // dropIdentity.
    method DropIdentity(identity: string)
      requires Valid()
      modifies this`details, this`dropped, timelines`timelines, timelines`transitionTotal
      ensures Valid() && details == old(details) - {identity} && timelines.timelines == old(timelines.timelines) - {identity}
      ensures Durable() == old(Durable()).(rings := old(Durable()).rings - {identity}, dropped := old(dropped) || identity in old(timelines.timelines))
    {
      hide Recovers, RingsOk, F.NeverEmpty, TS.TimelineStore.Contents, TS.TimelineStore.Valid, IS.IncidentStore.Valid;
      ghost var before := Durable();
      details := details - {identity};
      RingsOfValid(timelines);
      ContentsKeys(timelines);
      if journal != null { RingDropped(journal.file, before, identity, Limits()); }
      dropped := dropped || identity in timelines.timelines;
      timelines.DropRing(identity);
    }

    method DropIdentities(ids: set<string>)
      requires Valid()
      modifies this`details, this`dropped, timelines`timelines, timelines`transitionTotal
      ensures Valid() && details == old(details) - ids && timelines.timelines == old(timelines.timelines) - ids
      ensures Durable() == old(Durable()).(rings := old(Durable()).rings - ids, dropped := dropped) && (old(dropped) ==> dropped)
      ensures timelines.Contents() == old(timelines.Contents()) - ids
    {
      hide Recovers, F.NeverEmpty, TS.TimelineStore.Valid, IS.IncidentStore.Valid, TS.TimelineStore.Contents;
      var rest := ids;
      while rest != {}
        invariant rest <= ids && Valid() && details == old(details) - (ids - rest)
        invariant timelines.timelines == old(timelines.timelines) - (ids - rest)
        invariant Durable() == old(Durable()).(rings := old(Durable()).rings - (ids - rest), dropped := dropped) && (old(dropped) ==> dropped)
        decreases rest
      {
        ghost var some := SomeElement(rest);
        var id :| id in rest;
        DropIdentity(id);
        rest := rest - {id};
      }
      assert ids - {} == ids;
    }

    // One state of a document: its detail and its transitions.
    method StoreEntry(entry: F.Entry)
      requires Valid() && entry.detail.identity != "" && entry.transitions != []
      modifies this`details, this`cut, timelines`timelines, timelines`transitionTotal, timelines.timelines.Values, journal
      ensures Valid() && details == D.PutDetail(old(details), entry.detail)
      ensures forall id :: id in timelines.timelines ==>
        fresh(timelines.timelines[id]) || (id in old(timelines.timelines) && timelines.timelines[id] == old(timelines.timelines[id]))
      ensures Durable() == old(Durable()).(rings := timelines.Contents(), cut := cut)
      ensures Evicted(Merged(old(timelines.Contents()), entry.detail.identity, entry.transitions, timelines.cap), timelines.Contents(), timelines.backstop)
      ensures cut == (old(cut) || Total(Merged(old(timelines.Contents()), entry.detail.identity, entry.transitions, timelines.cap)) > timelines.backstop)
    {
      hide Valid, Evicted, Total, Merged, Durable;
      var detail := entry.detail;
      if detail.identity in details {
        detail := detail.(firstSeenAt := details[detail.identity].firstSeenAt);
      }
      StoreDetail(detail);
      StoreTransitions(detail.identity, entry.transitions);
    }

    // StateTimeline: newest first, and empty for a known state without a ring.
    method StateTimeline(identity: string) returns (r: Result<seq<Transition>>)
      requires Valid()
      ensures r.Err? <==> identity !in details && identity !in timelines.Contents()
      ensures r.Ok? ==> |r.value| == |RingOf(timelines.Contents(), identity)|
      ensures r.Ok? ==> forall k :: 0 <= k < |r.value| ==> r.value[k] == RingOf(timelines.Contents(), identity)[|r.value| - 1 - k]
    {
      hide Recovers, RingsOk, F.NeverEmpty, TS.TimelineStore.Valid, IS.IncidentStore.Valid;
      ContentsKeys(timelines);
      if identity !in timelines.timelines && identity !in details {
        return Err("not found");
      }
      var newestFirst := timelines.StateTimeline(identity);
      return Ok(newestFirst);
    }

    method StoreDetail(detail: F.Detail)
      requires Valid()
      modifies this`details
      ensures Valid() && details == old(details)[detail.identity := detail]
    {
      hide Recovers, F.NeverEmpty, TS.TimelineStore.Valid, IS.IncidentStore.Valid, TS.TimelineStore.Contents;
      details := details[detail.identity := detail];
    }

    method StoreTransitions(id: string, xs: seq<Transition>)
      requires Valid() && id != "" && xs != []
      modifies this`cut, timelines`timelines, timelines`transitionTotal, timelines.timelines.Values, journal
      ensures Valid()
      ensures forall id :: id in timelines.timelines ==>
        fresh(timelines.timelines[id]) || (id in old(timelines.timelines) && timelines.timelines[id] == old(timelines.timelines[id]))
      ensures Durable() == old(Durable()).(rings := timelines.Contents(), cut := cut)
      ensures Evicted(Merged(old(timelines.Contents()), id, xs, timelines.cap), timelines.Contents(), timelines.backstop)
      ensures cut == (old(cut) || Total(Merged(old(timelines.Contents()), id, xs, timelines.cap)) > timelines.backstop)
    {
      hide Recovers, F.NeverEmpty, TS.TimelineStore.Valid, IS.IncidentStore.Valid, TS.TimelineStore.Contents, Evicted, Total, Merged, RingsOk;
      ghost var before := Durable();
      RingsOfValid(timelines);
      timelines.AppendTransitions(id, xs, journal);
      if journal != null {
        TransitionsMerged(old(journal.file), before, id, xs, timelines.Contents(), Limits());
      }
      cut := cut || Total(Merged(before.rings, id, xs, timelines.cap)) > timelines.backstop;
    }

    // The loop of IngestDocument over the states of a document.
    method StoreEntries(entries: seq<F.Entry>)
      requires Valid() && Storable(entries)
      modifies this`details, this`cut, timelines`timelines, timelines`transitionTotal, timelines.timelines.Values, journal
      ensures Valid() && details == D.PutDetails(old(details), entries)
      ensures Durable() == old(Durable()).(rings := timelines.Contents(), cut := cut) && (old(cut) ==> cut)
      ensures timelines.Contents().Keys <= old(timelines.Contents()).Keys + D.IdentitiesOf(entries)
      ensures Total(MergeAll(old(timelines.Contents()), entries, timelines.cap)) <= timelines.backstop ==>
        timelines.Contents() == MergeAll(old(timelines.Contents()), entries, timelines.cap) && cut == old(cut)
      ensures Kept(old(timelines.Contents()), entries, timelines.Contents(), timelines.cap, timelines.backstop)
    {
      hide Valid, Total, Merged, MergeAll, Kept, D.PutDetail, D.PutDetails, D.IdentitiesOf, Evicted, TS.TimelineStore.Contents;
      ghost var before := timelines.Contents();
      NothingStored(details, before, timelines.cap);
      KeptAtFirst(before, timelines.cap, timelines.backstop);
      RingsOfValidStore(this);
      for i := 0 to |entries|
        invariant Valid() && details == D.PutDetails(old(details), entries[..i])
        invariant forall id :: id in timelines.timelines ==>
          fresh(timelines.timelines[id]) || (id in old(timelines.timelines) && timelines.timelines[id] == old(timelines.timelines[id]))
        invariant Durable() == old(Durable()).(rings := timelines.Contents(), cut := cut) && (old(cut) ==> cut)
        invariant timelines.Contents().Keys <= before.Keys + D.IdentitiesOf(entries[..i])
        invariant Total(MergeAll(before, entries[..i], timelines.cap)) <= timelines.backstop ==>
          timelines.Contents() == MergeAll(before, entries[..i], timelines.cap) && cut == old(cut)
        invariant Kept(before, entries[..i], timelines.Contents(), timelines.cap, timelines.backstop)
      {
        ghost var rings := timelines.Contents();
        RingsOfValidStore(this);
        StoreEntry(entries[i]);
        StoredNext(old(details), before, rings, timelines.Contents(), entries, i, timelines.cap, timelines.backstop);
        KeptNext(before, rings, timelines.Contents(), entries, i, timelines.cap, timelines.backstop);
      }
      assert entries[..|entries|] == entries;
    }

    method DropScope(k: D.DocKey)
      requires Valid()
      modifies this`details, this`docScopeIdentities, this`docLastSeen, this`docIntervals, this`dropped, timelines`timelines, timelines`transitionTotal
      ensures Valid() && Current() == D.EvictScopes(old(Current()), {k})
      ensures timelines.timelines == old(timelines.timelines) - D.ScopeOf(old(docScopeIdentities), k)
      ensures Durable() == old(Durable()).(rings := old(Durable()).rings - D.ScopeOf(old(docScopeIdentities), k), dropped := dropped)
      ensures old(dropped) ==> dropped
    {
      hide Durable, Recovers, Parts;
      OneScope(docScopeIdentities, k);
      DropIdentities(D.ScopeOf(docScopeIdentities, k));
      docScopeIdentities := docScopeIdentities - {k};
      docLastSeen := docLastSeen - {k};
      docIntervals := docIntervals - {k};
    }

    method SweepExpiredScopes(current: D.DocKey, now: int)
      requires Valid()
      modifies this`details, this`docScopeIdentities, this`docLastSeen, this`docIntervals, this`dropped, timelines`timelines, timelines`transitionTotal
      ensures var silent := D.SilentKeys(old(Current()), current, now, evictionFallback);
        && Valid() && Current() == D.EvictScopes(old(Current()), silent)
        && timelines.timelines == old(timelines.timelines) - D.Covered(old(docScopeIdentities), silent)
        && details == old(details) - D.Covered(old(docScopeIdentities), silent)
        && timelines.Contents() == old(timelines.Contents()) - D.Covered(old(docScopeIdentities), silent)
        && Durable() == old(Durable()).(rings := timelines.Contents(), dropped := dropped)
      ensures old(dropped) ==> dropped
    {
      hide Valid, TS.TimelineStore.Contents, D.EvictScopes, D.Covered;
      ghost var before, rings := Current(), Durable().rings;
      ghost var gone: set<D.DocKey> := {};
      var rest := docLastSeen.Keys;
      NothingEvictedYet(before, timelines.timelines, rings);
      while rest != {}
        invariant rest <= before.lastSeen.Keys && rest !! gone && Valid()
        invariant Current() == D.EvictScopes(before, gone)
        invariant forall k :: k in gone <==> k in before.lastSeen && k !in rest && D.Silent(before, k, current, now, evictionFallback)
        invariant timelines.timelines == old(timelines.timelines) - D.Covered(before.identities, gone)
        invariant Durable() == old(Durable()).(rings := rings - D.Covered(before.identities, gone), dropped := dropped) && (old(dropped) ==> dropped)
        decreases rest
      {
        ghost var some := SomeElement(rest);
        var k :| k in rest;
        rest := rest - {k};
        EvictNext(before, gone, k);
        if k == current {
          continue;
        }
        var ttl := evictionFallback;
        if k in docIntervals {
          ttl := docIntervals[k] * D.EVICTION_INTERVAL_FACTOR;
        }
        if now - docLastSeen[k] <= ttl {
          continue;
        }
        MinusTwice(old(timelines.timelines), D.Covered(before.identities, gone), D.ScopeOf(docScopeIdentities, k));
        MinusTwice(rings, D.Covered(before.identities, gone), D.ScopeOf(docScopeIdentities, k));
        DropScope(k);
        gone := gone + {k};
      }
      assert gone == D.SilentKeys(before, current, now, evictionFallback);
      EvictedDetails(before, gone);
    }

    // The bookkeeping of IngestDocument for the document's source.
    method NoteSource(key: D.DocKey, ids: set<string>, at: int)
      requires Valid()
      modifies this`docScopeIdentities, this`docLastSeen, this`docIntervals
      ensures Valid()
      ensures docScopeIdentities == old(docScopeIdentities)[key := ids] && docLastSeen == old(docLastSeen)[key := at]
      ensures docIntervals == if key in old(docLastSeen) && at - old(docLastSeen)[key] > 0
        then old(docIntervals)[key := at - old(docLastSeen)[key]] else old(docIntervals)
    {
      hide Recovers, Parts, Durable;
      docScopeIdentities := docScopeIdentities[key := ids];
      if key in docLastSeen {
        var delta := at - docLastSeen[key];
        if delta > 0 {
          docIntervals := docIntervals[key := delta];
        }
      }
      docLastSeen := docLastSeen[key := at];
    }

    // IngestDocument up to the sweep of silent sources: the document takes the
    // place of its source's last one.
    method ReplaceDocument(doc: F.Document, at: int)
      requires Valid()
      modifies this`details, this`docScopeIdentities, this`docLastSeen, this`docIntervals, this`dropped, this`cut
      modifies timelines`timelines, timelines`transitionTotal, timelines.timelines.Values, journal
      ensures Valid() && Current() == D.Replaced(old(Current()), doc, at, hash)
      ensures Durable() == old(Durable()).(rings := timelines.Contents(), dropped := dropped, cut := cut)
      ensures old(timelines.Contents().Keys <= details.Keys) ==> timelines.Contents().Keys <= details.Keys
      ensures var merged := DocumentRings(old(timelines.Contents()), old(Current()), doc, at);
        Total(merged) <= timelines.backstop ==> timelines.Contents() == merged
      ensures Kept(DocumentStart(old(timelines.Contents()), old(Current()), doc, at), F.FlattenDocument(doc, at, hash),
                   timelines.Contents(), timelines.cap, timelines.backstop)
    {
      hide Valid, Durable, TS.TimelineStore.Contents, D.PutDetails, F.FlattenDocument, Total, MergeAll, Kept, D.IdentitiesOf;
      var key, entries := D.KeyOfDocument(doc), F.FlattenDocument(doc, at, hash);
      DocumentStorable(this, doc, at);
      var ids := CollectIdentities(entries);
      ReplaceStates(D.ScopeOf(docScopeIdentities, key) - ids, entries);
      NoteSource(key, ids, at);
    }

    method ReplaceStates(gone: set<string>, entries: seq<F.Entry>)
      requires Valid() && Storable(entries)
      modifies this`details, this`dropped, this`cut, timelines`timelines, timelines`transitionTotal, timelines.timelines.Values, journal
      ensures Valid() && details == D.PutDetails(old(details) - gone, entries)
      ensures Durable() == old(Durable()).(rings := timelines.Contents(), dropped := dropped, cut := cut)
      ensures old(timelines.Contents().Keys <= details.Keys) ==> timelines.Contents().Keys <= details.Keys
      ensures var merged := MergeAll(old(timelines.Contents()) - gone, entries, timelines.cap);
        Total(merged) <= timelines.backstop ==> timelines.Contents() == merged
      ensures Kept(old(timelines.Contents()) - gone, entries, timelines.Contents(), timelines.cap, timelines.backstop)
    {
      hide Kept, Valid, Durable, TS.TimelineStore.Contents, D.PutDetails, Storable, Total, MergeAll, D.IdentitiesOf;
      DropIdentities(gone);
      D.PutDetailsHolds(details, entries);
      StoreEntries(entries);
    }

    static method CollectIdentities(entries: seq<F.Entry>) returns (ids: set<string>)
      ensures ids == D.IdentitiesOf(entries)
    {
      ids := {};
      for i := 0 to |entries|
        invariant ids == D.IdentitiesOf(entries[..i])
      {
        assert entries[..i + 1] == entries[..i] + [entries[i]];
        ids := ids + {entries[i].detail.identity};
      }
      assert entries[..|entries|] == entries;
    }

    // The rings a document is stored into: its source's gone states are dropped.
    ghost function DocumentStart(rings: Rings, s: D.Scopes, doc: F.Document, at: int): Rings {
      rings - (D.ScopeOf(s.identities, D.KeyOfDocument(doc)) - D.IdentitiesOf(F.FlattenDocument(doc, at, hash)))
    }

    // The rings it is to leave.
    ghost function DocumentRings(rings: Rings, s: D.Scopes, doc: F.Document, at: int): Rings {
      MergeAll(DocumentStart(rings, s, doc, at), F.FlattenDocument(doc, at, hash), timelines.cap)
    }

    // Rings exist for current states only. A replayed journal may break this.
    ghost predicate OnlyLive()
      reads this`details, timelines`timelines, timelines.timelines.Values
    {
      timelines.Contents().Keys <= details.Keys
    }

    // IngestDocument; what it gives to the chart store is not part of this class.
    method IngestDocument(doc: F.Document, observedAt: int, now: int)
      requires Valid() && now >= clock
      modifies this`details, this`docScopeIdentities, this`docLastSeen, this`docIntervals, this`dropped, this`cut, this`clock, this`sweptTo
      modifies timelines`timelines, timelines`transitionTotal, timelines.timelines.Values, journal
      modifies incidents`incidents, incidents`incidentEvents, incidents`incidentIndex, mutes
      ensures Valid() && (old(OnlyLive()) ==> OnlyLive())
      ensures var at := if observedAt == ZERO_TIME then now else observedAt;
        && Current() == D.IngestScopes(old(Current()), doc, at, evictionFallback, hash)
        && incidents.incidents == Sweep(old(incidents.incidents), at, incidents.closedTTL)
        && mutes.mutes == M.Active(old(mutes.mutes), now)
        && RingsIngested(old(timelines.Contents()), old(Current()), doc, at)
        && DS.DocumentStored(details, doc, at, GoneSilent(old(Current()), doc, at), hash)
    {
      hide Valid, Durable, TS.TimelineStore.Contents, D.IngestScopes, M.Active, Sweep, OnlyLive, RingsIngested, DS.DocumentStored, GoneSilent;
      var at := observedAt;
      if at == ZERO_TIME {
        at := now;
      }
      ExpireMutes(now);
      StoreDocument(doc, at);
      SweepIncidents(at);
      CompactIfNeeded(now);
    }

    // The current layers and the rings after a document.
    method StoreDocument(doc: F.Document, at: int)
      requires Valid()
      modifies this`details, this`docScopeIdentities, this`docLastSeen, this`docIntervals, this`dropped, this`cut
      modifies timelines`timelines, timelines`transitionTotal, timelines.timelines.Values, journal
      ensures Valid() && (old(OnlyLive()) ==> OnlyLive())
      ensures Current() == D.IngestScopes(old(Current()), doc, at, evictionFallback, hash)
      ensures Durable() == old(Durable()).(rings := timelines.Contents(), dropped := dropped, cut := cut)
      ensures RingsIngested(old(timelines.Contents()), old(Current()), doc, at)
      ensures DS.DocumentStored(details, doc, at, GoneSilent(old(Current()), doc, at), hash)
    {
      hide Valid, Durable, TS.TimelineStore.Contents, D.Replaced, D.EvictScopes, Total, Kept, DocumentRings, DocumentStart, DS.DocumentStored;
      DS.IngestStores(Current(), doc, at, evictionFallback, hash);
      ReplaceDocument(doc, at);
      SweepExpiredScopes(D.KeyOfDocument(doc), at);
    }

    // Unless the backstop cuts in, the rings are those before, less the states gone,
    // with the document's transitions merged, less the states of silent sources. If
    // it does, they are the newest of all that.
    ghost predicate RingsIngested(before: Rings, s: D.Scopes, doc: F.Document, at: int)
      reads timelines`timelines, timelines.timelines.Values
    {
      var start, entries, merged := DocumentStart(before, s, doc, at), F.FlattenDocument(doc, at, hash), DocumentRings(before, s, doc, at);
      && (Total(merged) <= timelines.backstop ==> timelines.Contents() == merged - GoneSilent(s, doc, at))
      && exists rings :: Kept(start, entries, rings, timelines.cap, timelines.backstop) && timelines.Contents() == rings - GoneSilent(s, doc, at)
    }

    method ExpireMutes(now: int)
      requires Valid() && now >= clock
      modifies mutes, this`clock
      ensures Valid() && mutes.mutes == M.Active(old(mutes.mutes), now)
      ensures Durable() == old(Durable()).(mutes := mutes.mutes, clock := now) && clock == now
    {
      hide Recovers, F.NeverEmpty, TS.TimelineStore.Valid, IS.IncidentStore.Valid, TS.TimelineStore.Contents;
      if journal != null { MutesSwept(journal.file, Durable(), now, Limits()); }
      var expired := mutes.SweepExpired(now);
      clock := now;
    }

    method SweepIncidents(at: int)
      requires Valid()
      modifies incidents`incidents, incidents`incidentEvents, incidents`incidentIndex, this`sweptTo
      ensures Valid() && incidents.incidents == Sweep(old(incidents.incidents), at, incidents.closedTTL)
      ensures Durable() == old(Durable()).(incidents := incidents.incidents, sweptTo := Max(old(sweptTo), at))
    {
      hide Recovers, F.NeverEmpty, TS.TimelineStore.Valid, IS.IncidentStore.Valid, TS.TimelineStore.Contents, Sweep;
      if journal != null { IncidentsSwept(journal.file, Durable(), at, Limits()); }
      incidents.SweepClosedIncidents(at);
      sweptTo := Max(sweptTo, at);
    }

    // The identities of the sources that have gone silent when a document comes.
    ghost function GoneSilent(s: D.Scopes, doc: F.Document, at: int): set<string> {
      var replaced := D.Replaced(s, doc, at, hash);
      D.Covered(replaced.identities, D.SilentKeys(replaced, D.KeyOfDocument(doc), at, evictionFallback))
    }
  }

  // The rings after the entries of a document, if the backstop cuts nothing.
  ghost function MergeAll(rings: Rings, entries: seq<F.Entry>, cap: nat): Rings {
    if entries == [] then rings else
      var e := entries[|entries| - 1];
      Merged(MergeAll(rings, entries[..|entries| - 1], cap), e.detail.identity, e.transitions, cap)
  }

  // Everything offered for storage: what was there, and the entries.
  ghost function OffersAll(rings: Rings, entries: seq<F.Entry>): O.Offers {
    if entries == [] then O.OffersOf(rings) else
      var e := entries[|entries| - 1];
      O.Offered(OffersAll(rings, entries[..|entries| - 1]), e.detail.identity, e.transitions)
  }

  lemma {:induction false} EntryIsOffered(rings: Rings, entries: seq<F.Entry>, i: nat)
    requires i < |entries|
    ensures KeySet(entries[i].transitions) <= O.OfferOf(OffersAll(rings, entries), entries[i].detail.identity)
  {
    hide KeySet;
    if i < |entries| - 1 { EntryIsOffered(rings, entries[..|entries| - 1], i); }
  }

  // What a document offers the rings: of every snapshot of it, at whatever depth,
  // the transitions of its history and the one to its present status.
  lemma DocumentIsOffered(rings: Rings, doc: F.Document, ix: FT.Place, at: int, hash: F.Hash)
    requires FT.Reaches(doc.states, ix)
    ensures var snap := FT.NodeAt(doc.states, ix);
            FT.ShownKeys(snap) + {Key(FT.ChangedAt(snap, at), Snapshots.StatusName(snap.status))}
              <= O.OfferOf(OffersAll(rings, F.FlattenDocument(doc, at, hash)), FT.IdentityAt(doc, ix, hash))
  {
    hide F.FlattenDocument, FT.IndexOf, FT.Reaches, FT.IdentityAt, OffersAll, FT.ShownKeys, KeySet;
    FT.EntriesAreTheTree(doc, at, hash);
    assert FT.HasEntry(F.FlattenDocument(doc, at, hash), doc, ix, at, hash);
    EntryIsOffered(rings, F.FlattenDocument(doc, at, hash), FT.IndexOf(doc.states, ix));
  }

  // What storing entries leaves: all of it merged, or as much as the backstop lets
  // stay, the newest of everything offered.
  ghost predicate Kept(before: Rings, entries: seq<F.Entry>, rings: Rings, cap: nat, backstop: nat) {
    || (rings == MergeAll(before, entries, cap) && O.Complete(rings, OffersAll(before, entries), cap))
    || O.CutToNewest(rings, OffersAll(before, entries), cap, backstop)
  }

  lemma KeptAtFirst(rings: Rings, cap: nat, backstop: nat)
    ensures Kept(rings, [], rings, cap, backstop)
  {
    O.RingsComplete(rings, cap);
  }

  lemma KeptNext(before: Rings, rings: Rings, after: Rings, entries: seq<F.Entry>, i: nat, cap: nat, backstop: nat)
    requires i < |entries| && Storable(entries) && RingsOk(rings, cap) && cap > 0
    requires Kept(before, entries[..i], rings, cap, backstop)
    requires Evicted(Merged(rings, entries[i].detail.identity, entries[i].transitions, cap), after, backstop)
    ensures Kept(before, entries[..i + 1], after, cap, backstop)
  {
    hide RingsOk, Merged, Evicted, O.Complete, O.CutToNewest, O.Offered, O.OffersOf;
    var e := entries[i];
    assert entries[..i + 1][..i] == entries[..i];
    O.OneMoreOffered(MergeAll(before, entries[..i], cap), rings, OffersAll(before, entries[..i]), e.detail.identity, e.transitions, after, cap, backstop);
  }

  // The entries of a document under the store's hash.
  ghost predicate Storable(entries: seq<F.Entry>) {
    forall i :: 0 <= i < |entries| ==> entries[i].detail.identity != "" && entries[i].transitions != []
  }

  lemma OneScope(identities: map<D.DocKey, set<string>>, k: D.DocKey)
    ensures D.Covered(identities, {k}) == D.ScopeOf(identities, k)
  {}

  lemma NothingEvictedYet(s: D.Scopes, timelines: map<string, Ring>, rings: Rings)
    ensures D.EvictScopes(s, {}) == s && timelines - D.Covered(s.identities, {}) == timelines && rings - D.Covered(s.identities, {}) == rings
  {
    assert D.Covered(s.identities, {}) == {};
  }

  lemma EvictedDetails(s: D.Scopes, keys: set<D.DocKey>)
    ensures D.EvictScopes(s, keys).details == s.details - D.Covered(s.identities, keys)
  {}

  lemma MinusTwice<V>(m: map<string, V>, a: set<string>, b: set<string>)
    ensures m - a - b == m - (a + b)
  {}

  // Evicting one more source after others.
  lemma EvictNext(s: D.Scopes, gone: set<D.DocKey>, k: D.DocKey)
    requires k !in gone
    ensures var now := D.EvictScopes(s, gone);
      && D.EvictScopes(now, {k}) == D.EvictScopes(s, gone + {k})
      && D.ScopeOf(now.identities, k) == D.ScopeOf(s.identities, k)
      && D.Covered(s.identities, gone + {k}) == D.Covered(s.identities, gone) + D.ScopeOf(s.identities, k)
      && (k in s.lastSeen ==> k in now.lastSeen && now.lastSeen[k] == s.lastSeen[k])
      && (k in now.intervals <==> k in s.intervals) && (k in s.intervals ==> now.intervals[k] == s.intervals[k])
  {
    var now := D.EvictScopes(s, gone);
    OneScope(now.identities, k);
    assert D.Covered(s.identities, gone + {k}) == D.Covered(s.identities, gone) + D.ScopeOf(s.identities, k);
    MinusTwice(s.details, D.Covered(s.identities, gone), D.ScopeOf(s.identities, k));
    assert s.identities - gone - {k} == s.identities - (gone + {k});
    assert s.lastSeen - gone - {k} == s.lastSeen - (gone + {k});
    assert s.intervals - gone - {k} == s.intervals - (gone + {k});
  }

  lemma {:induction false} TransitionsNotEmpty(c: F.Context, snaps: seq<Snapshots.Snapshot>, at: int, hash: F.Hash)
    requires F.NeverEmpty(hash)
    ensures forall e :: e in F.FlattenAll(c, snaps, at, hash) ==> e.detail.identity != "" && e.transitions != []
    decreases snaps
  {
    if snaps != [] {
      TransitionsNotEmpty(F.Below(c, snaps[0], hash), snaps[0].checks, at, hash);
      TransitionsNotEmpty(c, snaps[1..], at, hash);
      assert F.EntryOf(c, snaps[0], at, hash).transitions != [];
    }
  }

  lemma DocumentStorable(s: MemoryStore, doc: F.Document, at: int)
    requires s.Valid()
    ensures Storable(F.FlattenDocument(doc, at, s.hash))
  {
    TransitionsNotEmpty(F.Root(doc), doc.states, at, s.hash);
    var entries := F.FlattenDocument(doc, at, s.hash);
    forall i | 0 <= i < |entries| ensures entries[i].detail.identity != "" && entries[i].transitions != [] {
      assert entries[i] in entries;
    }
  }

  lemma UpsertedKeyed(mutes: M.Mutes, mute: Mute, now: int)
    requires forall id :: id in mutes ==> id != "" && mutes[id].identity == id
    requires mute.identity != ""
    ensures var after := M.Active(mutes[mute.identity := mute], now);
      forall id :: id in after ==> id != "" && after[id].identity == id
  {}

  lemma RingsOfValidStore(s: MemoryStore)
    requires s.Valid()
    ensures RingsOk(s.timelines.Contents(), s.timelines.cap) && s.timelines.cap > 0
  {}

  lemma NothingStored(details: map<string, F.Detail>, rings: Rings, cap: nat)
    ensures D.PutDetails(details, []) == details && MergeAll(rings, [], cap) == rings && D.IdentitiesOf([]) == {}
  {}

  lemma StoredNext(details: map<string, F.Detail>, before: Rings, rings: Rings, after: Rings, entries: seq<F.Entry>, i: nat, cap: nat, backstop: nat)
    requires i < |entries| && Storable(entries) && RingsOk(before, cap) && RingsOk(rings, cap) && cap > 0
    requires Evicted(Merged(rings, entries[i].detail.identity, entries[i].transitions, cap), after, backstop)
    requires Total(MergeAll(before, entries[..i], cap)) <= backstop ==> rings == MergeAll(before, entries[..i], cap)
    ensures D.PutDetails(details, entries[..i + 1]) == D.PutDetail(D.PutDetails(details, entries[..i]), entries[i].detail)
    ensures D.IdentitiesOf(entries[..i + 1]) == D.IdentitiesOf(entries[..i]) + {entries[i].detail.identity}
    ensures after.Keys <= rings.Keys + {entries[i].detail.identity}
    ensures Total(MergeAll(before, entries[..i + 1], cap)) <= backstop ==>
      after == MergeAll(before, entries[..i + 1], cap) && Total(MergeAll(before, entries[..i], cap)) <= backstop
      && Total(Merged(rings, entries[i].detail.identity, entries[i].transitions, cap)) <= backstop
  {
    hide Total, SplitAt, Merged, RingOk, D.PutDetail;
    var e := entries[i];
    assert entries[..i + 1][..i] == entries[..i];
    IdentitiesNext(entries, i);
    RingsNext(before, rings, after, entries, i, cap, backstop);
  }

  lemma IdentitiesNext(entries: seq<F.Entry>, i: nat)
    requires i < |entries|
    ensures D.IdentitiesOf(entries[..i + 1]) == D.IdentitiesOf(entries[..i]) + {entries[i].detail.identity}
  {
    assert entries[..i + 1] == entries[..i] + [entries[i]];
  }

  lemma RingsNext(before: Rings, rings: Rings, after: Rings, entries: seq<F.Entry>, i: nat, cap: nat, backstop: nat)
    requires i < |entries| && Storable(entries) && RingsOk(before, cap) && RingsOk(rings, cap) && cap > 0
    requires Evicted(Merged(rings, entries[i].detail.identity, entries[i].transitions, cap), after, backstop)
    requires Total(MergeAll(before, entries[..i], cap)) <= backstop ==> rings == MergeAll(before, entries[..i], cap)
    ensures after.Keys <= rings.Keys + {entries[i].detail.identity}
    ensures Total(MergeAll(before, entries[..i + 1], cap)) <= backstop ==>
      after == MergeAll(before, entries[..i + 1], cap) && Total(MergeAll(before, entries[..i], cap)) <= backstop
      && Total(Merged(rings, entries[i].detail.identity, entries[i].transitions, cap)) <= backstop
  {
    hide Total, SplitAt, Merged, RingOk;
    var e := entries[i];
    assert entries[..i + 1][..i] == entries[..i];
    MergeAllOk(before, entries[..i], cap);
    MergedGrows(MergeAll(before, entries[..i], cap), e.detail.identity, e.transitions, cap);
    MergedOk(rings, e.detail.identity, e.transitions, cap);
    MergedKeys(rings, e.detail.identity, e.transitions, cap);
    if Total(MergeAll(before, entries[..i + 1], cap)) <= backstop {
      NothingEvicted(Merged(rings, e.detail.identity, e.transitions, cap), after, backstop);
    }
  }

  lemma MergedKeys(rings: Rings, id: string, xs: seq<Transition>, cap: nat)
    ensures Merged(rings, id, xs, cap).Keys == rings.Keys + {id}
  {}

  lemma {:induction false} MergeAllOk(rings: Rings, entries: seq<F.Entry>, cap: nat)
    requires RingsOk(rings, cap) && Storable(entries) && cap > 0
    ensures RingsOk(MergeAll(rings, entries, cap), cap)
  {
    if entries != [] {
      var rest, last := entries[..|entries| - 1], entries[|entries| - 1];
      assert forall i :: 0 <= i < |rest| ==> rest[i] == entries[i];
      MergeAllOk(rings, rest, cap);
      MergedOk(MergeAll(rings, rest, cap), last.detail.identity, last.transitions, cap);
    }
  }

  lemma Delivered(file: seq<JournalEntry>, s: L3, source: string, incoming: seq<Incoming>, at: int, cap: nat, b: Bounds)
    requires Recovers(file, s, b) && TableOk(s.incidents) && AllIncomingNumbered(incoming)
    ensures Recovers(file + IS.Upserts(s.incidents, source, incoming, at, cap),
                     s.(incidents := Sweep(IngestAll(s.incidents, source, incoming, at, cap), at, b.ttl), sweptTo := Max(s.sweptTo, at)), b)
  {
    hide R.Matches, R.AllJournaled, I.RebuildsTable, M.Mirrors, Sweep, Ordered, OneIncident, KeysOf, IngestAll, IS.Upserts;
    var more := IS.Upserts(s.incidents, source, incoming, at, cap);
    IS.UpsertsRebuild(file, s.incidents, source, incoming, at, cap, s.sweptTo, b.ttl);
    assert WellFormed(more) by {
      forall i | 0 <= i < |more| ensures Ordered(more[i].incident.events) && OneIncident(KeysOf(more[i].incident.events), more[i].incident.key) {
        assert more[i] in more;
      }
    }
    hide WellFormed, Recovers;
    IncidentsIngested(file, s, IngestAll(s.incidents, source, incoming, at, cap), more, b);
    IncidentsSwept(file + more, s.(incidents := IngestAll(s.incidents, source, incoming, at, cap)), at, b);
  }

  lemma OneUpserted(file: seq<JournalEntry>, s: L3, inc: StoredIncident, b: Bounds)
    requires Recovers(file, s, b) && Ordered(inc.events) && OneIncident(KeysOf(inc.events), inc.key)
    ensures Recovers(file + [IncidentEntry(inc)], s.(incidents := s.incidents[inc.key := inc]), b)
  {
    hide R.Matches, R.AllJournaled, M.Mirrors, I.RebuildsTable, Ordered, OneIncident, KeysOf;
    I.UpsertRebuilds(file, s.incidents, inc, s.sweptTo, b.ttl);
    IncidentsIngested(file, s, s.incidents[inc.key := inc], [IncidentEntry(inc)], b);
  }

  lemma AcknowledgedOk(table: Table, k: IncidentKey, at: int)
    requires Incidents.TableOk(table) && k in table
    ensures k in Incidents.Acknowledge(table, k, at) && var inc := Incidents.Acknowledge(table, k, at)[k];
            Incidents.Acknowledge(table, k, at) == table[k := inc] && inc.key == k && Ordered(inc.events) && OneIncident(KeysOf(inc.events), k)
  {}

  lemma RingsOfValid(t: TS.TimelineStore)
    requires t.Valid()
    ensures RingsOk(t.Contents(), t.cap) && t.cap > 0
  {}

  lemma ContentsKeys(t: TS.TimelineStore)
    ensures t.Contents().Keys == t.timelines.Keys
  {}

  lemma TableOfValid(t: IS.IncidentStore)
    requires t.Valid()
    ensures TableOk(t.incidents)
  {}

  lemma EntryWellFormed(file: seq<JournalEntry>, i: nat)
    requires WellFormed(file) && i < |file|
    ensures file[i].IncidentEntry? ==> Ordered(file[i].incident.events) && OneIncident(KeysOf(file[i].incident.events), file[i].incident.key)
  {}

  ghost function ReadTransitions(file: seq<JournalEntry>): map<string, seq<Transition>> {
    map id | id in R.Journaled(file) && id != "" :: R.TransitionsFor(file, id)
  }

  lemma NothingRead(now: int)
    ensures ReadTransitions([]) == map[] && I.ReplayedTable([]) == map[] && M.ReplayedMutes([], now) == map[]
  {}

  lemma ReadNext(file: seq<JournalEntry>, i: nat, now: int)
    requires i < |file|
    ensures var e := file[i];
      && ReadTransitions(file[..i + 1]) == (if e.TransitionEntry? && e.identity != "" then
          ReadTransitions(file[..i])[e.identity := (if e.identity in ReadTransitions(file[..i]) then ReadTransitions(file[..i])[e.identity] else []) + [e.transition]]
        else ReadTransitions(file[..i]))
      && I.ReplayedTable(file[..i + 1]) == (if e.IncidentEntry? then I.ReplayedTable(file[..i])[e.incident.key := e.incident] else I.ReplayedTable(file[..i]))
      && M.ReplayedMutes(file[..i + 1], now) == (if e.MuteEntry? && e.mute.identity != "" && e.mute.expiresAt > now
          then M.ReplayedMutes(file[..i], now)[e.mute.identity := e.mute] else M.ReplayedMutes(file[..i], now))
  {
    assert file[..i + 1][..i] == file[..i];
    ReadOne(file[..i], file[i]);
    assert file[..i + 1] == file[..i] + [file[i]];
  }

  lemma ReadOne(file: seq<JournalEntry>, e: JournalEntry)
    ensures ReadTransitions(file + [e]) == (if e.TransitionEntry? && e.identity != "" then
        ReadTransitions(file)[e.identity := (if e.identity in ReadTransitions(file) then ReadTransitions(file)[e.identity] else []) + [e.transition]]
      else ReadTransitions(file))
  {
    var more := file + [e];
    assert more[..|file|] == file;
    forall id: string
      ensures R.TransitionsFor(more, id) == R.TransitionsFor(file, id) + (if e.TransitionEntry? && e.identity == id then [e.transition] else [])
    {}
    ReadAfter(file, more, e);
  }

  lemma ReadAfter(file: seq<JournalEntry>, more: seq<JournalEntry>, e: JournalEntry)
    requires forall id: string ::
      R.TransitionsFor(more, id) == R.TransitionsFor(file, id) + (if e.TransitionEntry? && e.identity == id then [e.transition] else [])
    ensures ReadTransitions(more) == (if e.TransitionEntry? && e.identity != "" then
        ReadTransitions(file)[e.identity := (if e.identity in ReadTransitions(file) then ReadTransitions(file)[e.identity] else []) + [e.transition]]
      else ReadTransitions(file))
  {
    hide R.TransitionsFor, R.Journaled;
    var was, now := ReadTransitions(file), ReadTransitions(more);
    forall id: string
      ensures id in now <==> id in was || (e.TransitionEntry? && e.identity == id && id != "")
      ensures id in now && !(e.TransitionEntry? && e.identity == id) ==> now[id] == was[id]
      ensures id in now && e.TransitionEntry? && e.identity == id ==> now[id] == (if id in was then was[id] else []) + [e.transition]
    {
      ReadAt(file, id);
      ReadAt(more, id);
      assert R.TransitionsFor(file, id) + [] == R.TransitionsFor(file, id);
    }
  }

  lemma ReadAt(file: seq<JournalEntry>, id: string)
    ensures id in ReadTransitions(file) <==> id != "" && R.TransitionsFor(file, id) != []
    ensures id in ReadTransitions(file) ==> ReadTransitions(file)[id] == R.TransitionsFor(file, id)
  {
    hide R.TransitionsFor;
  }

  lemma ReadIsReplayed(file: seq<JournalEntry>, cutoff: int, cap: nat)
    ensures forall id :: id in ReadTransitions(file) ==> id != "" && ReadTransitions(file)[id] != []
    ensures TS.Wanted(ReadTransitions(file), cutoff, cap) == R.Replayed(file, cutoff, cap)
  {
    hide R.TransitionsFor, AddAll;
  }

  lemma {:induction false} ReplayedKeyed(file: seq<JournalEntry>, now: int)
    ensures forall id :: id in M.ReplayedMutes(file, now) ==> id != "" && M.ReplayedMutes(file, now)[id].identity == id
  {
    if file != [] { ReplayedKeyed(file[..|file| - 1], now); }
  }

  lemma ListedWellFormed(listed: seq<JournalEntry>, table: Table)
    requires TableOk(table)
    requires forall e :: e in listed ==> e.IncidentEntry? && e.incident.key in table && e.incident == table[e.incident.key]
    ensures WellFormed(listed)
  {
    hide Ordered, OneIncident, KeysOf;
    forall i | 0 <= i < |listed|
      ensures Ordered(listed[i].incident.events) && OneIncident(KeysOf(listed[i].incident.events), listed[i].incident.key)
    {
      assert listed[i] in listed;
    }
  }

  lemma ListsApart(rings: seq<JournalEntry>, listed: seq<JournalEntry>, active: seq<JournalEntry>)
    requires forall e :: e in rings ==> e.TransitionEntry?
    requires forall e :: e in listed ==> e.IncidentEntry?
    requires forall e :: e in active ==> e.MuteEntry?
    ensures NoIncidents(rings) && NoMutes(rings) && NoTransitions(listed) && NoMutes(listed)
    ensures NoTransitions(active) && NoIncidents(active)
  {}

  lemma CompactedActive(active: seq<JournalEntry>, mutes: M.Mutes, now: int)
    requires M.CompactedMutes(active, mutes, now)
    ensures M.Upserted(active) == M.Active(mutes, now)
  {}
}
