// One file holds entries of all three kinds: what one kind adds is invisible to
// the replay of the others.

module JournalMix {
  import opened Basics
  import opened TransitionRing
  import opened Timelines
  import opened EventOrder
  import opened EventListing
  import opened Incidents
  import opened JournalFile
  import O = RingOffers
  import R = RingRecovery
  import RR = RingRestart
  import I = IncidentRecovery
  import M = MuteRecovery

  ghost predicate NoTransitions(es: seq<JournalEntry>) { forall e :: e in es ==> !e.TransitionEntry? }

  ghost predicate NoIncidents(es: seq<JournalEntry>) { forall e :: e in es ==> !e.IncidentEntry? }

  ghost predicate NoMutes(es: seq<JournalEntry>) { forall e :: e in es ==> !e.MuteEntry? }

  lemma {:induction false} NoneForRings(es: seq<JournalEntry>, id: string)
    requires NoTransitions(es)
    ensures R.TransitionsFor(es, id) == []
  {
    if es != [] {
      assert es[|es| - 1] in es;
      NoneForRings(es[..|es| - 1], id);
    }
  }

  lemma {:induction false} NoneForTable(file: seq<JournalEntry>, es: seq<JournalEntry>)
    requires NoIncidents(es)
    ensures I.ReplayedTable(file + es) == I.ReplayedTable(file)
  {
    if es == [] {
      assert file + es == file;
    } else {
      assert es[|es| - 1] in es;
      NoneForTable(file, es[..|es| - 1]);
      assert (file + es)[..|file + es| - 1] == file + es[..|es| - 1];
    }
  }

  lemma {:induction false} TableStartsLate(es: seq<JournalEntry>, file: seq<JournalEntry>)
    requires NoIncidents(es)
    ensures I.ReplayedTable(es + file) == I.ReplayedTable(file)
  {
    if file == [] {
      NoneForTable([], es);
      assert [] + es == es && es + file == es;
    } else {
      TableStartsLate(es, file[..|file| - 1]);
      assert (es + file)[..|es + file| - 1] == es + file[..|file| - 1];
    }
  }

  lemma {:induction false} NoneForMutes(file: seq<JournalEntry>, es: seq<JournalEntry>)
    requires NoMutes(es)
    ensures M.Upserted(file + es) == M.Upserted(file)
  {
    if es == [] {
      assert file + es == file;
    } else {
      assert es[|es| - 1] in es;
      NoneForMutes(file, es[..|es| - 1]);
      assert (file + es)[..|file + es| - 1] == file + es[..|es| - 1];
    }
  }

  lemma {:induction false} MutesStartLate(es: seq<JournalEntry>, file: seq<JournalEntry>)
    requires NoMutes(es)
    ensures M.Upserted(es + file) == M.Upserted(file)
  {
    if file == [] {
      NoneForMutes([], es);
      assert [] + es == es && es + file == es;
    } else {
      MutesStartLate(es, file[..|file| - 1]);
      assert (es + file)[..|es + file| - 1] == es + file[..|file| - 1];
    }
  }

  // ------------------------------------------------------------- the whole store

  // The parts of the store that are to survive a restart. Since the last
  // compaction, dropped: a ring was; cut: a transition was evicted. sweptTo: the
  // latest sweep of closed incidents; clock: the latest reading of the clock.
  datatype L3 = L3(rings: Rings, incidents: Table, mutes: M.Mutes, dropped: bool, cut: bool, sweptTo: int, clock: int)

  datatype Bounds = Bounds(cap: nat, backstop: nat, ttl: int)

  // Every incident in the file has its events in order, as stores write them.
  ghost predicate WellFormed(file: seq<JournalEntry>) {
    forall i :: 0 <= i < |file| && file[i].IncidentEntry? ==>
      Ordered(file[i].incident.events) && OneIncident(KeysOf(file[i].incident.events), file[i].incident.key)
  }

  // Replaying the file gives the store back.
  ghost predicate Recovers(file: seq<JournalEntry>, s: L3, b: Bounds) {
    && WellFormed(file)
    && R.AllJournaled(file, s.rings) && (!s.dropped ==> R.Matches(file, s.rings, s.cut, b.cap, b.backstop))
    && I.RebuildsTable(file, s.incidents, s.sweptTo, b.ttl)
    && M.Mirrors(M.History(s.mutes, file, s.clock))
  }

  lemma RingsUnaffected(file: seq<JournalEntry>, es: seq<JournalEntry>, rings: Rings, cut: bool, b: Bounds)
    requires NoTransitions(es)
    ensures R.AllJournaled(file, rings) ==> R.AllJournaled(file + es, rings)
    ensures R.Matches(file, rings, cut, b.cap, b.backstop) ==> R.Matches(file + es, rings, cut, b.cap, b.backstop)
  {
    hide R.TransitionsFor, AddAll, KeySet, O.CutToNewest, R.Journaled;
    forall id: string ensures R.TransitionsFor(file + es, id) == R.TransitionsFor(file, id) {
      R.TransitionsJoin(file, es, id);
      NoneForRings(es, id);
      assert R.TransitionsFor(file, id) + [] == R.TransitionsFor(file, id);
    }
    assert R.FileOffers(file + es) == R.FileOffers(file);
  }

  lemma TransitionsMerged(file: seq<JournalEntry>, s: L3, id: string, xs: seq<Transition>, after: Rings, b: Bounds)
    requires Recovers(file, s, b) && RingsOk(s.rings, b.cap) && id != "" && xs != [] && b.cap > 0
    requires Evicted(Merged(s.rings, id, xs, b.cap), after, b.backstop)
    ensures Recovers(file + R.EntriesOf(id, R.Accepted(RingOf(s.rings, id), xs, b.cap)),
                     s.(rings := after, cut := s.cut || Total(Merged(s.rings, id, xs, b.cap)) > b.backstop), b)
  {
    hide WellFormed, SumMap, AddAll, R.Accepted, R.Matches, R.AllJournaled, I.RebuildsTable, M.Active, M.Upserted, RingOk, SplitAt;
    var more := R.EntriesOf(id, R.Accepted(RingOf(s.rings, id), xs, b.cap));
    R.AppendJournals(file, s.rings, id, xs, b.cap, after);
    if !s.dropped { R.AppendMatches(file, s.rings, s.cut, id, xs, after, b.cap, b.backstop); }
    TableUnaffected(file, more, s.incidents, s.sweptTo, b.ttl);
    MutesUnaffected(file, more, s.mutes, s.clock);
    WellFormedWithout(more);
    WellFormedJoin(file, more);
  }

  lemma TableUnaffected(file: seq<JournalEntry>, es: seq<JournalEntry>, table: Table, t: int, ttl: int)
    requires NoIncidents(es) && I.RebuildsTable(file, table, t, ttl)
    ensures I.RebuildsTable(file + es, table, t, ttl)
  {
    NoneForTable(file, es);
  }

  lemma MutesUnaffected(file: seq<JournalEntry>, es: seq<JournalEntry>, mutes: M.Mutes, clock: int)
    requires NoMutes(es) && M.Mirrors(M.History(mutes, file, clock))
    ensures M.Mirrors(M.History(mutes, file + es, clock))
  {
    NoneForMutes(file, es);
  }

  lemma WellFormedJoin(a: seq<JournalEntry>, b: seq<JournalEntry>)
    requires WellFormed(a) && WellFormed(b)
    ensures WellFormed(a + b)
  {
    hide Ordered, OneIncident;
  }

  lemma WellFormedWithout(a: seq<JournalEntry>)
    requires NoIncidents(a)
    ensures WellFormed(a)
  {
    hide Ordered, OneIncident;
    forall i | 0 <= i < |a| ensures !a[i].IncidentEntry? { assert a[i] in a; }
  }

  lemma RingDropped(file: seq<JournalEntry>, s: L3, id: string, b: Bounds)
    requires Recovers(file, s, b) && RingsOk(s.rings, b.cap)
    ensures Recovers(file, s.(rings := s.rings - {id}, dropped := s.dropped || id in s.rings), b)
  {
    hide WellFormed, R.Matches, R.AllJournaled, I.RebuildsTable, M.Mirrors;
    R.DropJournals(file, s.rings, id);
    if id !in s.rings { assert s.rings - {id} == s.rings; }
  }

  lemma IncidentsIngested(file: seq<JournalEntry>, s: L3, table: Table, es: seq<JournalEntry>, b: Bounds)
    requires Recovers(file, s, b) && NoTransitions(es) && NoMutes(es)
    requires I.RebuildsTable(file + es, table, s.sweptTo, b.ttl) && WellFormed(es)
    ensures Recovers(file + es, s.(incidents := table), b)
  {
    hide WellFormed, R.Matches, R.AllJournaled, I.RebuildsTable, M.Mirrors;
    RingsUnaffected(file, es, s.rings, s.cut, b);
    MutesUnaffected(file, es, s.mutes, s.clock);
    WellFormedJoin(file, es);
  }

  lemma IncidentsSwept(file: seq<JournalEntry>, s: L3, now: int, b: Bounds)
    requires Recovers(file, s, b)
    ensures Recovers(file, s.(incidents := Sweep(s.incidents, now, b.ttl), sweptTo := if now > s.sweptTo then now else s.sweptTo), b)
  {
    hide WellFormed, R.Matches, R.AllJournaled, I.RebuildsTable, M.Mirrors, Sweep;
    I.SweepRebuilds(file, s.incidents, s.sweptTo, now, b.ttl);
  }

  lemma MutesSwept(file: seq<JournalEntry>, s: L3, now: int, b: Bounds)
    requires Recovers(file, s, b) && now >= s.clock
    ensures Recovers(file, s.(mutes := M.Active(s.mutes, now), clock := now), b)
  {
    hide WellFormed, R.Matches, R.AllJournaled, I.RebuildsTable, M.Active, M.Upserted;
    forall t | t >= now ensures M.Active(M.Active(s.mutes, now), t) == M.Active(M.Upserted(file), t) {
      M.ActiveOfActive(s.mutes, now, t);
    }
  }

  lemma MuteUpserted(file: seq<JournalEntry>, s: L3, mute: Mute, now: int, b: Bounds)
    requires Recovers(file, s, b) && mute.identity != "" && mute.expiresAt > now && now >= s.clock
    ensures Recovers(file + [MuteEntry(mute)], s.(mutes := M.Active(s.mutes[mute.identity := mute], now), clock := now), b)
  {
    hide WellFormed, R.Matches, R.AllJournaled, I.RebuildsTable, M.Mirrors, M.Active;
    RingsUnaffected(file, [MuteEntry(mute)], s.rings, s.cut, b);
    TableUnaffected(file, [MuteEntry(mute)], s.incidents, s.sweptTo, b.ttl);
    M.UpsertMirrors(M.History(s.mutes, file, s.clock), mute, now);
    WellFormedWithout([MuteEntry(mute)]);
    WellFormedJoin(file, [MuteEntry(mute)]);
  }

  // A file written from the live state, whatever is in it before it is replaced.
  lemma Compacted(rings: seq<JournalEntry>, incidents: seq<JournalEntry>, mutes: seq<JournalEntry>, s: L3, now: int, b: Bounds)
    requires NoIncidents(rings) && NoMutes(rings) && NoTransitions(incidents) && NoMutes(incidents)
    requires NoTransitions(mutes) && NoIncidents(mutes) && RingsOk(s.rings, b.cap)
    requires R.CompactedRings(rings, s.rings) && I.ReplayedTable(incidents) == s.incidents
    requires M.Upserted(mutes) == M.Active(s.mutes, now) && now >= s.clock && WellFormed(incidents)
    ensures Recovers(rings + incidents + mutes, s.(dropped := false, cut := false, clock := now), b)
  {
    hide WellFormed, R.TransitionsFor, RingOk, AddAll, M.Active, M.Upserted, I.ReplayedTable;
    var file := rings + incidents + mutes;
    WellFormedWithout(rings);
    WellFormedWithout(mutes);
    WellFormedJoin(rings, incidents);
    WellFormedJoin(rings + incidents, mutes);
    assert file == rings + (incidents + mutes);
    forall id: string ensures R.TransitionsFor(file, id) == RingOf(s.rings, id) {
      R.TransitionsJoin(rings, incidents + mutes, id);
      NoneForRings(incidents + mutes, id);
    }
    R.CompactionRebuilds(file, s.rings, b.cap);
    R.CompactionJournals(file, s.rings);
    NoneForTable(rings + incidents, mutes);
    TableStartsLate(rings, incidents);
    I.CompactionRebuilds(file, s.incidents, s.sweptTo, b.ttl);
    MutesStartLate(rings + incidents, mutes);
    forall t | t >= now ensures M.Active(s.mutes, t) == M.Active(M.Upserted(file), t) {
      M.ActiveOfActive(s.mutes, now, t);
    }
  }

  // What a restart makes of the rings.
  //  - They are the recent ones of the store, key by key, exactly when these are the
  //    newest of what the file offers, ties at the cut apart.
  //  - With nothing dropped since the last compaction they are: entry by entry, when
  //    nothing was evicted; and all of them, when all journaled is within retention.
  //  - Whatever was dropped, a transition held and within retention is among them, or
  //    its ring is full of ones not older, or there is room only for ones not older.
  ghost predicate RingsRestored(file: seq<JournalEntry>, s: L3, b: Bounds, cutoff: int, after: Rings)
    requires RingsOk(s.rings, b.cap)
  {
    var recent, offers := R.Recent(s.rings, cutoff, b.cap), RR.OffersSince(file, cutoff);
    && (O.NoTieAtCut(after, offers, b.cap) ==> (O.KeysAgree(after, recent) <==> O.NewestOf(recent, offers, b.cap, b.backstop)))
    && (!s.dropped && !s.cut ==> after == recent)
    && (!s.dropped && RR.AllSince(file, cutoff) && O.NoTieAtCut(after, R.FileOffers(file), b.cap) ==> O.KeysAgree(after, s.rings))
    && forall id, t :: t in RingOf(s.rings, id) && RR.JournaledSince(file, id, cutoff) ==>
         RR.RecoveredOrOutdated(after, id, KeyOf(t), b.cap, b.backstop)
  }

  lemma RingsAreRestored(file: seq<JournalEntry>, s: L3, b: Bounds, cutoff: int, after: Rings)
    requires Recovers(file, s, b) && RingsOk(s.rings, b.cap) && Total(s.rings) <= b.backstop && b.cap > 0
    requires R.Restarted(file, cutoff, b.cap, b.backstop, after)
    ensures RingsRestored(file, s, b, cutoff, after)
  {
    hide WellFormed, R.Matches, R.Restarted, R.Recent, I.RebuildsTable, M.Mirrors, RingsOk, Total, O.NewestOf, O.NoTieAtCut, O.KeysAgree,
         RR.OffersSince, RR.AllSince, RR.JournaledSince, RR.RecoveredOrOutdated, R.FileOffers, R.TransitionsFor, RingOf;
    if O.NoTieAtCut(after, RR.OffersSince(file, cutoff), b.cap) {
      RR.RestartExactly(file, s.rings, cutoff, b.cap, b.backstop, after);
    }
    if !s.dropped { RR.MatchingRecovers(file, s.rings, s.cut, cutoff, b.cap, b.backstop, after); }
    forall id, t | t in RingOf(s.rings, id) && RR.JournaledSince(file, id, cutoff)
      ensures RR.RecoveredOrOutdated(after, id, KeyOf(t), b.cap, b.backstop)
    {
      assert KeyOf(t) in KeySet(RingOf(s.rings, id));
      RR.JournaledIsRecoveredOrOutdated(file, cutoff, b.cap, b.backstop, after, id, KeyOf(t));
    }
  }

  // A restart has what the store had: the rings as far as RingsRestored says; every
  // incident but the stale; and the active mutes, exactly when no journaled one
  // outlives the last upsert of its identity.
  lemma RestartRestores(file: seq<JournalEntry>, s: L3, b: Bounds, cutoff: int, now: int, after: Rings)
    requires Recovers(file, s, b) && RingsOk(s.rings, b.cap) && Total(s.rings) <= b.backstop && b.cap > 0
    requires now >= s.sweptTo && now >= s.clock && R.Restarted(file, cutoff, b.cap, b.backstop, after)
    ensures RingsRestored(file, s, b, cutoff, after)
    ensures Sweep(I.ReplayedTable(file), now, b.ttl) == Sweep(s.incidents, now, b.ttl)
    ensures M.ReplayedMutes(file, now) == M.Active(s.mutes, now) <==> M.NoneOutlives(file, now)
  {
    hide WellFormed, R.AllJournaled, R.Matches, R.Restarted, RingsRestored, RingsOk, Total, M.Active, M.Upserted, M.ReplayedMutes, M.NoneOutlives;
    RingsAreRestored(file, s, b, cutoff, after);
    var replayed := I.ReplayedTable(file);
    forall k | k in replayed && k !in s.incidents ensures Stale(replayed[k], now, b.ttl) {
      I.StaleLater(replayed[k], s.sweptTo, now, b.ttl);
    }
    M.MutesRecoverExactly(file, now);
  }
}
