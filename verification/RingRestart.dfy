// What a restart makes of the transition rings. It replays what the file has of
// every identity still within retention, and evicts down to the backstop again
// (replayJournal, appendTransitions in storage/storage.go).

module RingRestart {
  import opened Basics
  import opened TransitionRing
  import opened Timelines
  import opened RingOffers
  import opened JournalFile
  import opened RingRecovery

  // Something journaled for the identity is within retention.
  ghost predicate JournaledSince(file: seq<JournalEntry>, id: string, cutoff: int) {
    id != "" && TransitionsFor(file, id) != [] && NewestTime(TransitionsFor(file, id)) >= cutoff
  }

  // What the file offers to a restart.
  ghost function OffersSince(file: seq<JournalEntry>, cutoff: int): Offers {
    map id | id in Journaled(file) && JournaledSince(file, id, cutoff) :: KeySet(TransitionsFor(file, id))
  }

  ghost predicate AllSince(file: seq<JournalEntry>, cutoff: int) {
    forall id :: id in Journaled(file) ==> JournaledSince(file, id, cutoff)
  }

  // ------------------------------------------------------------- what comes out

  lemma ReplayedIsComplete(file: seq<JournalEntry>, cutoff: int, cap: nat)
    requires cap > 0
    ensures Complete(Replayed(file, cutoff, cap), OffersSince(file, cutoff), cap)
  {
    hide AddAll, TransitionsFor, NewestTime, Excused, KeySet;
    var rings, offers := Replayed(file, cutoff, cap), OffersSince(file, cutoff);
    forall id: string
      ensures KeySet(RingOf(rings, id)) <= OfferOf(offers, id)
      ensures forall k :: k in OfferOf(offers, id) && k !in KeySet(RingOf(rings, id)) ==> Excused(RingOf(rings, id), cap, k)
    {
      if id in rings {
        AddAllRetains(TransitionsFor(file, id), cap);
        RetainedExcuses(rings[id], KeySet(TransitionsFor(file, id)), cap);
      } else {
        NoKeysNoEntries([]);
      }
    }
  }

  // Every restart leaves the newest of what the file offers.
  lemma RestartIsNewest(file: seq<JournalEntry>, cutoff: int, cap: nat, backstop: nat, after: Rings)
    requires cap > 0 && Restarted(file, cutoff, cap, backstop, after)
    ensures RingsOk(after, cap) && Total(after) <= backstop && NewestOf(after, OffersSince(file, cutoff), cap, backstop)
  {
    hide Replayed, OffersSince, Total, Complete, CutToNewest, RingsOk;
    var rings := Replayed(file, cutoff, cap);
    ReplayedOk(file, cutoff, cap);
    ReplayedIsComplete(file, cutoff, cap);
    EvictedParts(rings, after, backstop);
    EvictedOk(rings, after, cap);
    if Total(rings) > backstop {
      FirstCut(rings, after, OffersSince(file, cutoff), cap, backstop);
    } else {
      HeldNotEmpty(rings, cap);
      NothingEvicted(rings, after, backstop);
    }
  }

  // Given the file, the rings a restart finds are the recent ones of the store,
  // key by key, exactly when these are the newest of what the file offers; ties
  // at the cut apart, which the order of a Go map would break.
  lemma RestartExactly(file: seq<JournalEntry>, rings: Rings, cutoff: int, cap: nat, backstop: nat, after: Rings)
    requires cap > 0 && RingsOk(rings, cap) && Total(rings) <= backstop && Restarted(file, cutoff, cap, backstop, after)
    requires NoTieAtCut(after, OffersSince(file, cutoff), cap)
    ensures KeysAgree(after, Recent(rings, cutoff, cap))
       <==> NewestOf(Recent(rings, cutoff, cap), OffersSince(file, cutoff), cap, backstop)
  {
    hide Restarted, OffersSince, Recent, Total, NewestOf, NoTieAtCut, KeysAgree, RingsOk;
    var offers, recent := OffersSince(file, cutoff), Recent(rings, cutoff, cap);
    RestartIsNewest(file, cutoff, cap, backstop, after);
    RecentOk(rings, cutoff, cap);
    if NewestOf(recent, offers, cap, backstop) { NewestAgree(after, recent, offers, cap, backstop); }
    if KeysAgree(after, recent) { SameKeysNewest(after, recent, offers, cap, backstop); }
  }

  // ------------------------------------------------------- when nothing was dropped

  // With everything journaled within retention, everything held is.
  lemma AllRecent(file: seq<JournalEntry>, rings: Rings, cutoff: int, cap: nat, backstop: nat)
    requires RingsOk(rings, cap) && AllSince(file, cutoff) && NewestOf(rings, FileOffers(file), cap, backstop)
    ensures OffersSince(file, cutoff) == FileOffers(file) && Recent(rings, cutoff, cap) == rings
  {
    hide NewestOf, TransitionsFor, NewestTime, FileOffers, OfferOf;
    OffersAll(file, cutoff);
    forall id | id in rings ensures rings[id][|rings[id]| - 1].changedAt >= cutoff {
      var last := KeyOf(rings[id][|rings[id]| - 1]);
      assert last in KeySet(RingOf(rings, id));
      HeldIsOffered(rings, FileOffers(file), cap, backstop, id, last);
      OffersAt(file, id);
      var k := NewestKey(file, id, cutoff);
      LastIsNewest(rings, FileOffers(file), cap, backstop, id, k);
    }
  }

  lemma OffersAll(file: seq<JournalEntry>, cutoff: int)
    requires AllSince(file, cutoff)
    ensures OffersSince(file, cutoff) == FileOffers(file)
  {
    hide TransitionsFor, NewestTime;
  }

  lemma NewestKey(file: seq<JournalEntry>, id: string, cutoff: int) returns (k: Key)
    requires AllSince(file, cutoff) && KeySet(TransitionsFor(file, id)) != {}
    ensures k in KeySet(TransitionsFor(file, id)) && k.time >= cutoff
  {
    hide TransitionsFor, NewestTime;
    NoKeysNoEntries(TransitionsFor(file, id));
    assert id in Journaled(file);
    NewestTimeIs(TransitionsFor(file, id));
    var t :| t in TransitionsFor(file, id) && t.changedAt == NewestTime(TransitionsFor(file, id));
    k := KeyOf(t);
  }

  lemma LastIsNewest(rings: Rings, offers: Offers, cap: nat, backstop: nat, id: string, k: Key)
    requires RingsOk(rings, cap) && NewestOf(rings, offers, cap, backstop) && id in rings && k in OfferOf(offers, id)
    ensures k.time <= rings[id][|rings[id]| - 1].changedAt
  {
    hide NewestOf, OfferOf, Distinct;
    var ring := rings[id];
    var last := KeyOf(ring[|ring| - 1]);
    assert last in KeySet(ring);
    if k in KeySet(ring) {
      HasIsMember(ring, k);
      var i :| 0 <= i < |ring| && KeyOf(ring[i]) == k;
    } else {
      MissedNotNewerThanHeld(rings, offers, cap, backstop, id, k, last);
    }
  }

  lemma MatchingIsNewest(file: seq<JournalEntry>, rings: Rings, cut: bool, cap: nat, backstop: nat)
    requires Matches(file, rings, cut, cap, backstop)
    ensures NewestOf(rings, FileOffers(file), cap, backstop)
  {
    hide Complete, CutToNewest, FileOffers, RebuildsRings;
    if !cut { RebuiltIsComplete(file, rings, cap); }
  }

  // Nothing dropped and nothing evicted: a restart has the recent rings, entry by
  // entry. Something evicted: it evicts the same again, as long as nothing
  // journaled has gone out of retention and so makes room.
  lemma MatchingRecovers(file: seq<JournalEntry>, rings: Rings, cut: bool, cutoff: int, cap: nat, backstop: nat, after: Rings)
    requires cap > 0 && RingsOk(rings, cap) && Total(rings) <= backstop && Matches(file, rings, cut, cap, backstop)
    requires Restarted(file, cutoff, cap, backstop, after)
    ensures !cut ==> after == Recent(rings, cutoff, cap)
    ensures AllSince(file, cutoff) && NoTieAtCut(after, FileOffers(file), cap) ==> KeysAgree(after, rings)
  {
    hide Replayed, Recent, Total, NewestOf, NoTieAtCut, KeysAgree, RingsOk, RebuildsRings, CutToNewest, FileOffers, OffersSince, AllSince, Evicted;
    if !cut {
      ReplayIsRecent(file, rings, cutoff, cap);
      RecentOk(rings, cutoff, cap);
      HeldNotEmpty(Recent(rings, cutoff, cap), cap);
      NothingEvicted(Recent(rings, cutoff, cap), after, backstop);
    }
    MatchingIsNewest(file, rings, cut, cap, backstop);
    if AllSince(file, cutoff) && NoTieAtCut(after, FileOffers(file), cap) {
      AllRecent(file, rings, cutoff, cap, backstop);
      RestartExactly(file, rings, cutoff, cap, backstop, after);
    }
  }

  // An eviction is repeated by the eviction of a restart.
  lemma EvictionIsRepeated(file: seq<JournalEntry>, before: Rings, rings: Rings, cutoff: int, cap: nat, backstop: nat, after: Rings)
    requires cap > 0 && RebuildsRings(file, before, cap) && RingsOk(before, cap) && Evicted(before, rings, backstop)
    requires Restarted(file, cutoff, cap, backstop, after)
    requires AllSince(file, cutoff) && NoTieAtCut(after, FileOffers(file), cap)
    ensures KeysAgree(after, rings)
  {
    hide Total, NoTieAtCut, KeysAgree, RingsOk, RebuildsRings, Complete, FileOffers, AllSince, Restarted;
    RebuiltIsComplete(file, before, cap);
    EvictedParts(before, rings, backstop);
    EvictedOk(before, rings, cap);
    if Total(before) > backstop {
      FirstCut(before, rings, FileOffers(file), cap, backstop);
      assert Matches(file, rings, true, cap, backstop);
      MatchingRecovers(file, rings, true, cutoff, cap, backstop, after);
    } else {
      HeldNotEmpty(before, cap);
      NothingEvicted(before, rings, backstop);
      MatchingRecovers(file, rings, false, cutoff, cap, backstop, after);
    }
  }

  // ------------------------------------------------------------- one transition

  // The newest of a ring is not newer than the newest journaled.
  lemma HeldNotNewer(file: seq<JournalEntry>, rings: Rings, id: string)
    requires AllJournaled(file, rings) && id in rings && rings[id] != []
    ensures TransitionsFor(file, id) != [] && rings[id][|rings[id]| - 1].changedAt <= NewestTime(TransitionsFor(file, id))
  {
    hide TransitionsFor, NewestTime;
    var last := rings[id][|rings[id]| - 1];
    assert KeyOf(last) in KeySet(RingOf(rings, id));
    var t :| t in TransitionsFor(file, id) && KeyOf(t) == KeyOf(last);
    NewestTimeIs(TransitionsFor(file, id));
  }

  lemma RecentIsJournaled(file: seq<JournalEntry>, rings: Rings, cutoff: int, cap: nat, id: string)
    requires RingsOk(rings, cap) && AllJournaled(file, rings) && id in Recent(rings, cutoff, cap)
    ensures JournaledSince(file, id, cutoff)
  {
    hide TransitionsFor, NewestTime, AllJournaled;
    HeldNotNewer(file, rings, id);
  }

  // What is journaled of an identity within retention is there after a restart, or
  // crowded out of its own ring, or older than all there is room for.
  ghost predicate RecoveredOrOutdated(after: Rings, id: string, k: Key, cap: nat, backstop: nat) {
    || k in KeySet(RingOf(after, id))
    || Excused(RingOf(after, id), cap, k)
    || (Total(after) == backstop && forall j: string :: NotAfter(k, RingOf(after, j)))
  }

  lemma JournaledIsRecoveredOrOutdated(file: seq<JournalEntry>, cutoff: int, cap: nat, backstop: nat, after: Rings, id: string, k: Key)
    requires cap > 0 && Restarted(file, cutoff, cap, backstop, after)
    requires k in KeySet(TransitionsFor(file, id)) && JournaledSince(file, id, cutoff)
    ensures RecoveredOrOutdated(after, id, k, cap, backstop)
  {
    hide Restarted, Total, TransitionsFor, NewestTime, KeySet, RingOf;
    RestartIsNewest(file, cutoff, cap, backstop, after);
    assert k in OfferOf(OffersSince(file, cutoff), id);
    if k !in KeySet(RingOf(after, id)) && !Excused(RingOf(after, id), cap, k) {
      var t: int :| NewestFrom(after, OffersSince(file, cutoff), cap, t);
    }
  }

  // And nothing of an identity past retention is.
  lemma OutdatedIsGone(file: seq<JournalEntry>, cutoff: int, cap: nat, backstop: nat, after: Rings, id: string)
    requires Restarted(file, cutoff, cap, backstop, after) && !JournaledSince(file, id, cutoff)
    ensures id !in after
  {
    hide TransitionsFor, NewestTime, AddAll;
  }

  // ------------------------------------------------------------------- over runs

  // After any run whatever, drops and evictions included, a restart gives the
  // recent rings exactly when these are the newest of what the file offers.
  lemma RestartRecoversExactly(steps: seq<Step>, l: Limits, cutoff: int, after: Rings)
    requires l.cap > 0 && Restarted(Run(steps, l).file, cutoff, l.cap, l.backstop, after)
    requires NoTieAtCut(after, OffersSince(Run(steps, l).file, cutoff), l.cap)
    ensures var h := Run(steps, l);
            RingsOk(h.rings, l.cap) &&
            (KeysAgree(after, Recent(h.rings, cutoff, l.cap)) <==>
             NewestOf(Recent(h.rings, cutoff, l.cap), OffersSince(h.file, cutoff), l.cap, l.backstop))
  {
    hide Run, Restarted, Recent, Total, NewestOf, NoTieAtCut, KeysAgree, RingsOk, OffersSince, AllJournaled, Matches;
    var h := Run(steps, l);
    RestartExactly(h.file, h.rings, cutoff, l.cap, l.backstop, after);
  }

  // After any run of appends, evictions, compactions and restarts without a drop
  // since the file was last written anew, a restart recovers the rings: entry by
  // entry those within retention, if nothing was evicted since; and in any case
  // all of them, key by key, if all that is journaled is within retention.
  lemma RestartRecovers(steps: seq<Step>, l: Limits, cutoff: int, after: Rings)
    requires l.cap > 0 && !Run(steps, l).dropped && Restarted(Run(steps, l).file, cutoff, l.cap, l.backstop, after)
    ensures var h := Run(steps, l);
            RingsOk(h.rings, l.cap)
            && (!h.cut ==> after == Recent(h.rings, cutoff, l.cap))
            && (AllSince(h.file, cutoff) && NoTieAtCut(after, FileOffers(h.file), l.cap) ==> KeysAgree(after, h.rings))
  {
    hide Run, Restarted, Recent, Total, NoTieAtCut, KeysAgree, RingsOk, FileOffers, AllSince, AllJournaled, Matches;
    var h := Run(steps, l);
    MatchingRecovers(h.file, h.rings, h.cut, cutoff, l.cap, l.backstop, after);
  }

  // Even when something was dropped or evicted, a held transition of an identity
  // within retention is there after every restart, or its own ring is full of
  // transitions not older, or there is room only for ones not older.
  lemma HeldIsRecoveredOrOutdated(steps: seq<Step>, l: Limits, cutoff: int, after: Rings, id: string, t: Transition)
    requires l.cap > 0 && t in RingOf(Run(steps, l).rings, id)
    requires Restarted(Run(steps, l).file, cutoff, l.cap, l.backstop, after)
    ensures if JournaledSince(Run(steps, l).file, id, cutoff) then RecoveredOrOutdated(after, id, KeyOf(t), l.cap, l.backstop) else id !in after
    ensures RingsOk(Run(steps, l).rings, l.cap)
    ensures id in Recent(Run(steps, l).rings, cutoff, l.cap) ==> JournaledSince(Run(steps, l).file, id, cutoff)
  {
    hide Run, Restarted, RecoveredOrOutdated, JournaledSince, TransitionsFor, Total, RingsOk, Matches, RingOf, Recent;
    var h := Run(steps, l);
    if id in Recent(h.rings, cutoff, l.cap) { RecentIsJournaled(h.file, h.rings, cutoff, l.cap, id); }
    assert KeyOf(t) in KeySet(RingOf(h.rings, id));
    if JournaledSince(h.file, id, cutoff) {
      JournaledIsRecoveredOrOutdated(h.file, cutoff, l.cap, l.backstop, after, id, KeyOf(t));
    } else {
      OutdatedIsGone(h.file, cutoff, l.cap, l.backstop, after, id);
    }
  }

  // ------------------------------------------------------- what a restart can undo

  lemma OneOf(id: string, t: Transition, cap: nat)
    requires cap > 0
    ensures AddAll([], [t], cap) == [t] && Accepted([], [t], cap) == [t] && RingOk([t], cap)
    ensures Total(map[id := [t]]) == 1 && TransitionsFor(EntriesOf(id, [t]), id) == [t]
  {
    AddNone([], cap);
    assert [t][..0] == [];
    TotalOfNone(map[]);
    TotalUpdate(map[], id, [t]);
    assert map[][id := [t]] == map[id := [t]];
    TransitionsOfEntries(id, [t], id);
  }

  function Only(id: string, t: Transition): Rings { map[id := [t]] }

  function Both(a: string, b: string, t: Transition, u: Transition): Rings { Only(a, t)[b := [u]] }

  // One transition of an identity that has no ring, while there is room for it.
  lemma NextOne(steps: seq<Step>, id: string, t: Transition, l: Limits)
    requires l.cap > 0 && id != "" && id !in Run(steps, l).rings && Total(Run(steps, l).rings) < l.backstop
    ensures var h, rings := Run(steps, l), Run(steps, l).rings[id := [t]];
            && Run(steps + [Append(id, [t], rings)], l) == h.(rings := rings, file := h.file + EntriesOf(id, [t]))
            && Total(rings) == Total(h.rings) + 1
  {
    hide AddAll, Accepted, Total, EntriesOf, Recoverable, Evicted, RingsOk, Run;
    var h := Run(steps, l);
    var rings: Rings := h.rings[id := [t]];
    var s := Append(id, [t], rings);
    RunLast(steps, s, l);
    OneOf(id, t, l.cap);
    TotalUpdate(h.rings, id, [t]);
    OneMoreRing(h.rings, id, t, l);
    assert Merged(h.rings, id, [t], l.cap) == rings;
  }

  lemma OneMoreRing(rings: Rings, id: string, t: Transition, l: Limits)
    requires RingsOk(rings, l.cap) && l.cap > 0 && id != "" && Total(rings[id := [t]]) <= l.backstop
    ensures Evicted(rings[id := [t]], rings[id := [t]], l.backstop)
  {
    hide Shed, Total;
    ShedNothing(rings[id := [t]], l.cap);
  }

  lemma RunLast(steps: seq<Step>, s: Step, l: Limits)
    requires l.cap > 0
    ensures HistoryOk(Run(steps, l), l) && Run(steps + [s], l) == Do(Run(steps, l), s, l)
  {
    hide Do, HistoryOk, AllJournaled, Matches;
    assert (steps + [s])[..|steps|] == steps;
  }

  // a's ring is dropped, then b's is begun.
  function DropThenAppend(a: string, b: string, t: Transition, u: Transition): seq<Step> {
    [Append(a, [t], Only(a, t)), Drop(a), Append(b, [u], Only(b, u))]
  }

  lemma DropThenAppendIs(a: string, b: string, t: Transition, u: Transition, cap: nat)
    requires cap > 0 && a != "" && b != ""
    ensures Run(DropThenAppend(a, b, t, u), Limits(cap, 1)) == History(Only(b, u), EntriesOf(a, [t]) + EntriesOf(b, [u]), true, false)
  {
    hide Total, EntriesOf, Run, Recoverable;
    var l := Limits(cap, 1);
    var one, two := [Append(a, [t], Only(a, t))], [Append(a, [t], Only(a, t)), Drop(a)];
    assert [] + one == one && one + [Drop(a)] == two && two + [Append(b, [u], Only(b, u))] == DropThenAppend(a, b, t, u);
    RunNone(l);
    NextOne([], a, t, l);
    OnlyRing(a, t);
    RunLast(one, Drop(a), l);
    NextOne(two, b, u, l);
    OnlyRing(b, u);
    assert [] + EntriesOf(a, [t]) == EntriesOf(a, [t]);
  }

  lemma RunNone(l: Limits)
    requires l.cap > 0
    ensures Run([], l) == History(map[], [], false, false) && Total(map[]) == 0
  {
    hide Total, Recoverable;
    TotalOfNone(map[]);
  }

  lemma OnlyRing(id: string, t: Transition)
    ensures map[][id := [t]] == Only(id, t) && Only(id, t) - {id} == map[] && id in Only(id, t)
  {}

  lemma FileOfTwo(a: string, b: string, xs: seq<Transition>, ys: seq<Transition>, id: string)
    requires a != b
    ensures TransitionsFor(EntriesOf(a, xs) + EntriesOf(b, ys), id) == if id == a then xs else if id == b then ys else []
  {
    hide TransitionsFor, EntriesOf;
    TransitionsJoin(EntriesOf(a, xs), EntriesOf(b, ys), id);
    TransitionsOfEntries(a, xs, id);
    TransitionsOfEntries(b, ys, id);
  }

  // A dropped ring that was not past retention is replayed, and where there is no
  // room for both, the newer takes the place of a live one: of the only transition
  // the store held there is nothing after any restart.
  lemma DroppedRingDisplaces(a: string, b: string, t: Transition, u: Transition, cap: nat, cutoff: int)
    requires cap > 0 && a != "" && b != "" && a != b && cutoff <= u.changedAt < t.changedAt
    ensures var h := Run(DropThenAppend(a, b, t, u), Limits(cap, 1));
            && h.rings == Only(b, u)
            && forall after :: Restarted(h.file, cutoff, cap, 1, after) <==> after == Only(a, t)
  {
    hide Run, DropThenAppend, EntriesOf, Replayed, Evicted, Both, Only;
    DropThenAppendIs(a, b, t, u, cap);
    ReplayedTwo(a, b, t, u, cap, cutoff);
    OlderMayGo(a, b, t, u, cap);
    forall after | Evicted(Both(a, b, t, u), after, 1) ensures after == Only(a, t) { TwoToOne(a, b, t, u, after); }
  }

  lemma OldestGoes(rings: Rings, id: string, cap: nat)
    requires RingsOk(rings, cap) && IsOldest(rings, id)
    ensures Total(rings) > 0 && Evicted(rings, WithoutHead(rings, id), Total(rings) - 1)
  {
    hide Shed, Total, RingOk;
    TotalDrop(rings, id);
    TotalMonotone(map[], rings - {id});
    TotalOfNone(map[]);
    ShedNothing(rings, cap);
    ShedStep(rings, rings, id, cap);
  }

  lemma OlderMayGo(a: string, b: string, t: Transition, u: Transition, cap: nat)
    requires cap > 0 && a != "" && b != "" && a != b && u.changedAt < t.changedAt
    ensures Evicted(Both(a, b, t, u), Only(a, t), 1)
  {
    hide Evicted, Total;
    var both := Both(a, b, t, u);
    TotalOfTwo(a, b, t, u);
    OldestGoes(both, b, cap);
    assert WithoutHead(both, b) == Only(a, t);
  }

  lemma ReplayedTwo(a: string, b: string, t: Transition, u: Transition, cap: nat, cutoff: int)
    requires cap > 0 && a != "" && b != "" && a != b && cutoff <= u.changedAt && cutoff <= t.changedAt
    ensures Replayed(EntriesOf(a, [t]) + EntriesOf(b, [u]), cutoff, cap) == Both(a, b, t, u)
  {
    hide TransitionsFor, EntriesOf, AddAll;
    var file := EntriesOf(a, [t]) + EntriesOf(b, [u]);
    OneOf(a, t, cap);
    OneOf(b, u, cap);
    forall id: string ensures id in Journaled(file) <==> id == a || id == b { FileOfTwo(a, b, [t], [u], id); }
    FileOfTwo(a, b, [t], [u], a);
    FileOfTwo(a, b, [t], [u], b);
    assert Replayed(file, cutoff, cap) == Both(a, b, t, u);
  }

  lemma TwoToOne(a: string, b: string, t: Transition, u: Transition, after: Rings)
    requires a != b && u.changedAt < t.changedAt && Evicted(Both(a, b, t, u), after, 1)
    ensures after == Only(a, t)
  {
    hide Evicted;
    TotalOfTwo(a, b, t, u);
    OlderGoes(Both(a, b, t, u), after, a, b);
  }

  // Of two single transitions, the newer stays.
  lemma OlderGoes(both: Rings, after: Rings, a: string, b: string)
    requires a != b && both.Keys == {a, b} && |both[a]| == |both[b]| == 1 && both[b][0].changedAt < both[a][0].changedAt
    requires Total(both) == 2 && Evicted(both, after, 1)
    ensures after == map[a := both[a]]
  {
    hide Total, Shed;
    ShedKeys(both, after);
    if b in after {
      NewerStays(both, after, a, b);
      SameMaps(both, after);
    } else if a !in after {
      TotalOfNone(after);
    }
    WholeOrGone(both, after, a);
  }

  lemma ShedKeys(before: Rings, after: Rings)
    requires Shed(before, after)
    ensures after.Keys <= before.Keys
  {}

  lemma SameMaps(both: Rings, after: Rings)
    requires Shed(both, after) && after.Keys == both.Keys && forall id :: id in both ==> |both[id]| == 1
    ensures after == both
  {
    hide SplitAt, IsSuffix, RingOf;
    forall id | id in both ensures after[id] == both[id] { WholeOrGone(both, after, id); }
  }

  lemma NewerStays(before: Rings, after: Rings, i: string, j: string)
    requires Shed(before, after) && i in before && |before[i]| == 1 && j in before && |before[j]| == 1 && j in after
    requires before[i][0].changedAt > before[j][0].changedAt
    ensures i in after
  {
    hide SplitAt;
    WholeOrGone(before, after, j);
    var at: int :| SplitAt(before, after, at);
    SplitOrders(before, after, at, i, j);
  }

  lemma WholeOrGone(before: Rings, after: Rings, id: string)
    requires Shed(before, after) && id in before && |before[id]| == 1
    ensures id in after ==> after[id] == before[id]
  {
    assert IsSuffix(RingOf(after, id), before[id]);
  }

  lemma TotalOfTwo(a: string, b: string, t: Transition, u: Transition)
    requires a != b
    ensures Total(Both(a, b, t, u)) == 2
  {
    hide Total;
    TotalOfNone(map[]);
    OnlyRing(a, t);
    TotalUpdate(map[], a, [t]);
    TotalUpdate(Only(a, t), b, [u]);
  }

  // What is newer than something left cannot have gone.
  lemma SplitOrders(before: Rings, after: Rings, at: int, i: string, j: string)
    requires SplitAt(before, after, at) && i in before && before[i] != [] && j in after && after[j] != []
    requires before[i][0].changedAt > after[j][0].changedAt
    ensures Gone(before, after, i) <= 0
  {}

  // a is cut for b's sake, and b is past retention when the store restarts.
  function CutThenOutdated(a: string, b: string, t: Transition, u: Transition, v: Transition): seq<Step> {
    [Append(a, [t], Only(a, t)), Append(b, [u], Both(a, b, t, u)), Append(a, [v], Both(a, b, v, u))]
  }

  lemma CutThenOutdatedIs(a: string, b: string, t: Transition, u: Transition, v: Transition, cap: nat)
    requires cap > 1 && a != "" && b != "" && a != b && t.changedAt < u.changedAt < v.changedAt
    ensures Run(CutThenOutdated(a, b, t, u, v), Limits(cap, 2)) ==
            History(Both(a, b, v, u), EntriesOf(a, [t]) + EntriesOf(b, [u]) + EntriesOf(a, [v]), false, true)
  {
    hide Total, EntriesOf, Run, Recoverable, Evicted, AddAll, Accepted;
    var l := Limits(cap, 2);
    var one := [Append(a, [t], Only(a, t))];
    var two := one + [Append(b, [u], Both(a, b, t, u))];
    var last := Append(a, [v], Both(a, b, v, u));
    assert [] + one == one && two + [last] == CutThenOutdated(a, b, t, u, v);
    RunNone(l);
    OnlyRing(a, t);
    NextOne([], a, t, l);
    assert [] + EntriesOf(a, [t]) == EntriesOf(a, [t]);
    NextOne(one, b, u, l);
    RunLast(two, last, l);
    NextInRing(t, v, cap);
    assert Merged(Both(a, b, t, u), a, [v], cap) == Both(a, b, t, u)[a := [t, v]];
    FirstIsCut(a, b, t, u, v, cap);
  }

  lemma NextInRing(t: Transition, v: Transition, cap: nat)
    requires cap > 1 && t.changedAt < v.changedAt
    ensures AddAll([t], [v], cap) == [t, v] && Accepted([t], [v], cap) == [v] && AddAll([], [t, v], cap) == [t, v] && RingOk([t, v], cap)
  {
    OneOf("", t, cap);
    AddNone([t], cap);
    assert [v][..0] == [] && [t, v][..1] == [t];
    assert Inserted([t], v) == [t, v];
  }

  lemma FirstIsCut(a: string, b: string, t: Transition, u: Transition, v: Transition, cap: nat)
    requires cap > 1 && a != "" && b != "" && a != b && t.changedAt < u.changedAt < v.changedAt
    ensures Evicted(Both(a, b, t, u)[a := [t, v]], Both(a, b, v, u), 2) && Total(Both(a, b, t, u)[a := [t, v]]) == 3
  {
    hide Evicted, Total, RingsOk;
    var all := Both(a, b, t, u)[a := [t, v]];
    TotalOfTwo(a, b, t, u);
    TotalUpdate(Both(a, b, t, u), a, [t, v]);
    TripleOk(a, b, t, u, v, cap);
    OldestGoes(all, a, cap);
  }

  lemma TripleOk(a: string, b: string, t: Transition, u: Transition, v: Transition, cap: nat)
    requires cap > 1 && a != "" && b != "" && a != b && t.changedAt < u.changedAt < v.changedAt
    ensures var all := Both(a, b, t, u)[a := [t, v]];
            RingsOk(all, cap) && IsOldest(all, a) && WithoutHead(all, a) == Both(a, b, v, u)
  {}

  function Pair(a: string, t: Transition, v: Transition): Rings { map[a := [t, v]] }

  // Nothing was dropped here, and a restart still differs: b is not replayed, so
  // that a has room for what was evicted.
  lemma RetentionMakesRoom(a: string, b: string, t: Transition, u: Transition, v: Transition, cap: nat, cutoff: int)
    requires cap > 1 && a != "" && b != "" && a != b && t.changedAt < u.changedAt < cutoff <= v.changedAt
    ensures var h := Run(CutThenOutdated(a, b, t, u, v), Limits(cap, 2));
            && h.rings == Both(a, b, v, u) && !h.dropped
            && RingsOk(h.rings, cap) && Recent(h.rings, cutoff, cap) == Only(a, v)
            && forall after :: Restarted(h.file, cutoff, cap, 2, after) <==> after == Pair(a, t, v)
  {
    hide Run, CutThenOutdated, EntriesOf, Replayed, Evicted, Both, Only, Pair, RingsOk, Recent;
    CutThenOutdatedIs(a, b, t, u, v, cap);
    ReplayedCut(a, b, t, u, v, cap, cutoff);
    RecentOfBoth(a, b, v, u, cap, cutoff);
    PairStays(a, t, v, cap);
  }

  lemma RecentOfBoth(a: string, b: string, v: Transition, u: Transition, cap: nat, cutoff: int)
    requires cap > 1 && a != "" && b != "" && a != b && u.changedAt < cutoff <= v.changedAt
    ensures RingsOk(Both(a, b, v, u), cap) && Recent(Both(a, b, v, u), cutoff, cap) == Only(a, v)
  {}

  lemma PairStays(a: string, t: Transition, v: Transition, cap: nat)
    requires cap > 1 && a != "" && t.changedAt < v.changedAt
    ensures forall after :: Evicted(Pair(a, t, v), after, 2) <==> after == Pair(a, t, v)
  {
    hide Shed, Total;
    var rings := Pair(a, t, v);
    TotalOfNone(map[]);
    TotalUpdate(map[], a, [t, v]);
    assert map[][a := [t, v]] == rings;
    ShedNothing(rings, cap);
    forall after | Evicted(rings, after, 2) ensures after == rings { NothingEvicted(rings, after, 2); }
  }

  lemma ReplayedCut(a: string, b: string, t: Transition, u: Transition, v: Transition, cap: nat, cutoff: int)
    requires cap > 1 && a != "" && b != "" && a != b && t.changedAt < u.changedAt < cutoff <= v.changedAt
    ensures Replayed(EntriesOf(a, [t]) + EntriesOf(b, [u]) + EntriesOf(a, [v]), cutoff, cap) == Pair(a, t, v)
  {
    hide TransitionsFor, EntriesOf, AddAll;
    var file := EntriesOf(a, [t]) + EntriesOf(b, [u]) + EntriesOf(a, [v]);
    forall id: string ensures TransitionsFor(file, id) == if id == a then [t, v] else if id == b then [u] else [] {
      TransitionsJoin(EntriesOf(a, [t]) + EntriesOf(b, [u]), EntriesOf(a, [v]), id);
      FileOfTwo(a, b, [t], [u], id);
      TransitionsOfEntries(a, [v], id);
    }
    NextInRing(t, v, cap);
    assert [t, v][..1] == [t];
    assert NewestTime([t, v]) == v.changedAt;
    assert Replayed(file, cutoff, cap) == Pair(a, t, v);
  }
}
