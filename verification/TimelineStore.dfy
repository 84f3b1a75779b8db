// The part of MemoryStore that holds transition rings (storage/storage.go).

module TimelineStore {
  import opened Basics
  import opened TransitionRing
  import opened Timelines
  import opened JournalFile
  import opened RingRecovery

  class TimelineStore {
    const cap: nat
    const backstop: nat
    var timelines: map<string, Ring>
    var transitionTotal: int

    ghost predicate Owned()
      reads this`timelines
    {
      forall id :: id in timelines ==> timelines[id].owner == id
    }

    ghost function Contents(): Rings
      reads this`timelines, timelines.Values
    {
      map id | id in timelines :: timelines[id].entries
    }

    // Every ring in order, and the total right; it may be over the backstop.
    ghost predicate Counted()
      reads this, timelines.Values
    {
      cap > 0 && Owned() && RingsOk(Contents(), cap) && transitionTotal == Total(Contents())
    }

    ghost predicate Valid()
      reads this, timelines.Values
    {
      Counted() && transitionTotal <= backstop
    }

    constructor (cap: nat, backstop: nat)
      requires cap > 0
      ensures Valid() && timelines == map[] && Contents() == map[] && this.cap == cap && this.backstop == backstop
    {
      this.cap, this.backstop := cap, backstop;
      timelines, transitionTotal := map[], 0;
      new;
      TotalOfNone(Contents());
    }

    method AddTransitions(ring: Ring, identity: string, xs: seq<Transition>, journal: Journal?)
      requires journal != null ==> journal.Valid()
      modifies this`transitionTotal, ring, journal
      ensures ring.entries == AddAll(old(ring.entries), xs, cap)
      ensures transitionTotal == old(transitionTotal) + |ring.entries| - |old(ring.entries)|
      ensures journal != null ==> (journal.Valid() &&
        journal.file == old(journal.file) + EntriesOf(identity, Accepted(old(ring.entries), xs, cap)))
    {
      hide AddAll, AddTo, Accepted, EntriesOf, SizeOf, Has;
      AcceptedNone(old(ring.entries), cap, identity);
      for i := 0 to |xs|
        invariant ring.entries == AddAll(old(ring.entries), xs[..i], cap)
        invariant transitionTotal == old(transitionTotal) + |ring.entries| - |old(ring.entries)|
        invariant journal != null ==> (journal.Valid() &&
          journal.file == old(journal.file) + EntriesOf(identity, Accepted(old(ring.entries), xs[..i], cap)))
      {
        AcceptedNext(old(ring.entries), xs, i, cap, identity);
        var added, dropped := ring.Add(xs[i], cap);
        if added {
          transitionTotal := transitionTotal + 1;
          if journal != null {
            journal.AppendEntry(TransitionEntry(identity, xs[i]));
          }
        }
        transitionTotal := transitionTotal - dropped;
      }
      assert xs[..|xs|] == xs;
    }

    method AppendTransitions(identity: string, xs: seq<Transition>, journal: Journal?)
      requires Valid() && identity != "" && (journal != null ==> journal.Valid())
      modifies this`timelines, this`transitionTotal, timelines.Values, journal
      ensures Valid() && forall id :: id in timelines ==>
        fresh(timelines[id]) || (id in old(timelines) && timelines[id] == old(timelines[id]))
      ensures xs == [] ==> Contents() == old(Contents())
      ensures xs != [] ==> Evicted(Merged(old(Contents()), identity, xs, cap), Contents(), backstop)
      ensures journal != null ==> (journal.Valid() &&
        journal.file == old(journal.file) + EntriesOf(identity, Accepted(RingOf(old(Contents()), identity), xs, cap)))
    {
      if |xs| == 0 {
        assert EntriesOf(identity, []) == [];
        return;
      }
      MergeTransitions(identity, xs, journal);
      EvictToBackstop();
    }

    // appendTransitions up to the eviction.
    method MergeTransitions(identity: string, xs: seq<Transition>, journal: Journal?)
      requires Counted() && identity != "" && xs != [] && (journal != null ==> journal.Valid())
      modifies this`timelines, this`transitionTotal, timelines.Values, journal
      ensures Counted() && forall id :: id in timelines ==>
        fresh(timelines[id]) || (id in old(timelines) && timelines[id] == old(timelines[id]))
      ensures Contents() == Merged(old(Contents()), identity, xs, cap)
      ensures journal != null ==> (journal.Valid() &&
        journal.file == old(journal.file) + EntriesOf(identity, Accepted(RingOf(old(Contents()), identity), xs, cap)))
    {
      hide RingsOk, SumMap, AddAll, Accepted, EntriesOf;
      ghost var before := Contents();
      if identity !in timelines {
        var created := new Ring(identity);
        timelines := timelines[identity := created];
      }
      var ring := timelines[identity];
      AddTransitions(ring, identity, xs, journal);
      assert Contents() == before[identity := ring.entries];
      MergedOk(before, identity, xs, cap);
      TotalUpdate(before, identity, ring.entries);
    }

    method EvictToBackstop()
      requires Counted()
      modifies this`timelines, this`transitionTotal, timelines.Values
      ensures Valid() && forall id :: id in timelines ==> id in old(timelines) && timelines[id] == old(timelines[id])
      ensures Evicted(old(Contents()), Contents(), backstop)
    {
      ghost var before := Contents();
      ShedNothing(before, cap);
      while transitionTotal > backstop
        invariant Counted() && Shed(before, Contents()) && transitionTotal <= Total(before)
        invariant Total(before) <= backstop ==> transitionTotal == Total(before)
        invariant Total(before) > backstop ==> backstop <= transitionTotal
        invariant forall id :: id in timelines ==> id in old(timelines) && timelines[id] == old(timelines[id])
        decreases transitionTotal
      {
        ghost var rings := Contents();
        SomethingHeld(rings, backstop);
        var evicted, oldest := EvictOldestTransition();
        if !evicted {
          break;
        }
        ShedStep(before, rings, oldest, cap);
      }
    }

    method EvictOldestTransition() returns (evicted: bool, ghost oldest: string)
      requires Counted()
      modifies this`timelines, this`transitionTotal, timelines.Values
      ensures Counted() && forall id :: id in timelines ==> id in old(timelines) && timelines[id] == old(timelines[id])
      ensures evicted == (old(Contents()) != map[])
      ensures evicted ==> IsOldest(old(Contents()), oldest) && Contents() == WithoutHead(old(Contents()), oldest)
      ensures !evicted ==> Contents() == old(Contents())
    {
      hide RingsOk, Total, Shed, WithoutHead, Contents;
      ContentsHeld(this);
      var identity := FindOldest();
      if identity == "" {
        return false, "";
      }
      ghost var before := Contents();
      HeldNotEmpty(before, cap);
      RemoveHead(identity);
      transitionTotal := transitionTotal - 1;
      ShedNothing(before, cap);
      ShedStep(before, before, identity, cap);
      return true, identity;
    }

    method RemoveHead(identity: string)
      requires Owned() && identity in timelines && timelines[identity].entries != []
      modifies this`timelines, timelines[identity]
      ensures Owned() && (timelines == old(timelines) || timelines == old(timelines) - {identity})
      ensures Contents() == WithoutHead(old(Contents()), identity)
    {
      ghost var before := Contents();
      var ring := timelines[identity];
      ring.entries := ring.entries[1..];
      if |ring.entries| == 0 {
        timelines := timelines - {identity};
      }
      assert Contents() == WithoutHead(before, identity);
    }

    method FindOldest() returns (oldest: string)
      requires Counted()
      ensures oldest == "" <==> timelines == map[]
      ensures oldest != "" ==> IsOldest(Contents(), oldest)
    {
      ghost var rings := Contents();
      HeldNotEmpty(rings, cap);
      oldest := "";
      var time := 0;
      var rest := timelines.Keys;
      while rest != {}
        invariant rest <= timelines.Keys
        invariant oldest == "" <==> rest == timelines.Keys
        invariant oldest != "" ==> oldest in rings && time == rings[oldest][0].changedAt
        invariant oldest != "" ==> forall id :: id in rings && id !in rest ==> time <= rings[id][0].changedAt
        decreases rest
      {
        ghost var some := SomeElement(rest);
        var id :| id in rest;
        rest := rest - {id};
        assert rings[id] == timelines[id].entries;
        if |timelines[id].entries| == 0 {
          continue;
        }
        if oldest == "" || timelines[id].entries[0].changedAt < time {
          oldest, time := id, timelines[id].entries[0].changedAt;
        }
      }
    }

    // The ring part of dropIdentity.
    method DropRing(identity: string)
      requires Valid()
      modifies this`timelines, this`transitionTotal
      ensures Valid() && timelines == old(timelines) - {identity}
      ensures Contents() == old(Contents()) - {identity}
    {
      TotalDrop(Contents(), identity);
      if identity in timelines {
        transitionTotal := transitionTotal - |timelines[identity].entries|;
        timelines := timelines - {identity};
      }
      assert Contents() == old(Contents()) - {identity};
    }

    // The part of compactJournal that lists the rings.
    method ListRings() returns (entries: seq<JournalEntry>)
      requires Valid()
      ensures CompactedRings(entries, Contents())
      ensures forall e :: e in entries ==> e.TransitionEntry? && e.identity in timelines
    {
      hide TransitionsFor, EntriesOf, RingsOk, SumMap;
      ghost var rings := Contents();
      entries := [];
      NothingJournaled();
      var rest := timelines.Keys;
      while rest != {}
        invariant rest <= timelines.Keys
        invariant forall id: string :: TransitionsFor(entries, id) == if id in rest then [] else RingOf(rings, id)
        invariant forall e :: e in entries ==> e.TransitionEntry? && e.identity in timelines
        decreases rest
      {
        ghost var some := SomeElement(rest);
        var id :| id in rest;
        assert rings[id] == timelines[id].entries;
        var lines := ListRing(id, timelines[id].entries);
        forall j: string
          ensures TransitionsFor(entries + lines, j) == if j in rest - {id} then [] else RingOf(rings, j)
        {
          TransitionsJoin(entries, lines, j);
          TransitionsOfEntries(id, rings[id], j);
        }
        AllTransitions(id, rings[id]);
        entries := entries + lines;
        rest := rest - {id};
      }
    }

    static method ListRing(id: string, ts: seq<Transition>) returns (lines: seq<JournalEntry>)
      ensures lines == EntriesOf(id, ts)
    {
      lines := [];
      for i := 0 to |ts|
        invariant lines == EntriesOf(id, ts[..i])
      {
        lines := lines + [TransitionEntry(id, ts[i])];
      }
      assert ts[..|ts|] == ts;
    }

    // The part of replayJournal that fills the rings from what it read. Evicting as
    // it goes, in whatever order, it ends as if it had evicted once at the end.
    method ReplayTransitions(transitions: map<string, seq<Transition>>, cutoff: int)
      requires Valid() && Contents() == map[]
      requires forall id :: id in transitions ==> id != "" && transitions[id] != []
      modifies this`timelines, this`transitionTotal, timelines.Values
      ensures Valid() && Evicted(Wanted(transitions, cutoff, cap), Contents(), backstop)
    {
      hide SumMap, RingsOk, AddAll, Accepted, Evicted;
      ghost var wanted := Wanted(transitions, cutoff, cap);
      assert timelines.Keys == Contents().Keys;
      NothingWanted(backstop);
      WantedFilled(transitions, cutoff, cap);
      assert wanted - transitions.Keys == map[];
      var rest := transitions.Keys;
      while rest != {}
        invariant rest <= transitions.Keys
        invariant Valid() && forall id :: id in timelines ==> fresh(timelines[id])
        invariant Evicted(wanted - rest, Contents(), backstop)
        decreases rest
      {
        ghost var some := SomeElement(rest);
        var id :| id in rest;
        var newest := NewestOf(transitions[id]);
        if newest >= cutoff {
          ReplayIdentity(id, transitions[id], wanted, rest);
        } else {
          assert wanted - (rest - {id}) == wanted - rest;
        }
        rest := rest - {id};
      }
      assert wanted - {} == wanted;
    }

    method ReplayIdentity(id: string, xs: seq<Transition>, ghost wanted: Rings, ghost rest: set<string>)
      requires Valid() && id != "" && xs != []
      requires id in rest && id in wanted && wanted[id] == AddAll([], xs, cap)
      requires Evicted(wanted - rest, Contents(), backstop) && RingsFilled(wanted)
      modifies this`timelines, this`transitionTotal, timelines.Values
      ensures Valid() && forall id :: id in timelines ==>
        fresh(timelines[id]) || (id in old(timelines) && timelines[id] == old(timelines[id]))
      ensures Evicted(wanted - (rest - {id}), Contents(), backstop)
    {
      hide SumMap, RingsOk, AddAll, Accepted, Evicted, RingsFilled;
      ghost var before := Contents();
      AppendTransitions(id, xs, null);
      WantedOneMore(before, Contents(), wanted, rest, id, xs, cap, backstop);
    }

    static method NewestOf(list: seq<Transition>) returns (newest: int)
      requires list != []
      ensures newest == NewestTime(list)
    {
      newest := list[0].changedAt;
      for i := 0 to |list|
        invariant newest == if i == 0 then list[0].changedAt else NewestTime(list[..i])
      {
        assert list[..i + 1][..i] == list[..i];
        if list[i].changedAt > newest {
          newest := list[i].changedAt;
        }
      }
      assert list[..|list|] == list;
    }

    // StateTimeline of an identity with a ring: newest first.
    method StateTimeline(identity: string) returns (newestFirst: seq<Transition>)
      ensures identity in timelines ==> |newestFirst| == |Contents()[identity]|
      ensures identity in timelines ==> forall k :: 0 <= k < |newestFirst| ==> newestFirst[k] == Contents()[identity][|newestFirst| - 1 - k]
      ensures identity !in timelines ==> newestFirst == []
    {
      newestFirst := [];
      if identity !in timelines {
        return;
      }
      var entries := timelines[identity].entries;
      var i := |entries|;
      while i > 0
        invariant 0 <= i <= |entries| && |newestFirst| == |entries| - i
        invariant forall k :: 0 <= k < |newestFirst| ==> newestFirst[k] == entries[|entries| - 1 - k]
      {
        i := i - 1;
        newestFirst := newestFirst + [entries[i]];
      }
    }
  }

  // The rings a replay is to fill, by identity.
  ghost function Wanted(transitions: map<string, seq<Transition>>, cutoff: int, cap: nat): Rings
    requires forall id :: id in transitions ==> transitions[id] != []
  {
    map id | id in transitions && NewestTime(transitions[id]) >= cutoff :: AddAll([], transitions[id], cap)
  }

  lemma AcceptedNone(entries: seq<Transition>, cap: nat, id: string)
    ensures AddAll(entries, [], cap) == entries && EntriesOf(id, Accepted(entries, [], cap)) == []
  {}

  lemma AcceptedNext(entries: seq<Transition>, xs: seq<Transition>, i: nat, cap: nat, id: string)
    requires i < |xs|
    ensures var ring := AddAll(entries, xs[..i], cap);
            && AddAll(entries, xs[..i + 1], cap) == AddTo(ring, xs[i], cap)
            && EntriesOf(id, Accepted(entries, xs[..i + 1], cap)) ==
               EntriesOf(id, Accepted(entries, xs[..i], cap)) + (if Has(ring, KeyOf(xs[i])) then [] else [TransitionEntry(id, xs[i])])
  {
    hide AddTo, Has;
    assert xs[..i + 1][..i] == xs[..i];
  }

  lemma NothingJournaled()
    ensures forall id: string :: TransitionsFor([], id) == []
  {}

  lemma AllTransitions(id: string, ts: seq<Transition>)
    ensures forall e :: e in EntriesOf(id, ts) ==> e.TransitionEntry? && e.identity == id
  {}

  ghost predicate RingsFilled(rings: Rings) { forall id :: id in rings ==> rings[id] != [] }

  lemma ContentsHeld(t: TimelineStore)
    ensures t.Contents().Keys == t.timelines.Keys
    ensures forall id :: id in t.timelines ==> t.Contents()[id] == t.timelines[id].entries
  {}

  lemma WantedFilled(transitions: map<string, seq<Transition>>, cutoff: int, cap: nat)
    requires cap > 0 && forall id :: id in transitions ==> transitions[id] != []
    ensures RingsFilled(Wanted(transitions, cutoff, cap))
  {
    forall id | id in Wanted(transitions, cutoff, cap) ensures AddAll([], transitions[id], cap) != [] {
      AddAllFills([], transitions[id], cap);
    }
  }

  lemma NothingWanted(backstop: nat)
    ensures Evicted(map[], map[], backstop)
  {
    TotalOfNone(map[]);
    assert SplitAt(map[], map[], 0);
  }

  lemma WantedOneMore(before: Rings, after: Rings, wanted: Rings, rest: set<string>, id: string, xs: seq<Transition>, cap: nat, backstop: nat)
    requires Evicted(wanted - rest, before, backstop) && RingsFilled(wanted)
    requires id in rest && id in wanted && wanted[id] == AddAll([], xs, cap)
    requires Evicted(Merged(before, id, xs, cap), after, backstop)
    ensures Evicted(wanted - (rest - {id}), after, backstop)
  {
    hide SumMap, AddAll, Total;
    var all := wanted - rest;
    assert id !in all && id !in before;
    assert all[id := wanted[id]] == wanted - (rest - {id});
    EvictedAbsorbs(all, before, after, id, wanted[id], backstop);
  }
}
