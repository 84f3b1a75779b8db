// What the journal is for, as far as the transition rings go: replaying the file
// rebuilds them (storage/storage.go, storage/journal.go).

module RingRecovery {
  import opened Basics
  import opened TransitionRing
  import opened Timelines
  import opened RingOffers
  import opened JournalFile

  // The journaled transitions of one identity, in file order.
  function TransitionsFor(file: seq<JournalEntry>, id: string): seq<Transition> {
    if file == [] then [] else
      var e := file[|file| - 1];
      TransitionsFor(file[..|file| - 1], id) + (if e.TransitionEntry? && e.identity == id then [e.transition] else [])
  }

  function EntriesOf(id: string, ts: seq<Transition>): seq<JournalEntry> {
    seq(|ts|, i requires 0 <= i < |ts| => TransitionEntry(id, ts[i]))
  }

  // Those of xs that adding them in order puts in: the ones that get journaled.
  function Accepted(entries: seq<Transition>, xs: seq<Transition>, cap: nat): seq<Transition> {
    if xs == [] then [] else
      var rest, last := xs[..|xs| - 1], xs[|xs| - 1];
      Accepted(entries, rest, cap) + (if Has(AddAll(entries, rest, cap), KeyOf(last)) then [] else [last])
  }

  ghost predicate RebuildsRings(file: seq<JournalEntry>, rings: Rings, cap: nat) {
    forall id: string :: AddAll([], TransitionsFor(file, id), cap) == RingOf(rings, id)
  }

  // A file as compaction writes it; identities come in the order of a Go map.
  ghost predicate CompactedRings(file: seq<JournalEntry>, rings: Rings) {
    forall id: string :: TransitionsFor(file, id) == RingOf(rings, id)
  }

  // ------------------------------------------------------------------- appending

  lemma {:induction false} TransitionsJoin(a: seq<JournalEntry>, b: seq<JournalEntry>, id: string)
    ensures TransitionsFor(a + b, id) == TransitionsFor(a, id) + TransitionsFor(b, id)
  {
    if b == [] {
      assert a + b == a;
    } else {
      TransitionsJoin(a, b[..|b| - 1], id);
      assert (a + b)[..|a + b| - 1] == a + b[..|b| - 1];
    }
  }

  lemma {:induction false} TransitionsOfEntries(id: string, ts: seq<Transition>, j: string)
    ensures TransitionsFor(EntriesOf(id, ts), j) == if j == id then ts else []
  {
    var es := EntriesOf(id, ts);
    if ts != [] {
      TransitionsOfEntries(id, ts[..|ts| - 1], j);
      assert es[..|es| - 1] == EntriesOf(id, ts[..|ts| - 1]);
    }
  }

  lemma {:induction false} AddAllJoin(entries: seq<Transition>, a: seq<Transition>, b: seq<Transition>, cap: nat)
    ensures AddAll(entries, a + b, cap) == AddAll(AddAll(entries, a, cap), b, cap)
  {
    if b == [] {
      assert a + b == a;
    } else {
      AddAllJoin(entries, a, b[..|b| - 1], cap);
      assert (a + b)[..|a + b| - 1] == a + b[..|b| - 1];
    }
  }

  // Leaving out what is not accepted changes nothing.
  lemma {:induction false} AddAccepted(entries: seq<Transition>, xs: seq<Transition>, cap: nat)
    ensures AddAll(entries, Accepted(entries, xs, cap), cap) == AddAll(entries, xs, cap)
  {
    if xs != [] {
      var rest, last := xs[..|xs| - 1], xs[|xs| - 1];
      AddAccepted(entries, rest, cap);
      if Has(AddAll(entries, rest, cap), KeyOf(last)) {
        assert Accepted(entries, xs, cap) == Accepted(entries, rest, cap);
      } else {
        var more := Accepted(entries, rest, cap) + [last];
        assert more[..|more| - 1] == Accepted(entries, rest, cap);
      }
    }
  }

  lemma AppendRebuilds(file: seq<JournalEntry>, rings: Rings, id: string, xs: seq<Transition>, cap: nat)
    requires RebuildsRings(file, rings, cap)
    ensures RebuildsRings(file + EntriesOf(id, Accepted(RingOf(rings, id), xs, cap)), Merged(rings, id, xs, cap), cap)
  {
    hide AddAll, Accepted, TransitionsFor;
    var more := Accepted(RingOf(rings, id), xs, cap);
    forall j: string
      ensures AddAll([], TransitionsFor(file + EntriesOf(id, more), j), cap) == RingOf(Merged(rings, id, xs, cap), j)
    {
      TransitionsJoin(file, EntriesOf(id, more), j);
      TransitionsOfEntries(id, more, j);
      AddAllJoin([], TransitionsFor(file, j), if j == id then more else [], cap);
      AddAccepted(RingOf(rings, id), xs, cap);
      AddNone(RingOf(rings, j), cap);
    }
  }

  lemma AddNone(entries: seq<Transition>, cap: nat)
    ensures AddAll(entries, [], cap) == entries
  {}

  // ------------------------------------------------------------------- compacting

  // A ring added entry by entry to an empty one gives itself.
  lemma {:induction false} ReplaySelf(entries: seq<Transition>, cap: nat)
    requires RingOk(entries, cap)
    ensures AddAll([], entries, cap) == entries
  {
    if entries != [] {
      var rest, last := entries[..|entries| - 1], entries[|entries| - 1];
      ReplaySelf(rest, cap);
      assert !Has(rest, KeyOf(last));
      assert rest + [last] == entries;
    }
  }

  lemma CompactionRebuilds(file: seq<JournalEntry>, rings: Rings, cap: nat)
    requires CompactedRings(file, rings) && RingsOk(rings, cap)
    ensures RebuildsRings(file, rings, cap)
  {
    forall id: string ensures AddAll([], TransitionsFor(file, id), cap) == RingOf(rings, id) {
      ReplaySelf(RingOf(rings, id), cap);
    }
  }

  // --------------------------------------------- what leaves no trace in the file

  // Dropping an identity makes the file wrong exactly when it had a ring.
  lemma DropIsNotJournaled(file: seq<JournalEntry>, rings: Rings, id: string, cap: nat)
    requires RebuildsRings(file, rings, cap) && RingsOk(rings, cap)
    ensures RebuildsRings(file, rings - {id}, cap) <==> id !in rings
  {
    hide AddAll, TransitionsFor;
    if id in rings {
      assert AddAll([], TransitionsFor(file, id), cap) == RingOf(rings, id) != RingOf(rings - {id}, id);
    } else {
      assert rings - {id} == rings;
    }
  }

  // After an eviction the file still rebuilds the rings as they were before it.
  // What a restart makes of that is another matter, as it evicts in turn.
  lemma EvictionIsNotJournaled(file: seq<JournalEntry>, before: Rings, after: Rings, cap: nat, backstop: nat)
    requires RebuildsRings(file, before, cap) && RingsOk(before, cap) && Evicted(before, after, backstop)
    ensures RebuildsRings(file, after, cap) <==> Total(before) <= backstop
  {
    hide AddAll, TransitionsFor, SplitAt, SumMap;
    if Total(before) <= backstop {
      NothingEvicted(before, after, backstop);
    }
    if RebuildsRings(file, after, cap) {
      forall id | id in before ensures id in after && after[id] == before[id] {
        assert AddAll([], TransitionsFor(file, id), cap) == RingOf(before, id) == RingOf(after, id);
      }
      assert after == before;
    }
  }

  // ------------------------------------------------------------------- replaying

  function NewestTime(xs: seq<Transition>): int
    requires xs != []
  {
    if |xs| == 1 then xs[0].changedAt else Max(NewestTime(xs[..|xs| - 1]), xs[|xs| - 1].changedAt)
  }

  // What replaying the file gives: the rings of identities whose newest
  // transition is recent enough.
  ghost function Replayed(file: seq<JournalEntry>, cutoff: int, cap: nat): Rings {
    map id | id in Journaled(file) && id != "" && NewestTime(TransitionsFor(file, id)) >= cutoff :: AddAll([], TransitionsFor(file, id), cap)
  }

  // What a restart may come to: the rings replayed, and evicted down to the
  // backstop again.
  ghost predicate Restarted(file: seq<JournalEntry>, cutoff: int, cap: nat, backstop: nat, after: Rings) {
    Evicted(Replayed(file, cutoff, cap), after, backstop)
  }

  function Journaled(file: seq<JournalEntry>): (ids: set<string>)
    ensures forall id :: id in ids <==> TransitionsFor(file, id) != []
  {
    if file == [] then {} else
      var e := file[|file| - 1];
      Journaled(file[..|file| - 1]) + (if e.TransitionEntry? then {e.identity} else {})
  }

  ghost function Recent(rings: Rings, cutoff: int, cap: nat): Rings
    requires RingsOk(rings, cap)
  {
    map id | id in rings && rings[id][|rings[id]| - 1].changedAt >= cutoff :: rings[id]
  }

  lemma {:induction false} NewestTimeIs(xs: seq<Transition>)
    requires xs != []
    ensures forall t :: t in xs ==> t.changedAt <= NewestTime(xs)
    ensures exists t :: t in xs && t.changedAt == NewestTime(xs)
  {
    if |xs| > 1 {
      var rest := xs[..|xs| - 1];
      NewestTimeIs(rest);
      assert xs == rest + [xs[|xs| - 1]];
      if NewestTime(xs) == xs[|xs| - 1].changedAt {
        assert xs[|xs| - 1] in xs;
      } else {
        var t :| t in rest && t.changedAt == NewestTime(rest);
        assert t in xs;
      }
    } else {
      assert xs[0] in xs;
    }
  }

  // The newest of all that was added is at the end of the ring.
  lemma NewestIsHeld(xs: seq<Transition>, cap: nat)
    requires xs != [] && cap > 0
    ensures var ring := AddAll([], xs, cap); ring != [] && ring[|ring| - 1].changedAt == NewestTime(xs)
  {
    hide AddAll, KeySet, Retains;
    var ring := AddAll([], xs, cap);
    AddAllRetains(xs, cap);
    NewestTimeIs(xs);
    AddAllFills([], xs, cap);
    NewestRetained(xs, ring, cap);
  }

  lemma NewestRetained(xs: seq<Transition>, ring: seq<Transition>, cap: nat)
    requires Retains(ring, KeySet(xs), cap) && ring != [] && cap > 0 && xs != []
    ensures ring[|ring| - 1].changedAt == NewestTime(xs)
  {
    hide NewestTime;
    NewestTimeIs(xs);
    var t :| t in xs && t.changedAt == NewestTime(xs);
    assert KeyOf(t) in KeySet(xs);
    var last := ring[|ring| - 1];
    assert KeyOf(last) in KeySet(ring) && KeyOf(last) in KeySet(xs);
    var u :| u in xs && KeyOf(u) == KeyOf(last);
    if KeyOf(t) in KeySet(ring) {
      var i :| 0 <= i < |ring| && KeyOf(ring[i]) == KeyOf(t);
      if i < |ring| - 1 { SortedPair(ring, i, |ring| - 1); }
    }
  }

  // Replaying a file that rebuilds the rings gives the rings, those apart whose
  // newest transition is past retention.
  lemma ReplayIsRecent(file: seq<JournalEntry>, rings: Rings, cutoff: int, cap: nat)
    requires RebuildsRings(file, rings, cap) && RingsOk(rings, cap) && cap > 0
    ensures Replayed(file, cutoff, cap) == Recent(rings, cutoff, cap)
  {
    hide AddAll, TransitionsFor, RingOk, NewestTime;
    forall id: string ensures id in Journaled(file) <==> id in rings {
      assert AddAll([], TransitionsFor(file, id), cap) == RingOf(rings, id);
      if TransitionsFor(file, id) != [] { AddAllFills([], TransitionsFor(file, id), cap); }
      AddNone([], cap);
    }
    forall id | id in rings
      ensures AddAll([], TransitionsFor(file, id), cap) == rings[id]
      ensures NewestTime(TransitionsFor(file, id)) == rings[id][|rings[id]| - 1].changedAt
    {
      assert AddAll([], TransitionsFor(file, id), cap) == RingOf(rings, id);
      NewestIsHeld(TransitionsFor(file, id), cap);
    }
  }

  // ------------------------------------------------------------------- runs

  // Since the file was last written anew: dropped, a ring was dropped; cut,
  // something was evicted.
  datatype History = History(rings: Rings, file: seq<JournalEntry>, dropped: bool, cut: bool)

  datatype Limits = Limits(cap: nat, backstop: nat)

  datatype Step =
    | Append(id: string, xs: seq<Transition>, after: Rings)
    | Drop(id: string)
    | Compact(file: seq<JournalEntry>)
    | Restart(cutoff: int, after: Rings, file: seq<JournalEntry>)

  ghost predicate HistoryOk(h: History, l: Limits) {
    l.cap > 0 && RingsOk(h.rings, l.cap) && Total(h.rings) <= l.backstop
  }

  // One step. What a map's order decides comes with the action; an action that
  // is not possible changes nothing.
  ghost function Do(h: History, s: Step, l: Limits): History
    requires HistoryOk(h, l)
  {
    match s
    case Append(id, xs, after) =>
      var merged := Merged(h.rings, id, xs, l.cap);
      if id != "" && xs != [] && Evicted(merged, after, l.backstop)
      then History(after, h.file + EntriesOf(id, Accepted(RingOf(h.rings, id), xs, l.cap)), h.dropped, h.cut || Total(merged) > l.backstop)
      else h
    case Drop(id) => h.(rings := h.rings - {id}, dropped := h.dropped || id in h.rings)
    case Compact(file) => if CompactedRings(file, h.rings) then h.(file := file, dropped := false, cut := false) else h
    case Restart(cutoff, after, file) =>
      if Restarted(h.file, cutoff, l.cap, l.backstop, after) && CompactedRings(file, after)
      then History(after, file, false, false) else h
  }

  // Whatever is held has been journaled.
  ghost predicate AllJournaled(file: seq<JournalEntry>, rings: Rings) {
    forall id: string :: KeySet(RingOf(rings, id)) <= KeySet(TransitionsFor(file, id))
  }

  ghost predicate Recoverable(h: History, l: Limits) {
    HistoryOk(h, l) && AllJournaled(h.file, h.rings) && (!h.dropped ==> Matches(h.file, h.rings, h.cut, l.cap, l.backstop))
  }

  // What was journaled of each identity.
  function FileOffers(file: seq<JournalEntry>): Offers { map id | id in Journaled(file) :: KeySet(TransitionsFor(file, id)) }

  // How the rings stand to the file while none is dropped: it rebuilds them, or
  // they are the newest of what it has.
  ghost predicate Matches(file: seq<JournalEntry>, rings: Rings, cut: bool, cap: nat, backstop: nat) {
    if cut then CutToNewest(rings, FileOffers(file), cap, backstop) else RebuildsRings(file, rings, cap)
  }

  lemma RebuiltIsComplete(file: seq<JournalEntry>, rings: Rings, cap: nat)
    requires RebuildsRings(file, rings, cap)
    ensures Complete(rings, FileOffers(file), cap)
  {
    hide AddAll, TransitionsFor;
    forall id: string
      ensures KeySet(RingOf(rings, id)) <= OfferOf(FileOffers(file), id)
      ensures forall k :: k in OfferOf(FileOffers(file), id) && k !in KeySet(RingOf(rings, id)) ==> Excused(RingOf(rings, id), cap, k)
    {
      AddAllRetains(TransitionsFor(file, id), cap);
      OffersAt(file, id);
      RetainedExcuses(RingOf(rings, id), KeySet(TransitionsFor(file, id)), cap);
    }
  }

  lemma OffersAt(file: seq<JournalEntry>, id: string)
    ensures OfferOf(FileOffers(file), id) == KeySet(TransitionsFor(file, id))
  {
    hide TransitionsFor;
    if id !in Journaled(file) { assert KeySet([]) == {}; }
  }

  lemma RetainedExcuses(ring: seq<Transition>, s: set<Key>, cap: nat)
    requires Retains(ring, s, cap)
    ensures KeySet(ring) <= s && forall k :: k in s && k !in KeySet(ring) ==> Excused(ring, cap, k)
  {
    forall k | k in s && k !in KeySet(ring) ensures Excused(ring, cap, k) {
      if |ring| < cap { EverythingHeld(ring, s); }
    }
  }

  // Journaling what is accepted offers as much as journaling everything.
  lemma AppendOffers(file: seq<JournalEntry>, rings: Rings, id: string, xs: seq<Transition>, cap: nat)
    requires AllJournaled(file, rings) && xs != []
    ensures FileOffers(file + EntriesOf(id, Accepted(RingOf(rings, id), xs, cap))) == Offered(FileOffers(file), id, xs)
  {
    hide Accepted, TransitionsFor, KeySet, EntriesOf, AddAll, FileOffers, OfferOf;
    var more := Accepted(RingOf(rings, id), xs, cap);
    var grown := file + EntriesOf(id, more);
    OffersAt(file, id);
    AcceptedCovers(RingOf(rings, id), xs, cap);
    assert KeySet(RingOf(rings, id)) <= KeySet(TransitionsFor(file, id));
    forall j: string
      ensures KeySet(TransitionsFor(grown, j)) == KeySet(TransitionsFor(file, j)) + (if j == id then KeySet(xs) else {})
    {
      TransitionsJoin(file, EntriesOf(id, more), j);
      TransitionsOfEntries(id, more, j);
      JoinKeys(TransitionsFor(file, j), if j == id then more else []);
      NoKeysNoEntries([]);
    }
    SameOffers(file, grown, id, xs);
  }

  lemma SameOffers(file: seq<JournalEntry>, grown: seq<JournalEntry>, id: string, xs: seq<Transition>)
    requires xs != []
    requires forall j: string :: KeySet(TransitionsFor(grown, j)) == KeySet(TransitionsFor(file, j)) + (if j == id then KeySet(xs) else {})
    ensures FileOffers(grown) == Offered(FileOffers(file), id, xs)
  {
    hide TransitionsFor, KeySet, Journaled, OfferOf;
    var a, b := FileOffers(grown), Offered(FileOffers(file), id, xs);
    NoKeysNoEntries(xs);
    OffersAt(file, id);
    forall j: string ensures j in a <==> j in b {
      NoKeysNoEntries(TransitionsFor(grown, j));
      NoKeysNoEntries(TransitionsFor(file, j));
    }
    forall j | j in a && j in b ensures a[j] == b[j] {
      assert KeySet(TransitionsFor(grown, j)) == KeySet(TransitionsFor(file, j)) + (if j == id then KeySet(xs) else {});
    }
    assert a == b;
  }

  lemma {:induction false} AcceptedCovers(entries: seq<Transition>, xs: seq<Transition>, cap: nat)
    ensures KeySet(Accepted(entries, xs, cap)) <= KeySet(xs)
    ensures KeySet(xs) <= KeySet(entries) + KeySet(Accepted(entries, xs, cap))
  {
    if xs == [] {
      NoKeysNoEntries([]);
    } else {
      hide AddAll, KeySet;
      var rest, last := xs[..|xs| - 1], xs[|xs| - 1];
      assert xs == rest + [last];
      AcceptedCovers(entries, rest, cap);
      AcceptedKeys(entries, rest, cap);
      KeySetSnoc(rest, last);
      KeySetSnoc(Accepted(entries, rest, cap), last);
      HasIsMember(AddAll(entries, rest, cap), KeyOf(last));
    }
  }

  // Merging and evicting keep the rings matching the file.
  lemma AppendMatches(file: seq<JournalEntry>, rings: Rings, cut: bool, id: string, xs: seq<Transition>, after: Rings, cap: nat, backstop: nat)
    requires RingsOk(rings, cap) && cap > 0 && id != "" && xs != [] && AllJournaled(file, rings)
    requires Matches(file, rings, cut, cap, backstop) && Evicted(Merged(rings, id, xs, cap), after, backstop)
    ensures Matches(file + EntriesOf(id, Accepted(RingOf(rings, id), xs, cap)), after,
                    cut || Total(Merged(rings, id, xs, cap)) > backstop, cap, backstop)
  {
    hide RingsOk, RebuildsRings, AllJournaled, Evicted, Total, Merged, Accepted, Complete, NewestFrom, FileOffers, Offered, EntriesOf;
    var merged := Merged(rings, id, xs, cap);
    AppendOffers(file, rings, id, xs, cap);
    MergedOk(rings, id, xs, cap);
    if cut {
      var t: int :| NewestFrom(rings, FileOffers(file), cap, t);
      NextCut(rings, FileOffers(file), id, xs, after, cap, backstop, t);
    } else if Total(merged) > backstop {
      RebuiltIsComplete(file, rings, cap);
      MergedComplete(rings, FileOffers(file), id, xs, cap);
      FirstCut(merged, after, FileOffers(file + EntriesOf(id, Accepted(RingOf(rings, id), xs, cap))), cap, backstop);
    } else {
      AppendRebuilds(file, rings, id, xs, cap);
      HeldNotEmpty(merged, cap);
      NothingEvicted(merged, after, backstop);
    }
  }

  lemma {:induction false} AcceptedKeys(entries: seq<Transition>, xs: seq<Transition>, cap: nat)
    ensures KeySet(AddAll(entries, xs, cap)) <= KeySet(entries) + KeySet(Accepted(entries, xs, cap))
  {
    if xs != [] {
      var rest, last := xs[..|xs| - 1], xs[|xs| - 1];
      var before, more := AddAll(entries, rest, cap), Accepted(entries, rest, cap);
      AcceptedKeys(entries, rest, cap);
      if Has(before, KeyOf(last)) {
        assert Accepted(entries, xs, cap) == more;
      } else {
        InsertedKeys(before, last);
        KeySetSnoc(more, last);
        SuffixKeys(LastOf(Inserted(before, last), cap), Inserted(before, last));
      }
    }
  }

  lemma SuffixKeys(xs: seq<Transition>, ys: seq<Transition>)
    requires IsSuffix(xs, ys)
    ensures KeySet(xs) <= KeySet(ys)
  {}

  lemma JoinKeys(xs: seq<Transition>, ys: seq<Transition>)
    ensures KeySet(xs + ys) == KeySet(xs) + KeySet(ys)
  {
    forall k ensures k in KeySet(xs + ys) <==> k in KeySet(xs) + KeySet(ys) {
      if k in KeySet(xs + ys) { var t :| t in xs + ys && KeyOf(t) == k; }
      if k in KeySet(xs) { var t :| t in xs && KeyOf(t) == k; assert t in xs + ys; }
      if k in KeySet(ys) { var t :| t in ys && KeyOf(t) == k; assert t in xs + ys; }
    }
  }

  lemma AppendJournals(file: seq<JournalEntry>, rings: Rings, id: string, xs: seq<Transition>, cap: nat, after: Rings)
    requires AllJournaled(file, rings) && SuffixesOf(Merged(rings, id, xs, cap), after)
    ensures AllJournaled(file + EntriesOf(id, Accepted(RingOf(rings, id), xs, cap)), after)
  {
    hide AddAll, Accepted, TransitionsFor, KeySet, EntriesOf;
    var more := Accepted(RingOf(rings, id), xs, cap);
    var merged := Merged(rings, id, xs, cap);
    forall j: string
      ensures KeySet(RingOf(after, j)) <= KeySet(TransitionsFor(file + EntriesOf(id, more), j))
    {
      if j in merged {
        assert IsSuffix(RingOf(after, j), merged[j]);
      } else {
        assert RingOf(after, j) == RingOf(merged, j);
      }
      SuffixKeys(RingOf(after, j), RingOf(merged, j));
      TransitionsJoin(file, EntriesOf(id, more), j);
      TransitionsOfEntries(id, more, j);
      JoinKeys(TransitionsFor(file, j), if j == id then more else []);
      AcceptedKeys(RingOf(rings, id), xs, cap);
    }
  }

  lemma CompactionJournals(file: seq<JournalEntry>, rings: Rings)
    requires CompactedRings(file, rings)
    ensures AllJournaled(file, rings)
  {}

  lemma DropJournals(file: seq<JournalEntry>, rings: Rings, id: string)
    requires AllJournaled(file, rings)
    ensures AllJournaled(file, rings - {id})
  {
    hide TransitionsFor;
    forall j: string ensures KeySet(RingOf(rings - {id}, j)) <= KeySet(TransitionsFor(file, j)) {
      if j in rings - {id} { assert RingOf(rings - {id}, j) == RingOf(rings, j); }
    }
  }

  lemma ReplayedOk(file: seq<JournalEntry>, cutoff: int, cap: nat)
    requires cap > 0
    ensures RingsOk(Replayed(file, cutoff, cap), cap)
  {
    hide AddAll, TransitionsFor;
    forall id | id in Replayed(file, cutoff, cap)
      ensures Replayed(file, cutoff, cap)[id] != [] && RingOk(Replayed(file, cutoff, cap)[id], cap)
    {
      AddAllFills([], TransitionsFor(file, id), cap);
      AddAllOk([], TransitionsFor(file, id), cap);
    }
  }

  lemma EvictedOk(before: Rings, after: Rings, cap: nat)
    requires RingsOk(before, cap) && SuffixesOf(before, after)
    ensures RingsOk(after, cap)
  {
    forall id | id in after ensures RingOk(after[id], cap) {
      assert IsSuffix(RingOf(after, id), before[id]);
    }
  }

  lemma RecentOk(rings: Rings, cutoff: int, cap: nat)
    requires RingsOk(rings, cap)
    ensures RingsOk(Recent(rings, cutoff, cap), cap) && Total(Recent(rings, cutoff, cap)) <= Total(rings)
  {
    hide RingOk;
    TotalMonotone(Recent(rings, cutoff, cap), rings);
  }

  lemma DropOk(h: History, id: string, l: Limits)
    requires HistoryOk(h, l)
    ensures RingsOk(h.rings - {id}, l.cap) && Total(h.rings - {id}) <= l.backstop
  {
    TotalDrop(h.rings, id);
  }

  lemma StepKeepsRecoverable(h: History, s: Step, l: Limits)
    requires Recoverable(h, l)
    ensures Recoverable(Do(h, s, l), l)
  {
    hide RingsOk, RebuildsRings, AllJournaled, Evicted, Total, Recent, Replayed, CompactedRings, Merged, Accepted;
    match s
    case Append(id, xs, after) =>
      var merged := Merged(h.rings, id, xs, l.cap);
      if id != "" && xs != [] && Evicted(merged, after, l.backstop) {
        MergedOk(h.rings, id, xs, l.cap);
        EvictedParts(merged, after, l.backstop);
        EvictedOk(merged, after, l.cap);
        AppendJournals(h.file, h.rings, id, xs, l.cap, after);
        if !h.dropped { AppendMatches(h.file, h.rings, h.cut, id, xs, after, l.cap, l.backstop); }
      }
    case Drop(id) =>
      DropOk(h, id, l);
      DropJournals(h.file, h.rings, id);
      if id !in h.rings { assert h.rings - {id} == h.rings; }
    case Compact(file) =>
      if CompactedRings(file, h.rings) {
        CompactionRebuilds(file, h.rings, l.cap);
        CompactionJournals(file, h.rings);
      }
    case Restart(cutoff, after, file) =>
      var rings := Replayed(h.file, cutoff, l.cap);
      ReplayedOk(h.file, cutoff, l.cap);
      if Evicted(rings, after, l.backstop) && CompactedRings(file, after) {
        EvictedParts(rings, after, l.backstop);
        EvictedOk(rings, after, l.cap);
        CompactionRebuilds(file, after, l.cap);
        CompactionJournals(file, after);
      }
  }

  lemma EvictedParts(before: Rings, after: Rings, backstop: nat)
    requires Evicted(before, after, backstop)
    ensures SuffixesOf(before, after) && Total(after) <= backstop
  {}

  ghost function Run(steps: seq<Step>, l: Limits): (h: History)
    requires l.cap > 0
    ensures Recoverable(h, l)
  {
    if steps == [] then
      BlankRecoverable(l);
      History(map[], [], false, false)
    else
      var before := Run(steps[..|steps| - 1], l);
      StepKeepsRecoverable(before, steps[|steps| - 1], l);
      Do(before, steps[|steps| - 1], l)
  }

  lemma BlankRecoverable(l: Limits)
    requires l.cap > 0
    ensures Recoverable(History(map[], [], false, false), l)
  {
    TotalOfNone(map[]);
    assert KeySet([]) == {};
  }
}
