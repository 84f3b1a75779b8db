// What flattening a document gives, told by the tree of snapshots alone: one entry
// for each of them, wherever it hangs (flattenDocument in storage/storage.go).

module FlattenTree {
  import opened Basics
  import opened Snapshots
  import opened TransitionRing
  import opened Tracker
  import opened Flatten

  // ------------------------------------------------------------------- the tree

  // A snapshot is named by the indices on the way to it, through the states of the
  // document and the checks below them.
  type Place = seq<nat>

  predicate Reaches(snaps: seq<Snapshot>, ix: Place)
    decreases |ix|
  {
    ix != [] && ix[0] < |snaps| && (|ix| == 1 || Reaches(snaps[ix[0]].checks, ix[1..]))
  }

  function NodeAt(snaps: seq<Snapshot>, ix: Place): Snapshot
    requires Reaches(snaps, ix)
    decreases |ix|
  {
    if |ix| == 1 then snaps[ix[0]] else NodeAt(snaps[ix[0]].checks, ix[1..])
  }

  function NamesTo(snaps: seq<Snapshot>, ix: Place): seq<string>
    requires Reaches(snaps, ix)
    decreases |ix|
  {
    [snaps[ix[0]].name] + if |ix| == 1 then [] else NamesTo(snaps[ix[0]].checks, ix[1..])
  }

  function CountAll(snaps: seq<Snapshot>): nat {
    if snaps == [] then 0 else 1 + CountAll(snaps[0].checks) + CountAll(snaps[1..])
  }

  // The place above.
  function Up(ix: Place): Place
    requires ix != []
  {
    ix[..|ix| - 1]
  }

  lemma {:induction false} UpReaches(snaps: seq<Snapshot>, ix: Place)
    requires Reaches(snaps, ix) && |ix| > 1
    ensures Reaches(snaps, Up(ix))
    decreases |ix|
  {
    if |ix| > 2 {
      UpReaches(snaps[ix[0]].checks, ix[1..]);
      assert Up(ix)[1..] == Up(ix[1..]);
    }
  }

  // The nearest provenance there is on the way up.
  function NearestFrom(snaps: seq<Snapshot>, ix: Place): string
    requires Reaches(snaps, ix)
    decreases |ix|
  {
    if NodeAt(snaps, ix).scrapedFrom != "" then NodeAt(snaps, ix).scrapedFrom
    else if |ix| == 1 then ""
    else
      UpReaches(snaps, ix);
      NearestFrom(snaps, Up(ix))
  }

  function NearestPath(snaps: seq<Snapshot>, ix: Place): string
    requires Reaches(snaps, ix)
    decreases |ix|
  {
    if NodeAt(snaps, ix).scrapePath != "" then NodeAt(snaps, ix).scrapePath
    else if |ix| == 1 then ""
    else
      UpReaches(snaps, ix);
      NearestPath(snaps, Up(ix))
  }

  function IdentityAt(doc: Document, ix: Place, hash: Hash): string
    requires Reaches(doc.states, ix)
  {
    hash(Identity(doc.labelPath, NamesTo(doc.states, ix), NearestFrom(doc.states, ix), NearestPath(doc.states, ix), NodeAt(doc.states, ix).name))
  }

  function ParentAt(doc: Document, ix: Place, hash: Hash): string
    requires Reaches(doc.states, ix)
  {
    if |ix| == 1 then "" else
      UpReaches(doc.states, ix);
      IdentityAt(doc, Up(ix), hash)
  }

  function ChangedAt(snap: Snapshot, observedAt: int): int { if snap.changedAt == ZERO_TIME then observedAt else snap.changedAt }

  // The detail shows the snapshot at that place of the document.
  ghost predicate Shows(d: Detail, doc: Document, ix: Place, observedAt: int, hash: Hash)
    requires Reaches(doc.states, ix)
  {
    var snap := NodeAt(doc.states, ix);
    && d.identity == IdentityAt(doc, ix, hash) && d.parentIdentity == ParentAt(doc, ix, hash)
    && d.name == snap.name && d.status == snap.status && d.reason == snap.reason
    && d.changedAt == ChangedAt(snap, observedAt) && d.observedAt == observedAt
    && d.scrapedFrom == NearestFrom(doc.states, ix) && d.scrapePath == NearestPath(doc.states, ix)
  }

  // So does an entry, which has its place by name and its transitions besides.
  ghost predicate Stands(e: Entry, doc: Document, ix: Place, observedAt: int, hash: Hash)
    requires Reaches(doc.states, ix)
  {
    var snap := NodeAt(doc.states, ix);
    && Shows(e.detail, doc, ix, observedAt, hash) && e.detail.firstSeenAt == observedAt
    && e.path == NamesTo(doc.states, ix)
    && KeySet(e.transitions) == ShownKeys(snap) + {Key(ChangedAt(snap, observedAt), StatusName(snap.status))}
  }

  // The transitions a snapshot's history has, those without a time left out.
  function ShownKeys(snap: Snapshot): set<Key> {
    set h | h in snap.history && h.timestamp != ZERO_TIME :: Key(h.timestamp, StatusName(h.status))
  }

  // Cutting histories for a display leaves the tree as it is, and of each snapshot,
  // at whatever depth, all but the history, which is cut to its newest entries.
  lemma {:induction false} LimitKeepsTree(snaps: seq<Snapshot>, limit: nat, ix: Place)
    ensures Reaches(LimitedAll(snaps, limit), ix) <==> Reaches(snaps, ix)
    ensures Reaches(snaps, ix) ==>
              var cut, snap := NodeAt(LimitedAll(snaps, limit), ix), NodeAt(snaps, ix);
              && cut.history == snap.history[..Min(limit, |snap.history|)]
              && cut.name == snap.name && cut.status == snap.status && cut.reason == snap.reason && cut.changedAt == snap.changedAt
              && cut.scrapedFrom == snap.scrapedFrom && cut.scrapePath == snap.scrapePath
    decreases |ix|
  {
    hide LimitedAll;
    LimitedSize(snaps, limit);
    if ix != [] && ix[0] < |snaps| {
      LimitedAllAt(snaps, limit, ix[0]);
      if |ix| > 1 { LimitKeepsTree(snaps[ix[0]].checks, limit, ix[1..]); }
    }
  }

  lemma {:induction false} LimitedSize(snaps: seq<Snapshot>, limit: nat)
    ensures |LimitedAll(snaps, limit)| == |snaps|
  {
    if snaps != [] { LimitedSize(snaps[1..], limit); }
  }

  // ------------------------------------------------------------- where an entry is

  // Its index in the flat list.
  function IndexOf(snaps: seq<Snapshot>, ix: Place): nat
    requires Reaches(snaps, ix)
    decreases snaps
  {
    if ix[0] > 0 then 1 + CountAll(snaps[0].checks) + IndexOf(snaps[1..], [ix[0] - 1] + ix[1..])
    else if |ix| == 1 then 0
    else 1 + IndexOf(snaps[0].checks, ix[1..])
  }

  lemma {:induction false} IndexInside(snaps: seq<Snapshot>, ix: Place)
    requires Reaches(snaps, ix)
    ensures IndexOf(snaps, ix) < CountAll(snaps)
    decreases snaps
  {
    if ix[0] > 0 { IndexInside(snaps[1..], [ix[0] - 1] + ix[1..]); }
    else if |ix| > 1 { IndexInside(snaps[0].checks, ix[1..]); }
  }

  lemma {:induction false} IndexTellsPlace(snaps: seq<Snapshot>, ix: Place, jx: Place)
    requires Reaches(snaps, ix) && Reaches(snaps, jx) && IndexOf(snaps, ix) == IndexOf(snaps, jx)
    ensures ix == jx
    decreases snaps
  {
    IndexBounds(snaps, ix);
    IndexBounds(snaps, jx);
    if ix[0] > 0 {
      var i, j := [ix[0] - 1] + ix[1..], [jx[0] - 1] + jx[1..];
      IndexTellsPlace(snaps[1..], i, j);
      assert i[0] == j[0] && i[1..] == ix[1..] && j[1..] == jx[1..];
      assert ix == [ix[0]] + ix[1..] && jx == [jx[0]] + jx[1..];
    } else if |ix| > 1 {
      IndexTellsPlace(snaps[0].checks, ix[1..], jx[1..]);
      assert ix == [ix[0]] + ix[1..] && jx == [jx[0]] + jx[1..];
    }
  }

  lemma IndexBounds(snaps: seq<Snapshot>, ix: Place)
    requires Reaches(snaps, ix)
    ensures ix[0] > 0 <==> IndexOf(snaps, ix) > CountAll(snaps[0].checks)
    ensures ix[0] == 0 && |ix| == 1 <==> IndexOf(snaps, ix) == 0
  {
    if ix[0] == 0 && |ix| > 1 { IndexInside(snaps[0].checks, ix[1..]); }
  }

  lemma {:induction false} EveryIndexIsAPlace(snaps: seq<Snapshot>, i: nat) returns (ix: Place)
    requires i < CountAll(snaps)
    ensures Reaches(snaps, ix) && IndexOf(snaps, ix) == i
    decreases snaps
  {
    var inner := CountAll(snaps[0].checks);
    if i == 0 {
      ix := [0];
    } else if i <= inner {
      var below := EveryIndexIsAPlace(snaps[0].checks, i - 1);
      ix := [0] + below;
      assert ix[1..] == below;
    } else {
      var next := EveryIndexIsAPlace(snaps[1..], i - 1 - inner);
      ix := [next[0] + 1] + next[1..];
      assert ix[1..] == next[1..] && [ix[0] - 1] + ix[1..] == next;
      assert snaps[ix[0]] == snaps[1..][next[0]];
    }
  }

  // ------------------------------------------------------------- what is there

  // The context in which flattening comes to a place.
  function ContextAt(c: Context, snaps: seq<Snapshot>, ix: Place, hash: Hash): Context
    requires Reaches(snaps, ix)
    decreases |ix|
  {
    if |ix| == 1 then c else ContextAt(Below(c, snaps[ix[0]], hash), snaps[ix[0]].checks, ix[1..], hash)
  }

  lemma {:induction false} FlattenSize(c: Context, snaps: seq<Snapshot>, observedAt: int, hash: Hash)
    ensures |FlattenAll(c, snaps, observedAt, hash)| == CountAll(snaps)
    decreases snaps
  {
    if snaps != [] {
      FlattenSize(Below(c, snaps[0], hash), snaps[0].checks, observedAt, hash);
      FlattenSize(c, snaps[1..], observedAt, hash);
    }
  }

  lemma {:induction false} EntryAt(c: Context, snaps: seq<Snapshot>, ix: Place, observedAt: int, hash: Hash)
    requires Reaches(snaps, ix)
    ensures IndexOf(snaps, ix) < |FlattenAll(c, snaps, observedAt, hash)|
    ensures FlattenAll(c, snaps, observedAt, hash)[IndexOf(snaps, ix)] ==
            EntryOf(ContextAt(c, snaps, ix, hash), NodeAt(snaps, ix), observedAt, hash)
    decreases snaps
  {
    hide EntryOf, Below;
    IndexInside(snaps, ix);
    FlattenSize(c, snaps, observedAt, hash);
    FlattenSize(Below(c, snaps[0], hash), snaps[0].checks, observedAt, hash);
    var below := Below(c, snaps[0], hash);
    assert FlattenAll(c, snaps, observedAt, hash) ==
      [EntryOf(c, snaps[0], observedAt, hash)] + FlattenAll(below, snaps[0].checks, observedAt, hash) + FlattenAll(c, snaps[1..], observedAt, hash);
    if ix[0] > 0 {
      var next := [ix[0] - 1] + ix[1..];
      assert next[1..] == ix[1..] && snaps[1..][next[0]] == snaps[ix[0]];
      IndexInside(snaps[1..], next);
      EntryAt(c, snaps[1..], next, observedAt, hash);
    } else if |ix| > 1 {
      IndexInside(snaps[0].checks, ix[1..]);
      EntryAt(below, snaps[0].checks, ix[1..], observedAt, hash);
    }
  }

  // The context at a place, from that of the place above.
  lemma {:induction false} ContextBelow(c: Context, snaps: seq<Snapshot>, ix: Place, hash: Hash)
    requires Reaches(snaps, ix) && |ix| > 1
    ensures Reaches(snaps, Up(ix))
    ensures ContextAt(c, snaps, ix, hash) == Below(ContextAt(c, snaps, Up(ix), hash), NodeAt(snaps, Up(ix)), hash)
    ensures NamesTo(snaps, ix) == NamesTo(snaps, Up(ix)) + [NodeAt(snaps, ix).name]
    decreases |ix|
  {
    hide Below;
    UpReaches(snaps, ix);
    if |ix| > 2 {
      ContextBelow(Below(c, snaps[ix[0]], hash), snaps[ix[0]].checks, ix[1..], hash);
      assert Up(ix)[1..] == Up(ix[1..]);
    }
  }

  lemma {:induction false} ContextIs(doc: Document, ix: Place, hash: Hash)
    requires Reaches(doc.states, ix)
    ensures var c, snap := ContextAt(Root(doc), doc.states, ix, hash), NodeAt(doc.states, ix);
            && c.labelPath == doc.labelPath && c.parent == ParentAt(doc, ix, hash)
            && c.path + [snap.name] == NamesTo(doc.states, ix)
            && FirstNonEmpty(snap.scrapedFrom, c.scrapedFrom) == NearestFrom(doc.states, ix)
            && FirstNonEmpty(snap.scrapePath, c.scrapePath) == NearestPath(doc.states, ix)
    decreases |ix|
  {
    if |ix| > 1 {
      ContextBelow(Root(doc), doc.states, ix, hash);
      ContextIs(doc, Up(ix), hash);
    }
  }

  lemma {:induction false} HistoryKeys(history: seq<HistoryEntry>)
    ensures KeySet(HistoryTransitions(history)) == set h | h in history && h.timestamp != ZERO_TIME :: Key(h.timestamp, StatusName(h.status))
  {
    if history == [] {
      assert KeySet([]) == {};
    } else {
      HistoryKeys(history[1..]);
      assert history == [history[0]] + history[1..];
      if history[0].timestamp != ZERO_TIME { AppendNewKeys(HistoryTransitions(history[1..]), OfHistory(history[0])); }
    }
  }

  lemma AppendNewKeys(xs: seq<Transition>, t: Transition)
    ensures KeySet(AppendNew(xs, t)) == KeySet(xs) + {KeyOf(t)}
  {
    HasIsMember(xs, KeyOf(t));
    if !Has(xs, KeyOf(t)) { KeySetSnoc(xs, t); }
  }

  lemma TransitionKeys(snap: Snapshot, changedAt: int)
    ensures KeySet(SnapshotTransitions(snap, changedAt)) == ShownKeys(snap) + {Key(changedAt, StatusName(snap.status))}
  {
    HistoryKeys(snap.history);
    AppendNewKeys(HistoryTransitions(snap.history), Transition(changedAt, StatusName(snap.status), snap.reason));
  }

  lemma EntryStands(doc: Document, ix: Place, observedAt: int, hash: Hash)
    requires Reaches(doc.states, ix)
    ensures Stands(EntryOf(ContextAt(Root(doc), doc.states, ix, hash), NodeAt(doc.states, ix), observedAt, hash), doc, ix, observedAt, hash)
  {
    hide NearestFrom, NearestPath, NamesTo, ContextAt, SnapshotTransitions, KeySet, ShownKeys, ParentAt;
    ContextIs(doc, ix, hash);
    TransitionKeys(NodeAt(doc.states, ix), ChangedAt(NodeAt(doc.states, ix), observedAt));
  }

  // The snapshot at a place has one entry, at its own index, and it shows it.
  ghost predicate HasEntry(entries: seq<Entry>, doc: Document, ix: Place, observedAt: int, hash: Hash)
    requires Reaches(doc.states, ix)
  {
    IndexOf(doc.states, ix) < |entries| && Stands(entries[IndexOf(doc.states, ix)], doc, ix, observedAt, hash)
  }

  ghost predicate IsIndex(doc: Document, i: int) { exists ix: Place :: Reaches(doc.states, ix) && IndexOf(doc.states, ix) == i }

  // Flattening a document gives as many entries as it has snapshots, at whatever
  // depth; each snapshot has its own, which shows it; and there are no others.
  lemma EntriesAreTheTree(doc: Document, observedAt: int, hash: Hash)
    ensures var entries := FlattenDocument(doc, observedAt, hash);
            && |entries| == CountAll(doc.states)
            && (forall ix: Place :: Reaches(doc.states, ix) ==> HasEntry(entries, doc, ix, observedAt, hash))
            && (forall ix: Place, jx: Place :: Reaches(doc.states, ix) && Reaches(doc.states, jx) && ix != jx ==>
                  IndexOf(doc.states, ix) != IndexOf(doc.states, jx))
            && (forall i :: 0 <= i < |entries| ==> IsIndex(doc, i))
  {
    hide FlattenAll, Stands, EntryOf, Reaches, IndexOf;
    var entries := FlattenDocument(doc, observedAt, hash);
    FlattenSize(Root(doc), doc.states, observedAt, hash);
    forall ix: Place | Reaches(doc.states, ix) ensures HasEntry(entries, doc, ix, observedAt, hash) {
      EntryAt(Root(doc), doc.states, ix, observedAt, hash);
      EntryStands(doc, ix, observedAt, hash);
    }
    forall ix: Place, jx: Place | Reaches(doc.states, ix) && Reaches(doc.states, jx) && ix != jx
      ensures IndexOf(doc.states, ix) != IndexOf(doc.states, jx)
    {
      if IndexOf(doc.states, ix) == IndexOf(doc.states, jx) { IndexTellsPlace(doc.states, ix, jx); }
    }
    forall i | 0 <= i < |entries| ensures IsIndex(doc, i) {
      var ix := EveryIndexIsAPlace(doc.states, i);
    }
  }
}
