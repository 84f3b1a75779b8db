// A displayed document as a flat list of states (flattenDocument, flattenSnapshot
// and identityFor in storage/storage.go).

module Flatten {
  import opened Basics
  import opened Snapshots
  import opened TransitionRing
  import opened Tracker

  datatype DisplayLabel = DisplayLabel(name: string, value: string)

  datatype Document = Document(kind: string, labelPath: seq<DisplayLabel>, states: seq<Snapshot>)

  // What identityFor hashes.
  datatype Identity = Identity(
    labelPath: seq<DisplayLabel>,
    statePath: seq<string>,
    scrapedFrom: string,
    scrapePath: string,
    name: string)

  // hashJSON on identities, taken to be injective; it never gives an empty string.
  type Hash = Identity -> string

  ghost predicate Injective(hash: Hash) {
    forall i, j {:trigger hash(i), hash(j)} :: hash(i) == hash(j) ==> i == j
  }

  ghost predicate NeverEmpty(hash: Hash) { forall i :: hash(i) != "" }

  datatype Detail = Detail(
    identity: string,
    parentIdentity: string,
    name: string,
    status: Status,
    reason: string,
    changedAt: int,
    scrapedFrom: string,
    scrapePath: string,
    observedAt: int,
    firstSeenAt: int)

  datatype Entry = Entry(detail: Detail, transitions: seq<Transition>, path: seq<string>)

  // What a state inherits from the ones above it.
  datatype Context = Context(labelPath: seq<DisplayLabel>, path: seq<string>, parent: string, scrapedFrom: string, scrapePath: string)

  function IdentityOf(c: Context, snap: Snapshot): Identity {
    Identity(c.labelPath, c.path + [snap.name], FirstNonEmpty(snap.scrapedFrom, c.scrapedFrom),
             FirstNonEmpty(snap.scrapePath, c.scrapePath), snap.name)
  }

  function EntryOf(c: Context, snap: Snapshot, observedAt: int, hash: Hash): Entry {
    var id := IdentityOf(c, snap);
    var changedAt := if snap.changedAt == ZERO_TIME then observedAt else snap.changedAt;
    Entry(Detail(hash(id), c.parent, snap.name, snap.status, snap.reason, changedAt, id.scrapedFrom, id.scrapePath, observedAt, observedAt),
          SnapshotTransitions(snap, changedAt), id.statePath)
  }

  function Below(c: Context, snap: Snapshot, hash: Hash): Context {
    var id := IdentityOf(c, snap);
    Context(c.labelPath, id.statePath, hash(id), id.scrapedFrom, id.scrapePath)
  }

  function FlattenOne(c: Context, snap: Snapshot, observedAt: int, hash: Hash): seq<Entry>
    decreases snap
  {
    [EntryOf(c, snap, observedAt, hash)] + FlattenAll(Below(c, snap, hash), snap.checks, observedAt, hash)
  }

  function FlattenAll(c: Context, snaps: seq<Snapshot>, observedAt: int, hash: Hash): seq<Entry>
    decreases snaps
  {
    if snaps == [] then [] else FlattenOne(c, snaps[0], observedAt, hash) + FlattenAll(c, snaps[1..], observedAt, hash)
  }

  function Root(doc: Document): Context { Context(doc.labelPath, [], "", "", "") }

  function FlattenDocument(doc: Document, observedAt: int, hash: Hash): seq<Entry> {
    FlattenAll(Root(doc), doc.states, observedAt, hash)
  }

  // ------------------------------------------------------------- what comes out

  // The entry stands for a state below the context.
  ghost predicate EntryUnder(e: Entry, c: Context, hash: Hash) {
    && |e.path| > |c.path| && e.path[..|c.path|] == c.path && e.detail.name == e.path[|e.path| - 1]
    && e.detail.identity == hash(Identity(c.labelPath, e.path, e.detail.scrapedFrom, e.detail.scrapePath, e.detail.name))
  }

  lemma {:induction false} FlattenOneUnder(c: Context, snap: Snapshot, observedAt: int, hash: Hash)
    ensures forall e :: e in FlattenOne(c, snap, observedAt, hash) ==>
      EntryUnder(e, c, hash) && e.path[|c.path|] == snap.name
    decreases snap
  {
    var below := Below(c, snap, hash);
    FlattenAllUnder(below, snap.checks, observedAt, hash);
    forall e | e in FlattenOne(c, snap, observedAt, hash) ensures EntryUnder(e, c, hash) && e.path[|c.path|] == snap.name {
      if e != EntryOf(c, snap, observedAt, hash) {
        assert e in FlattenAll(below, snap.checks, observedAt, hash);
        assert e.path[..|c.path|] == e.path[..|below.path|][..|c.path|];
        assert e.path[|c.path|] == e.path[..|below.path|][|c.path|];
      }
    }
  }

  lemma {:induction false} FlattenAllUnder(c: Context, snaps: seq<Snapshot>, observedAt: int, hash: Hash)
    ensures forall e :: e in FlattenAll(c, snaps, observedAt, hash) ==>
      EntryUnder(e, c, hash) && exists i :: 0 <= i < |snaps| && e.path[|c.path|] == snaps[i].name
    decreases snaps
  {
    if snaps != [] {
      FlattenOneUnder(c, snaps[0], observedAt, hash);
      FlattenAllUnder(c, snaps[1..], observedAt, hash);
      forall e | e in FlattenAll(c, snaps, observedAt, hash)
        ensures EntryUnder(e, c, hash) && exists i :: 0 <= i < |snaps| && e.path[|c.path|] == snaps[i].name
      {
        if e in FlattenOne(c, snaps[0], observedAt, hash) {
          assert e.path[|c.path|] == snaps[0].name;
        } else {
          var i :| 0 <= i < |snaps[1..]| && e.path[|c.path|] == snaps[1..][i].name;
          assert snaps[i + 1] == snaps[1..][i];
        }
      }
    }
  }

  // Flattening at another time changes no identity, path or provenance.
  lemma {:induction false} FlattenLater(c: Context, snaps: seq<Snapshot>, s: int, t: int, hash: Hash)
    ensures var xs, ys := FlattenAll(c, snaps, s, hash), FlattenAll(c, snaps, t, hash);
            |xs| == |ys| && forall i :: 0 <= i < |xs| ==>
              xs[i].path == ys[i].path && xs[i].detail.identity == ys[i].detail.identity
              && xs[i].detail.scrapedFrom == ys[i].detail.scrapedFrom && xs[i].detail.scrapePath == ys[i].detail.scrapePath
    decreases snaps
  {
    if snaps != [] {
      FlattenLater(Below(c, snaps[0], hash), snaps[0].checks, s, t, hash);
      FlattenLater(c, snaps[1..], s, t, hash);
    }
  }

  // No two states with the same parent have the same name.
  predicate SiblingsApart(snaps: seq<Snapshot>) {
    && (forall i, j :: 0 <= i < j < |snaps| ==> snaps[i].name != snaps[j].name)
    && forall i :: 0 <= i < |snaps| ==> SiblingsApart(snaps[i].checks)
  }

  ghost predicate PathsApart(entries: seq<Entry>) {
    forall i, j :: 0 <= i < j < |entries| ==> entries[i].path != entries[j].path
  }

  lemma {:induction false} FlattenOneApart(c: Context, snap: Snapshot, observedAt: int, hash: Hash)
    requires SiblingsApart(snap.checks)
    ensures PathsApart(FlattenOne(c, snap, observedAt, hash))
    decreases snap
  {
    var below := Below(c, snap, hash);
    var rest := FlattenAll(below, snap.checks, observedAt, hash);
    FlattenAllApart(below, snap.checks, observedAt, hash);
    FlattenAllUnder(below, snap.checks, observedAt, hash);
    forall j | 0 <= j < |rest| ensures rest[j].path != EntryOf(c, snap, observedAt, hash).path {
      assert rest[j] in rest;
    }
  }

  lemma {:induction false} FlattenAllApart(c: Context, snaps: seq<Snapshot>, observedAt: int, hash: Hash)
    requires SiblingsApart(snaps)
    ensures PathsApart(FlattenAll(c, snaps, observedAt, hash))
    decreases snaps
  {
    if snaps != [] {
      var one, rest := FlattenOne(c, snaps[0], observedAt, hash), FlattenAll(c, snaps[1..], observedAt, hash);
      FlattenOneApart(c, snaps[0], observedAt, hash);
      assert forall i :: 0 <= i < |snaps| - 1 ==> snaps[1..][i] == snaps[i + 1];
      FlattenAllApart(c, snaps[1..], observedAt, hash);
      FlattenOneUnder(c, snaps[0], observedAt, hash);
      FlattenAllUnder(c, snaps[1..], observedAt, hash);
      forall i, j | 0 <= i < |one| && 0 <= j < |rest| ensures one[i].path != rest[j].path {
        assert one[i] in one && rest[j] in rest;
        var k :| 0 <= k < |snaps[1..]| && rest[j].path[|c.path|] == snaps[1..][k].name;
        assert snaps[k + 1].name != snaps[0].name;
      }
    }
  }

  // As long as siblings have different names, every state of a document has an
  // identity of its own.
  lemma IdentitiesAreDistinct(doc: Document, observedAt: int, hash: Hash)
    requires Injective(hash) && SiblingsApart(doc.states)
    ensures var entries := FlattenDocument(doc, observedAt, hash);
            forall i, j :: 0 <= i < j < |entries| ==> entries[i].detail.identity != entries[j].detail.identity
  {
    hide FlattenAll;
    var c := Root(doc);
    var entries := FlattenDocument(doc, observedAt, hash);
    FlattenAllApart(c, doc.states, observedAt, hash);
    FlattenAllUnder(c, doc.states, observedAt, hash);
    forall i, j | 0 <= i < j < |entries| ensures entries[i].detail.identity != entries[j].detail.identity {
      assert entries[i] in entries && entries[j] in entries;
      assert EntryUnder(entries[i], c, hash) && EntryUnder(entries[j], c, hash);
      assert entries[i].path != entries[j].path;
    }
  }

  // Documents under different label paths never share an identity.
  lemma IdentitiesTellDocuments(a: Document, s: int, b: Document, t: int, hash: Hash, d: Entry, e: Entry)
    requires Injective(hash)
    requires d in FlattenDocument(a, s, hash) && e in FlattenDocument(b, t, hash)
    requires d.detail.identity == e.detail.identity
    ensures a.labelPath == b.labelPath
  {
    FlattenAllUnder(Root(a), a.states, s, hash);
    FlattenAllUnder(Root(b), b.states, t, hash);
  }

  // The parent of a state is listed before it, one step up its path.
  ghost predicate HasParent(entries: seq<Entry>, i: nat, c: Context)
    requires i < |entries|
  {
    var e := entries[i];
    && |e.path| > 0
    && ((e.detail.parentIdentity == c.parent && |e.path| == |c.path| + 1)
        || exists j :: 0 <= j < i && entries[j].detail.identity == e.detail.parentIdentity && e.path[..|e.path| - 1] == entries[j].path)
  }

  ghost predicate AllHaveParents(entries: seq<Entry>, c: Context) {
    forall i :: 0 <= i < |entries| ==> HasParent(entries, i, c)
  }

  lemma {:induction false} ParentsComeFirst(c: Context, snaps: seq<Snapshot>, observedAt: int, hash: Hash)
    ensures AllHaveParents(FlattenAll(c, snaps, observedAt, hash), c)
    decreases snaps
  {
    if snaps != [] {
      var snap := snaps[0];
      var below := Below(c, snap, hash);
      var first, inner, rest := EntryOf(c, snap, observedAt, hash), FlattenAll(below, snap.checks, observedAt, hash), FlattenAll(c, snaps[1..], observedAt, hash);
      ParentsComeFirst(below, snap.checks, observedAt, hash);
      ParentsComeFirst(c, snaps[1..], observedAt, hash);
      FlattenAllUnder(below, snap.checks, observedAt, hash);
      assert FlattenOne(c, snap, observedAt, hash) == [first] + inner;
      PartsHaveParents(first, inner, rest, c, below, hash);
      assert FlattenAll(c, snaps, observedAt, hash) == [first] + inner + rest;
    }
  }

  lemma PartsHaveParents(first: Entry, inner: seq<Entry>, rest: seq<Entry>, c: Context, below: Context, hash: Hash)
    requires AllHaveParents(inner, below) && AllHaveParents(rest, c)
    requires forall e :: e in inner ==> EntryUnder(e, below, hash)
    requires first.detail.identity == below.parent && first.path == below.path
    requires first.detail.parentIdentity == c.parent && |first.path| == |c.path| + 1
    ensures AllHaveParents([first] + inner + rest, c)
  {
    hide HasParent;
    var entries := [first] + inner + rest;
    forall i | 0 <= i < |entries| ensures HasParent(entries, i, c) {
      if i == 0 {
        RootHasParent(entries, c);
      } else if i <= |inner| {
        assert inner[i - 1] in inner;
        InnerParent(entries, inner, i - 1, c, below);
      } else {
        ShiftedParent(entries, rest, i - 1 - |inner|, 1 + |inner|, c);
      }
    }
  }

  lemma RootHasParent(entries: seq<Entry>, c: Context)
    requires entries != [] && entries[0].detail.parentIdentity == c.parent && |entries[0].path| == |c.path| + 1
    ensures HasParent(entries, 0, c)
  {}

  lemma InnerParent(entries: seq<Entry>, inner: seq<Entry>, k: nat, c: Context, below: Context)
    requires k < |inner| && 1 + |inner| <= |entries| && entries[1..1 + |inner|] == inner
    requires HasParent(inner, k, below)
    requires |inner[k].path| > |below.path| && inner[k].path[..|below.path|] == below.path
    requires entries[0].detail.identity == below.parent && entries[0].path == below.path
    ensures HasParent(entries, k + 1, c)
  {
    var e := inner[k];
    assert entries[k + 1] == e;
    if e.detail.parentIdentity == below.parent && |e.path| == |below.path| + 1 {
      assert e.path[..|e.path| - 1] == entries[0].path;
    } else {
      var j :| 0 <= j < k && inner[j].detail.identity == e.detail.parentIdentity && e.path[..|e.path| - 1] == inner[j].path;
      assert entries[j + 1] == inner[j];
    }
  }

  lemma ShiftedParent(entries: seq<Entry>, rest: seq<Entry>, k: nat, n: nat, c: Context)
    requires k < |rest| && n + |rest| == |entries| && entries[n..] == rest
    requires HasParent(rest, k, c)
    ensures HasParent(entries, n + k, c)
  {
    var e := rest[k];
    assert entries[n + k] == e;
    if !(e.detail.parentIdentity == c.parent && |e.path| == |c.path| + 1) {
      var j :| 0 <= j < k && rest[j].detail.identity == e.detail.parentIdentity && e.path[..|e.path| - 1] == rest[j].path;
      assert entries[n + j] == rest[j];
    }
  }

  // Every parent identity in a document leads to a state listed earlier, or is empty.
  lemma ParentsResolve(doc: Document, observedAt: int, hash: Hash, i: nat)
    requires i < |FlattenDocument(doc, observedAt, hash)|
    ensures var entries := FlattenDocument(doc, observedAt, hash);
            entries[i].detail.parentIdentity == "" || exists j :: 0 <= j < i && entries[j].detail.identity == entries[i].detail.parentIdentity
  {
    hide FlattenAll;
    ParentsComeFirst(Root(doc), doc.states, observedAt, hash);
    assert HasParent(FlattenDocument(doc, observedAt, hash), i, Root(doc));
  }
}
