// What is stored of a document, told by its tree of snapshots: each of them is a
// detail with its own status, reason and time (IngestDocument in
// storage/storage.go).

module DocumentStates {
  import opened Basics
  import opened Snapshots
  import opened Flatten
  import opened FlattenTree
  import opened DocumentScopes

  // Of the snapshots that share its identity, as siblings of one name do, the one
  // at this place comes last.
  ghost predicate Final(doc: Document, ix: Place, hash: Hash)
    requires Reaches(doc.states, ix)
  {
    forall jx: Place :: Reaches(doc.states, jx) && IndexOf(doc.states, ix) < IndexOf(doc.states, jx) ==>
      IdentityAt(doc, jx, hash) != IdentityAt(doc, ix, hash)
  }

  // With siblings named apart there is never more than one.
  lemma AllFinal(doc: Document, ix: Place, hash: Hash)
    requires Injective(hash) && SiblingsApart(doc.states) && Reaches(doc.states, ix)
    ensures Final(doc, ix, hash)
  {
    hide Reaches, IndexOf, IdentityAt, SiblingsApart, Injective, FlattenDocument;
    var entries := FlattenDocument(doc, 0, hash);
    IdentitiesAreDistinct(doc, 0, hash);
    EntriesAreTheTree(doc, 0, hash);
    forall jx: Place | Reaches(doc.states, jx) && IndexOf(doc.states, ix) < IndexOf(doc.states, jx)
      ensures IdentityAt(doc, jx, hash) != IdentityAt(doc, ix, hash)
    {
      assert HasEntry(entries, doc, ix, 0, hash) && HasEntry(entries, doc, jx, 0, hash);
    }
  }

  lemma {:induction false} LastDetailAt(entries: seq<Entry>, i: nat)
    requires i < |entries|
    requires forall j :: i < j < |entries| ==> entries[j].detail.identity != entries[i].detail.identity
    ensures entries[i].detail.identity in IdentitiesOf(entries)
    ensures LastDetail(entries, entries[i].detail.identity) == entries[i].detail
  {
    hide IdentitiesOf, LastDetail;
    LastOfAll(entries);
    EntryListed(entries, i);
    if i < |entries| - 1 {
      var rest := entries[..|entries| - 1];
      assert entries[|entries| - 1].detail.identity != entries[i].detail.identity;
      LastDetailAt(rest, i);
    }
  }

  lemma EntryListed(entries: seq<Entry>, i: nat)
    requires i < |entries|
    ensures entries[i].detail.identity in IdentitiesOf(entries)
  {
    assert entries[i] in entries;
  }

  // A document's last word on the identity of a snapshot is that snapshot.
  lemma LastWord(doc: Document, ix: Place, at: int, hash: Hash)
    requires Reaches(doc.states, ix) && Final(doc, ix, hash)
    ensures IdentityAt(doc, ix, hash) in IdentitiesOf(FlattenDocument(doc, at, hash))
    ensures Shows(LastDetail(FlattenDocument(doc, at, hash), IdentityAt(doc, ix, hash)), doc, ix, at, hash)
  {
    hide Reaches, IndexOf, IdentityAt, FlattenDocument, IdentitiesOf, LastDetail;
    var entries, i := FlattenDocument(doc, at, hash), IndexOf(doc.states, ix);
    EntriesAreTheTree(doc, at, hash);
    assert HasEntry(entries, doc, ix, at, hash);
    forall j | i < j < |entries| ensures entries[j].detail.identity != entries[i].detail.identity {
      assert IsIndex(doc, j);
      var jx: Place :| Reaches(doc.states, jx) && IndexOf(doc.states, jx) == j;
      assert HasEntry(entries, doc, jx, at, hash);
    }
    LastDetailAt(entries, i);
  }

  lemma SameShows(a: Detail, b: Detail, doc: Document, ix: Place, at: int, hash: Hash)
    requires SameState(a, b) && Reaches(doc.states, ix) && Shows(b, doc, ix, at, hash)
    ensures Shows(a, doc, ix, at, hash)
  {
    hide IdentityAt, ParentAt, NearestFrom, NearestPath;
  }

  // The snapshot at a place of a document is stored, and shown as it is.
  ghost predicate Stored(details: map<string, Detail>, doc: Document, ix: Place, at: int, hash: Hash)
    requires Reaches(doc.states, ix)
  {
    IdentityAt(doc, ix, hash) in details && Shows(details[IdentityAt(doc, ix, hash)], doc, ix, at, hash)
  }

  // Where the details mirror the latest documents, every snapshot of each of them,
  // at whatever depth, is a stored detail, and every detail is one of them.
  lemma MirroredStates(s: Scopes, f: Fleet, hash: Hash)
    requires Mirrors(s, f, hash)
    ensures forall k, ix: Place :: k in f && Reaches(f[k].doc.states, ix) && Final(f[k].doc, ix, hash) ==>
              Stored(s.details, f[k].doc, ix, f[k].observedAt, hash)
    ensures forall id :: id in s.details ==> IsOfSome(f, id, hash)
  {
    hide Reaches, Final, FlattenDocument, IdentitiesOf, LastDetail, IdentityAt, Shows;
    forall k, ix: Place | k in f && Reaches(f[k].doc.states, ix) && Final(f[k].doc, ix, hash)
      ensures Stored(s.details, f[k].doc, ix, f[k].observedAt, hash)
    {
      var id := IdentityAt(f[k].doc, ix, hash);
      LastWord(f[k].doc, ix, f[k].observedAt, hash);
      assert Holds(s, EntriesOf(f[k], hash), id);
      SameShows(s.details[id], LastDetail(EntriesOf(f[k], hash), id), f[k].doc, ix, f[k].observedAt, hash);
    }
    forall id | id in s.details ensures IsOfSome(f, id, hash) {
      var k :| k in s.identities && id in s.identities[k];
      FromATree(f[k].doc, f[k].observedAt, id, hash);
    }
  }

  ghost predicate IsOf(doc: Document, id: string, hash: Hash) {
    exists ix: Place :: Reaches(doc.states, ix) && IdentityAt(doc, ix, hash) == id
  }

  ghost predicate IsOfSome(f: Fleet, id: string, hash: Hash) { exists k :: k in f && IsOf(f[k].doc, id, hash) }

  lemma FromATree(doc: Document, at: int, id: string, hash: Hash)
    requires id in IdentitiesOf(FlattenDocument(doc, at, hash))
    ensures IsOf(doc, id, hash)
  {
    hide Reaches, IndexOf, IdentityAt, FlattenDocument;
    var entries := FlattenDocument(doc, at, hash);
    EntriesAreTheTree(doc, at, hash);
    var e :| e in entries && e.detail.identity == id;
    var i :| 0 <= i < |entries| && entries[i] == e;
    assert IsIndex(doc, i);
    var ix: Place :| Reaches(doc.states, ix) && IndexOf(doc.states, ix) == i;
    assert HasEntry(entries, doc, ix, at, hash);
  }

  // After any run in which documents of different kinds under one label path have
  // no state in common, and with siblings named apart, what is stored is every
  // snapshot of the latest document of every source not yet gone silent, and
  // nothing else.
  lemma StatesAreStored(arrivals: seq<Arrival>, fallback: int, hash: Hash)
    requires Injective(hash) && KindsApart(Arrived(arrivals), hash)
    ensures var s, f := Run(arrivals, fallback, hash), RunFleet(arrivals, fallback);
            && (forall k, ix: Place :: k in f && Reaches(f[k].doc.states, ix) && (Final(f[k].doc, ix, hash) || SiblingsApart(f[k].doc.states)) ==>
                  Stored(s.details, f[k].doc, ix, f[k].observedAt, hash))
            && forall id :: id in s.details ==> IsOfSome(f, id, hash)
  {
    hide Injective, KindsApart, Mirrors, Final, Stored, Reaches, Run, RunFleet, SiblingsApart;
    DetailsAreLatestDocuments(arrivals, fallback, hash);
    var s, f := Run(arrivals, fallback, hash), RunFleet(arrivals, fallback);
    MirroredStates(s, f, hash);
    forall k, ix: Place | k in f && Reaches(f[k].doc.states, ix) && SiblingsApart(f[k].doc.states) ensures Final(f[k].doc, ix, hash) {
      AllFinal(f[k].doc, ix, hash);
    }
  }

  // One ingest stores every snapshot of its document, but one that a source then
  // gone silent has too.
  ghost predicate DocumentStored(details: map<string, Detail>, doc: Document, at: int, gone: set<string>, hash: Hash) {
    forall ix: Place :: Reaches(doc.states, ix) && Final(doc, ix, hash) && IdentityAt(doc, ix, hash) !in gone ==>
      Stored(details, doc, ix, at, hash)
  }

  lemma IngestStores(s: Scopes, doc: Document, at: int, fallback: int, hash: Hash)
    ensures var replaced := Replaced(s, doc, at, hash);
            DocumentStored(IngestScopes(s, doc, at, fallback, hash).details, doc, at,
                           Covered(replaced.identities, SilentKeys(replaced, KeyOfDocument(doc), at, fallback)), hash)
  {
    hide Reaches, Final, FlattenDocument, IdentitiesOf, LastDetail, IdentityAt, Shows, PutDetails, Covered, SilentKeys;
    var entries, r := FlattenDocument(doc, at, hash), IngestScopes(s, doc, at, fallback, hash);
    var start := s.details - (ScopeOf(s.identities, KeyOfDocument(doc)) - IdentitiesOf(entries));
    PutDetailsHolds(start, entries);
    var replaced := Replaced(s, doc, at, hash);
    forall ix: Place | Reaches(doc.states, ix) && Final(doc, ix, hash)
      && IdentityAt(doc, ix, hash) !in Covered(replaced.identities, SilentKeys(replaced, KeyOfDocument(doc), at, fallback))
      ensures Stored(r.details, doc, ix, at, hash)
    {
      LastWord(doc, ix, at, hash);
      var id := IdentityAt(doc, ix, hash);
      assert r.details[id] == replaced.details[id];
      SameShows(r.details[id], LastDetail(entries, id), doc, ix, at, hash);
    }
  }
}
