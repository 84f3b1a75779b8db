// Which states are current: the stored details and the bookkeeping per document
// source (IngestDocument, sweepExpiredScopes in storage/storage.go).

module DocumentScopes {
  import opened Basics
  import opened Snapshots
  import opened Flatten

  const EVICTION_INTERVAL_FACTOR := 10

  // The hash of a document's kind and label path, taken to be injective.
  datatype DocKey = DocKey(kind: string, labelPath: seq<DisplayLabel>)

  function KeyOfDocument(doc: Document): DocKey { DocKey(doc.kind, doc.labelPath) }

  // A source is told by the kind and the label path of its documents.
  lemma KeysTellSources(a: Document, b: Document)
    ensures KeyOfDocument(a) == KeyOfDocument(b) <==> a.kind == b.kind && a.labelPath == b.labelPath
  {}

  datatype Scopes = Scopes(
    details: map<string, Detail>,
    identities: map<DocKey, set<string>>,
    lastSeen: map<DocKey, int>,
    intervals: map<DocKey, int>)

  const NO_SCOPES := Scopes(map[], map[], map[], map[])

  function IdentitiesOf(entries: seq<Entry>): set<string> { set e | e in entries :: e.detail.identity }

  // Storing a state keeps the time it was first seen.
  function PutDetail(details: map<string, Detail>, d: Detail): map<string, Detail> {
    details[d.identity := if d.identity in details then d.(firstSeenAt := details[d.identity].firstSeenAt) else d]
  }

  function PutDetails(details: map<string, Detail>, entries: seq<Entry>): map<string, Detail> {
    if entries == [] then details else PutDetail(PutDetails(details, entries[..|entries| - 1]), entries[|entries| - 1].detail)
  }

  function ScopeOf(identities: map<DocKey, set<string>>, k: DocKey): set<string> {
    if k in identities then identities[k] else {}
  }

  predicate Silent(s: Scopes, k: DocKey, current: DocKey, now: int, fallback: int) {
    && k in s.lastSeen && k != current
    && now - s.lastSeen[k] > (if k in s.intervals then s.intervals[k] * EVICTION_INTERVAL_FACTOR else fallback)
  }

  function SilentKeys(s: Scopes, current: DocKey, now: int, fallback: int): set<DocKey> {
    set k | k in s.lastSeen && Silent(s, k, current, now, fallback)
  }

  function Covered(identities: map<DocKey, set<string>>, keys: set<DocKey>): set<string> {
    set k, id | k in keys && k in identities && id in identities[k] :: id
  }

  function EvictScopes(s: Scopes, keys: set<DocKey>): Scopes {
    Scopes(s.details - Covered(s.identities, keys), s.identities - keys, s.lastSeen - keys, s.intervals - keys)
  }

  // The part of IngestDocument before the sweep.
  function Replaced(s: Scopes, doc: Document, at: int, hash: Hash): Scopes {
    var entries, key := FlattenDocument(doc, at, hash), KeyOfDocument(doc);
    Scopes(PutDetails(s.details - (ScopeOf(s.identities, key) - IdentitiesOf(entries)), entries),
           s.identities[key := IdentitiesOf(entries)],
           s.lastSeen[key := at],
           if key in s.lastSeen && at - s.lastSeen[key] > 0 then s.intervals[key := at - s.lastSeen[key]] else s.intervals)
  }

  function IngestScopes(s: Scopes, doc: Document, at: int, fallback: int, hash: Hash): Scopes {
    var replaced := Replaced(s, doc, at, hash);
    EvictScopes(replaced, SilentKeys(replaced, KeyOfDocument(doc), at, fallback))
  }

  // ----------------------------------------------------------------- the reference

  // The sources still heard of: the latest document of each, when it came, and
  // how long after the one before.
  datatype Source = Source(doc: Document, observedAt: int, interval: Option<int>)

  type Fleet = map<DocKey, Source>

  function Heard(f: Fleet, doc: Document, at: int): Fleet {
    var key := KeyOfDocument(doc);
    f[key := Source(doc, at,
               if key !in f then None
               else if at - f[key].observedAt > 0 then Some(at - f[key].observedAt)
               else f[key].interval)]
  }

  predicate StillHeard(src: Source, now: int, fallback: int) {
    now - src.observedAt <= (if src.interval.Some? then src.interval.value * EVICTION_INTERVAL_FACTOR else fallback)
  }

  function IngestFleet(f: Fleet, doc: Document, at: int, fallback: int): Fleet {
    var heard, key := Heard(f, doc, at), KeyOfDocument(doc);
    map k | k in heard && (k == key || StillHeard(heard[k], at, fallback)) :: heard[k]
  }

  function EntriesOf(src: Source, hash: Hash): seq<Entry> { FlattenDocument(src.doc, src.observedAt, hash) }

  // A document's last word on an identity.
  function LastDetail(entries: seq<Entry>, id: string): Detail
    requires id in IdentitiesOf(entries)
  {
    var last := entries[|entries| - 1].detail;
    if last.identity == id then last else
      assert entries == entries[..|entries| - 1] + [entries[|entries| - 1]];
      LastDetail(entries[..|entries| - 1], id)
  }

  predicate SameState(a: Detail, b: Detail) { a == b.(firstSeenAt := a.firstSeenAt) }

  // The details are exactly the states of the latest documents, and all the
  // bookkeeping is about the same sources.
  ghost predicate Mirrors(s: Scopes, f: Fleet, hash: Hash) {
    Books(s, f, hash) && AllOwned(s) && AllHeld(s, f, hash)
  }

  ghost predicate Books(s: Scopes, f: Fleet, hash: Hash) {
    && s.identities.Keys == f.Keys && s.lastSeen.Keys == f.Keys
    && (forall k :: k in f ==> KeyOfDocument(f[k].doc) == k && s.identities[k] == IdentitiesOf(EntriesOf(f[k], hash))
                               && s.lastSeen[k] == f[k].observedAt)
    && Timed(s, f)
  }

  ghost predicate Timed(s: Scopes, f: Fleet) {
    && (forall k :: k in s.intervals <==> k in f && f[k].interval.Some?)
    && (forall k :: k in s.intervals ==> f[k].interval == Some(s.intervals[k]))
  }

  // Some source has the state.
  ghost predicate Owned(s: Scopes, id: string) { exists k :: k in s.identities && id in s.identities[k] }

  ghost predicate AllOwned(s: Scopes) { forall id :: id in s.details ==> Owned(s, id) }

  ghost predicate AllHeld(s: Scopes, f: Fleet, hash: Hash) {
    forall k, id :: k in f && k in s.identities && id in s.identities[k] ==> Holds(s, EntriesOf(f[k], hash), id)
  }

  ghost predicate Holds(s: Scopes, entries: seq<Entry>, id: string) {
    id in s.details && id in IdentitiesOf(entries) && SameState(s.details[id], LastDetail(entries, id))
  }

  // No two sources have an identity in common.
  ghost predicate Apart(f: Fleet, hash: Hash) {
    forall j, k :: j in f && k in f && j != k ==> IdentitiesOf(EntriesOf(f[j], hash)) !! IdentitiesOf(EntriesOf(f[k], hash))
  }

  // Two documents have a state with the same path and provenance.
  ghost predicate ShareAState(a: Document, b: Document, hash: Hash) {
    exists d, e :: d in FlattenDocument(a, 0, hash) && e in FlattenDocument(b, 0, hash) && SameTag(d, e)
  }

  predicate SameTag(d: Entry, e: Entry) {
    d.path == e.path && d.detail.scrapedFrom == e.detail.scrapedFrom && d.detail.scrapePath == e.detail.scrapePath
  }

  // Documents of different kinds under one label path have no state in common:
  // the kind is part of a document's key but not of a state's identity.
  ghost predicate KindsApart(docs: set<Document>, hash: Hash) {
    forall a, b :: a in docs && b in docs && a.kind != b.kind && a.labelPath == b.labelPath ==> !ShareAState(a, b, hash)
  }

  // When a document was observed is no part of an identity.
  lemma TagsStay(doc: Document, s: int, t: int, hash: Hash, d: Entry) returns (e: Entry)
    requires d in FlattenDocument(doc, s, hash)
    ensures e in FlattenDocument(doc, t, hash) && SameTag(d, e) && e.detail.identity == d.detail.identity
  {
    hide FlattenAll;
    FlattenLater(Root(doc), doc.states, s, t, hash);
    var i :| 0 <= i < |FlattenDocument(doc, s, hash)| && FlattenDocument(doc, s, hash)[i] == d;
    e := FlattenDocument(doc, t, hash)[i];
  }

  // Under one label path two states have one identity exactly when they have the
  // same path and provenance.
  lemma IdentityIsTag(a: Document, s: int, b: Document, t: int, hash: Hash, d: Entry, e: Entry)
    requires Injective(hash) && a.labelPath == b.labelPath
    requires d in FlattenDocument(a, s, hash) && e in FlattenDocument(b, t, hash)
    ensures d.detail.identity == e.detail.identity <==> SameTag(d, e)
  {
    hide FlattenAll;
    FlattenAllUnder(Root(a), a.states, s, hash);
    FlattenAllUnder(Root(b), b.states, t, hash);
    assert EntryUnder(d, Root(a), hash) && EntryUnder(e, Root(b), hash);
  }

  // Two documents have an identity in common exactly when they come under one
  // label path and have a state in common.
  lemma CommonIdentity(a: Document, s: int, b: Document, t: int, hash: Hash)
    requires Injective(hash)
    ensures IdentitiesOf(FlattenDocument(a, s, hash)) !! IdentitiesOf(FlattenDocument(b, t, hash))
       <==> !(a.labelPath == b.labelPath && ShareAState(a, b, hash))
  {
    hide FlattenDocument, Injective, SameTag;
    var xs, ys := FlattenDocument(a, s, hash), FlattenDocument(b, t, hash);
    if id :| id in IdentitiesOf(xs) && id in IdentitiesOf(ys) {
      var d :| d in xs && d.detail.identity == id;
      var e :| e in ys && e.detail.identity == id;
      IdentitiesTellDocuments(a, s, b, t, hash, d, e);
      var d0 := TagsStay(a, s, 0, hash, d);
      var e0 := TagsStay(b, t, 0, hash, e);
      IdentityIsTag(a, 0, b, 0, hash, d0, e0);
    }
    if a.labelPath == b.labelPath && ShareAState(a, b, hash) {
      var d0, e0 :| d0 in FlattenDocument(a, 0, hash) && e0 in FlattenDocument(b, 0, hash) && SameTag(d0, e0);
      IdentityIsTag(a, 0, b, 0, hash, d0, e0);
      var d := TagsStay(a, 0, s, hash, d0);
      var e := TagsStay(b, 0, t, hash, e0);
      assert d.detail.identity in IdentitiesOf(xs) && e.detail.identity in IdentitiesOf(ys);
    }
  }

  function DocumentsOf(f: Fleet): set<Document> { set k | k in f :: f[k].doc }

  // The sources are apart exactly when the kinds are.
  lemma ApartExactly(f: Fleet, hash: Hash)
    requires Injective(hash) && forall k :: k in f ==> KeyOfDocument(f[k].doc) == k
    ensures Apart(f, hash) <==> KindsApart(DocumentsOf(f), hash)
  {
    hide Injective, FlattenDocument, IdentitiesOf, ShareAState;
    forall j, k | j in f && k in f
      ensures IdentitiesOf(EntriesOf(f[j], hash)) !! IdentitiesOf(EntriesOf(f[k], hash))
         <==> !(j.labelPath == k.labelPath && ShareAState(f[j].doc, f[k].doc, hash))
    {
      CommonIdentity(f[j].doc, f[j].observedAt, f[k].doc, f[k].observedAt, hash);
    }
    if Apart(f, hash) {
      forall a, b | a in DocumentsOf(f) && b in DocumentsOf(f) && a.kind != b.kind && a.labelPath == b.labelPath
        ensures !ShareAState(a, b, hash)
      {
        assert KeyOfDocument(a) in f && KeyOfDocument(b) in f;
      }
    }
    if KindsApart(DocumentsOf(f), hash) {
      forall j, k | j in f && k in f && j != k
        ensures IdentitiesOf(EntriesOf(f[j], hash)) !! IdentitiesOf(EntriesOf(f[k], hash))
      {
        assert f[j].doc in DocumentsOf(f) && f[k].doc in DocumentsOf(f);
      }
    }
  }

  lemma {:induction false} PutDetailsHolds(details: map<string, Detail>, entries: seq<Entry>)
    ensures var after := PutDetails(details, entries);
            && after.Keys == details.Keys + IdentitiesOf(entries)
            && (forall id :: id in details && id !in IdentitiesOf(entries) ==> after[id] == details[id])
            && (forall id :: id in IdentitiesOf(entries) ==> SameState(after[id], LastDetail(entries, id)))
            && (forall id :: id in details ==> after[id].firstSeenAt == details[id].firstSeenAt)
  {
    hide IdentitiesOf, LastDetail;
    if entries == [] {
      NoIdentities();
    } else {
      var rest, last := entries[..|entries| - 1], entries[|entries| - 1];
      PutDetailsHolds(details, rest);
      LastOfAll(entries);
    }
  }

  lemma NoIdentities()
    ensures IdentitiesOf([]) == {}
  {}

  lemma LastOfAll(entries: seq<Entry>)
    requires entries != []
    ensures var rest, last := entries[..|entries| - 1], entries[|entries| - 1].detail;
            && IdentitiesOf(entries) == IdentitiesOf(rest) + {last.identity}
            && forall id :: id in IdentitiesOf(entries) ==>
                 LastDetail(entries, id) == if id == last.identity then last else LastDetail(rest, id)
  {
    assert entries == entries[..|entries| - 1] + [entries[|entries| - 1]];
  }

  lemma ReplacedBooks(s: Scopes, f: Fleet, doc: Document, at: int, hash: Hash)
    requires Books(s, f, hash)
    ensures Books(Replaced(s, doc, at, hash), Heard(f, doc, at), hash)
  {
    hide FlattenDocument, PutDetails, IdentitiesOf, Timed;
    ReplacedTimed(s, f, doc, at, hash);
  }

  lemma ReplacedTimed(s: Scopes, f: Fleet, doc: Document, at: int, hash: Hash)
    requires Timed(s, f) && s.lastSeen.Keys == f.Keys
    requires var key := KeyOfDocument(doc); key in f ==> s.lastSeen[key] == f[key].observedAt
    ensures Timed(Replaced(s, doc, at, hash), Heard(f, doc, at))
  {
    hide FlattenDocument, PutDetails, IdentitiesOf, ScopeOf;
    var key, heard, intervals := KeyOfDocument(doc), Heard(f, doc, at), Replaced(s, doc, at, hash).intervals;
    forall k ensures k in intervals <==> k in heard && heard[k].interval.Some? {
      if k != key { assert k in heard <==> k in f; }
    }
    forall k | k in intervals ensures heard[k].interval == Some(intervals[k]) {
      if k != key { assert heard[k] == f[k]; }
    }
  }

  lemma ReplacedOwned(s: Scopes, doc: Document, at: int, hash: Hash)
    requires AllOwned(s)
    ensures AllOwned(Replaced(s, doc, at, hash))
  {
    hide FlattenDocument, LastDetail, PutDetails, IdentitiesOf;
    var key := KeyOfDocument(doc);
    var s' := Replaced(s, doc, at, hash);
    forall id | id in s'.details ensures Owned(s', id) {
      if id in IdentitiesOf(FlattenDocument(doc, at, hash)) {
        assert key in s'.identities && id in s'.identities[key];
      } else {
        DetailsFrom(s, doc, at, hash, id);
        var k :| k in s.identities && id in s.identities[k];
        assert k in s'.identities && id in s'.identities[k];
      }
    }
  }

  lemma DetailsFrom(s: Scopes, doc: Document, at: int, hash: Hash, id: string)
    requires id in Replaced(s, doc, at, hash).details && id !in IdentitiesOf(FlattenDocument(doc, at, hash))
    ensures id in s.details && id !in ScopeOf(s.identities, KeyOfDocument(doc))
  {
    hide FlattenDocument, LastDetail, PutDetails, IdentitiesOf;
    var entries := FlattenDocument(doc, at, hash);
    PutDetailsHolds(s.details - (ScopeOf(s.identities, KeyOfDocument(doc)) - IdentitiesOf(entries)), entries);
  }

  lemma EvictBooks(s: Scopes, f: Fleet, keys: set<DocKey>, hash: Hash)
    requires Books(s, f, hash)
    ensures Books(EvictScopes(s, keys), f - keys, hash)
  {
    hide FlattenDocument, IdentitiesOf;
  }

  lemma EvictOwned(s: Scopes, keys: set<DocKey>)
    requires AllOwned(s)
    ensures AllOwned(EvictScopes(s, keys))
  {
    var s' := EvictScopes(s, keys);
    forall id | id in s'.details ensures Owned(s', id) {
      var k :| k in s.identities && id in s.identities[k];
      assert k in keys ==> id in Covered(s.identities, keys);
      assert k in s'.identities && id in s'.identities[k];
    }
  }

  // ------------------------------------------------------------- what an ingest keeps

  function IdsOf(src: Source, hash: Hash): set<string> { IdentitiesOf(EntriesOf(src, hash)) }

  function FormerIds(f: Fleet, key: DocKey, hash: Hash): set<string> { if key in f then IdsOf(f[key], hash) else {} }

  // The new document leaves the states of another source alone: it says the same of
  // those it has too, and does not stop showing one its own source showed before.
  ghost predicate LeavesAlone(f: Fleet, doc: Document, at: int, hash: Hash, other: Source) {
    var entries := FlattenDocument(doc, at, hash);
    forall id :: id in IdsOf(other, hash) ==>
      if id in IdentitiesOf(entries) then SameState(LastDetail(entries, id), LastDetail(EntriesOf(other, hash), id))
      else id !in FormerIds(f, KeyOfDocument(doc), hash)
  }

  // An ingest breaks nothing when it leaves every source still heard alone, and no
  // source that goes silent shares a state with one that stays.
  ghost predicate Undisturbed(f: Fleet, doc: Document, at: int, fallback: int, hash: Hash) {
    var after, key := IngestFleet(f, doc, at, fallback), KeyOfDocument(doc);
    && (forall k :: k in f && k in after && k != key ==> LeavesAlone(f, doc, at, hash, f[k]))
    && (forall j, k :: j in f && j !in after && k in after ==> IdsOf(f[j], hash) !! IdsOf(after[k], hash))
  }

  // The detail of a state after an ingest.
  lemma DetailAfter(s: Scopes, f: Fleet, doc: Document, at: int, fallback: int, hash: Hash, id: string)
    requires Books(s, f, hash)
    ensures var r, entries, after := IngestScopes(s, doc, at, fallback, hash), FlattenDocument(doc, at, hash), IngestFleet(f, doc, at, fallback);
            && (id in r.details <==> (id in IdentitiesOf(entries) || (id in s.details && id !in FormerIds(f, KeyOfDocument(doc), hash)))
                                     && !(exists j :: j in f && j !in after && id in IdsOf(f[j], hash)))
            && (id in r.details && id in IdentitiesOf(entries) ==> SameState(r.details[id], LastDetail(entries, id)))
            && (id in r.details && id !in IdentitiesOf(entries) ==> r.details[id] == s.details[id])
  {
    hide FlattenDocument, IdentitiesOf, LastDetail, Replaced, FormerIds, IngestFleet, Books, Covered, SilentKeys, IdsOf;
    ReplacedDetail(s, f, doc, at, hash, id);
    SilentDetail(s, f, doc, at, fallback, hash, id);
  }

  lemma ReplacedDetail(s: Scopes, f: Fleet, doc: Document, at: int, hash: Hash, id: string)
    requires Books(s, f, hash)
    ensures var r, entries := Replaced(s, doc, at, hash), FlattenDocument(doc, at, hash);
            && (id in r.details <==> id in IdentitiesOf(entries) || (id in s.details && id !in FormerIds(f, KeyOfDocument(doc), hash)))
            && (id in IdentitiesOf(entries) ==> SameState(r.details[id], LastDetail(entries, id)))
            && (id in r.details && id !in IdentitiesOf(entries) ==> r.details[id] == s.details[id])
  {
    hide FlattenDocument, PutDetails, IdentitiesOf, LastDetail;
    var entries, key := FlattenDocument(doc, at, hash), KeyOfDocument(doc);
    PutDetailsHolds(s.details - (ScopeOf(s.identities, key) - IdentitiesOf(entries)), entries);
  }

  lemma SilentDetail(s: Scopes, f: Fleet, doc: Document, at: int, fallback: int, hash: Hash, id: string)
    requires Books(s, f, hash)
    ensures var r, key, after := Replaced(s, doc, at, hash), KeyOfDocument(doc), IngestFleet(f, doc, at, fallback);
            id in Covered(r.identities, SilentKeys(r, key, at, fallback)) <==>
              exists j :: j in f && j !in after && id in IdsOf(f[j], hash)
  {
    hide Replaced, Books, SilentKeys, Covered, IdsOf;
    var replaced, heard, key := Replaced(s, doc, at, hash), Heard(f, doc, at), KeyOfDocument(doc);
    ReplacedBooks(s, f, doc, at, hash);
    SilentMeansUnheard(replaced, heard, key, at, fallback, hash);
    SilentIds(replaced, heard, f, IngestFleet(f, doc, at, fallback), SilentKeys(replaced, key, at, fallback), key, hash, id);
  }

  lemma SilentIds(s: Scopes, heard: Fleet, f: Fleet, after: Fleet, silent: set<DocKey>, key: DocKey, hash: Hash, id: string)
    requires Books(s, heard, hash) && key !in silent && silent <= heard.Keys && after.Keys == heard.Keys - silent
    requires heard.Keys == f.Keys + {key} && forall k :: k in f && k != key ==> heard[k] == f[k]
    ensures id in Covered(s.identities, silent) <==> exists j :: j in f && j !in after && id in IdsOf(f[j], hash)
  {
    hide FlattenDocument, IdentitiesOf;
    if id in Covered(s.identities, silent) {
      var j :| j in silent && j in s.identities && id in s.identities[j];
      assert j in f && j !in after && id in IdsOf(f[j], hash);
    }
    if j :| j in f && j !in after && id in IdsOf(f[j], hash) {
      assert j in silent && id in s.identities[j];
    }
  }

  // One ingest keeps the details right exactly when it breaks nothing. What breaks
  // them is a document that drops or restates a state another source still shows,
  // or a source going silent that had a state in common with one that stays.
  lemma IngestMirrorsExactly(s: Scopes, f: Fleet, doc: Document, at: int, fallback: int, hash: Hash)
    requires Mirrors(s, f, hash)
    ensures Mirrors(IngestScopes(s, doc, at, fallback, hash), IngestFleet(f, doc, at, fallback), hash)
       <==> Undisturbed(f, doc, at, fallback, hash)
  {
    hide Books, AllOwned, AllHeld, IngestScopes, IngestFleet, Undisturbed;
    IngestBooks(s, f, doc, at, fallback, hash);
    IngestOwned(s, doc, at, fallback, hash);
    if Undisturbed(f, doc, at, fallback, hash) { UndisturbedHolds(s, f, doc, at, fallback, hash); }
    if AllHeld(IngestScopes(s, doc, at, fallback, hash), IngestFleet(f, doc, at, fallback), hash) {
      HeldIsUndisturbed(s, f, doc, at, fallback, hash);
    }
  }

  lemma IngestOwned(s: Scopes, doc: Document, at: int, fallback: int, hash: Hash)
    requires AllOwned(s)
    ensures AllOwned(IngestScopes(s, doc, at, fallback, hash))
  {
    hide AllOwned, Replaced, EvictScopes;
    var replaced := Replaced(s, doc, at, hash);
    ReplacedOwned(s, doc, at, hash);
    EvictOwned(replaced, SilentKeys(replaced, KeyOfDocument(doc), at, fallback));
  }

  // Where a source of the fleet after an ingest comes from.
  lemma AfterFrom(f: Fleet, doc: Document, at: int, fallback: int, hash: Hash, k: DocKey)
    requires k in IngestFleet(f, doc, at, fallback)
    ensures var after := IngestFleet(f, doc, at, fallback);
            if k == KeyOfDocument(doc) then EntriesOf(after[k], hash) == FlattenDocument(doc, at, hash)
            else k in f && after[k] == f[k]
  {
    hide FlattenDocument;
  }

  lemma UndisturbedHolds(s: Scopes, f: Fleet, doc: Document, at: int, fallback: int, hash: Hash)
    requires Mirrors(s, f, hash) && Undisturbed(f, doc, at, fallback, hash)
    requires Books(IngestScopes(s, doc, at, fallback, hash), IngestFleet(f, doc, at, fallback), hash)
    ensures AllHeld(IngestScopes(s, doc, at, fallback, hash), IngestFleet(f, doc, at, fallback), hash)
  {
    hide FlattenDocument, IdentitiesOf, LastDetail, IngestScopes, IngestFleet, AllOwned;
    var r, after, key := IngestScopes(s, doc, at, fallback, hash), IngestFleet(f, doc, at, fallback), KeyOfDocument(doc);
    forall k, id | k in after && k in r.identities && id in r.identities[k] ensures Holds(r, EntriesOf(after[k], hash), id) {
      DetailAfter(s, f, doc, at, fallback, hash, id);
      AfterFrom(f, doc, at, fallback, hash, k);
      assert id in IdsOf(after[k], hash);
      if k != key {
        assert Holds(s, EntriesOf(f[k], hash), id);
        assert LeavesAlone(f, doc, at, hash, f[k]);
      }
    }
  }

  lemma HeldIsUndisturbed(s: Scopes, f: Fleet, doc: Document, at: int, fallback: int, hash: Hash)
    requires Mirrors(s, f, hash)
    requires Books(IngestScopes(s, doc, at, fallback, hash), IngestFleet(f, doc, at, fallback), hash)
    requires AllHeld(IngestScopes(s, doc, at, fallback, hash), IngestFleet(f, doc, at, fallback), hash)
    ensures Undisturbed(f, doc, at, fallback, hash)
  {
    hide FlattenDocument, IdentitiesOf, LastDetail, IngestScopes, IngestFleet, AllOwned;
    var r, after, key := IngestScopes(s, doc, at, fallback, hash), IngestFleet(f, doc, at, fallback), KeyOfDocument(doc);
    var entries := FlattenDocument(doc, at, hash);
    forall k | k in f && k in after && k != key ensures LeavesAlone(f, doc, at, hash, f[k]) {
      AfterFrom(f, doc, at, fallback, hash, k);
      forall id | id in IdsOf(f[k], hash)
        ensures if id in IdentitiesOf(entries) then SameState(LastDetail(entries, id), LastDetail(EntriesOf(f[k], hash), id))
                else id !in FormerIds(f, key, hash)
      {
        DetailAfter(s, f, doc, at, fallback, hash, id);
        assert Holds(r, EntriesOf(after[k], hash), id);
      }
    }
    forall j, k | j in f && j !in after && k in after ensures IdsOf(f[j], hash) !! IdsOf(after[k], hash) {
      forall id | id in IdsOf(after[k], hash) ensures id !in IdsOf(f[j], hash) {
        DetailAfter(s, f, doc, at, fallback, hash, id);
        assert Holds(r, EntriesOf(after[k], hash), id);
      }
    }
  }

  // Sources that are apart do not disturb each other.
  lemma ApartUndisturbed(f: Fleet, doc: Document, at: int, fallback: int, hash: Hash)
    requires Apart(f, hash) && Apart(Heard(f, doc, at), hash)
    ensures Undisturbed(f, doc, at, fallback, hash)
  {
    hide FlattenDocument, IdentitiesOf, LastDetail;
    var heard, after, key := Heard(f, doc, at), IngestFleet(f, doc, at, fallback), KeyOfDocument(doc);
    forall k | k in f && k in after && k != key ensures LeavesAlone(f, doc, at, hash, f[k]) {
      assert key in heard && k in heard && heard[k] == f[k];
      assert IdsOf(heard[key], hash) !! IdsOf(f[k], hash);
      if key in f { assert IdsOf(f[key], hash) !! IdsOf(f[k], hash); }
    }
    forall j, k | j in f && j !in after && k in after ensures IdsOf(f[j], hash) !! IdsOf(after[k], hash) {
      assert j in heard && k in heard && j != key && heard[j] == f[j] && heard[k] == after[k];
    }
  }

  lemma IngestBooks(s: Scopes, f: Fleet, doc: Document, at: int, fallback: int, hash: Hash)
    requires Books(s, f, hash)
    ensures Books(IngestScopes(s, doc, at, fallback, hash), IngestFleet(f, doc, at, fallback), hash)
  {
    hide EvictScopes, Replaced, Books;
    var replaced, heard, key := Replaced(s, doc, at, hash), Heard(f, doc, at), KeyOfDocument(doc);
    ReplacedBooks(s, f, doc, at, hash);
    var silent := SilentKeys(replaced, key, at, fallback);
    EvictBooks(replaced, heard, silent, hash);
    SilentMeansUnheard(replaced, heard, key, at, fallback, hash);
    assert heard - silent == IngestFleet(f, doc, at, fallback);
  }

  lemma SilentMeansUnheard(s: Scopes, f: Fleet, key: DocKey, now: int, fallback: int, hash: Hash)
    requires Books(s, f, hash)
    ensures forall k :: k in SilentKeys(s, key, now, fallback) <==> k in f && k != key && !StillHeard(f[k], now, fallback)
  {}

  // --------------------------------------------------------------------- runs

  datatype Arrival = Arrival(doc: Document, at: int)

  function Run(arrivals: seq<Arrival>, fallback: int, hash: Hash): Scopes {
    if arrivals == [] then NO_SCOPES else
      IngestScopes(Run(arrivals[..|arrivals| - 1], fallback, hash), arrivals[|arrivals| - 1].doc, arrivals[|arrivals| - 1].at, fallback, hash)
  }

  function RunFleet(arrivals: seq<Arrival>, fallback: int): Fleet {
    if arrivals == [] then map[] else
      IngestFleet(RunFleet(arrivals[..|arrivals| - 1], fallback), arrivals[|arrivals| - 1].doc, arrivals[|arrivals| - 1].at, fallback)
  }

  function Arrived(arrivals: seq<Arrival>): set<Document> { set a | a in arrivals :: a.doc }

  // The bookkeeping is right over every run, whatever the kinds.
  lemma {:induction false} RunBooks(arrivals: seq<Arrival>, fallback: int, hash: Hash)
    ensures Books(Run(arrivals, fallback, hash), RunFleet(arrivals, fallback), hash)
    ensures DocumentsOf(RunFleet(arrivals, fallback)) <= Arrived(arrivals)
  {
    if arrivals == [] {
      NothingMirrors(hash);
    } else {
      hide Books, IngestScopes;
      var rest, last := arrivals[..|arrivals| - 1], arrivals[|arrivals| - 1];
      RunBooks(rest, fallback, hash);
      IngestBooks(Run(rest, fallback, hash), RunFleet(rest, fallback), last.doc, last.at, fallback, hash);
      ArrivedLast(arrivals);
    }
  }

  lemma ArrivedLast(arrivals: seq<Arrival>)
    requires arrivals != []
    ensures Arrived(arrivals) == Arrived(arrivals[..|arrivals| - 1]) + {arrivals[|arrivals| - 1].doc}
  {
    assert arrivals == arrivals[..|arrivals| - 1] + [arrivals[|arrivals| - 1]];
  }

  // Kinds that are apart in a run are apart in the fleet at every step of it.
  lemma ApartWithin(f: Fleet, docs: set<Document>, hash: Hash)
    requires Injective(hash) && KindsApart(docs, hash) && DocumentsOf(f) <= docs
    requires forall k :: k in f ==> KeyOfDocument(f[k].doc) == k
    ensures Apart(f, hash)
  {
    hide Injective, Apart, ShareAState;
    ApartExactly(f, hash);
  }

  // After any run in which documents of different kinds under one label path have
  // no state in common, the stored details are exactly the states of the latest
  // document of every source not yet gone silent.
  lemma {:induction false} DetailsAreLatestDocuments(arrivals: seq<Arrival>, fallback: int, hash: Hash)
    requires Injective(hash) && KindsApart(Arrived(arrivals), hash)
    ensures Mirrors(Run(arrivals, fallback, hash), RunFleet(arrivals, fallback), hash)
    ensures Apart(RunFleet(arrivals, fallback), hash)
  {
    hide Mirrors, Injective, Apart, IngestScopes, IngestFleet, ShareAState, Undisturbed;
    RunBooks(arrivals, fallback, hash);
    ApartWithin(RunFleet(arrivals, fallback), Arrived(arrivals), hash);
    if arrivals == [] {
      NothingMirrors(hash);
    } else {
      var rest, last := arrivals[..|arrivals| - 1], arrivals[|arrivals| - 1];
      ArrivedLast(arrivals);
      DetailsAreLatestDocuments(rest, fallback, hash);
      RunBooks(rest, fallback, hash);
      var f := RunFleet(rest, fallback);
      ApartWithin(Heard(f, last.doc, last.at), Arrived(arrivals), hash);
      ApartUndisturbed(f, last.doc, last.at, fallback, hash);
      IngestMirrorsExactly(Run(rest, fallback, hash), f, last.doc, last.at, fallback, hash);
    }
  }

  lemma NothingMirrors(hash: Hash)
    ensures Mirrors(NO_SCOPES, map[], hash)
  {}

  ghost predicate ScopesDisjoint(s: Scopes) {
    forall j, k :: j in s.identities && k in s.identities && j != k ==> s.identities[j] !! s.identities[k]
  }

  // After any run at all, the scopes are disjoint exactly when no two remembered
  // documents of different kinds under one label path have a state in common.
  lemma ScopesAreDisjointExactly(arrivals: seq<Arrival>, fallback: int, hash: Hash)
    requires Injective(hash)
    ensures ScopesDisjoint(Run(arrivals, fallback, hash)) <==> KindsApart(DocumentsOf(RunFleet(arrivals, fallback)), hash)
  {
    hide Run, RunFleet, Injective, KindsApart, IdentitiesOf, FlattenDocument;
    RunBooks(arrivals, fallback, hash);
    ApartExactly(RunFleet(arrivals, fallback), hash);
  }

  // Documents of one kind are always apart.
  lemma OneKindApart(docs: set<Document>, kind: string, hash: Hash)
    requires forall a :: a in docs ==> a.kind == kind
    ensures KindsApart(docs, hash)
  {}

  // Throughout a run.
  ghost predicate RightAfter(arrivals: seq<Arrival>, n: nat, fallback: int, hash: Hash)
    requires n <= |arrivals|
  {
    Mirrors(Run(arrivals[..n], fallback, hash), RunFleet(arrivals[..n], fallback), hash)
  }

  ghost predicate UndisturbedAt(arrivals: seq<Arrival>, n: nat, fallback: int, hash: Hash)
    requires n < |arrivals|
  {
    Undisturbed(RunFleet(arrivals[..n], fallback), arrivals[n].doc, arrivals[n].at, fallback, hash)
  }

  // Whatever the kinds and the documents, the details are right after the first n
  // arrivals and all before exactly when none of these broke them.
  lemma {:induction false} RightThroughoutExactly(arrivals: seq<Arrival>, n: nat, fallback: int, hash: Hash)
    requires n <= |arrivals|
    ensures (forall m: nat :: m <= n ==> RightAfter(arrivals, m, fallback, hash))
       <==> (forall m: nat :: m < n ==> UndisturbedAt(arrivals, m, fallback, hash))
  {
    hide RightAfter, UndisturbedAt;
    if n == 0 {
      RightAtFirst(arrivals, fallback, hash);
    } else {
      RightThroughoutExactly(arrivals, n - 1, fallback, hash);
      if RightAfter(arrivals, n - 1, fallback, hash) { NextIsRight(arrivals, n - 1, fallback, hash); }
    }
  }

  lemma RightAtFirst(arrivals: seq<Arrival>, fallback: int, hash: Hash)
    ensures RightAfter(arrivals, 0, fallback, hash)
  {
    NothingMirrors(hash);
  }

  lemma NextIsRight(arrivals: seq<Arrival>, n: nat, fallback: int, hash: Hash)
    requires n < |arrivals| && RightAfter(arrivals, n, fallback, hash)
    ensures RightAfter(arrivals, n + 1, fallback, hash) <==> UndisturbedAt(arrivals, n, fallback, hash)
  {
    hide Mirrors, Undisturbed, IngestScopes, IngestFleet;
    assert arrivals[..n + 1][..n] == arrivals[..n];
    IngestMirrorsExactly(Run(arrivals[..n], fallback, hash), RunFleet(arrivals[..n], fallback), arrivals[n].doc, arrivals[n].at, fallback, hash);
  }

  // The scopes cover the details, and they are disjoint.
  lemma ScopesPartitionDetails(arrivals: seq<Arrival>, fallback: int, hash: Hash)
    requires Injective(hash) && KindsApart(Arrived(arrivals), hash)
    ensures var s := Run(arrivals, fallback, hash);
            && ScopesDisjoint(s)
            && s.details.Keys == Covered(s.identities, s.identities.Keys)
            && s.lastSeen.Keys == s.identities.Keys && s.intervals.Keys <= s.identities.Keys
  {
    hide Run, RunFleet, Injective, KindsApart, IdentitiesOf, LastDetail;
    DetailsAreLatestDocuments(arrivals, fallback, hash);
    var s, f := Run(arrivals, fallback, hash), RunFleet(arrivals, fallback);
    forall id ensures id in s.details <==> id in Covered(s.identities, s.identities.Keys) {
      if id in Covered(s.identities, s.identities.Keys) {
        var k :| k in s.identities && id in s.identities[k];
        assert Holds(s, EntriesOf(f[k], hash), id);
      }
    }
  }

  // All this holds of documents of one kind without more.
  lemma OneKindIsRight(arrivals: seq<Arrival>, fallback: int, kind: string, hash: Hash)
    requires Injective(hash) && forall a :: a in arrivals ==> a.doc.kind == kind
    ensures Mirrors(Run(arrivals, fallback, hash), RunFleet(arrivals, fallback), hash)
    ensures ScopesDisjoint(Run(arrivals, fallback, hash))
  {
    hide Injective, Mirrors, ScopesDisjoint, KindsApart;
    OneKindApart(Arrived(arrivals), kind, hash);
    DetailsAreLatestDocuments(arrivals, fallback, hash);
    ScopesPartitionDetails(arrivals, fallback, hash);
  }

  lemma OneState(doc: Document, snap: Snapshot, at: int, hash: Hash)
    requires doc.states == [snap] && snap.checks == []
    ensures FlattenDocument(doc, at, hash) == [EntryOf(Root(doc), snap, at, hash)]
  {
    var c := Root(doc);
    assert FlattenAll(Below(c, snap, hash), snap.checks, at, hash) == [];
    assert FlattenOne(c, snap, at, hash) == [EntryOf(c, snap, at, hash)];
    assert doc.states[1..] == [] && FlattenAll(c, doc.states[1..], at, hash) == [];
  }

  lemma NoState(doc: Document, at: int, hash: Hash)
    requires doc.states == []
    ensures FlattenDocument(doc, at, hash) == []
  {}

  // Documents that all come at one time leave no source silent.
  ghost predicate AllAt(s: Scopes, at: int) { s.intervals == map[] && forall k :: k in s.lastSeen ==> s.lastSeen[k] == at }

  lemma IngestAtOnce(s: Scopes, doc: Document, at: int, hash: Hash)
    requires AllAt(s, at)
    ensures var r, ids := IngestScopes(s, doc, at, 0, hash), IdentitiesOf(FlattenDocument(doc, at, hash));
            && AllAt(r, at) && r.identities == s.identities[KeyOfDocument(doc) := ids]
            && r.details.Keys == s.details.Keys - (ScopeOf(s.identities, KeyOfDocument(doc)) - ids) + ids
  {
    hide FlattenDocument, PutDetails, IdentitiesOf;
    var entries, replaced := FlattenDocument(doc, at, hash), Replaced(s, doc, at, hash);
    PutDetailsHolds(s.details - (ScopeOf(s.identities, KeyOfDocument(doc)) - IdentitiesOf(entries)), entries);
    assert SilentKeys(replaced, KeyOfDocument(doc), at, 0) == {};
    assert EvictScopes(replaced, {}) == replaced;
  }

  // Two kinds that are not apart: when one source no longer shows a common state,
  // the other's detail of it goes too, though its latest document still has it.
  lemma KindsCollide(hash: Hash, labelPath: seq<DisplayLabel>, snap: Snapshot, at: int)
    requires snap.checks == []
    ensures var a, b := Document("a", labelPath, [snap]), Document("b", labelPath, [snap]);
            var arrivals := [Arrival(a, at), Arrival(b, at), Arrival(a.(states := []), at)];
            var s := Run(arrivals, 0, hash);
            && s.details == map[] && KeyOfDocument(b) in s.identities && s.identities[KeyOfDocument(b)] != {}
            && !Mirrors(s, RunFleet(arrivals, 0), hash)
  {
    hide IngestScopes, FlattenDocument, Run, AllOwned;
    var a, b := Document("a", labelPath, [snap]), Document("b", labelPath, [snap]);
    var gone := a.(states := []);
    var id := hash(IdentityOf(Root(a), snap));
    OneState(a, snap, at, hash);
    OneState(b, snap, at, hash);
    NoState(gone, at, hash);
    var one, two, three := [Arrival(a, at)], [Arrival(a, at), Arrival(b, at)], [Arrival(a, at), Arrival(b, at), Arrival(gone, at)];
    RunLast(one, 0, hash);
    RunLast(two, 0, hash);
    RunLast(three, 0, hash);
    assert two[..1] == one && three[..2] == two;
    IngestAtOnce(NO_SCOPES, a, at, hash);
    IngestAtOnce(Run(one, 0, hash), b, at, hash);
    IngestAtOnce(Run(two, 0, hash), gone, at, hash);
    RunBooks(three, 0, hash);
    var s, f := Run(three, 0, hash), RunFleet(three, 0);
    assert s.identities[KeyOfDocument(b)] == {id};
    assert !Holds(s, EntriesOf(f[KeyOfDocument(b)], hash), id);
  }

  lemma RunLast(arrivals: seq<Arrival>, fallback: int, hash: Hash)
    requires arrivals != []
    ensures var rest, last := arrivals[..|arrivals| - 1], arrivals[|arrivals| - 1];
            && Run(arrivals, fallback, hash) == IngestScopes(Run(rest, fallback, hash), last.doc, last.at, fallback, hash)
            && (rest == [] ==> Run(rest, fallback, hash) == NO_SCOPES)
  {}

  // A state that stays current keeps the time it was first seen.
  lemma FirstSeenStays(s: Scopes, doc: Document, at: int, fallback: int, hash: Hash, id: string)
    requires id in s.details && id in IngestScopes(s, doc, at, fallback, hash).details
    ensures IngestScopes(s, doc, at, fallback, hash).details[id].firstSeenAt == s.details[id].firstSeenAt
  {
    hide FlattenDocument, PutDetails;
    var entries := FlattenDocument(doc, at, hash);
    PutDetailsHolds(s.details - (ScopeOf(s.identities, KeyOfDocument(doc)) - IdentitiesOf(entries)), entries);
  }
}
