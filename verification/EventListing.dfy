// Sorting an incident's events and cutting them to the newest, as the store does
// it (sortedIncidentEvents, capIncidentEvents in storage/storage.go).

module EventListing {
  import opened Basics
  import opened EventOrder

  // A map holding events of one incident under their own numbered keys.
  ghost predicate Orderly(m: Events, incident: IncidentKey) { Keyed(m) && OneIncident(m.Keys, incident) }

  function KeysOf(list: seq<IncidentEvent>): set<EventKey> { set e | e in list :: e.key }

  lemma {:induction false} MapOfMembers(list: seq<IncidentEvent>)
    ensures MapOf(list).Keys == KeysOf(list) && Keyed(MapOf(list))
    ensures forall k :: k in MapOf(list) ==> MapOf(list)[k] in list
  {
    if list != [] {
      var rest, last := list[..|list| - 1], list[|list| - 1];
      MapOfMembers(rest);
      assert list == rest + [last];
    }
  }

  lemma {:induction false} MapOfJoin(a: seq<IncidentEvent>, b: seq<IncidentEvent>)
    ensures MapOf(a + b) == MapOf(a) + MapOf(b)
  {
    if b == [] {
      assert a + b == a;
    } else {
      var rest := b[..|b| - 1];
      MapOfJoin(a, rest);
      assert (a + b)[..|a + b| - 1] == a + rest;
    }
  }

  ghost predicate Apart(list: seq<IncidentEvent>) {
    forall i, j :: 0 <= i < j < |list| ==> list[i].key != list[j].key
  }

  lemma OrderedApart(list: seq<IncidentEvent>, incident: IncidentKey)
    requires Ordered(list) && OneIncident(KeysOf(list), incident)
    ensures Apart(list)
  {
    hide Newer;
    forall i, j | 0 <= i < j < |list| ensures list[i].key != list[j].key {
      assert list[i].key in KeysOf(list);
      assert Newer(list[j].key, list[i].key);
      NewerIsOrder(list[i].key, list[i].key, list[i].key);
    }
  }

  lemma {:induction false} CountKeys(list: seq<IncidentEvent>)
    requires Apart(list)
    ensures |KeysOf(list)| == |list|
  {
    if list != [] {
      var rest, last := list[..|list| - 1], list[|list| - 1];
      CountKeys(rest);
      assert list == rest + [last];
      assert KeysOf(list) == KeysOf(rest) + {last.key};
      assert last.key !in KeysOf(rest);
    }
  }

  // In an ordered list the newer ones are those that come later.
  lemma AboveIsLater(list: seq<IncidentEvent>, incident: IncidentKey, i: nat)
    requires Ordered(list) && OneIncident(KeysOf(list), incident) && i < |list|
    ensures Above(KeysOf(list), list[i].key) == KeysOf(list[i + 1..])
    ensures |Above(KeysOf(list), list[i].key)| == |list| - 1 - i
  {
    hide Newer;
    OrderedApart(list, incident);
    CountKeys(list[i + 1..]);
    var k := list[i].key;
    assert k in KeysOf(list);
    forall j | 0 <= j < |list| ensures Newer(list[j].key, k) <==> i < j {
      assert list[j].key in KeysOf(list);
      NewerIsOrder(list[j].key, k, list[j].key);
      NewerIsOrder(k, list[j].key, k);
    }
    forall x ensures x in Above(KeysOf(list), k) <==> x in KeysOf(list[i + 1..]) {
      if x in Above(KeysOf(list), k) {
        var j :| 0 <= j < |list| && list[j].key == x;
        assert list[j] == list[i + 1..][j - i - 1];
      }
    }
  }

  lemma PartsApart(list: seq<IncidentEvent>, n: nat)
    requires Apart(list) && n <= |list|
    ensures KeysOf(list[..n]) !! KeysOf(list[n..])
    ensures KeysOf(list) == KeysOf(list[..n]) + KeysOf(list[n..])
  {
    assert list == list[..n] + list[n..];
  }

  lemma DropPart(a: Events, b: Events)
    requires a.Keys !! b.Keys
    ensures a + b - a.Keys == b && a + b - b.Keys == a
  {}

  lemma SplitListing(list: seq<IncidentEvent>, n: nat)
    requires Apart(list) && n <= |list|
    ensures MapOf(list[n..]) == MapOf(list) - KeysOf(list[..n])
    ensures MapOf(list[..n]) == MapOf(list) - KeysOf(list[n..])
  {
    hide MapOf, KeysOf, Apart;
    assert list == list[..n] + list[n..];
    PartsApart(list, n);
    MapOfJoin(list[..n], list[n..]);
    MapOfMembers(list[..n]);
    MapOfMembers(list[n..]);
    DropPart(MapOf(list[..n]), MapOf(list[n..]));
  }

  lemma KeyAt(list: seq<IncidentEvent>, k: EventKey) returns (i: nat)
    requires k in KeysOf(list)
    ensures i < |list| && list[i].key == k
  {
    i :| 0 <= i < |list| && list[i].key == k;
  }

  lemma KeyIn(list: seq<IncidentEvent>, i: nat)
    requires i < |list|
    ensures list[i].key in KeysOf(list)
  {}

  // Which keys are among the newest cap.
  lemma TopIsLater(list: seq<IncidentEvent>, incident: IncidentKey, cap: nat)
    requires Ordered(list) && OneIncident(KeysOf(list), incident)
    ensures Top(KeysOf(list), cap) == KeysOf(LastOf(list, cap))
  {
    hide Newer, Above, KeysOf, Ordered;
    var n := if |list| > cap then |list| - cap else 0;
    assert LastOf(list, cap) == list[n..];
    OrderedApart(list, incident);
    PartsApart(list, n);
    forall k ensures k in Top(KeysOf(list), cap) <==> k in KeysOf(list[n..]) {
      if k in KeysOf(list) {
        var i := KeyAt(list, k);
        AboveIsLater(list, incident, i);
        if i < n { KeyIn(list[..n], i); } else { KeyIn(list[n..], i - n); }
      }
    }
  }

  // The newest cap events are the last cap of the sorted list.
  lemma KeepIsLast(list: seq<IncidentEvent>, m: Events, incident: IncidentKey, cap: nat)
    requires Lists(list, m) && OneIncident(m.Keys, incident)
    ensures Keep(m, cap) == MapOf(LastOf(list, cap)) && Ordered(LastOf(list, cap))
    ensures |list| > cap ==> Keep(m, cap) == m - KeysOf(list[..|list| - cap])
  {
    hide Newer, Above, Top, MapOf, KeysOf, Apart;
    var n := if |list| > cap then |list| - cap else 0;
    assert LastOf(list, cap) == list[n..];
    MapOfMembers(list);
    OrderedApart(list, incident);
    SplitListing(list, n);
    TopIsLater(list, incident, cap);
    MapOfMembers(list[n..]);
    assert Keep(m, cap) == MapOf(list[n..]);
  }

  lemma LastIsNewest(list: seq<IncidentEvent>, incident: IncidentKey, k: EventKey)
    requires Ordered(list) && OneIncident(KeysOf(list), incident) && k in KeysOf(list)
    ensures list != [] && (k == list[|list| - 1].key || Newer(list[|list| - 1].key, k))
  {
    hide Newer;
    var i := KeyAt(list, k);
  }

  // An ordered list is determined by its events.
  lemma {:induction false} ListingUnique(a: seq<IncidentEvent>, b: seq<IncidentEvent>, incident: IncidentKey)
    requires Ordered(a) && Ordered(b) && MapOf(a) == MapOf(b) && OneIncident(KeysOf(a), incident)
    ensures a == b
  {
    hide Newer, KeysOf, Apart, Ordered;
    MapOfMembers(a);
    MapOfMembers(b);
    if a == [] {
      NoKeys();
      if b != [] { KeyIn(b, 0); }
    } else {
      KeyIn(a, |a| - 1);
      LastIsNewest(b, incident, a[|a| - 1].key);
      KeyIn(b, |b| - 1);
      LastIsNewest(a, incident, b[|b| - 1].key);
      SameLast(a, b, incident);
      DropLast(a, incident);
      DropLast(b, incident);
      ListingUnique(a[..|a| - 1], b[..|b| - 1], incident);
      assert a == a[..|a| - 1] + [a[|a| - 1]] && b == b[..|b| - 1] + [b[|b| - 1]];
    }
  }

  lemma NoKeys()
    ensures KeysOf([]) == {}
  {}

  lemma SameLast(a: seq<IncidentEvent>, b: seq<IncidentEvent>, incident: IncidentKey)
    requires a != [] && b != [] && MapOf(a) == MapOf(b)
    requires Numbered(a[|a| - 1].key) && Numbered(b[|b| - 1].key)
    requires a[|a| - 1].key == b[|b| - 1].key || Newer(b[|b| - 1].key, a[|a| - 1].key)
    requires a[|a| - 1].key == b[|b| - 1].key || Newer(a[|a| - 1].key, b[|b| - 1].key)
    ensures a[|a| - 1] == b[|b| - 1]
  {
    hide Newer;
    NewerIsOrder(a[|a| - 1].key, b[|b| - 1].key, a[|a| - 1].key);
    assert MapOf(a)[a[|a| - 1].key] == a[|a| - 1] && MapOf(b)[b[|b| - 1].key] == b[|b| - 1];
  }

  lemma DropLast(list: seq<IncidentEvent>, incident: IncidentKey)
    requires list != [] && Ordered(list) && OneIncident(KeysOf(list), incident)
    ensures var rest := list[..|list| - 1];
            Ordered(rest) && OneIncident(KeysOf(rest), incident) && MapOf(rest) == MapOf(list) - {list[|list| - 1].key}
  {
    hide Newer;
    var n := |list| - 1;
    OrderedApart(list, incident);
    PartsApart(list, n);
    SplitListing(list, n);
    assert list[n..] == [list[n]];
    assert KeysOf(list[n..]) == {list[n].key};
  }

  // Puts one event in its place.
  method InsertEvent(list: seq<IncidentEvent>, e: IncidentEvent, ghost incident: IncidentKey) returns (out: seq<IncidentEvent>)
    requires Ordered(list) && OneIncident(KeysOf(list) + {e.key}, incident) && e.key !in KeysOf(list)
    ensures Ordered(out) && MapOf(out) == MapOf(list)[e.key := e]
  {
    hide Newer, MapOf, KeysOf;
    var p := |list|;
    while p > 0 && Newer(list[p - 1].key, e.key)
      invariant 0 <= p <= |list|
      invariant forall k :: p <= k < |list| ==> Newer(list[k].key, e.key)
    {
      p := p - 1;
    }
    forall k | 0 <= k < p ensures Newer(e.key, list[k].key) {
      KeyIn(list, k);
      KeyIn(list, p - 1);
      NewerIsOrder(e.key, list[p - 1].key, list[k].key);
    }
    out := list[..p] + [e] + list[p..];
    MapOfInserted(list, p, e);
  }

  lemma MapOfInserted(list: seq<IncidentEvent>, p: nat, e: IncidentEvent)
    requires p <= |list| && e.key !in KeysOf(list)
    ensures MapOf(list[..p] + [e] + list[p..]) == MapOf(list)[e.key := e]
  {
    hide Newer;
    assert list == list[..p] + list[p..];
    MapOfJoin(list[..p], list[p..]);
    MapOfJoin(list[..p] + [e], list[p..]);
    assert (list[..p] + [e])[..p] == list[..p];
    MapOfMembers(list[p..]);
    assert KeysOf(list[p..]) <= KeysOf(list);
    PutInside(MapOf(list[..p]), MapOf(list[p..]), e);
  }

  lemma PutInside(a: Events, b: Events, e: IncidentEvent)
    requires e.key !in b
    ensures a[e.key := e] + b == (a + b)[e.key := e]
  {}

  lemma NothingListed()
    ensures Ordered([]) && MapOf([]) == map[] && Lists([], map[])
  {}

  // sortedIncidentEvents: the map's events, met in any order, sorted.
  method SortEvents(m: Events, ghost incident: IncidentKey) returns (list: seq<IncidentEvent>)
    requires Orderly(m, incident)
    ensures Lists(list, m)
  {
    hide Newer, MapOf, KeysOf, Ordered, Orderly, OneIncident;
    list := [];
    assert Ordered(list) && MapOf(list) == map[] by { NothingListed(); }
    var rest := m.Keys;
    while rest != {}
      invariant rest <= m.Keys && Ordered(list)
      invariant MapOf(list) == m - rest
      decreases rest
    {
      ghost var some := SomeElement(rest);
      var k :| k in rest;
      MapOfMembers(list);
      ReadyToInsert(m, rest, KeysOf(list), k, incident);
      list := InsertEvent(list, m[k], incident);
      rest := rest - {k};
    }
  }

  lemma ReadyToInsert(m: Events, rest: set<EventKey>, keys: set<EventKey>, k: EventKey, incident: IncidentKey)
    requires Orderly(m, incident) && rest <= m.Keys && k in rest && keys == m.Keys - rest
    ensures m[k].key == k && k !in keys && OneIncident(keys + {k}, incident)
    ensures (m - rest)[k := m[k]] == m - (rest - {k})
  {}

  // capIncidentEvents: the sorted newest cap events, and the map cut to them.
  method CapEvents(m: Events, cap: nat, ghost incident: IncidentKey) returns (list: seq<IncidentEvent>, kept: Events)
    requires Orderly(m, incident)
    ensures kept == Keep(m, cap) && Lists(list, kept)
  {
    hide Newer, MapOf, Keep, Ordered;
    var sorted := SortEvents(m, incident);
    KeepIsLast(sorted, m, incident, cap);
    if |sorted| <= cap {
      return sorted, m;
    }
    kept := m;
    for i := 0 to |sorted| - cap
      invariant kept == m - KeysOf(sorted[..i])
    {
      kept := kept - {sorted[i].key};
      assert sorted[..i + 1] == sorted[..i] + [sorted[i]];
    }
    list := sorted[|sorted| - cap..];
  }
}
