// One identity's bounded transition history (transitionRing in storage/storage.go).

module TransitionRing {
  import opened Basics

  datatype Transition = Transition(changedAt: int, status: string, reason: string)

  // What identifies a transition within its identity; the reason does not.
  datatype Key = Key(time: int, status: string)

  function KeyOf(t: Transition): Key { Key(t.changedAt, t.status) }

  function Keys(xs: seq<Transition>): seq<Key> { seq(|xs|, i requires 0 <= i < |xs| => KeyOf(xs[i])) }

  function KeySet(xs: seq<Transition>): set<Key> { set t | t in xs :: KeyOf(t) }

  predicate Has(entries: seq<Transition>, k: Key) {
    exists i :: 0 <= i < |entries| && KeyOf(entries[i]) == k
  }

  // How many leading entries are not after time t, when entries are in time order.
  function InsertAt(entries: seq<Transition>, t: int): (p: nat)
    ensures p <= |entries|
  {
    if entries != [] && entries[|entries| - 1].changedAt > t then InsertAt(entries[..|entries| - 1], t) else |entries|
  }

  function Inserted(entries: seq<Transition>, t: Transition): seq<Transition> {
    var p := InsertAt(entries, t.changedAt);
    entries[..p] + [t] + entries[p..]
  }

  function AddTo(entries: seq<Transition>, t: Transition, cap: nat): seq<Transition> {
    if Has(entries, KeyOf(t)) then entries else LastOf(Inserted(entries, t), cap)
  }

  // The ring after adding the transitions of xs in order, starting from entries.
  function AddAll(entries: seq<Transition>, xs: seq<Transition>, cap: nat): seq<Transition> {
    if xs == [] then entries else AddTo(AddAll(entries, xs[..|xs| - 1], cap), xs[|xs| - 1], cap)
  }

  // ------------------------------------------------------------- the object

  class Ring {
    // The identity it is the history of.
    ghost const owner: string
    var entries: seq<Transition>

    constructor (ghost owner: string)
      ensures this.owner == owner && entries == []
    {
      this.owner := owner;
      entries := [];
    }

    method Add(t: Transition, ringCap: nat) returns (added: bool, dropped: nat)
      modifies this
      ensures entries == AddTo(old(entries), t, ringCap)
      ensures added == !Has(old(entries), KeyOf(t))
      ensures |entries| == |old(entries)| + (if added then 1 else 0) - dropped
    {
      var known := Contains(t);
      if known {
        return false, 0;
      }
      var insertAt := FindPlace(t.changedAt);
      entries := entries[..insertAt] + [t] + entries[insertAt..];
      added, dropped := true, 0;
      if |entries| > ringCap {
        dropped := |entries| - ringCap;
        entries := entries[dropped..];
      }
    }

    // The first loop of add.
    method Contains(t: Transition) returns (known: bool)
      ensures known == Has(entries, KeyOf(t))
    {
      for i := 0 to |entries|
        invariant forall k :: 0 <= k < i ==> KeyOf(entries[k]) != KeyOf(t)
      {
        if entries[i].changedAt == t.changedAt && entries[i].status == t.status {
          return true;
        }
      }
      return false;
    }

    // The second loop of add.
    method FindPlace(time: int) returns (insertAt: nat)
      ensures insertAt == InsertAt(entries, time)
    {
      insertAt := |entries|;
      assert entries[..insertAt] == entries;
      while insertAt > 0 && entries[insertAt - 1].changedAt > time
        invariant insertAt <= |entries|
        invariant InsertAt(entries[..insertAt], time) == InsertAt(entries, time)
      {
        assert entries[..insertAt][..insertAt - 1] == entries[..insertAt - 1];
        insertAt := insertAt - 1;
      }
    }
  }

  // ------------------------------------------------------------- one addition

  ghost predicate Sorted(entries: seq<Transition>) {
    forall i, j :: 0 <= i < j < |entries| ==> entries[i].changedAt <= entries[j].changedAt
  }

  ghost predicate Distinct(entries: seq<Transition>) {
    forall i, j :: 0 <= i < j < |entries| ==> KeyOf(entries[i]) != KeyOf(entries[j])
  }

  ghost predicate RingOk(entries: seq<Transition>, cap: nat) {
    Sorted(entries) && Distinct(entries) && |entries| <= cap
  }

  lemma {:induction false} InsertAtSplits(entries: seq<Transition>, t: int)
    requires Sorted(entries)
    ensures forall i :: 0 <= i < InsertAt(entries, t) ==> entries[i].changedAt <= t
    ensures forall i :: InsertAt(entries, t) <= i < |entries| ==> t < entries[i].changedAt
  {
    if entries != [] && entries[|entries| - 1].changedAt > t {
      InsertAtSplits(entries[..|entries| - 1], t);
    }
  }

  lemma InsertedOk(entries: seq<Transition>, t: Transition)
    requires Sorted(entries) && Distinct(entries) && !Has(entries, KeyOf(t))
    ensures Sorted(Inserted(entries, t)) && Distinct(Inserted(entries, t))
  {
    InsertAtSplits(entries, t.changedAt);
  }

  lemma AddToOk(entries: seq<Transition>, t: Transition, cap: nat)
    requires RingOk(entries, cap)
    ensures RingOk(AddTo(entries, t, cap), cap)
  {
    if !Has(entries, KeyOf(t)) { InsertedOk(entries, t); }
  }

  lemma {:induction false} AddAllOk(entries: seq<Transition>, xs: seq<Transition>, cap: nat)
    requires RingOk(entries, cap)
    ensures RingOk(AddAll(entries, xs, cap), cap)
  {
    if xs != [] {
      AddAllOk(entries, xs[..|xs| - 1], cap);
      AddToOk(AddAll(entries, xs[..|xs| - 1], cap), xs[|xs| - 1], cap);
    }
  }

  // --------------------------------------------------- what the ring retains

  // The ring holds cap of the keys in s, or all of them, and none it misses is
  // newer than one it holds.
  ghost predicate Retains(entries: seq<Transition>, s: set<Key>, cap: nat) {
    && RingOk(entries, cap)
    && KeySet(entries) <= s
    && |entries| == Min(cap, |s|)
    && forall k, i :: k in s && k !in KeySet(entries) && 0 <= i < |entries| ==> k.time <= entries[i].changedAt
  }

  lemma HasIsMember(entries: seq<Transition>, k: Key)
    ensures Has(entries, k) <==> k in KeySet(entries)
  {
    if k in KeySet(entries) {
      var t :| t in entries && KeyOf(t) == k;
      var i :| 0 <= i < |entries| && entries[i] == t;
    }
  }

  lemma {:induction false} KeySetSize(entries: seq<Transition>)
    requires Distinct(entries)
    ensures |KeySet(entries)| == |entries|
  {
    if entries != [] {
      var rest, last := entries[..|entries| - 1], entries[|entries| - 1];
      KeySetSize(rest);
      assert entries == rest + [last];
      assert KeySet(entries) == KeySet(rest) + {KeyOf(last)};
      HasIsMember(rest, KeyOf(last));
    }
  }

  lemma InsertedKeys(entries: seq<Transition>, t: Transition)
    ensures KeySet(Inserted(entries, t)) == KeySet(entries) + {KeyOf(t)}
  {
    var p := InsertAt(entries, t.changedAt);
    assert entries == entries[..p] + entries[p..];
    assert forall x :: x in Inserted(entries, t) <==> x in entries || x == t;
    assert forall k :: k in KeySet(Inserted(entries, t)) <==> k in KeySet(entries) || k == KeyOf(t);
  }

  lemma AddRetains(entries: seq<Transition>, s: set<Key>, t: Transition, cap: nat)
    requires Retains(entries, s, cap)
    ensures Retains(AddTo(entries, t, cap), s + {KeyOf(t)}, cap)
  {
    HasIsMember(entries, KeyOf(t));
    var s' := s + {KeyOf(t)};
    if KeyOf(t) in KeySet(entries) {
      assert s' == s;
    } else {
      AddToOk(entries, t, cap);
      KeySetSize(entries);
      InsertedOk(entries, t);
      InsertedKeys(entries, t);
      TrimRetains(Inserted(entries, t), entries, s, t, cap);
    }
  }

  lemma TrimRetains(all: seq<Transition>, entries: seq<Transition>, s: set<Key>, t: Transition, cap: nat)
    requires Retains(entries, s, cap) && KeyOf(t) !in KeySet(entries)
    requires Sorted(all) && Distinct(all) && KeySet(all) == KeySet(entries) + {KeyOf(t)}
    requires |all| == |entries| + 1
    ensures Retains(LastOf(all, cap), s + {KeyOf(t)}, cap)
  {
    hide Sorted, Distinct, KeySet;
    var s', ring := s + {KeyOf(t)}, LastOf(all, cap);
    if |entries| < cap {
      EverythingHeld(entries, s);
      assert ring == all && KeySet(ring) == s';
    } else {
      assert ring == all[1..];
      TailOk(all);
      assert |s'| >= |s| by { assert s <= s'; SubsetSize(s, s'); }
      forall k, i | k in s' && k !in KeySet(ring) && 0 <= i < |ring| ensures k.time <= ring[i].changedAt {
        if k == KeyOf(all[0]) {
          SortedPair(all, 0, i + 1);
        } else {
          NoOlderThan(entries, all, t, k, i + 1);
        }
      }
    }
  }

  lemma SortedPair(all: seq<Transition>, i: nat, j: nat)
    requires Sorted(all) && i < j < |all|
    ensures all[i].changedAt <= all[j].changedAt
  {}

  lemma TailOk(all: seq<Transition>)
    requires Sorted(all) && Distinct(all) && all != []
    ensures Sorted(all[1..]) && Distinct(all[1..])
    ensures KeySet(all) == KeySet(all[1..]) + {KeyOf(all[0])}
  {
    assert all == [all[0]] + all[1..];
  }

  lemma EverythingHeld(entries: seq<Transition>, s: set<Key>)
    requires Distinct(entries) && KeySet(entries) <= s && |entries| >= |s|
    ensures KeySet(entries) == s
  {
    KeySetSize(entries);
    var rest := s - KeySet(entries);
    assert s == KeySet(entries) + rest;
    assert |s| == |KeySet(entries)| + |rest|;
  }

  // A key missed before the addition is not newer than what stays after it.
  lemma NoOlderThan(entries: seq<Transition>, all: seq<Transition>, t: Transition, k: Key, i: nat)
    requires forall j :: 0 <= j < |entries| ==> k.time <= entries[j].changedAt
    requires 0 < i < |all| && Sorted(all) && Distinct(all)
    requires KeySet(all) == KeySet(entries) + {KeyOf(t)}
    ensures k.time <= all[i].changedAt
  {
    HasIsMember(entries, KeyOf(all[i]));
    HasIsMember(entries, KeyOf(all[0]));
    assert KeyOf(all[0]) in KeySet(all) && KeyOf(all[i]) in KeySet(all);
    assert KeyOf(all[0]) != KeyOf(all[i]);
    SortedPair(all, 0, i);
  }

  lemma {:induction false} AddAllRetains(xs: seq<Transition>, cap: nat)
    ensures Retains(AddAll([], xs, cap), KeySet(xs), cap)
  {
    if xs == [] {
      assert KeySet([]) == {};
    } else {
      var rest, last := xs[..|xs| - 1], xs[|xs| - 1];
      AddAllRetains(rest, cap);
      AddRetains(AddAll([], rest, cap), KeySet(rest), last, cap);
      assert xs == rest + [last];
      KeySetSnoc(rest, last);
    }
  }

  lemma KeySetSnoc(xs: seq<Transition>, t: Transition)
    ensures KeySet(xs + [t]) == KeySet(xs) + {KeyOf(t)}
  {
    assert forall x :: x in xs + [t] <==> x in xs || x == t;
    assert forall k :: k in KeySet(xs + [t]) <==> k in KeySet(xs) || k == KeyOf(t);
  }

  // ------------------------------------------------- when order does not matter

  function NewerThan(s: set<Key>, time: int): set<Key> { set k | k in s && k.time > time }

  // Among the newest cap of s no two keys share a time.
  ghost predicate NoTieAtTop(s: set<Key>, cap: nat) {
    forall a, b :: a in s && b in s && a != b && a.time == b.time ==> |NewerThan(s, a.time)| >= cap
  }

  // Everything newer than a held key is held.
  lemma NewerAreHeld(entries: seq<Transition>, s: set<Key>, cap: nat, a: Key)
    requires Retains(entries, s, cap) && a in KeySet(entries)
    ensures NewerThan(s, a.time) + {a} <= KeySet(entries)
    ensures |NewerThan(s, a.time)| < |entries|
  {
    HasIsMember(entries, a);
    var i :| 0 <= i < |entries| && KeyOf(entries[i]) == a;
    forall k | k in NewerThan(s, a.time) ensures k in KeySet(entries) {
      assert k.time > entries[i].changedAt;
    }
    KeySetSize(entries);
    SubsetSize(NewerThan(s, a.time) + {a}, KeySet(entries));
  }

  lemma MissedNotNewer(entries: seq<Transition>, s: set<Key>, cap: nat, k: Key, a: Key)
    requires Retains(entries, s, cap) && k in s && k !in KeySet(entries) && a in KeySet(entries)
    ensures k.time <= a.time
  {
    HasIsMember(entries, a);
    var i :| 0 <= i < |entries| && KeyOf(entries[i]) == a;
  }

  ghost predicate Ascending(entries: seq<Transition>) {
    forall i, j :: 0 <= i < j < |entries| ==> entries[i].changedAt < entries[j].changedAt
  }

  lemma RetainedAscending(entries: seq<Transition>, s: set<Key>, cap: nat)
    requires Retains(entries, s, cap) && NoTieAtTop(s, cap)
    ensures Ascending(entries)
  {
    forall i, j | 0 <= i < j < |entries| ensures entries[i].changedAt < entries[j].changedAt {
      var a, b := KeyOf(entries[i]), KeyOf(entries[j]);
      assert a in KeySet(entries) && b in KeySet(entries) && a != b;
      NewerAreHeld(entries, s, cap, a);
      assert entries[i].changedAt <= entries[j].changedAt;
    }
  }

  lemma RetainedKeys(d: seq<Transition>, e: seq<Transition>, s: set<Key>, cap: nat)
    requires Retains(d, s, cap) && Retains(e, s, cap) && NoTieAtTop(s, cap)
    ensures KeySet(d) == KeySet(e)
  {
    KeySetSize(d);
    KeySetSize(e);
    if KeySet(d) != KeySet(e) {
      var a := LeftOver(KeySet(d), KeySet(e));
      var b := LeftOver(KeySet(e), KeySet(d));
      MissedNotNewer(d, s, cap, b, a);
      MissedNotNewer(e, s, cap, a, b);
      NewerAreHeld(d, s, cap, a);
    }
  }

  lemma LeftOver<T>(x: set<T>, y: set<T>) returns (a: T)
    requires x != y && |x| == |y|
    ensures a in x && a !in y
  {
    assert x == (x * y) + (x - y) && y == (x * y) + (y - x);
    assert |x - y| == |y - x|;
    a :| a in x - y;
  }

  lemma {:induction false} AscendingUnique(d: seq<Transition>, e: seq<Transition>)
    requires Ascending(d) && Ascending(e) && KeySet(d) == KeySet(e)
    ensures Keys(d) == Keys(e)
  {
    NoKeysNoEntries(d);
    NoKeysNoEntries(e);
    if d != [] {
      hide KeySet;
      LastKeysAgree(d, e);
      DropLastKey(d);
      DropLastKey(e);
      AscendingUnique(d[..|d| - 1], e[..|e| - 1]);
      assert Keys(d) == Keys(d[..|d| - 1]) + [KeyOf(d[|d| - 1])];
      assert Keys(e) == Keys(e[..|e| - 1]) + [KeyOf(e[|e| - 1])];
    }
  }

  lemma LastKeysAgree(d: seq<Transition>, e: seq<Transition>)
    requires Ascending(d) && Ascending(e) && KeySet(d) == KeySet(e) && d != [] && e != []
    ensures KeyOf(d[|d| - 1]) == KeyOf(e[|e| - 1])
  {
    var dl, el := d[|d| - 1], e[|e| - 1];
    assert KeyOf(dl) in KeySet(d) && KeyOf(el) in KeySet(e);
    HasIsMember(e, KeyOf(dl));
    HasIsMember(d, KeyOf(el));
    var i :| 0 <= i < |e| && KeyOf(e[i]) == KeyOf(dl);
    var j :| 0 <= j < |d| && KeyOf(d[j]) == KeyOf(el);
    assert i == |e| - 1;
  }

  lemma NoKeysNoEntries(d: seq<Transition>)
    ensures KeySet(d) == {} <==> d == []
  {
    if d != [] { assert KeyOf(d[0]) in KeySet(d); }
  }

  lemma DropLastKey(d: seq<Transition>)
    requires d != [] && Ascending(d)
    ensures Ascending(d[..|d| - 1]) && KeySet(d[..|d| - 1]) == KeySet(d) - {KeyOf(d[|d| - 1])}
  {
    var rest, last := d[..|d| - 1], d[|d| - 1];
    assert d == rest + [last];
    assert forall t :: t in d <==> t in rest || t == last;
    forall t | t in rest ensures KeyOf(t) != KeyOf(last) {
      var i :| 0 <= i < |rest| && rest[i] == t;
      assert d[i] == t;
    }
  }

  // ---------------------------------------------------- when order does matter

  lemma ListOf(s: set<Key>) returns (xs: seq<Transition>)
    ensures KeySet(xs) == s
  {
    if s == {} {
      xs := [];
    } else {
      var k :| k in s;
      var rest := ListOf(s - {k});
      var t := Transition(k.time, k.status, "");
      xs := rest + [t];
      KeySetSnoc(rest, t);
      assert KeyOf(t) == k;
    }
  }

  // A transition added while fewer than cap held ones are newer stays, behind
  // everything of its own time.
  lemma LastAdded(entries: seq<Transition>, s: set<Key>, t: Transition, cap: nat) returns (at: nat)
    requires RingOk(entries, cap) && KeySet(entries) <= s && KeyOf(t) !in KeySet(entries)
    requires |NewerThan(s, t.changedAt)| < cap
    ensures at < |AddTo(entries, t, cap)| && KeyOf(AddTo(entries, t, cap)[at]) == KeyOf(t)
    ensures forall j :: 0 <= j < |AddTo(entries, t, cap)| && AddTo(entries, t, cap)[j].changedAt == t.changedAt ==> j <= at
  {
    HasIsMember(entries, KeyOf(t));
    var p := InsertAt(entries, t.changedAt);
    InsertAtSplits(entries, t.changedAt);
    var tail := entries[p..];
    KeySetSize(tail);
    SubsetSize(KeySet(tail), NewerThan(s, t.changedAt));
    var all := Inserted(entries, t);
    var cut := if |all| > cap then |all| - cap else 0;
    at := p - cut;
  }

  lemma TieBreaksConfluence(s: set<Key>, cap: nat, a: Key, b: Key) returns (xs: seq<Transition>, ys: seq<Transition>)
    requires a in s && b in s && a != b && a.time == b.time && |NewerThan(s, a.time)| < cap
    ensures KeySet(xs) == s && KeySet(ys) == s
    ensures Keys(AddAll([], xs, cap)) != Keys(AddAll([], ys, cap))
  {
    var others := ListOf(s - {a, b});
    var ta, tb := Transition(a.time, a.status, ""), Transition(b.time, b.status, "");
    xs, ys := others + [ta, tb], others + [tb, ta];
    var d, i := AddPair(others, s, ta, tb, cap);
    var e, j := AddPair(others, s, tb, ta, cap);
    assert Keys(d)[i] == b && Keys(e)[j] == a;
    if i < j {
      assert j < |d| ==> Keys(d)[j].time != a.time;
    } else if j < i {
      assert i < |e| ==> Keys(e)[i].time != a.time;
    }
  }

  lemma AddPair(others: seq<Transition>, s: set<Key>, t: Transition, u: Transition, cap: nat) returns (ring: seq<Transition>, at: nat)
    requires KeySet(others) == s - {KeyOf(t), KeyOf(u)} && KeyOf(t) in s && KeyOf(u) in s && KeyOf(t) != KeyOf(u)
    requires t.changedAt == u.changedAt && |NewerThan(s, u.changedAt)| < cap
    ensures KeySet(others + [t, u]) == s
    ensures ring == AddAll([], others + [t, u], cap) && at < |ring| && KeyOf(ring[at]) == KeyOf(u)
    ensures forall j :: 0 <= j < |ring| && ring[j].changedAt == u.changedAt ==> j <= at
  {
    var one, two := others + [t], others + [t, u];
    assert two[..|two| - 1] == one && one[..|one| - 1] == others;
    assert two == one + [u];
    KeySetSnoc(others, t);
    KeySetSnoc(one, u);
    assert KeySet(two) == s;
    AddAllRetains(one, cap);
    ring := AddAll([], two, cap);
    at := LastAdded(AddAll([], one, cap), s, u, cap);
  }

  // Every way of adding the keys of s, in any order and with any repeats, leaves
  // the same history.
  ghost predicate Confluent(s: set<Key>, cap: nat) {
    forall xs, ys :: KeySet(xs) == s && KeySet(ys) == s ==> Keys(AddAll([], xs, cap)) == Keys(AddAll([], ys, cap))
  }

  // The order of additions is without effect exactly when no two of the newest
  // cap keys share a time. In particular it is when times are distinct.
  lemma OrderIsIrrelevantWithoutTies(s: set<Key>, cap: nat)
    ensures Confluent(s, cap) <==> NoTieAtTop(s, cap)
  {
    if NoTieAtTop(s, cap) {
      forall xs, ys | KeySet(xs) == s && KeySet(ys) == s
        ensures Keys(AddAll([], xs, cap)) == Keys(AddAll([], ys, cap))
      {
        var d, e := AddAll([], xs, cap), AddAll([], ys, cap);
        AddAllRetains(xs, cap);
        AddAllRetains(ys, cap);
        RetainedKeys(d, e, s, cap);
        RetainedAscending(d, s, cap);
        RetainedAscending(e, s, cap);
        AscendingUnique(d, e);
      }
    } else {
      var a, b :| a in s && b in s && a != b && a.time == b.time && |NewerThan(s, a.time)| < cap;
      var xs, ys := TieBreaksConfluence(s, cap, a, b);
    }
  }

  lemma AddAgain(entries: seq<Transition>, s: set<Key>, t: Transition, cap: nat)
    requires Retains(entries, s, cap) && NoTieAtTop(s, cap) && KeyOf(t) in s
    ensures AddTo(entries, t, cap) == entries
  {
    HasIsMember(entries, KeyOf(t));
    if KeyOf(t) !in KeySet(entries) {
      KeySetSize(entries);
      if |entries| == |s| { EverythingHeld(entries, s); }
      forall i | 0 <= i < |entries| ensures t.changedAt < entries[i].changedAt {
        var a := KeyOf(entries[i]);
        assert a in KeySet(entries);
        NewerAreHeld(entries, s, cap, a);
        assert t.changedAt <= entries[i].changedAt;
      }
      InsertAtSplits(entries, t.changedAt);
      if entries != [] { assert t.changedAt < entries[0].changedAt; }
      assert InsertAt(entries, t.changedAt) == 0;
      assert Inserted(entries, t)[1..] == entries;
    }
  }

  // Ingesting again what was ingested before leaves the ring as it is, entry by
  // entry and reason by reason.
  lemma {:induction false} ReingestKeepsRing(xs: seq<Transition>, ys: seq<Transition>, cap: nat)
    requires NoTieAtTop(KeySet(xs), cap) && KeySet(ys) <= KeySet(xs)
    ensures AddAll(AddAll([], xs, cap), ys, cap) == AddAll([], xs, cap)
  {
    if ys != [] {
      var rest, last := ys[..|ys| - 1], ys[|ys| - 1];
      assert KeyOf(last) in KeySet(ys);
      ReingestKeepsRing(xs, rest, cap);
      AddAllRetains(xs, cap);
      AddAgain(AddAll([], xs, cap), KeySet(xs), last, cap);
    }
  }
}
