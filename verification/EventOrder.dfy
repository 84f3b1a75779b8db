// The order of an incident's events and the cut to the newest of them
// (sortedIncidentEvents and capIncidentEvents in storage/storage.go).

module EventOrder {
  import opened Basics
  import opened Cursor
  import opened EscalationModel

  // What the store hashes into an incident's identity and an event's key.
  datatype IncidentKey = IncidentKey(origin: string, id: nat, createdAt: int)

  datatype EventKey = EventKey(incident: IncidentKey, cursor: string)

  datatype IncidentEvent = IncidentEvent(key: EventKey, event: Event, observedAt: int)

  type Events = map<EventKey, IncidentEvent>

  // parseIncidentSeq: the number after the first colon, if there is one.
  function SeqNumber(cursor: string): Option<nat> {
    var c := ColonAt(cursor);
    match StrictUint(if c < |cursor| then cursor[c + 1..] else cursor)
    case Number(n) => Some(n)
    case _ => None
  }

  predicate Numbered(k: EventKey) { SeqNumber(k.cursor).Some? }

  // Among numbered events of one incident: by number, then by the text of the
  // cursor. (Events whose cursor has no number compare by text alone, which
  // together with this is not an order.)
  predicate Newer(a: EventKey, b: EventKey) {
    var m, n := SeqNumber(a.cursor), SeqNumber(b.cursor);
    if m.Some? && n.Some? && m != n then m.value > n.value
    else a.cursor != b.cursor && Leq(b.cursor, a.cursor)
  }

  ghost predicate OneIncident(s: set<EventKey>, incident: IncidentKey) {
    forall k :: k in s ==> k.incident == incident && Numbered(k)
  }

  lemma NewerIsOrder(a: EventKey, b: EventKey, c: EventKey)
    requires Numbered(a) && Numbered(b) && Numbered(c)
    ensures !Newer(a, a)
    ensures a.incident == b.incident && a != b ==> Newer(a, b) || Newer(b, a)
    ensures Newer(a, b) && Newer(b, c) ==> Newer(a, c)
  {
    hide Leq, SeqNumber;
    LeqTotal(a.cursor, b.cursor);
    if Newer(a, b) && Newer(b, c) && SeqNumber(a.cursor) == SeqNumber(b.cursor) && SeqNumber(b.cursor) == SeqNumber(c.cursor) {
      LeqTransitive(c.cursor, b.cursor, a.cursor);
      if a.cursor == c.cursor { LeqAntisymmetric(a.cursor, b.cursor); }
    }
  }

  // A cursor given out by a source has a number.
  lemma IssuedIsNumbered(incident: IncidentKey, n: nat, epoch: string)
    requires 0 < n <= MAX_UINT64 && EpochOk(epoch)
    ensures SeqNumber(FormatCursor(n, epoch)) == Some(n)
  {
    var s := FormatCursor(n, epoch);
    FormatIsDigits(n);
    ParseFormat(n);
    assert s[|epoch|] == ':';
    ColonAtIs(s, |epoch|);
    assert s[|epoch| + 1..] == FormatUint(n);
  }

  // Of two events a source numbered in one epoch, the newer is the later one.
  lemma NewerIsLater(incident: IncidentKey, epoch: string, m: nat, n: nat)
    requires 0 < m <= MAX_UINT64 && 0 < n <= MAX_UINT64 && EpochOk(epoch)
    ensures Newer(EventKey(incident, FormatCursor(m, epoch)), EventKey(incident, FormatCursor(n, epoch))) <==> m > n
  {
    hide SeqNumber, FormatCursor;
    IssuedIsNumbered(incident, m, epoch);
    IssuedIsNumbered(incident, n, epoch);
  }

  // ------------------------------------------------------------ the newest cap

  ghost function Above(s: set<EventKey>, k: EventKey): set<EventKey> { set j | j in s && Newer(j, k) }

  // The keys of s that fewer than cap others are newer than.
  ghost function Top(s: set<EventKey>, cap: nat): set<EventKey> { set k | k in s && |Above(s, k)| < cap }

  ghost function Keep(m: Events, cap: nat): Events { map k | k in Top(m.Keys, cap) :: m[k] }

  // If at least cap keys are newer than k, at least cap of those are among the top.
  lemma {:induction false} TopFills(s: set<EventKey>, incident: IncidentKey, k: EventKey, cap: nat)
    requires OneIncident(s, incident) && k in s && |Above(s, k)| >= cap
    ensures |Above(s, k) * Top(s, cap)| >= cap
    decreases |Above(s, k)|
  {
    hide Newer;
    if Above(s, k) <= Top(s, cap) {
      assert Above(s, k) * Top(s, cap) == Above(s, k);
    } else {
      var j :| j in Above(s, k) && j !in Top(s, cap);
      forall x | x in Above(s, j) ensures x in Above(s, k) { NewerIsOrder(x, j, k); }
      NewerIsOrder(j, j, j);
      assert j !in Above(s, j);
      SubsetSize(Above(s, j), Above(s, k));
      TopFills(s, incident, j, cap);
      SubsetSize(Above(s, j) * Top(s, cap), Above(s, k) * Top(s, cap));
    }
  }

  // At most cap keys are among the top.
  lemma TopSize(s: set<EventKey>, incident: IncidentKey, cap: nat)
    requires OneIncident(s, incident)
    ensures |Top(s, cap)| <= cap
  {
    hide Newer;
    if Top(s, cap) != {} {
      var k := OldestOf(Top(s, cap), incident);
      assert Top(s, cap) - {k} <= Above(s, k);
      SubsetSize(Top(s, cap) - {k}, Above(s, k));
    }
  }

  lemma {:induction false} OldestOf(s: set<EventKey>, incident: IncidentKey) returns (k: EventKey)
    requires s != {} && OneIncident(s, incident)
    ensures k in s && forall j :: j in s && j != k ==> Newer(j, k)
  {
    hide Newer;
    k :| k in s;
    if s != {k} {
      var j := OldestOf(s - {k}, incident);
      NewerIsOrder(j, k, j);
      var low := if Newer(k, j) then j else k;
      forall x | x in s && x != low ensures Newer(x, low) {
        if low == k && x != j { NewerIsOrder(x, j, k); }
      }
      k := low;
    }
  }

  // What is not among the top has cap newer ones there, and nothing older.
  lemma DroppedIsOlder(s: set<EventKey>, incident: IncidentKey, k: EventKey, cap: nat)
    requires OneIncident(s, incident) && k in s && k !in Top(s, cap)
    ensures |Top(s, cap)| == cap && forall j :: j in Top(s, cap) ==> Newer(j, k)
  {
    hide Newer;
    TopFills(s, incident, k, cap);
    TopSize(s, incident, cap);
    SubsetSize(Above(s, k) * Top(s, cap), Top(s, cap));
    forall j | j in Top(s, cap) ensures Newer(j, k) {
      assert Above(s, k) * Top(s, cap) == Top(s, cap);
    }
  }

  // Cutting before more arrives makes no difference after the next cut.
  lemma TopAbsorbs(a: set<EventKey>, b: set<EventKey>, incident: IncidentKey, cap: nat)
    requires OneIncident(a + b, incident)
    ensures Top(Top(a, cap) + b, cap) == Top(a + b, cap)
  {
    hide Newer;
    forall k ensures k in Top(Top(a, cap) + b, cap) <==> k in Top(a + b, cap) {
      if k in a + b { TopAbsorbsAt(a, b, incident, cap, k); }
    }
  }

  lemma TopAbsorbsAt(a: set<EventKey>, b: set<EventKey>, incident: IncidentKey, cap: nat, k: EventKey)
    requires OneIncident(a + b, incident) && k in a + b
    ensures k in Top(Top(a, cap) + b, cap) <==> k in Top(a + b, cap)
  {
    hide Newer;
    var some, all := Top(a, cap) + b, a + b;
    assert Above(some, k) <= Above(all, k) && Above(a, k) <= Above(all, k);
    SubsetSize(Above(some, k), Above(all, k));
    SubsetSize(Above(a, k), Above(all, k));
    if k in Top(some, cap) && Above(some, k) != Above(all, k) {
      var x :| x in Above(all, k) && x !in Above(some, k);
      assert x in a && |Above(a, x)| >= cap;
      TopFills(a, incident, x, cap);
      forall y | y in Above(a, x) ensures y in Above(a, k) { NewerIsOrder(y, x, k); }
      SubsetSize(Above(a, x) * Top(a, cap), Above(some, k));
    }
  }

  lemma KeepAbsorbs(a: Events, b: Events, incident: IncidentKey, cap: nat)
    requires OneIncident(a.Keys + b.Keys, incident)
    ensures Keep(Keep(a, cap) + b, cap) == Keep(a + b, cap)
  {
    hide Newer, Above;
    KeepKeys(a, cap);
    assert (a + b).Keys == a.Keys + b.Keys;
    assert (Keep(a, cap) + b).Keys == Top(a.Keys, cap) + b.Keys;
    TopAbsorbs(a.Keys, b.Keys, incident, cap);
    TopWithin((Keep(a, cap) + b).Keys, cap);
    hide Top;
  }

  lemma KeepKeys(a: Events, cap: nat)
    ensures Keep(a, cap).Keys == Top(a.Keys, cap)
  {}

  lemma TopWithin(s: set<EventKey>, cap: nat)
    ensures Top(s, cap) <= s
  {}

  // ------------------------------------------------------------ sorted listings

  ghost predicate Ordered(list: seq<IncidentEvent>) {
    forall i, j :: 0 <= i < j < |list| ==> Newer(list[j].key, list[i].key)
  }

  function MapOf(list: seq<IncidentEvent>): Events {
    if list == [] then map[] else MapOf(list[..|list| - 1])[list[|list| - 1].key := list[|list| - 1]]
  }

  // The list holds every event of m, oldest first.
  ghost predicate Lists(list: seq<IncidentEvent>, m: Events) { Ordered(list) && MapOf(list) == m }

  ghost predicate Keyed(m: Events) { forall k :: k in m ==> m[k].key == k }
}
