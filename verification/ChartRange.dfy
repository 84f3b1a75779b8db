// Counting for the historical chart: which display bucket a native bucket falls
// in, and the worst known status an identity had there.

module ChartRange {
  import opened Basics
  import opened ChartRing

  // statusRank; 0 for a status the store does not know.
  function StatusRank(status: string): nat {
    if status == "down" then 4
    else if status == "fail" then 3
    else if status == "warn" then 2
    else if status == "pass" then 1
    else 0
  }

  lemma RankIsOneToOne(a: string, b: string)
    requires StatusRank(a) == StatusRank(b) > 0
    ensures a == b
  {}

  predicate IsFleet(scope: string) { scope == "" || scope == "fleet" }

  predicate ValidScope(scope: string) { IsFleet(scope) || "target:" <= scope }

  predicate Matches(scope: string, state: State)
    requires ValidScope(scope)
  {
    IsFleet(scope) || state.targetKey == scope[|"target:"|..]
  }

  // The scope of a target selects its states, and the fleet all of them.
  lemma ScopeSelects(key: string, state: State)
    ensures ValidScope("target:" + key) && (Matches("target:" + key, state) <==> state.targetKey == key)
    ensures Matches("", state) && Matches("fleet", state)
  {
    var scope := "target:" + key;
    assert scope[|"target:"|..] == key;
    assert scope[0] == 't';
  }

  // The query a Range call asks.
  datatype Query = Query(scope: string, from: int, to: int, n: int) {
    predicate Valid() { n > 0 && from < to && ValidScope(scope) }

    function Step(): (step: int)
      requires Valid()
      ensures step > 0
    {
      if (to - from) / n <= 0 then 1 else (to - from) / n
    }

    predicate Covers(t: int) { t != ZERO_TIME && from <= t < to }

    function Display(t: int): int
      requires Valid() && Covers(t)
    {
      Min((t - from) / Step(), n - 1)
    }
  }

  // The step is an even share of the range, rounded down, and at least one.
  lemma StepIsEvenShare(q: Query)
    requires q.Valid()
    ensures if q.to - q.from < q.n then q.Step() == 1 else q.Step() * q.n <= q.to - q.from < (q.Step() + 1) * q.n
  {
    var len, k := q.to - q.from, (q.to - q.from) / q.n;
    assert len == q.n * k + len % q.n;
    assert (k + 1) * q.n == q.n * k + q.n && k * q.n == q.n * k;
    if len < q.n {
      if k >= 1 { MulLeq(q.n, 1, k); }
    } else {
      if k <= 0 { MulLeq(q.n, k, 0); }
    }
  }

  // The display buckets: each starts one step after the one before it, and the
  // last one takes all that is left.
  predicate InDisplay(q: Query, t: int, j: int)
    requires q.Valid()
  {
    && 0 <= j < q.n
    && q.from + j * q.Step() <= t
    && (if j == q.n - 1 then t < q.to else t < q.from + (j + 1) * q.Step())
  }

  lemma PickExact(x: int, len: int, s: int, n: int, j: int)
    requires s > 0 && n > 0 && 0 <= x < len
    ensures (0 <= j < n && j * s <= x && (if j == n - 1 then x < len else x < (j + 1) * s)) <==> j == Min(x / s, n - 1)
  {
    var k := x / s;
    assert x == s * k + x % s;
    assert s * (k + 1) == s * k + s;
    if j <= k { MulLeq(s, j, k); } else { MulLeq(s, k + 1, j); }
    if j + 1 <= k { MulLeq(s, j + 1, k); }
  }

  // Every native bucket of the range falls in exactly one display bucket, the one
  // the code picks.
  lemma DisplayIsExact(q: Query, t: int, j: int)
    requires q.Valid() && q.Covers(t)
    ensures InDisplay(q, t, j) <==> j == q.Display(t)
  {
    PickExact(t - q.from, q.to - q.from, q.Step(), q.n, j);
  }

  predicate Counts(q: Query, slot: Slot, j: int, id: string)
    requires q.Valid()
  {
    q.Covers(slot.t) && q.Display(slot.t) == j && id in slot.states && Matches(q.scope, slot.states[id])
  }

  function Worse(current: string, status: string): string {
    if StatusRank(status) > StatusRank(current) then status else current
  }

  // The status an identity is counted under in display bucket j, "" for none.
  function WorstIn(q: Query, slots: seq<Slot>, j: int, id: string): string
    requires q.Valid()
  {
    if slots == [] then "" else
      var before := WorstIn(q, slots[..|slots| - 1], j, id);
      var slot := slots[|slots| - 1];
      if Counts(q, slot, j, id) then Worse(before, slot.states[id].status) else before
  }

  ghost predicate Seen(q: Query, slots: seq<Slot>, j: int, id: string, status: string)
    requires q.Valid()
  {
    exists i :: 0 <= i < |slots| && Counts(q, slots[i], j, id) && slots[i].states[id].status == status
  }

  // The counted status is a known one that was seen there, and none seen is worse.
  lemma {:induction false} WorstIsWorst(q: Query, slots: seq<Slot>, j: int, id: string)
    requires q.Valid()
    ensures var w := WorstIn(q, slots, j, id);
            && (w == "" || (StatusRank(w) > 0 && Seen(q, slots, j, id, w)))
            && forall s :: Seen(q, slots, j, id, s) ==> StatusRank(s) <= StatusRank(w)
  {
    if slots != [] {
      var rest, slot := slots[..|slots| - 1], slots[|slots| - 1];
      WorstIsWorst(q, rest, j, id);
      var v, w := WorstIn(q, rest, j, id), WorstIn(q, slots, j, id);
      assert slots[|slots| - 1] == slot;
      if Seen(q, rest, j, id, v) {
        var i :| 0 <= i < |rest| && Counts(q, rest[i], j, id) && rest[i].states[id].status == v;
        assert slots[i] == rest[i];
        assert Seen(q, slots, j, id, v);
      }
      forall s | Seen(q, slots, j, id, s) ensures StatusRank(s) <= StatusRank(w) {
        var i :| 0 <= i < |slots| && Counts(q, slots[i], j, id) && slots[i].states[id].status == s;
        if i < |rest| { assert rest[i] == slots[i] && Seen(q, rest, j, id, s); }
      }
    }
  }

  // Only what was seen matters, not in which slot or in which order.
  lemma WorstIgnoresOrder(q: Query, a: seq<Slot>, b: seq<Slot>, j: int, id: string)
    requires q.Valid()
    requires forall s :: Seen(q, a, j, id, s) <==> Seen(q, b, j, id, s)
    ensures WorstIn(q, a, j, id) == WorstIn(q, b, j, id)
  {
    WorstIsWorst(q, a, j, id);
    WorstIsWorst(q, b, j, id);
    var v, w := WorstIn(q, a, j, id), WorstIn(q, b, j, id);
    assert v != "" ==> Seen(q, b, j, id, v);
    assert w != "" ==> Seen(q, a, j, id, w);
    if v != "" && w != "" { RankIsOneToOne(v, w); }
  }

  // A map from identity to counted status, turned into counts per status.
  function CountsOf(m: map<string, string>): map<string, nat> {
    map s | s in m.Values :: CountOf(m, s)
  }

  function Identities(slots: seq<Slot>): set<string> {
    if slots == [] then {} else Identities(slots[..|slots| - 1]) + slots[|slots| - 1].states.Keys
  }

  // The identities counted in display bucket j, each under one status.
  function WorstMap(q: Query, slots: seq<Slot>, j: int): map<string, string>
    requires q.Valid()
  {
    map id | id in Identities(slots) && WorstIn(q, slots, j, id) != "" :: WorstIn(q, slots, j, id)
  }

  lemma {:induction false} CountedIsKnown(q: Query, slots: seq<Slot>, j: int, id: string)
    requires q.Valid() && WorstIn(q, slots, j, id) != ""
    ensures id in Identities(slots)
  {
    if slots != [] && !Counts(q, slots[|slots| - 1], j, id) {
      CountedIsKnown(q, slots[..|slots| - 1], j, id);
    }
  }

  lemma TallyIsWorstMap(q: Query, slots: seq<Slot>, j: int, m: map<string, string>)
    requires q.Valid() && Tally(q, slots, j, m)
    ensures m == WorstMap(q, slots, j)
  {
    forall id | WorstIn(q, slots, j, id) != "" ensures id in Identities(slots) {
      CountedIsKnown(q, slots, j, id);
    }
  }

  // The one status an identity is counted under: the most severe of those seen.
  ghost predicate CountedUnder(q: Query, slots: seq<Slot>, j: int, id: string, status: string)
    requires q.Valid()
  {
    && status in ["down", "fail", "warn", "pass"] && Seen(q, slots, j, id, status)
    && (status == "fail" ==> !Seen(q, slots, j, id, "down"))
    && (status == "warn" ==> !Seen(q, slots, j, id, "down") && !Seen(q, slots, j, id, "fail"))
    && (status == "pass" ==> !Seen(q, slots, j, id, "down") && !Seen(q, slots, j, id, "fail") && !Seen(q, slots, j, id, "warn"))
  }

  ghost function CountedIds(q: Query, slots: seq<Slot>, j: int, status: string): set<string>
    requires q.Valid()
  {
    set id | id in Identities(slots) && CountedUnder(q, slots, j, id, status)
  }

  // So an identity seen down is counted as down, one seen failing as failing only
  // if it was never seen down, and so on; what is seen in no known status is not
  // counted at all.
  lemma CountedBySeverity(q: Query, slots: seq<Slot>, j: int, id: string, status: string)
    requires q.Valid()
    ensures WorstIn(q, slots, j, id) == status != "" <==> CountedUnder(q, slots, j, id, status)
  {
    hide Seen, WorstIn;
    WorstIsWorst(q, slots, j, id);
    assert forall s :: StatusRank(s) > 0 <==> s in ["down", "fail", "warn", "pass"];
    var w := WorstIn(q, slots, j, id);
    if CountedUnder(q, slots, j, id, status) {
      assert StatusRank(status) <= StatusRank(w);
      if w != status { RanksDiffer(w, status); }
    }
  }

  lemma RanksDiffer(a: string, b: string)
    requires StatusRank(a) >= StatusRank(b) > 0 && a != b
    ensures StatusRank(a) > StatusRank(b)
  {
    if StatusRank(a) == StatusRank(b) { RankIsOneToOne(a, b); }
  }

  // A display bucket has a count for exactly the statuses some identity is counted
  // under, and it is the number of those identities.
  lemma CountsBySeverity(q: Query, slots: seq<Slot>, j: int, status: string)
    requires q.Valid()
    ensures var counts := CountsOf(WorstMap(q, slots, j));
            && (status in counts <==> CountedIds(q, slots, j, status) != {})
            && (status in counts ==> counts[status] == |CountedIds(q, slots, j, status)|)
    ensures forall id :: CountedUnder(q, slots, j, id, status) ==> id in CountedIds(q, slots, j, status)
  {
    hide CountedUnder, WorstIn, Identities;
    var m := WorstMap(q, slots, j);
    forall id ensures id in m && m[id] == status <==> CountedUnder(q, slots, j, id, status) {
      CountedBySeverity(q, slots, j, id, status);
      if WorstIn(q, slots, j, id) != "" { CountedIsKnown(q, slots, j, id); }
    }
    assert (set k | k in m && m[k] == status) == CountedIds(q, slots, j, status);
    if status in m.Values {
      var k :| k in m && m[k] == status;
      assert k in CountedIds(q, slots, j, status);
    }
  }

  // What the loop has gathered for one display bucket.
  ghost predicate Tally(q: Query, slots: seq<Slot>, j: int, m: map<string, string>)
    requires q.Valid()
  {
    forall id :: (id in m <==> WorstIn(q, slots, j, id) != "") && (id in m ==> m[id] == WorstIn(q, slots, j, id))
  }

  // Counting a map value by value.
  lemma CountStep(m: map<string, string>, done: set<string>, id: string)
    requires id in m && id !in done
    ensures var a, b := Part(m, done), Part(m, done + {id});
            CountsOf(b) == CountsOf(a)[m[id] := if m[id] in CountsOf(a) then CountsOf(a)[m[id]] + 1 else 1]
  {
    var a, b := Part(m, done), Part(m, done + {id});
    assert b == a[id := m[id]];
    CountInsert(a, id, m[id]);
  }

  function CountOf(m: map<string, string>, v: string): nat { |set k | k in m && m[k] == v| }

  lemma CountOne(a: map<string, string>, id: string, s: string, v: string)
    requires id !in a
    ensures CountOf(a[id := s], v) == CountOf(a, v) + (if v == s then 1 else 0)
    ensures CountOf(a, v) == 0 <==> v !in a.Values
  {
    var b := a[id := s];
    var x, y := (set k | k in a && a[k] == v), (set k | k in b && b[k] == v);
    assert y == if v == s then x + {id} else x;
    if v in a.Values {
      var k :| k in a && a[k] == v;
      assert k in x;
    } else {
      assert x == {};
    }
  }

  lemma ValuesInsert(a: map<string, string>, id: string, s: string)
    requires id !in a
    ensures a[id := s].Values == a.Values + {s}
  {
    var b := a[id := s];
    assert id in b;
    assert forall k :: k in a ==> b[k] == a[k];
  }

  lemma CountInsert(a: map<string, string>, id: string, s: string)
    requires id !in a
    ensures CountsOf(a[id := s]) == CountsOf(a)[s := if s in CountsOf(a) then CountsOf(a)[s] + 1 else 1]
  {
    hide CountOf;
    ValuesInsert(a, id, s);
    forall v ensures CountOf(a[id := s], v) == CountOf(a, v) + (if v == s then 1 else 0) {
      CountOne(a, id, s, v);
    }
    CountOne(a, id, s, s);
  }

  function Part(m: map<string, string>, keys: set<string>): map<string, string> {
    map k | k in m && k in keys :: m[k]
  }

  method CountValues(m: map<string, string>) returns (counts: map<string, nat>)
    ensures counts == CountsOf(m)
  {
    counts := map[];
    var todo := m.Keys;
    assert Part(m, m.Keys - todo) == map[];
    assert CountsOf(Part(m, m.Keys - todo)) == map[];
    while todo != {}
      invariant todo <= m.Keys
      invariant counts == CountsOf(Part(m, m.Keys - todo))
      decreases todo
    {
      var id :| id in todo;
      CountStep(m, m.Keys - todo, id);
      assert m.Keys - (todo - {id}) == m.Keys - todo + {id};
      todo := todo - {id};
      counts := counts[m[id] := if m[id] in counts then counts[m[id]] + 1 else 1];
    }
    assert Part(m, m.Keys - {}) == m;
  }
}
