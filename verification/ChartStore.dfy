// The in-memory charting store as an object, over its array of slots.

module ChartStore {
  import opened Basics
  import opened ChartRing
  import opened ChartRange
  import opened Sorting

  datatype BucketCounts = BucketCounts(t: int, counts: map<string, nat>)

  // Display order of the states of one bucket.
  predicate Before(a: State, b: State) {
    if a.name != b.name then Leq(a.name, b.name) else Leq(a.identity, b.identity)
  }

  lemma BeforeTotal(a: State, b: State)
    ensures Before(a, b) || Before(b, a)
  {
    LeqTotal(a.name, b.name);
    LeqTotal(a.identity, b.identity);
  }

  lemma BeforeTransitive(a: State, b: State, c: State)
    requires Before(a, b) && Before(b, c)
    ensures Before(a, c)
  {
    if a.name == b.name == c.name {
      LeqTransitive(a.identity, b.identity, c.identity);
    } else {
      LeqTotal(a.name, a.name);
      LeqTotal(c.name, c.name);
      LeqTransitive(a.name, b.name, c.name);
      if a.name == c.name { LeqAntisymmetric(a.name, b.name); }
    }
  }

  lemma BeforeIsOrder()
    ensures IsOrder(Before)
  {
    forall a: State, b: State ensures Before(a, b) || Before(b, a) { BeforeTotal(a, b); }
    forall a: State, b: State, c: State | Before(a, b) && Before(b, c) ensures Before(a, c) { BeforeTransitive(a, b, c); }
  }

  // The states of a bucket that a scope selects, as a bag.
  function Selected(states: map<string, State>, scope: string): multiset<State>
    requires ValidScope(scope)
  {
    multiset(set id | id in states && Matches(scope, states[id]) :: states[id])
  }

  ghost predicate KeyedByIdentity(states: map<string, State>) {
    forall id :: id in states ==> states[id].identity == id
  }

  lemma SelectedStep(states: map<string, State>, done: set<string>, id: string, scope: string)
    requires ValidScope(scope) && KeyedByIdentity(states) && id in states && id !in done
    ensures var a, b := Chosen(states, done, scope), Chosen(states, done + {id}, scope);
            b == if Matches(scope, states[id]) then a + {states[id]} else a
    ensures states[id] !in Chosen(states, done, scope)
  {}

  function Chosen(states: map<string, State>, keys: set<string>, scope: string): set<State>
    requires ValidScope(scope)
  {
    set id | id in states && id in keys && Matches(scope, states[id]) :: states[id]
  }

  class MemoryChartStore {
    const bucketSize: int
    const buckets: array<Slot>

    ghost predicate Valid()
      reads buckets
    {
      && bucketSize > 0 && buckets.Length > 0
      && forall i :: 0 <= i < buckets.Length ==> KeyedByIdentity(buckets[i].states)
    }

    constructor (bucketSize: int, window: int)
      ensures Valid() && fresh(buckets)
      ensures this.bucketSize == (if bucketSize <= 0 then 60_000_000_000 else bucketSize)
      ensures buckets[..] == EmptyRing(if window <= 0 then 24 * 60 else window)
    {
      this.bucketSize := if bucketSize <= 0 then 60_000_000_000 else bucketSize;
      var size := if window <= 0 then 24 * 60 else window;
      this.buckets := new Slot[size](_ => Slot(ZERO_TIME, map[]));
    }

    method Record(bucket: int, triggering: seq<State>)
      requires Valid()
      modifies buckets
      ensures Valid()
      ensures buckets[..] == RecordIn(old(buckets[..]), bucketSize, ChartRing.Record(bucket, triggering))
    {
      hide Truncate, GoMod, GoDiv, SlotIndex;
      var t := Truncate(bucket, bucketSize);
      var i := SlotIndex(t, bucketSize, buckets.Length);
      if buckets[i].t != t {
        buckets[i] := Slot(t, map[]);
      }
      if |triggering| == 0 {
        return;
      }
      ghost var start := buckets[i].states;
      var states := buckets[i].states;
      for k := 0 to |triggering|
        invariant states == Merge(start, triggering[..k]) && KeyedByIdentity(states)
      {
        assert triggering[..k + 1][..k] == triggering[..k];
        states := states[triggering[k].identity := triggering[k]];
      }
      assert triggering[..|triggering|] == triggering;
      buckets[i] := Slot(t, states);
    }

    method Bucket(scope: string, t: int) returns (r: Result<seq<State>>)
      requires Valid()
      ensures !ValidScope(scope) <==> r.Err?
      ensures r.Ok? ==> SortedBy(Before, r.value)
      ensures r.Ok? ==> multiset(r.value) == Selected(Held(buckets[..], bucketSize, Truncate(t, bucketSize)), scope)
    {
      hide Truncate, GoMod, GoDiv, SlotIndex, Matches, Before;
      if !ValidScope(scope) {
        return Err("unknown scope");
      }
      var bucketTime := Truncate(t, bucketSize);
      var slot := buckets[SlotIndex(bucketTime, bucketSize, buckets.Length)];
      var out := [];
      if slot.t == bucketTime {
        var todo := slot.states.Keys;
        while todo != {}
          invariant todo <= slot.states.Keys
          invariant multiset(out) == multiset(Chosen(slot.states, slot.states.Keys - todo, scope))
          decreases todo
        {
          var id :| id in todo;
          SelectedStep(slot.states, slot.states.Keys - todo, id, scope);
          assert slot.states.Keys - (todo - {id}) == slot.states.Keys - todo + {id};
          todo := todo - {id};
          if Matches(scope, slot.states[id]) {
            out := out + [slot.states[id]];
          }
        }
        assert Chosen(slot.states, slot.states.Keys - {}, scope)
            == set id | id in slot.states && Matches(scope, slot.states[id]) :: slot.states[id];
      }
      BeforeIsOrder();
      var sorted := Sort(Before, out);
      return Ok(sorted);
    }

    method Range(scope: string, from: int, to: int, n: int) returns (r: Result<seq<BucketCounts>>)
      requires Valid()
      ensures r.Ok? <==> Query(scope, from, to, n).Valid()
      ensures r.Ok? ==> |r.value| == n
      ensures r.Ok? ==> forall j :: 0 <= j < n ==>
                r.value[j].t == from + j * Query(scope, from, to, n).Step()
      ensures r.Ok? ==> forall j :: 0 <= j < n ==>
                r.value[j].counts == CountsOf(WorstMap(Query(scope, from, to, n), buckets[..], j))
    {
      if n <= 0 {
        return Err("buckets must be positive");
      }
      if to <= from {
        return Err("empty range");
      }
      if !ValidScope(scope) {
        return Err("unknown scope");
      }
      var q := Query(scope, from, to, n);
      var step := q.Step();
      var byBucket := new map<string, string>[n](_ => map[]);
      for i := 0 to buckets.Length
        invariant forall j :: 0 <= j < n ==> Tally(q, buckets[..i], j, byBucket[j])
      {
        hide Tally, Matches, Counts;
        assert buckets[..i + 1] == buckets[..i] + [buckets[i]];
        var slot := buckets[i];
        if !q.Covers(slot.t) {
          forall j | 0 <= j < n ensures Tally(q, buckets[..i + 1], j, byBucket[j]) {
            TallySkip(q, buckets[..i], slot, j, byBucket[j]);
          }
          continue;
        }
        var index := (slot.t - from) / step;
        if index >= n {
          index := n - 1;
        }
        DisplayInRange(q, slot.t);
        var m := TallySlot(q, buckets[..i], slot, index, byBucket[index]);
        forall j | 0 <= j < n && j != index ensures Tally(q, buckets[..i + 1], j, byBucket[j]) {
          TallySkip(q, buckets[..i], slot, j, byBucket[j]);
        }
        byBucket[index] := m;
      }
      assert buckets[..buckets.Length] == buckets[..];
      var out := CountAll(q, buckets[..], byBucket[..]);
      return Ok(out);
    }
  }

  // The closing loop of Range: from statuses per identity to counts per status.
  method CountAll(q: Query, ghost slots: seq<Slot>, byBucket: seq<map<string, string>>) returns (out: seq<BucketCounts>)
    requires q.Valid() && |byBucket| == q.n
    requires forall j :: 0 <= j < q.n ==> Tally(q, slots, j, byBucket[j])
    ensures |out| == q.n
    ensures forall j :: 0 <= j < q.n ==> out[j].t == q.from + j * q.Step()
    ensures forall j :: 0 <= j < q.n ==> out[j].counts == CountsOf(WorstMap(q, slots, j))
  {
    hide Tally, CountsOf, WorstMap;
    out := [];
    for j := 0 to q.n
      invariant |out| == j
      invariant forall k :: 0 <= k < j ==> out[k].t == q.from + k * q.Step()
      invariant forall k :: 0 <= k < j ==> out[k].counts == CountsOf(WorstMap(q, slots, k))
    {
      var counts := CountValues(byBucket[j]);
      TallyIsWorstMap(q, slots, j, byBucket[j]);
      out := out + [BucketCounts(q.from + j * q.Step(), counts)];
    }
  }

  lemma DisplayInRange(q: Query, t: int)
    requires q.Valid() && q.Covers(t)
    ensures 0 <= q.Display(t) < q.n
  {
    DisplayIsExact(q, t, q.Display(t));
  }

  lemma TallySkip(q: Query, slots: seq<Slot>, slot: Slot, j: int, m: map<string, string>)
    requires q.Valid() && Tally(q, slots, j, m)
    requires q.Covers(slot.t) ==> q.Display(slot.t) != j
    ensures Tally(q, slots + [slot], j, m)
  {
    assert (slots + [slot])[..|slots|] == slots;
    forall id ensures WorstIn(q, slots + [slot], j, id) == WorstIn(q, slots, j, id) {
      assert !Counts(q, slot, j, id);
    }
  }

  // The inner loop of Range: one slot's states into one display bucket.
  method TallySlot(q: Query, ghost slots: seq<Slot>, slot: Slot, j: int, m0: map<string, string>) returns (m: map<string, string>)
    requires q.Valid() && Tally(q, slots, j, m0)
    requires q.Covers(slot.t) && q.Display(slot.t) == j
    ensures Tally(q, slots + [slot], j, m)
  {
    hide Matches, StatusRank;
    m := m0;
    assert (slots + [slot])[..|slots|] == slots;
    RankOfNothing();
    var todo := slot.states.Keys;
    while todo != {}
      invariant todo <= slot.states.Keys
      invariant forall id :: id in slot.states && id !in todo ==> Holds(m, id, WorstIn(q, slots + [slot], j, id))
      invariant forall id :: id in todo || id !in slot.states ==> Holds(m, id, WorstIn(q, slots, j, id))
      decreases todo
    {
      var id :| id in todo;
      todo := todo - {id};
      var state := slot.states[id];
      if !Matches(q.scope, state) {
        continue;
      }
      if StatusRank(state.status) > StatusRank(if id in m then m[id] else "") {
        m := m[id := state.status];
      }
    }
  }

  ghost predicate Holds(m: map<string, string>, id: string, status: string) {
    (id in m <==> status != "") && (id in m ==> m[id] == status)
  }

  lemma RankOfNothing()
    ensures StatusRank("") == 0
  {}
}
