// The in-memory charting store (storage/chart.go): a round-robin array of time
// buckets, measured against the unbounded log of everything recorded.

module ChartRing {
  import opened Basics

  datatype State = State(identity: string, targetKey: string, name: string, status: string)

  datatype Slot = Slot(t: int, states: map<string, State>)

  datatype Record = Record(t: int, states: seq<State>)

  // time.Truncate, which counts from the zero time in the year 1. Times are in
  // nanoseconds since 1970.
  function Truncate(t: int, d: int): int
    requires d > 0
  {
    t - (t - ZERO_TIME) % d
  }

  function SlotIndex(t: int, d: int, window: int): (i: int)
    requires d > 0 && window > 0
    ensures 0 <= i < window
  {
    ModRange(GoDiv(t, d), window);
    var i := GoMod(GoDiv(t, d), window);
    if i < 0 then i + window else i
  }

  function Merge(states: map<string, State>, more: seq<State>): map<string, State> {
    if more == [] then states else
      var last := more[|more| - 1];
      Merge(states, more[..|more| - 1])[last.identity := last]
  }

  // --------------------------------------------------------------- arithmetic

  lemma ModRange(a: int, b: int)
    requires b > 0
    ensures -b < GoMod(a, b) < b
    ensures a >= 0 ==> 0 <= GoMod(a, b) && GoMod(a, b) == a % b
  {
    if a >= 0 {
      assert a == b * (a / b) + a % b;
    } else {
      assert -a == b * ((-a) / b) + (-a) % b;
    }
  }

  lemma MulLeq(k: int, a: int, b: int)
    requires k >= 0 && a <= b
    ensures k * a <= k * b
  {}

  lemma DivShift(a: int, k: int, d: int)
    requires d > 0
    ensures (a + k * d) / d == a / d + k
  {
    var q, r := a / d, a % d;
    assert a == d * q + r;
    var s := a + k * d;
    assert s == d * (q + k) + r;
    DivUnique(s, d, q + k, r);
  }

  lemma DivUnique(s: int, d: int, q: int, r: int)
    requires d > 0 && s == d * q + r && 0 <= r < d
    ensures s / d == q && s % d == r
  {
    var p, m := s / d, s % d;
    assert s == d * p + m;
    assert d * (p - q) == r - m;
    if p - q >= 1 { MulLeq(d, 1, p - q); }
    if p - q <= -1 { MulLeq(d, p - q, -1); }
  }

  // Two buckets: both of the form ZERO_TIME + k*d.
  ghost predicate Aligned(b: int, d: int)
    requires d > 0
  {
    Truncate(b, d) == b
  }

  lemma TruncateFacts(t: int, d: int)
    requires d > 0
    ensures Aligned(Truncate(t, d), d)
    ensures Truncate(t, d) <= t < Truncate(t, d) + d
  {
    var x := t - ZERO_TIME;
    assert x == d * (x / d) + x % d;
    DivUnique(d * (x / d), d, x / d, 0);
  }

  lemma AlignedDistance(a: int, b: int, d: int) returns (k: int)
    requires d > 0 && Aligned(a, d) && Aligned(b, d)
    ensures b - a == k * d
  {
    var x, y := a - ZERO_TIME, b - ZERO_TIME;
    assert x == d * (x / d) && y == d * (y / d);
    k := y / d - x / d;
  }

  lemma AlignedStep(a: int, b: int, d: int)
    requires d > 0 && Aligned(a, d) && Aligned(b, d) && a < b
    ensures a + d <= b
  {
    var k := AlignedDistance(a, b, d);
    if k <= 0 { MulLeq(d, k, 0); }
    MulLeq(d, 1, k);
  }

  lemma TruncateMonotone(s: int, t: int, d: int)
    requires d > 0 && s <= t
    ensures Truncate(s, d) <= Truncate(t, d)
  {
    TruncateFacts(s, d);
    TruncateFacts(t, d);
    if Truncate(t, d) < Truncate(s, d) { AlignedStep(Truncate(t, d), Truncate(s, d), d); }
  }

  // Two buckets after 1970 share a slot only when they lie a whole number of
  // windows apart.
  lemma SameSlotFar(a: int, b: int, d: int, window: int)
    requires d > 0 && window > 0 && Aligned(a, d) && Aligned(b, d) && 0 <= a < b
    requires SlotIndex(a, d, window) == SlotIndex(b, d, window)
    ensures a + window * d <= b
  {
    hide Truncate, GoDiv, GoMod;
    var k := AlignedDistance(a, b, d);
    if k <= 0 { MulLeq(d, k, 0); }
    DivShift(a, k, d);
    SlotOfLater(a, d, window);
    SlotOfLater(b, d, window);
    EqualModFar(a / d, a / d + k, window);
    MulLeq(d, window, k);
  }

  lemma SlotOfLater(t: int, d: int, window: int)
    requires d > 0 && window > 0 && 0 <= t
    ensures SlotIndex(t, d, window) == (t / d) % window
  {
    assert t / d >= 0;
    ModRange(t / d, window);
  }

  lemma EqualModFar(x: int, y: int, window: int)
    requires window > 0 && x < y && x % window == y % window
    ensures x + window <= y
  {
    var p, q := x / window, y / window;
    assert x == window * p + x % window && y == window * q + y % window;
    if q <= p { MulLeq(window, q, p); }
    MulLeq(window, p + 1, q);
  }

  // --------------------------------------------------------------- recording

  // One call of Record on the ring.
  function RecordIn(slots: seq<Slot>, d: int, r: Record): seq<Slot>
    requires d > 0 && |slots| > 0
  {
    var b := Truncate(r.t, d);
    var i := SlotIndex(b, d, |slots|);
    slots[i := Slot(b, Merge(if slots[i].t == b then slots[i].states else map[], r.states))]
  }

  function EmptyRing(window: nat): seq<Slot> { seq(window, _ => Slot(ZERO_TIME, map[])) }

  function Ring(log: seq<Record>, d: int, window: nat): (slots: seq<Slot>)
    requires d > 0 && window > 0
    ensures |slots| == window
  {
    if log == [] then EmptyRing(window) else RecordIn(Ring(log[..|log| - 1], d, window), d, log[|log| - 1])
  }

  // What an unbounded store would hold for bucket b.
  function Merged(log: seq<Record>, d: int, b: int): map<string, State>
    requires d > 0
  {
    if log == [] then map[] else
      var r := log[|log| - 1];
      var before := Merged(log[..|log| - 1], d, b);
      if Truncate(r.t, d) == b then Merge(before, r.states) else before
  }

  // What the ring answers for bucket b.
  function Held(slots: seq<Slot>, d: int, b: int): map<string, State>
    requires d > 0 && |slots| > 0
  {
    var slot := slots[SlotIndex(b, d, |slots|)];
    if slot.t == b then slot.states else map[]
  }

  // Record times never go back, and their buckets start in 1970 or later.
  ghost predicate Forward(log: seq<Record>, d: int)
    requires d > 0
  {
    && (forall k :: 0 <= k < |log| ==> 0 <= Truncate(log[k].t, d))
    && (forall j, k :: 0 <= j < k < |log| ==> log[j].t <= log[k].t)
  }

  ghost predicate Recorded(log: seq<Record>, d: int, b: int)
    requires d > 0
  {
    exists k :: 0 <= k < |log| && Truncate(log[k].t, d) == b
  }

  lemma {:induction false} MergedOfUnrecorded(log: seq<Record>, d: int, b: int)
    requires d > 0 && !Recorded(log, d, b)
    ensures Merged(log, d, b) == map[]
  {
    if log != [] {
      var rest := log[..|log| - 1];
      assert Truncate(log[|log| - 1].t, d) != b;
      forall k | 0 <= k < |rest| ensures Truncate(rest[k].t, d) != b {
        assert rest[k] == log[k];
      }
      MergedOfUnrecorded(rest, d, b);
    }
  }

  // Each slot holds the newest bucket recorded for it, merged over the whole log.
  ghost predicate SlotExact(slots: seq<Slot>, log: seq<Record>, d: int, i: int)
    requires d > 0 && |slots| > 0 && 0 <= i < |slots|
  {
    && (slots[i].t == ZERO_TIME ==> slots[i].states == map[])
    && (slots[i].t != ZERO_TIME ==>
          && Recorded(log, d, slots[i].t)
          && SlotIndex(slots[i].t, d, |slots|) == i
          && slots[i].states == Merged(log, d, slots[i].t))
    && (forall k :: 0 <= k < |log| && SlotIndex(Truncate(log[k].t, d), d, |slots|) == i ==>
          slots[i].t != ZERO_TIME && Truncate(log[k].t, d) <= slots[i].t)
  }

  lemma RecordedLast(log: seq<Record>, r: Record, d: int, b: int)
    requires d > 0 && Recorded(log, d, b)
    ensures Recorded(log + [r], d, b)
  {
    var k :| 0 <= k < |log| && Truncate(log[k].t, d) == b;
    assert (log + [r])[k] == log[k];
  }

  // The slot a record lands in.
  lemma LandingSlot(slots: seq<Slot>, log: seq<Record>, r: Record, d: int)
    requires d > 0 && |slots| > 0 && Forward(log + [r], d)
    requires var i := SlotIndex(Truncate(r.t, d), d, |slots|); 0 <= i < |slots| && SlotExact(slots, log, d, i)
    ensures var i := SlotIndex(Truncate(r.t, d), d, |slots|); SlotExact(RecordIn(slots, d, r), log + [r], d, i)
  {
    hide Truncate, SlotIndex, Merge;
    var b := Truncate(r.t, d);
    var i := SlotIndex(b, d, |slots|);
    var all := log + [r];
    assert all[|log|] == r && all[..|log|] == log;
    forall k | 0 <= k < |log| ensures Truncate(log[k].t, d) <= b {
      assert all[k] == log[k];
      TruncateMonotone(log[k].t, r.t, d);
    }
    if slots[i].t != b { MergedOfUnrecorded(log, d, b); }
    assert Recorded(all, d, b);
    assert 0 <= b;
    assert RecordIn(slots, d, r)[i].states == Merged(all, d, b);
    forall k | 0 <= k < |all| && SlotIndex(Truncate(all[k].t, d), d, |slots|) == i
      ensures Truncate(all[k].t, d) <= b
    {
      if k < |log| { assert all[k] == log[k]; }
    }
  }

  lemma OtherSlot(slots: seq<Slot>, log: seq<Record>, r: Record, d: int, i: int)
    requires d > 0 && |slots| > 0 && 0 <= i < |slots| && i != SlotIndex(Truncate(r.t, d), d, |slots|)
    requires SlotExact(slots, log, d, i)
    ensures SlotExact(RecordIn(slots, d, r), log + [r], d, i)
  {
    hide Truncate, SlotIndex, Merge;
    var all := log + [r];
    assert all[|log|] == r && all[..|log|] == log;
    assert RecordIn(slots, d, r)[i] == slots[i];
    if slots[i].t != ZERO_TIME { RecordedLast(log, r, d, slots[i].t); }
    forall k | 0 <= k < |all| && SlotIndex(Truncate(all[k].t, d), d, |slots|) == i
      ensures slots[i].t != ZERO_TIME && Truncate(all[k].t, d) <= slots[i].t
    {
      assert k < |log| && all[k] == log[k];
    }
  }

  lemma {:induction false} RingExact(log: seq<Record>, d: int, window: nat, i: int)
    requires d > 0 && window > 0 && Forward(log, d) && 0 <= i < window
    ensures SlotExact(Ring(log, d, window), log, d, i)
  {
    if log != [] {
      var rest, r := log[..|log| - 1], log[|log| - 1];
      assert log == rest + [r];
      var slots := Ring(rest, d, window);
      RingExact(rest, d, window, i);
      if i == SlotIndex(Truncate(r.t, d), d, window) {
        LandingSlot(slots, rest, r, d);
      } else {
        OtherSlot(slots, rest, r, d, i);
      }
    }
  }

  // The ring never answers with another bucket's states: it gives a bucket's
  // full merged answer or nothing, and the full answer for every bucket among
  // the last `window` up to the newest record.
  lemma RingAgreesWithLog(log: seq<Record>, d: int, window: nat, b: int)
    requires d > 0 && window > 0 && Forward(log, d) && Aligned(b, d) && b != ZERO_TIME
    ensures Held(Ring(log, d, window), d, b) == Merged(log, d, b) || Held(Ring(log, d, window), d, b) == map[]
    ensures log != [] && Truncate(log[|log| - 1].t, d) - window * d < b ==>
              Held(Ring(log, d, window), d, b) == Merged(log, d, b)
    ensures log == [] ==> Held(Ring(log, d, window), d, b) == Merged(log, d, b)
  {
    hide Truncate, SlotIndex, Merged, Merge;
    var i := SlotIndex(b, d, window);
    var slots := Ring(log, d, window);
    RingExact(log, d, window, i);
    if slots[i].t != b {
      if Recorded(log, d, b) {
        var k :| 0 <= k < |log| && Truncate(log[k].t, d) == b;
        var c := slots[i].t;
        var j :| 0 <= j < |log| && Truncate(log[j].t, d) == c;
        TruncateFacts(log[j].t, d);
        SameSlotFar(b, c, d, window);
        TruncateMonotone(log[j].t, log[|log| - 1].t, d);
      } else {
        MergedOfUnrecorded(log, d, b);
      }
    }
  }

  // ---------------------------------------------------------------- the last word

  ghost predicate Mentions(states: seq<State>, i: nat, id: string) { i < |states| && states[i].identity == id }

  ghost predicate LastMention(states: seq<State>, i: nat, id: string) {
    Mentions(states, i, id) && forall j :: i < j < |states| ==> states[j].identity != id
  }

  lemma {:induction false} MergeIsLastWord(states: map<string, State>, more: seq<State>, id: string)
    ensures forall i: nat :: LastMention(more, i, id) ==> id in Merge(states, more) && Merge(states, more)[id] == more[i]
    ensures (forall i: nat :: !LastMention(more, i, id)) ==>
              (id in Merge(states, more) <==> id in states) && (id in states ==> Merge(states, more)[id] == states[id])
  {
    if more != [] {
      var rest, last := more[..|more| - 1], |more| - 1;
      MergeIsLastWord(states, rest, id);
      if more[last].identity == id {
        assert LastMention(more, last, id);
      } else {
        forall i: nat ensures LastMention(more, i, id) <==> LastMention(rest, i, id) {}
      }
    }
  }

  // Record k is of bucket b and its state i is the last it says of an identity.
  ghost predicate Says(log: seq<Record>, d: int, b: int, k: nat, i: nat, id: string)
    requires d > 0
  {
    k < |log| && Truncate(log[k].t, d) == b && LastMention(log[k].states, i, id)
  }

  // And no later record of the bucket says anything of it.
  ghost predicate SaysLast(log: seq<Record>, d: int, b: int, k: nat, i: nat, id: string)
    requires d > 0
  {
    Says(log, d, b, k, i, id) && forall l: nat, j: nat :: Says(log, d, b, l, j, id) ==> l <= k
  }

  // A bucket holds of each identity the last state recorded in it, and no identity
  // of which nothing was recorded in it.
  lemma {:induction false} MergedIsLastWord(log: seq<Record>, d: int, b: int, id: string)
    requires d > 0
    ensures forall k: nat, i: nat :: SaysLast(log, d, b, k, i, id) ==> id in Merged(log, d, b) && Merged(log, d, b)[id] == log[k].states[i]
    ensures (forall k: nat, i: nat :: !SaysLast(log, d, b, k, i, id)) ==> id !in Merged(log, d, b)
  {
    hide Truncate, LastMention, Merge;
    if log != [] {
      var rest, r := log[..|log| - 1], log[|log| - 1];
      MergedIsLastWord(rest, d, b, id);
      MergeIsLastWord(Merged(rest, d, b), r.states, id);
      if Truncate(r.t, d) == b && exists i: nat :: LastMention(r.states, i, id) {
        var i: nat :| LastMention(r.states, i, id);
        LastMentionOnce(r.states, i, id);
        assert Says(log, d, b, |rest|, i, id);
        assert SaysLast(log, d, b, |rest|, i, id);
      } else {
        forall k: nat, i: nat ensures Says(log, d, b, k, i, id) <==> Says(rest, d, b, k, i, id) {}
        forall k: nat, i: nat ensures SaysLast(log, d, b, k, i, id) <==> SaysLast(rest, d, b, k, i, id) {
          if SaysLast(rest, d, b, k, i, id) { assert SaysLast(log, d, b, k, i, id); }
        }
      }
    }
  }

  lemma LastMentionOnce(states: seq<State>, i: nat, id: string)
    requires LastMention(states, i, id)
    ensures forall j: nat :: LastMention(states, j, id) ==> j == i
  {}
}
