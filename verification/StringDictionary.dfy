// The interned strings of the metrics store and the label postings written in
// them (stringDictionary, encodeLabels, decodeLabels in storage/metrics.go).

module StringDictionary {
  datatype Dict = Dict(ids: map<string, nat>, values: seq<string>)

  const EMPTY := Dict(map[], [""])

  // Ids and strings correspond one to one; the empty string is 0 and not in the map.
  ghost predicate DictOk(d: Dict) {
    && d.values != [] && d.values[0] == "" && "" !in d.ids
    && (forall s :: s in d.ids ==> 0 < d.ids[s] < |d.values| && d.values[d.ids[s]] == s)
    && (forall i :: 0 < i < |d.values| ==> d.values[i] in d.ids && d.ids[d.values[i]] == i)
  }

  function LookupIn(d: Dict, id: nat): string { if id >= |d.values| then "" else d.values[id] }

  function Interned(d: Dict, s: string): Dict {
    if s == "" || s in d.ids then d else Dict(d.ids[s := |d.values|], d.values + [s])
  }

  function IdIn(d: Dict, s: string): nat {
    if s == "" then 0 else if s in d.ids then d.ids[s] else |d.values|
  }

  // Later states of a dictionary: ids keep their strings.
  ghost predicate Extends(d: Dict, e: Dict) { d.values <= e.values }

  lemma InternOk(d: Dict, s: string)
    requires DictOk(d)
    ensures DictOk(Interned(d, s)) && Extends(d, Interned(d, s))
    ensures IdIn(d, s) < |Interned(d, s).values| && LookupIn(Interned(d, s), IdIn(d, s)) == s
    ensures forall t :: t in Interned(d, s).ids <==> t in d.ids || (t == s && s != "")
  {}

  // The dictionary is one to one.
  lemma LookupIsOneToOne(d: Dict, i: nat, j: nat)
    requires DictOk(d) && i < |d.values| && j < |d.values| && LookupIn(d, i) == LookupIn(d, j)
    ensures i == j
  {}

  class StringDictionary {
    var ids: map<string, nat>
    var values: seq<string>

    ghost function Model(): Dict
      reads this
    {
      Dict(ids, values)
    }

    constructor ()
      ensures Model() == EMPTY
    {
      ids, values := map[], [""];
    }

    method Intern(value: string) returns (id: nat)
      requires DictOk(Model())
      modifies this
      ensures Model() == Interned(old(Model()), value) && id == IdIn(old(Model()), value)
    {
      if value == "" {
        return 0;
      }
      if value in ids {
        return ids[value];
      }
      id := |values|;
      ids := ids[value := id];
      values := values + [value];
    }

    function Lookup(id: nat): string
      reads this
    {
      if id >= |values| then "" else values[id]
    }
  }

  // ------------------------------------------------------------------- signatures

  function Digit36(d: nat): char
    requires d < 36
  {
    if d < 10 then '0' + d as char else 'a' + (d - 10) as char
  }

  // strconv.FormatUint(n, 36).
  function Base36(n: nat): string {
    if n < 36 then [Digit36(n)] else Base36(n / 36) + [Digit36(n % 36)]
  }

  datatype Posting = Posting(name: nat, value: nat)

  function SignatureOf(postings: seq<Posting>): string {
    if postings == [] then "" else
      SignatureOf(postings[..|postings| - 1]) + PartOf(postings[|postings| - 1])
  }

  function PartOf(p: Posting): string { Base36(p.name) + "=" + (Base36(p.value) + ",") }

  lemma DigitsDiffer(a: nat, b: nat)
    requires a < 36 && b < 36 && Digit36(a) == Digit36(b)
    ensures a == b && Digit36(a) != '=' && Digit36(a) != ','
  {}

  lemma {:induction false} Base36Plain(n: nat)
    ensures Base36(n) != [] && '=' !in Base36(n) && ',' !in Base36(n) && (n >= 36 ==> |Base36(n)| > 1)
  {
    if n < 36 {
      DigitsDiffer(n, n);
    } else {
      Base36Plain(n / 36);
      DigitsDiffer(n % 36, n % 36);
    }
  }

  lemma {:induction false} Base36OneToOne(a: nat, b: nat)
    requires Base36(a) == Base36(b)
    ensures a == b
  {
    Base36Plain(a);
    Base36Plain(b);
    if a < 36 {
      DigitsDiffer(a, b);
    } else {
      var s, t := Base36(a / 36) + [Digit36(a % 36)], Base36(b / 36) + [Digit36(b % 36)];
      assert s[..|s| - 1] == Base36(a / 36) && t[..|t| - 1] == Base36(b / 36);
      assert s[|s| - 1] == Digit36(a % 36) && t[|t| - 1] == Digit36(b % 36);
      DigitsDiffer(a % 36, b % 36);
      Base36OneToOne(a / 36, b / 36);
    }
  }

  // What follows the last c in a string; the whole string if there is none.
  function Tail(s: string, c: char): string {
    if s == "" || s[|s| - 1] == c then "" else Tail(s[..|s| - 1], c) + [s[|s| - 1]]
  }

  // Empty, or ending in c.
  predicate EndsIn(x: string, c: char) { x == "" || x[|x| - 1] == c }

  lemma {:induction false} TailOf(x: string, u: string, c: char)
    requires EndsIn(x, c) && c !in u
    ensures Tail(x + u, c) == u
  {
    if u == "" {
      assert x + u == x;
    } else {
      var rest, last := u[..|u| - 1], u[|u| - 1];
      assert (x + u)[..|x + u| - 1] == x + rest && (x + u)[|x + u| - 1] == last;
      TailOf(x, rest, c);
      assert u == rest + [last];
    }
  }

  lemma CutTail(x: string, u: string, y: string, v: string, c: char)
    requires x + u == y + v && EndsIn(x, c) && EndsIn(y, c) && c !in u && c !in v
    ensures x == y && u == v
  {
    TailOf(x, u, c);
    TailOf(y, v, c);
    assert (x + u)[..|x|] == x && (y + v)[..|y|] == y;
  }

  // Two signatures that agree agree in their last part and in what precedes it.
  lemma SplitParts(x: string, p: Posting, y: string, q: Posting)
    requires x + PartOf(p) == y + PartOf(q) && EndsIn(x, ',') && EndsIn(y, ',')
    ensures x == y && p == q
  {
    hide Base36;
    var a, b, c, d := Base36(p.name), Base36(p.value), Base36(q.name), Base36(q.value);
    PlainParts(p);
    PlainParts(q);
    Regroup(x, a, b);
    Regroup(y, c, d);
    CutTail(x + a + "=", b, y + c + "=", d, '=');
    assert (x + a + "=")[..|x + a|] == x + a && (y + c + "=")[..|y + c|] == y + c;
    CutTail(x, a, y, c, ',');
    Base36OneToOne(p.name, q.name);
    Base36OneToOne(p.value, q.value);
  }

  lemma PlainParts(p: Posting)
    ensures '=' !in Base36(p.name) && '=' !in Base36(p.value) && ',' !in Base36(p.name)
  {
    Base36Plain(p.name);
    Base36Plain(p.value);
  }

  lemma Regroup(x: string, a: string, b: string)
    ensures var s := x + (a + "=" + (b + ",")); s[..|s| - 1] == (x + a + "=") + b
  {}

  lemma SignatureEnds(postings: seq<Posting>)
    ensures EndsIn(SignatureOf(postings), ',')
  {}

  // Different postings never share a signature.
  lemma {:induction false} SignaturesAreOneToOne(p: seq<Posting>, q: seq<Posting>)
    requires SignatureOf(p) == SignatureOf(q)
    ensures p == q
  {
    if p == [] || q == [] {
      assert p == q;
    } else {
      SignatureEnds(p[..|p| - 1]);
      SignatureEnds(q[..|q| - 1]);
      SplitParts(SignatureOf(p[..|p| - 1]), p[|p| - 1], SignatureOf(q[..|q| - 1]), q[|q| - 1]);
      SignaturesAreOneToOne(p[..|p| - 1], q[..|q| - 1]);
      assert p == p[..|p| - 1] + [p[|p| - 1]] && q == q[..|q| - 1] + [q[|q| - 1]];
    }
  }
}
