// Label sets as postings in a dictionary (encodeLabels, decodeLabels and
// canonicalLabels in storage/metrics.go).

module LabelPostings {
  import opened Basics
  import opened StringDictionary

  type LabelSet = map<string, string>

  const SCRAPE_PATH := "scrape_path"

  function NamesOf(d: Dict, p: seq<Posting>): seq<string> { seq(|p|, i requires 0 <= i < |p| => LookupIn(d, p[i].name)) }

  // Known ids, in the order of the label names as text, each name once.
  ghost predicate PostingsOk(d: Dict, p: seq<Posting>) {
    && (forall i :: 0 <= i < |p| ==> p[i].name < |d.values| && p[i].value < |d.values|)
    && Ascending(NamesOf(d, p)) && (forall i, j :: 0 <= i < j < |p| ==> NamesOf(d, p)[i] != NamesOf(d, p)[j])
    && SCRAPE_PATH !in NamesOf(d, p)
  }

  function Decode(d: Dict, p: seq<Posting>): LabelSet {
    if p == [] then map[] else
      Decode(d, p[..|p| - 1])[LookupIn(d, p[|p| - 1].name) := LookupIn(d, p[|p| - 1].value)]
  }

  // A label set as the store keeps it.
  function Kept(labels: LabelSet): LabelSet { labels - {SCRAPE_PATH} }

  lemma PostingsPrefix(d: Dict, p: seq<Posting>)
    requires p != [] && PostingsOk(d, p)
    ensures PostingsOk(d, p[..|p| - 1])
  {
    var n := |p| - 1;
    assert NamesOf(d, p[..n]) == NamesOf(d, p)[..n];
  }

  lemma {:induction false} DecodeAt(d: Dict, p: seq<Posting>)
    requires PostingsOk(d, p)
    ensures forall s :: s in Decode(d, p) <==> s in NamesOf(d, p)
    ensures forall i :: 0 <= i < |p| ==> NamesOf(d, p)[i] in Decode(d, p) && Decode(d, p)[NamesOf(d, p)[i]] == LookupIn(d, p[i].value)
  {
    if p != [] {
      var n := |p| - 1;
      PostingsPrefix(d, p);
      DecodeAt(d, p[..n]);
      var names := NamesOf(d, p);
      assert names == NamesOf(d, p[..n]) + [LookupIn(d, p[n].name)];
      forall i | 0 <= i < |p| ensures names[i] in Decode(d, p) && Decode(d, p)[names[i]] == LookupIn(d, p[i].value) {
        if i < n {
          assert names[i] != names[n];
          assert NamesOf(d, p[..n])[i] == names[i] && p[..n][i] == p[i];
        }
      }
    }
  }

  // A label set has one encoding only.
  lemma PostingsAreUnique(d: Dict, p: seq<Posting>, q: seq<Posting>)
    requires DictOk(d) && PostingsOk(d, p) && PostingsOk(d, q) && Decode(d, p) == Decode(d, q)
    ensures p == q
  {
    DecodeAt(d, p);
    DecodeAt(d, q);
    SortedSetUnique(NamesOf(d, p), Decode(d, p).Keys);
    SortedSetUnique(NamesOf(d, q), Decode(d, q).Keys);
    forall i | 0 <= i < |p| ensures p[i] == q[i] {
      assert NamesOf(d, p)[i] == NamesOf(d, q)[i];
      LookupIsOneToOne(d, p[i].name, q[i].name);
      LookupIsOneToOne(d, p[i].value, q[i].value);
    }
  }

  // More strings in the dictionary change nothing for postings written before.
  lemma {:induction false} PostingsStay(d: Dict, e: Dict, p: seq<Posting>)
    requires Extends(d, e) && PostingsOk(d, p)
    ensures PostingsOk(e, p) && Decode(e, p) == Decode(d, p)
  {
    assert forall i :: 0 <= i < |p| ==> LookupIn(e, p[i].name) == LookupIn(d, p[i].name);
    assert NamesOf(e, p) == NamesOf(d, p);
    DecodeStays(d, e, p);
  }

  lemma {:induction false} DecodeStays(d: Dict, e: Dict, p: seq<Posting>)
    requires Extends(d, e) && forall i :: 0 <= i < |p| ==> p[i].name < |d.values| && p[i].value < |d.values|
    ensures Decode(e, p) == Decode(d, p)
  {
    if p != [] {
      assert LookupIn(e, p[|p| - 1].name) == LookupIn(d, p[|p| - 1].name);
      DecodeStays(d, e, p[..|p| - 1]);
    }
  }

  lemma {:induction false} DecodeIs(d: Dict, p: seq<Posting>, labels: LabelSet)
    requires PostingsOk(d, p) && (forall s :: s in NamesOf(d, p) <==> s in labels)
    requires forall i :: 0 <= i < |p| ==> NamesOf(d, p)[i] in labels && LookupIn(d, p[i].value) == labels[NamesOf(d, p)[i]]
    ensures Decode(d, p) == labels
  {
    DecodeAt(d, p);
    forall s | s in labels ensures Decode(d, p)[s] == labels[s] {
      var i :| 0 <= i < |p| && NamesOf(d, p)[i] == s;
    }
  }

  method EncodeLabels(dict: StringDictionary, labels: LabelSet) returns (postings: seq<Posting>, signature: string)
    requires DictOk(dict.Model())
    modifies dict
    ensures DictOk(dict.Model()) && Extends(old(dict.Model()), dict.Model())
    ensures PostingsOk(dict.Model(), postings) && Decode(dict.Model(), postings) == Kept(labels)
    ensures signature == SignatureOf(postings)
  {
    hide SignatureOf, DictOk, Decode, Ascending, Written, PostingsOk;
    var names := SortKeys(Kept(labels).Keys);
    KeysAreLabels(names, labels);
    postings, signature := WritePostings(dict, names, labels);
    WrittenDecodes(dict.Model(), postings, names, labels);
  }

  lemma KeysAreLabels(names: seq<string>, labels: LabelSet)
    requires names == SortedSet(Kept(labels).Keys)
    ensures forall i :: 0 <= i < |names| ==> names[i] in labels
  {
    hide SortedSet;
    forall i | 0 <= i < |names| ensures names[i] in labels { assert names[i] in names; }
  }

  lemma WrittenDecodes(d: Dict, p: seq<Posting>, names: seq<string>, labels: LabelSet)
    requires Written(d, p, names, labels) && names == SortedSet(Kept(labels).Keys)
    requires Ascending(names) && forall i, j :: 0 <= i < j < |names| ==> names[i] != names[j]
    ensures PostingsOk(d, p) && Decode(d, p) == Kept(labels)
  {
    hide Leq, SortedSet, Decode;
    assert SCRAPE_PATH !in names;
    DecodeIs(d, p, Kept(labels));
  }

  // The loop of encodeLabels.
  method WritePostings(dict: StringDictionary, names: seq<string>, labels: LabelSet) returns (postings: seq<Posting>, signature: string)
    requires DictOk(dict.Model()) && forall i :: 0 <= i < |names| ==> names[i] in labels
    modifies dict
    ensures DictOk(dict.Model()) && Extends(old(dict.Model()), dict.Model())
    ensures Written(dict.Model(), postings, names, labels) && signature == SignatureOf(postings)
  {
    hide SignatureOf, Base36, DictOk, Interned, IdIn, Written, LookupIn;
    postings, signature := [], "";
    NoSignature();
    NothingWritten(dict.Model(), labels);
    for i := 0 to |names|
      invariant DictOk(dict.Model()) && Extends(old(dict.Model()), dict.Model())
      invariant signature == SignatureOf(postings)
      invariant Written(dict.Model(), postings, names[..i], labels)
    {
      ghost var before := dict.Model();
      InternOk(before, names[i]);
      var name := dict.Intern(names[i]);
      ghost var between := dict.Model();
      InternOk(between, labels[names[i]]);
      var value := dict.Intern(labels[names[i]]);
      Later(between, dict.Model(), name);
      WrittenNext(before, dict.Model(), postings, names, i, labels, Posting(name, value));
      OneMore(postings, Posting(name, value));
      postings := postings + [Posting(name, value)];
      signature := signature + Base36(name) + "=" + Base36(value) + ",";
    }
    assert names[..|names|] == names;
  }

  lemma Later(d: Dict, e: Dict, id: nat)
    requires Extends(d, e) && id < |d.values|
    ensures id < |e.values| && LookupIn(e, id) == LookupIn(d, id)
  {}

  lemma NothingWritten(d: Dict, labels: LabelSet)
    ensures Written(d, [], [], labels)
  {}

  // The postings so far say what the labels of these names are.
  ghost predicate Written(d: Dict, p: seq<Posting>, names: seq<string>, labels: LabelSet) {
    && NamesOf(d, p) == names
    && (forall i :: 0 <= i < |p| ==> p[i].name < |d.values| && p[i].value < |d.values|)
    && (forall i :: 0 <= i < |p| ==> names[i] in labels && LookupIn(d, p[i].value) == labels[names[i]])
  }

  lemma WrittenNext(d: Dict, e: Dict, p: seq<Posting>, names: seq<string>, i: nat, labels: LabelSet, posting: Posting)
    requires i < |names| && Written(d, p, names[..i], labels) && Extends(d, e) && names[i] in labels
    requires posting.name < |e.values| && posting.value < |e.values|
    requires LookupIn(e, posting.name) == names[i] && LookupIn(e, posting.value) == labels[names[i]]
    ensures Written(e, p + [posting], names[..i + 1], labels)
  {
    assert forall k :: 0 <= k < |p| ==> LookupIn(e, p[k].name) == LookupIn(d, p[k].name) && LookupIn(e, p[k].value) == LookupIn(d, p[k].value);
    assert NamesOf(e, p) == NamesOf(d, p);
    assert NamesOf(e, p + [posting]) == NamesOf(e, p) + [names[i]];
  }

  lemma NoSignature()
    ensures SignatureOf([]) == ""
  {}

  lemma OneMore(p: seq<Posting>, posting: Posting)
    ensures SignatureOf(p + [posting]) == SignatureOf(p) + Base36(posting.name) + "=" + Base36(posting.value) + ","
  {
    assert (p + [posting])[..|p|] == p;
    assert SignatureOf(p) + (Base36(posting.name) + "=" + (Base36(posting.value) + ","))
        == SignatureOf(p) + Base36(posting.name) + "=" + Base36(posting.value) + ",";
  }

  // decodeLabels.
  method DecodeLabels(dict: StringDictionary, postings: seq<Posting>) returns (labels: LabelSet)
    ensures labels == Decode(dict.Model(), postings)
  {
    labels := map[];
    for i := 0 to |postings|
      invariant labels == Decode(dict.Model(), postings[..i])
    {
      assert postings[..i + 1][..i] == postings[..i];
      labels := labels[dict.Lookup(postings[i].name) := dict.Lookup(postings[i].value)];
    }
    assert postings[..|postings|] == postings;
  }

  // ------------------------------------------------------------- the canonical text

  ghost function CanonicalOf(names: seq<string>, labels: LabelSet): string
    requires forall n :: n in names ==> n in labels
  {
    if names == [] then "" else
      var n := names[|names| - 1];
      CanonicalOf(names[..|names| - 1], labels) + n + "=" + labels[n] + [0 as char]
  }

  ghost function Canonical(labels: LabelSet): string { CanonicalOf(SortedSet(Kept(labels).Keys), labels) }

  method CanonicalLabels(labels: LabelSet) returns (out: string)
    ensures out == Canonical(labels)
  {
    hide Leq, Ascending, SortedSet;
    var names := SortKeys(Kept(labels).Keys);
    KeysAreLabels(names, labels);
    out := "";
    for i := 0 to |names|
      invariant out == CanonicalOf(names[..i], labels)
    {
      assert names[..i + 1][..i] == names[..i];
      out := out + names[i] + "=" + labels[names[i]] + [0 as char];
    }
    assert names[..|names|] == names;
  }
}
