// Writing a series and its descriptor in another dictionary
// (compactDictionaryLocked in storage/metrics.go).

module MetricsCompaction {
  import opened Basics
  import opened StringDictionary
  import opened LabelPostings
  import opened SeriesColumns
  import opened MetricsModel
  import opened MetricsDescriptors

  // Where compaction stands: every slot done has its twin under the new dictionary.
  ghost predicate Rewritten(d: Dict, slots: Slots, e: Dict, others: Slots, to: map<Slot, Slot>) {
    && SlotsOk(e, others) && (forall s :: s in to ==> s in slots && to[s] in others && Twin(d, s, slots[s], e, to[s], others[to[s]]))
    && (forall t :: t in others ==> exists s :: s in to && to[s] == t)
  }

  ghost predicate Twin(d: Dict, s: Slot, a: Series, e: Dict, t: Slot, b: Series) {
    IdOf(e, t, b) == IdOf(d, s, a) && b == a.(postings := b.postings)
  }

  lemma RewrittenLater(d: Dict, slots: Slots, e: Dict, f: Dict, others: Slots, to: map<Slot, Slot>)
    requires Rewritten(d, slots, e, others, to) && DictOk(f) && Extends(e, f)
    ensures Rewritten(d, slots, f, others, to)
  {
    hide IdOf, SlotOk;
    forall t | t in others ensures SlotOk(f, t, others[t]) && IdOf(f, t, others[t]) == IdOf(e, t, others[t]) {
      IdStays(e, f, t, others[t]);
    }
  }

  // A twin never lands on the slot of another series.
  lemma RewriteOne(d: Dict, slots: Slots, e: Dict, others: Slots, to: map<Slot, Slot>, s: Slot, t: Slot, b: Series)
    requires SlotsOk(d, slots) && Rewritten(d, slots, e, others, to)
    requires s in slots && s !in to && SlotOk(e, t, b) && Twin(d, s, slots[s], e, t, b)
    ensures Rewritten(d, slots, e, others[t := b], to[s := t])
  {
    hide SlotOk, Twin;
    TwinIsNew(d, slots, e, others, to, s, t, b);
  }

  lemma TwinIsNew(d: Dict, slots: Slots, e: Dict, others: Slots, to: map<Slot, Slot>, s: Slot, t: Slot, b: Series)
    requires SlotsOk(d, slots) && Rewritten(d, slots, e, others, to)
    requires s in slots && s !in to && SlotOk(e, t, b) && Twin(d, s, slots[s], e, t, b)
    ensures t !in others
  {
    hide SeriesOk, DictOk, PostingsOk, SignatureOf, Decode;
    if t in others {
      var r :| r in to && to[r] == t;
      SameLabelsSameSlot(e, t, others[t], b.postings);
      SlotsAreOneToOne(d, slots, r, s);
    }
  }

  lemma RewrittenAll(d: Dict, slots: Slots, e: Dict, others: Slots, to: map<Slot, Slot>)
    requires SlotsOk(d, slots) && Rewritten(d, slots, e, others, to) && to.Keys == slots.Keys
    ensures ViewOf(e, others) == ViewOf(d, slots)
  {
    hide ViewOf, IdOf;
    forall s | s in slots ensures PointsOf(others[to[s]]) == PointsOf(slots[s]) {
      assert SlotOk(d, s, slots[s]);
    }
    SameIdsSameView(d, slots, e, others, to);
  }

  // The strings of one label set.
  function TextsOf(d: Dict, postings: seq<Posting>): set<string> {
    (set p | p in postings :: LookupIn(d, p.name)) + (set p | p in postings :: LookupIn(d, p.value))
  }

  // No strings are new in e but these.
  ghost predicate Grown(d: Dict, e: Dict, texts: set<string>) { forall x :: x in e.ids ==> x in d.ids || x in texts }

  lemma GrownNot(d: Dict, texts: set<string>)
    ensures Grown(d, d, texts)
  {}

  lemma GrownMore(d: Dict, e: Dict, texts: set<string>, x: string)
    requires Grown(d, e, texts) && x in texts
    ensures Grown(d, Interned(e, x), texts)
  {}

  lemma GrownJoin(d: Dict, e: Dict, f: Dict, texts: set<string>, part: set<string>)
    requires Grown(d, e, texts) && Grown(e, f, part) && part <= texts
    ensures Grown(d, f, texts)
  {}

  // Two postings in two dictionaries say the same, entry by entry.
  ghost predicate SameTexts(d: Dict, p: seq<Posting>, e: Dict, q: seq<Posting>) {
    |p| == |q| && forall i :: 0 <= i < |p| ==>
      q[i].name < |e.values| && q[i].value < |e.values|
      && LookupIn(e, q[i].name) == LookupIn(d, p[i].name) && LookupIn(e, q[i].value) == LookupIn(d, p[i].value)
  }

  lemma NoTexts(d: Dict, e: Dict)
    ensures SameTexts(d, [], e, [])
  {}

  lemma OneTextMore(d: Dict, p: seq<Posting>, i: nat, e: Dict, f: Dict, q: seq<Posting>, posting: Posting)
    requires i < |p| && SameTexts(d, p[..i], e, q) && Extends(e, f)
    requires posting.name < |f.values| && posting.value < |f.values|
    requires LookupIn(f, posting.name) == LookupIn(d, p[i].name) && LookupIn(f, posting.value) == LookupIn(d, p[i].value)
    ensures SameTexts(d, p[..i + 1], f, q + [posting])
  {
    assert forall k :: 0 <= k < |q| ==> LookupIn(f, q[k].name) == LookupIn(e, q[k].name) && LookupIn(f, q[k].value) == LookupIn(e, q[k].value);
    assert forall k :: 0 <= k < i ==> p[..i + 1][k] == p[..i][k];
  }

  lemma {:induction false} SameTextsSameLabels(d: Dict, p: seq<Posting>, e: Dict, q: seq<Posting>)
    requires SameTexts(d, p, e, q) && PostingsOk(d, p)
    ensures PostingsOk(e, q) && Decode(e, q) == Decode(d, p)
  {
    hide Leq;
    assert NamesOf(e, q) == NamesOf(d, p);
    if p != [] {
      PostingsPrefix(d, p);
      SameTextsSameLabels(d, p[..|p| - 1], e, q[..|q| - 1]);
    }
  }

  // The loop of compactDictionaryLocked over the postings of one series.
  method Rewrite(from: StringDictionary, dict: StringDictionary, postings: seq<Posting>) returns (out: seq<Posting>, signature: string)
    requires from != dict && DictOk(from.Model()) && DictOk(dict.Model()) && PostingsOk(from.Model(), postings)
    modifies dict
    ensures DictOk(dict.Model()) && Extends(old(dict.Model()), dict.Model())
    ensures PostingsOk(dict.Model(), out) && Decode(dict.Model(), out) == Decode(from.Model(), postings)
    ensures signature == SignatureOf(out)
    ensures Grown(old(dict.Model()), dict.Model(), TextsOf(from.Model(), postings))
  {
    hide SignatureOf, Base36, DictOk, Interned, IdIn, LookupIn, SameTexts, PostingsOk, Decode, Grown;
    GrownNot(dict.Model(), TextsOf(from.Model(), postings));
    out, signature := [], "";
    NoSignature();
    NoTexts(from.Model(), dict.Model());
    for i := 0 to |postings|
      invariant DictOk(dict.Model()) && Extends(old(dict.Model()), dict.Model())
      invariant signature == SignatureOf(out)
      invariant SameTexts(from.Model(), postings[..i], dict.Model(), out)
      invariant Grown(old(dict.Model()), dict.Model(), TextsOf(from.Model(), postings))
    {
      ghost var before := dict.Model();
      InternOk(before, from.Lookup(postings[i].name));
      var nameID := dict.Intern(from.Lookup(postings[i].name));
      ghost var between := dict.Model();
      InternOk(between, from.Lookup(postings[i].value));
      var valueID := dict.Intern(from.Lookup(postings[i].value));
      Later(between, dict.Model(), nameID);
      LookupIs(from, postings[i].name);
      LookupIs(from, postings[i].value);
      GrownMore(old(dict.Model()), before, TextsOf(from.Model(), postings), from.Lookup(postings[i].name));
      GrownMore(old(dict.Model()), between, TextsOf(from.Model(), postings), from.Lookup(postings[i].value));
      OneTextMore(from.Model(), postings, i, before, dict.Model(), out, Posting(nameID, valueID));
      OneMore(out, Posting(nameID, valueID));
      out := out + [Posting(nameID, valueID)];
      signature := signature + Base36(nameID) + "=" + Base36(valueID) + ",";
    }
    assert postings[..|postings|] == postings;
    SameTextsSameLabels(from.Model(), postings, dict.Model(), out);
  }

  // Every descriptor rewritten so far reads as the old one of its metric.
  ghost predicate DescsMirror(d: Dict, descs: map<nat, EncodedDesc>, e: Dict, others: map<nat, EncodedDesc>) {
    DescsOk(e, others) && forall m :: m in others ==> DescTextIn(e, others[m]) == DescOf(d, descs, LookupIn(e, m))
  }

  lemma DescsMirrorLater(d: Dict, descs: map<nat, EncodedDesc>, e: Dict, f: Dict, others: map<nat, EncodedDesc>)
    requires DescsMirror(d, descs, e, others) && Extends(e, f)
    ensures DescsMirror(d, descs, f, others)
  {
    forall m | m in others ensures DescTextIn(f, others[m]) == DescTextIn(e, others[m]) && LookupIn(f, m) == LookupIn(e, m) {}
  }

  lemma OneDescMore(d: Dict, descs: map<nat, EncodedDesc>, e: Dict, f: Dict, others: map<nat, EncodedDesc>, m: nat, desc: EncodedDesc)
    requires DescsMirror(d, descs, e, others) && Extends(e, f) && m < |e.values|
    requires desc.help < |f.values| && desc.typ < |f.values| && desc.unit < |f.values|
    requires DescTextIn(f, desc) == DescOf(d, descs, LookupIn(e, m))
    ensures DescsMirror(d, descs, f, others[m := desc])
  {
    DescsMirrorLater(d, descs, e, f, others);
    Later(e, f, m);
  }

  function DescTexts(t: DescText): set<string> { {t.help, t.typ, t.unit} }

  method RewriteDesc(from: StringDictionary, dict: StringDictionary, desc: EncodedDesc) returns (out: EncodedDesc)
    requires from != dict && DictOk(dict.Model())
    modifies dict
    ensures DictOk(dict.Model()) && Extends(old(dict.Model()), dict.Model())
    ensures out.help < |dict.values| && out.typ < |dict.values| && out.unit < |dict.values|
    ensures DescTextIn(dict.Model(), out) == DescTextIn(from.Model(), desc)
    ensures Grown(old(dict.Model()), dict.Model(), DescTexts(DescTextIn(from.Model(), desc)))
  {
    hide DictOk, Interned, IdIn;
    ghost var texts, start := DescTexts(DescTextIn(from.Model(), desc)), dict.Model();
    GrownNot(start, texts);
    LookupIs(from, desc.help);
    LookupIs(from, desc.typ);
    LookupIs(from, desc.unit);
    InternOk(start, from.Lookup(desc.help));
    GrownMore(start, start, texts, from.Lookup(desc.help));
    var help := dict.Intern(from.Lookup(desc.help));
    ghost var first := dict.Model();
    InternOk(first, from.Lookup(desc.typ));
    GrownMore(start, first, texts, from.Lookup(desc.typ));
    var typ := dict.Intern(from.Lookup(desc.typ));
    ghost var second := dict.Model();
    InternOk(second, from.Lookup(desc.unit));
    GrownMore(start, second, texts, from.Lookup(desc.unit));
    var unit := dict.Intern(from.Lookup(desc.unit));
    Later(first, second, help);
    Later(second, dict.Model(), help);
    Later(second, dict.Model(), typ);
    out := EncodedDesc(help, typ, unit);
  }

  // The strings a series needs: its key, its metric, its labels and its descriptor.
  ghost function Needs(d: Dict, descs: map<nat, EncodedDesc>, s: Slot, series: Series): set<string> {
    {LookupIn(d, s.key), LookupIn(d, s.metric)} + TextsOf(d, series.postings) + DescTexts(DescOf(d, descs, LookupIn(d, s.metric)))
  }

  lemma GrownNeeds(d: Dict, e: Dict, needs: set<string>)
    requires Grown(d, e, needs)
    ensures forall x :: x in e.ids ==> x in d.ids || x in needs
  {}

  lemma SlotStrings(d: Dict, s: Slot, series: Series)
    requires DictOk(d) && SlotOk(d, s, series)
    ensures LookupIn(d, s.key) != "" && LookupIn(d, s.metric) != "" && PostingsOk(d, series.postings) && SeriesOk(series) && series.values != []
  {
    LookupIsNotZero(d, s.key);
    LookupIsNotZero(d, s.metric);
  }

  lemma SameColumns(s: Series, postings: seq<Posting>)
    requires SeriesOk(s)
    ensures SeriesOk(s.(postings := postings))
  {}

  lemma SlotAt(d: Dict, slots: Slots, s: Slot)
    requires SlotsOk(d, slots) && s in slots
    ensures SlotOk(d, s, slots[s])
  {}

  lemma CompactionStarts(d: Dict, slots: Slots, descs: map<nat, EncodedDesc>)
    ensures DictOk(EMPTY) && Rewritten(d, slots, EMPTY, map[], map[]) && DescsMirror(d, descs, EMPTY, map[])
  {}

  lemma DescsCarriedOver(d: Dict, slots: Slots, descs: map<nat, EncodedDesc>, e: Dict, others: Slots, newDescs: map<nat, EncodedDesc>, to: map<Slot, Slot>)
    requires SlotsOk(d, slots) && Rewritten(d, slots, e, others, to) && to.Keys == slots.Keys && DescsMirror(d, descs, e, newDescs)
    requires forall t :: t in others ==> t.metric in newDescs
    ensures DescsOk(e, newDescs) && SlotsOk(e, others)
    ensures forall id :: id in ViewOf(e, others) ==> DescOf(e, newDescs, id.metric) == DescOf(d, descs, id.metric)
  {
    hide ViewOf;
    forall id | id in ViewOf(e, others) ensures DescOf(e, newDescs, id.metric) == DescOf(d, descs, id.metric) {
      var t := ViewHas(e, others, id);
      SlotAt(e, others, t);
      DescAt(e, newDescs, t, others[t]);
    }
  }
}
