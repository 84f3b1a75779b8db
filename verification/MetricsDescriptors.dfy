// The descriptors of the metrics store, interned like everything else
// (encodedDesc and metricDescriptor in storage/metrics.go).

module MetricsDescriptors {
  import opened Basics
  import opened StringDictionary
  import opened SeriesColumns
  import opened MetricsModel

  datatype EncodedDesc = EncodedDesc(help: nat, typ: nat, unit: nat)

  const NO_DESC := EncodedDesc(0, 0, 0)

  datatype DescText = DescText(help: string, typ: string, unit: string)

  function DescTextIn(d: Dict, e: EncodedDesc): DescText { DescText(LookupIn(d, e.help), LookupIn(d, e.typ), LookupIn(d, e.unit)) }

  ghost predicate DescsOk(d: Dict, descs: map<nat, EncodedDesc>) {
    forall m :: m in descs ==> m < |d.values| && descs[m].help < |d.values| && descs[m].typ < |d.values| && descs[m].unit < |d.values|
  }

  // The descriptor the store shows for a metric.
  function DescOf(d: Dict, descs: map<nat, EncodedDesc>, metric: string): DescText {
    DescTextIn(d, if metric in d.ids && d.ids[metric] in descs then descs[d.ids[metric]] else NO_DESC)
  }

  // A metric's description in a scraped document.
  datatype PromDesc = PromDesc(name: string, help: string, typ: string, unit: string)

  // metricDescriptor: does a description cover a sample of this name?
  predicate Covers(desc: PromDesc, name: string) {
    || name == desc.name
    || (desc.typ == "counter" && (name == desc.name + "_total" || name == desc.name + "_created"))
    || ((desc.typ == "histogram" || desc.typ == "summary")
        && (name == desc.name + "_sum" || name == desc.name + "_count" || (desc.typ == "histogram" && name == desc.name + "_bucket")))
  }

  function FirstMatch(name: string, descs: seq<PromDesc>): Option<PromDesc> {
    if descs == [] then None else if Covers(descs[0], name) then Some(descs[0]) else FirstMatch(name, descs[1..])
  }

  // What the store shows for a metric once a document has come that may describe it.
  function Described(before: DescText, metric: string, promDescs: seq<PromDesc>): DescText {
    match FirstMatch(metric, promDescs)
    case Some(desc) => DescText(desc.help, desc.typ, desc.unit)
    case None => before
  }

  function DescribedIn(before: DescText, metric: string, promDescs: seq<PromDesc>, done: set<string>): DescText {
    if metric in done then Described(before, metric, promDescs) else before
  }

  method MetricDescriptor(name: string, descs: seq<PromDesc>) returns (found: Option<PromDesc>)
    ensures found == FirstMatch(name, descs)
  {
    for i := 0 to |descs|
      invariant FirstMatch(name, descs) == FirstMatch(name, descs[i..])
    {
      assert descs[i..][1..] == descs[i + 1..];
      if Covers(descs[i], name) {
        return Some(descs[i]);
      }
    }
    return None;
  }

  // More strings leave every descriptor's text alone.
  lemma DescTextsStay(d: Dict, e: Dict, descs: map<nat, EncodedDesc>)
    requires DictOk(d) && DictOk(e) && Extends(d, e) && DescsOk(d, descs)
    ensures forall m :: DescOf(e, descs, m) == DescOf(d, descs, m)
  {
    forall m ensures DescOf(e, descs, m) == DescOf(d, descs, m) {
      if m in d.ids { IdsStay(d, e, m); } else if m in e.ids { NewIds(d, e, m); }
    }
  }

  lemma NewIds(d: Dict, e: Dict, m: string)
    requires DictOk(d) && DictOk(e) && Extends(d, e) && m in e.ids && m !in d.ids
    ensures e.ids[m] >= |d.values|
  {
    var i := e.ids[m];
    assert LookupIn(e, i) == m && (LookupIn(d, i) == "" || LookupIn(d, i) in d.ids);
  }

  lemma IdsStay(d: Dict, e: Dict, m: string)
    requires DictOk(d) && DictOk(e) && Extends(d, e) && m in d.ids
    ensures m in e.ids && e.ids[m] == d.ids[m]
  {
    assert e.values[d.ids[m]] == m;
  }

  lemma DescFiled(d: Dict, descs: map<nat, EncodedDesc>, metric: string, id: nat, desc: EncodedDesc)
    requires DictOk(d) && DescsOk(d, descs) && 0 < id < |d.values| && LookupIn(d, id) == metric
    requires desc.help < |d.values| && desc.typ < |d.values| && desc.unit < |d.values|
    ensures DescsOk(d, descs[id := desc]) && DescOf(d, descs[id := desc], metric) == DescTextIn(d, desc)
    ensures forall m :: m != metric ==> DescOf(d, descs[id := desc], m) == DescOf(d, descs, m)
  {}

  // The descriptor of a metric is filed under the metric's own id.
  lemma DescAt(d: Dict, descs: map<nat, EncodedDesc>, slot: Slot, s: Series)
    requires DictOk(d) && SlotOk(d, slot, s)
    ensures DescOf(d, descs, LookupIn(d, slot.metric)) == DescTextIn(d, if slot.metric in descs then descs[slot.metric] else NO_DESC)
  {}

  lemma DescsStay(d: Dict, e: Dict, descs: map<nat, EncodedDesc>)
    requires DescsOk(d, descs) && Extends(d, e)
    ensures DescsOk(e, descs)
  {}

  lemma LookupIs(dict: StringDictionary, id: nat)
    ensures dict.Lookup(id) == LookupIn(dict.Model(), id)
  {}

  lemma LookupIsNotZero(d: Dict, id: nat)
    requires DictOk(d) && 0 < id < |d.values|
    ensures LookupIn(d, id) != ""
  {
    assert d.values[id] in d.ids;
  }

  lemma NotZero(d: Dict, id: nat)
    requires DictOk(d) && LookupIn(d, id) != ""
    ensures 0 < id < |d.values|
  {}
}
