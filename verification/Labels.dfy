// The Prometheus label printer of the component registry and the label parser
// of the scraper. They live in different packages and are meant to be inverses.
// Both follow the Prometheus text exposition format 0.0.4, section "Text format
// details", subsection "Comments, help text, and type information".

module Labels {
  import opened Basics

  type LabelMap = map<string, string>

  // ---------------------------------------------------------------- printing

  function EscapeChar(c: char): string {
    if c == '\\' then "\\\\" else if c == '\n' then "\\n" else if c == '"' then "\\\"" else [c]
  }

  function Escape(v: string): string {
    if v == [] then [] else EscapeChar(v[0]) + Escape(v[1..])
  }

  function FormatPair(name: string, value: string): string {
    name + "=\"" + Escape(value) + "\""
  }

  predicate IsPlain(v: string) { '\\' !in v && '\n' !in v && '"' !in v }

  // A value is printed as it is exactly if it has no backslash, line feed or quote.
  lemma PlainIsPrintedAsItIs(v: string)
    ensures Escape(v) == v <==> IsPlain(v)
  {
    EscapeGrows(v);
  }

  lemma {:induction false} EscapeGrows(v: string)
    ensures if IsPlain(v) then Escape(v) == v else |Escape(v)| > |v|
  {
    if v != [] {
      EscapeGrows(v[1..]);
      assert v == [v[0]] + v[1..];
    }
  }

  // A missing name reads as the empty value, as in a Go map.
  function ValueAt(labels: LabelMap, name: string): string {
    if name in labels then labels[name] else ""
  }

  function JoinPairs(names: seq<string>, labels: LabelMap): string {
    if names == [] then ""
    else if |names| == 1 then FormatPair(names[0], ValueAt(labels, names[0]))
    else FormatPair(names[0], ValueAt(labels, names[0])) + ("," + JoinPairs(names[1..], labels))
  }

  ghost function FormatLabels(labels: LabelMap): string {
    if labels == map[] then "" else "{" + JoinPairs(SortedSet(labels.Keys), labels) + "}"
  }

  lemma {:induction false} JoinPairsSnoc(names: seq<string>, name: string, labels: LabelMap)
    requires names != []
    ensures JoinPairs(names + [name], labels) == JoinPairs(names, labels) + ("," + FormatPair(name, ValueAt(labels, name)))
  {
    var last := FormatPair(name, ValueAt(labels, name));
    var first := FormatPair(names[0], ValueAt(labels, names[0]));
    if |names| == 1 {
      assert (names + [name])[1..] == [name];
    } else {
      assert (names + [name])[1..] == names[1..] + [name];
      JoinPairsSnoc(names[1..], name, labels);
      var more := JoinPairs(names[1..], labels);
      assert first + ("," + (more + ("," + last))) == first + ("," + more) + ("," + last);
    }
  }

  method PrintLabels(labels: LabelMap) returns (out: string)
    ensures out == FormatLabels(labels)
  {
    hide FormatPair, Ascending, SortedSet;
    if |labels| == 0 {
      return "";
    }
    var keys := SortKeys(labels.Keys);
    out := "";
    for i := 0 to |keys|
      invariant out == JoinPairs(keys[..i], labels)
    {
      assert keys[..i + 1] == keys[..i] + [keys[i]];
      if i > 0 {
        JoinPairsSnoc(keys[..i], keys[i], labels);
        out := out + ("," + FormatPair(keys[i], ValueAt(labels, keys[i])));
      } else {
        out := FormatPair(keys[i], ValueAt(labels, keys[i]));
      }
    }
    assert keys[..|keys|] == keys;
    out := "{" + out + "}";
  }

  // ----------------------------------------------------------------- parsing

  // unicode.IsSpace.
  predicate IsSpace(c: char) {
    '\t' <= c <= '\r' || c == ' ' || c == '\U{0085}' || c == '\U{00A0}' || c == '\U{1680}'
    || '\U{2000}' <= c <= '\U{200A}' || c == '\U{2028}' || c == '\U{2029}' || c == '\U{202F}'
    || c == '\U{205F}' || c == '\U{3000}'
  }

  function TrimLeft(s: string): string {
    if s != [] && IsSpace(s[0]) then TrimLeft(s[1..]) else s
  }

  function TrimRight(s: string): string {
    if s != [] && IsSpace(s[|s| - 1]) then TrimRight(s[..|s| - 1]) else s
  }

  function TrimSpace(s: string): string { TrimRight(TrimLeft(s)) }

  predicate IsSeparator(c: char) { c == ' ' || c == ',' || c == '\t' }

  function SkipSeparators(s: string): string {
    if s != [] && IsSeparator(s[0]) then SkipSeparators(s[1..]) else s
  }

  // strings.IndexByte, with |s| for "not found".
  function IndexOf(s: string, c: char): (i: nat)
    ensures i <= |s|
    ensures forall k :: 0 <= k < i ==> s[k] != c
    ensures i < |s| ==> s[i] == c
  {
    if s == [] || s[0] == c then 0 else 1 + IndexOf(s[1..], c)
  }

  function Unescape(c: char): char { if c == 'n' then '\n' else c }

  // The quoted value at the front of s, and what follows its closing quote.
  function ReadValue(s: string): (r: (string, string))
    ensures |r.1| <= |s|
  {
    if s == [] then ("", "")
    else if s[0] == '"' then ("", s[1..])
    else if s[0] == '\\' && |s| > 1 then
      var (v, rest) := ReadValue(s[2..]);
      ([Unescape(s[1])] + v, rest)
    else
      var (v, rest) := ReadValue(s[1..]);
      ([s[0]] + v, rest)
  }

  lemma SkipSeparatorsShortens(s: string)
    ensures |SkipSeparators(s)| <= |s|
  {}

  // What the label loop makes of the text s when it already holds acc.
  function LabelsOf(s: string, acc: LabelMap): LabelMap
    decreases |s|
  {
    SkipSeparatorsShortens(s);
    var t := SkipSeparators(s);
    var e := IndexOf(t, '=');
    if e == |t| then acc
    else
      var after := t[e + 1..];
      if after == [] || after[0] != '"' then LabelsOf(after, acc)
      else
        var (value, rest) := ReadValue(after[1..]);
        LabelsOf(rest, acc[TrimSpace(t[..e]) := value])
  }

  // The three inner loops of parseSampleLabels, which move the index i.
  method SkipFrom(s: string, i0: nat) returns (i: nat)
    requires i0 <= |s|
    ensures i0 <= i <= |s| && s[i..] == SkipSeparators(s[i0..])
  {
    i := i0;
    while i < |s| && IsSeparator(s[i])
      invariant i0 <= i <= |s|
      invariant SkipSeparators(s[i..]) == SkipSeparators(s[i0..])
    {
      assert s[i..][1..] == s[i + 1..];
      i := i + 1;
    }
  }

  method ScanToEquals(s: string, i0: nat) returns (i: nat)
    requires i0 <= |s|
    ensures i0 <= i <= |s| && i == i0 + IndexOf(s[i0..], '=')
  {
    i := i0;
    while i < |s| && s[i] != '='
      invariant i0 <= i <= |s|
      invariant i + IndexOf(s[i..], '=') == i0 + IndexOf(s[i0..], '=')
    {
      assert s[i..][1..] == s[i + 1..];
      i := i + 1;
    }
  }

  method ReadQuoted(s: string, i0: nat) returns (value: string, i: nat)
    requires i0 <= |s|
    ensures i0 <= i <= |s| && ReadValue(s[i0..]) == (value, s[i..])
  {
    hide IsSpace;
    i, value := i0, "";
    ghost var quoted := ReadValue(s[i0..]);
    while i < |s| && s[i] != '"'
      invariant i0 <= i <= |s|
      invariant quoted.0 == value + ReadValue(s[i..]).0
      invariant quoted.1 == ReadValue(s[i..]).1
    {
      if s[i] == '\\' && i + 1 < |s| {
        assert s[i..][2..] == s[i + 2..];
        Assoc(value, [Unescape(s[i + 1])], ReadValue(s[i + 2..]).0);
        value := value + [Unescape(s[i + 1])];
        i := i + 2;
      } else {
        assert s[i..][1..] == s[i + 1..];
        Assoc(value, [s[i]], ReadValue(s[i + 1..]).0);
        value := value + [s[i]];
        i := i + 1;
      }
    }
    assert value + "" == value;
    if i < |s| {
      assert s[i..][1..] == s[i + 1..];
      i := i + 1;
    }
  }

  method ParseSampleLabels(s: string) returns (labels: LabelMap)
    ensures labels == LabelsOf(s, map[])
  {
    hide TrimSpace, SkipSeparators, ReadValue, IndexOf;
    labels := map[];
    var i := 0;
    assert s[0..] == s;
    while i < |s|
      invariant 0 <= i <= |s|
      invariant LabelsOf(s, map[]) == LabelsOf(s[i..], labels)
      decreases |s| - i
    {
      ghost var s0 := s[i..];
      var start := SkipFrom(s, i);
      ghost var t := s[start..];
      i := ScanToEquals(s, start);
      if i >= |s| {
        assert IndexOf(t, '=') == |t|;
        assert LabelsOf(s0, labels) == labels;
        return;
      }
      assert t[..i - start] == s[start..i] && t[i - start + 1..] == s[i + 1..];
      var name := TrimSpace(s[start..i]);
      i := i + 1;
      if i >= |s| || s[i] != '"' {
        assert LabelsOf(s0, labels) == LabelsOf(s[i..], labels);
        continue;
      }
      assert s[i..][1..] == s[i + 1..];
      var value;
      value, i := ReadQuoted(s, i + 1);
      assert LabelsOf(s0, labels) == LabelsOf(s[i..], labels[name := value]);
      labels := labels[name := value];
    }
    assert s[i..] == [];
    LabelsOfNothing(labels);
  }

  datatype Sample = Sample(name: string, labels: LabelMap, value: string)

  // The first field of strings.Fields, given text without leading space.
  function FirstField(s: string): string {
    if s == [] || IsSpace(s[0]) then [] else [s[0]] + FirstField(s[1..])
  }

  // strings.IndexAny(line, " \t"), with |s| for "not found".
  function IndexOfBlank(s: string): (i: nat)
    ensures i <= |s|
  {
    if s == [] || s[0] == ' ' || s[0] == '\t' then 0 else 1 + IndexOfBlank(s[1..])
  }

  function NameAndRest(line: string): Result<(string, LabelMap, string)> {
    var i := IndexOf(line, '{');
    if i < |line| then
      var end := IndexOf(line[i..], '}');
      if i + end == |line| then Err("missing closing brace")
      else Ok((TrimSpace(line[..i]), LabelsOf(line[i + 1..i + end], map[]), TrimSpace(line[i + end + 1..])))
    else
      var b := IndexOfBlank(line);
      if b == |line| then Err("no value")
      else Ok((TrimSpace(line[..b]), map[], TrimSpace(line[b..])))
  }

  // Which texts strconv.ParseFloat reads; the number itself stays text here.
  type Floats = string -> bool

  function SampleOf(line: string, floats: Floats): Result<Sample> {
    match NameAndRest(line)
    case Err(e) => Err(e)
    case Ok((name, labels, rest)) =>
      if FirstField(rest) == [] then Err("no value")
      else if !floats(FirstField(rest)) then Err("invalid value")
      else Ok(Sample(name, labels, FirstField(rest)))
  }

  method ParseSampleLine(line: string, floats: Floats) returns (r: Result<Sample>)
    ensures r == SampleOf(line, floats)
  {
    hide LabelsOf, FirstField, TrimSpace;
    var name, labels, rest;
    var i := IndexOf(line, '{');
    if i < |line| {
      name := TrimSpace(line[..i]);
      var end := IndexOf(line[i..], '}');
      if i + end == |line| {
        return Err("missing closing brace");
      }
      labels := ParseSampleLabels(line[i + 1..i + end]);
      rest := TrimSpace(line[i + end + 1..]);
    } else {
      var b := IndexOfBlank(line);
      if b == |line| {
        return Err("no value");
      }
      name, labels, rest := TrimSpace(line[..b]), map[], TrimSpace(line[b..]);
    }
    if |FirstField(rest)| == 0 {
      return Err("no value");
    }
    if !floats(FirstField(rest)) {
      return Err("invalid value");
    }
    return Ok(Sample(name, labels, FirstField(rest)));
  }

  // ------------------------------------------------------------- round trip

  predicate NameChar(c: char) {
    'a' <= c <= 'z' || 'A' <= c <= 'Z' || '0' <= c <= '9' || c == '_' || c == ':'
  }

  predicate LegalName(name: string) {
    name != [] && forall i :: 0 <= i < |name| ==> NameChar(name[i])
  }

  predicate LegalNames(labels: LabelMap) {
    forall n :: n in labels ==> LegalName(n)
  }

  // What "%.4g" can print, as far as the parser cares.
  predicate ValueText(v: string) {
    v != [] && forall i :: 0 <= i < |v| ==> !IsSpace(v[i]) && v[i] != '{' && v[i] != '}'
  }

  predicate BraceFree(labels: LabelMap) {
    forall n :: n in labels ==> '}' !in labels[n]
  }

  // The sample line the registry writes, without its line feed.
  ghost function SampleLine(name: string, labels: LabelMap, value: string): string {
    name + FormatLabels(labels) + " " + value
  }

  lemma {:induction false} TrimSpaceOfSolid(s: string)
    requires s != [] ==> !IsSpace(s[0]) && !IsSpace(s[|s| - 1])
    ensures TrimSpace(s) == s && TrimSpace([' '] + s) == s
  {
    assert ([' '] + s)[1..] == s;
  }

  lemma TrimName(name: string)
    requires LegalName(name)
    ensures TrimSpace(name) == name
  {
    TrimSpaceOfSolid(name);
  }

  lemma TrimValue(v: string)
    requires ValueText(v)
    ensures TrimSpace([' '] + v) == v && FirstField(v) == v
  {
    TrimSpaceOfSolid(v);
    FirstFieldOfSolid(v);
  }

  lemma {:induction false} ReadEscaped(v: string, rest: string)
    ensures ReadValue(Escape(v) + "\"" + rest) == (v, rest)
  {
    var text := Escape(v) + "\"" + rest;
    if v == [] {
      assert text[1..] == rest;
    } else {
      ReadEscaped(v[1..], rest);
      var tail := Escape(v[1..]) + "\"" + rest;
      assert text == EscapeChar(v[0]) + tail;
      assert Escape(v) == EscapeChar(v[0]) + Escape(v[1..]);
      if |EscapeChar(v[0])| == 2 {
        assert text[0] == '\\' && text[1] == EscapeChar(v[0])[1] && text[2..] == tail;
        assert ReadValue(text) == ([Unescape(text[1])] + v[1..], rest);
      } else {
        assert text[0] == v[0] && text[1..] == tail;
        assert ReadValue(text) == ([v[0]] + v[1..], rest);
      }
      assert [v[0]] + v[1..] == v;
    }
  }

  lemma {:induction false} IndexOfIs(s: string, c: char, i: nat)
    requires i < |s| && s[i] == c
    requires forall k :: 0 <= k < i ==> s[k] != c
    ensures IndexOf(s, c) == i
  {
    var j := IndexOf(s, c);
    assert !(j < i) && !(i < j);
  }

  lemma ReadNamed(s: string, name: string, tail: string, acc: LabelMap)
    requires LegalName(name)
    requires s == name + (['=', '"'] + tail)
    ensures LabelsOf(s, acc) == LabelsOf(ReadValue(tail).1, acc[name := ReadValue(tail).0])
  {
    assert s[0] == name[0];
    assert SkipSeparators(s) == s;
    assert s[|name|] == '=';
    IndexOfIs(s, '=', |name|);
    assert s[..|name|] == name;
    assert s[|name| + 1..] == ['"'] + tail;
    assert (['"'] + tail)[1..] == tail;
    TrimName(name);
  }

  // The parser reads one printed pair and leaves the rest.
  lemma ReadPair(name: string, value: string, rest: string, acc: LabelMap)
    requires LegalName(name)
    ensures LabelsOf(FormatPair(name, value) + rest, acc) == LabelsOf(rest, acc[name := value])
  {
    var tail := Escape(value) + "\"" + rest;
    assert FormatPair(name, value) + rest == name + (['=', '"'] + tail);
    ReadNamed(FormatPair(name, value) + rest, name, tail, acc);
    ReadEscaped(value, rest);
  }

  lemma LabelsOfNothing(acc: LabelMap)
    ensures LabelsOf("", acc) == acc
  {}

  lemma LabelsOfComma(s: string, acc: LabelMap)
    ensures LabelsOf("," + s, acc) == LabelsOf(s, acc)
  {
    hide ReadValue, IndexOf, TrimSpace;
    assert ("," + s)[1..] == s;
    assert SkipSeparators("," + s) == SkipSeparators(s);
  }

  ghost function Restrict(labels: LabelMap, names: seq<string>): LabelMap {
    map n | n in names :: ValueAt(labels, n)
  }

  lemma {:induction false} ReadPairs(names: seq<string>, labels: LabelMap, acc: LabelMap)
    requires LegalNames(labels)
    requires forall n :: n in names ==> n in labels
    ensures LabelsOf(JoinPairs(names, labels), acc) == acc + Restrict(labels, names)
  {
    hide LabelsOf, FormatPair;
    if names == [] {
      LabelsOfNothing(acc);
      assert Restrict(labels, names) == map[];
    } else {
      var n, v := names[0], ValueAt(labels, names[0]);
      if |names| == 1 {
        ReadPair(n, v, "", acc);
        LabelsOfNothing(acc[n := v]);
        assert FormatPair(n, v) + "" == FormatPair(n, v);
        assert Restrict(labels, names) == map[n := v];
      } else {
        var more := JoinPairs(names[1..], labels);
        ReadPair(n, v, "," + more, acc);
        LabelsOfComma(more, acc[n := v]);
        ReadPairs(names[1..], labels, acc[n := v]);
        RestrictStep(names, labels, acc);
      }
    }
  }

  lemma RestrictStep(names: seq<string>, labels: LabelMap, acc: LabelMap)
    requires names != []
    ensures acc[names[0] := ValueAt(labels, names[0])] + Restrict(labels, names[1..]) == acc + Restrict(labels, names)
  {
    assert forall n :: n in names <==> n == names[0] || n in names[1..];
  }

  lemma {:induction false} EscapeKeepsChars(v: string, c: char)
    requires c != '\\' && c != '"' && c != '\n' && c != 'n'
    ensures c in Escape(v) <==> c in v
  {
    if v != [] {
      EscapeKeepsChars(v[1..], c);
      assert c in v <==> c == v[0] || c in v[1..];
    }
  }

  lemma {:induction false} JoinPairsChars(names: seq<string>, labels: LabelMap, c: char)
    requires c != '\\' && c != '"' && c != '\n' && c != 'n' && c != '=' && c != ',' && !NameChar(c)
    requires LegalNames(labels)
    requires forall n :: n in names ==> n in labels
    ensures c in JoinPairs(names, labels) <==> exists n :: n in names && c in labels[n]
  {
    if names != [] {
      var n := names[0];
      EscapeKeepsChars(labels[n], c);
      assert c !in n;
      assert c in FormatPair(n, labels[n]) <==> c in labels[n];
      if |names| > 1 {
        JoinPairsChars(names[1..], labels, c);
        assert forall m :: m in names <==> m == n || m in names[1..];
      }
    }
  }

  lemma {:induction false} ReadValueChars(s: string, c: char)
    requires c !in s && c != '\n'
    ensures c !in ReadValue(s).0 && c !in ReadValue(s).1
    decreases |s|
  {
    if s != [] {
      if s[0] == '\\' && |s| > 1 {
        assert s[1] in s;
        ReadValueChars(s[2..], c);
      } else {
        ReadValueChars(s[1..], c);
      }
    }
  }

  // A character absent from the text is absent from every value read.
  lemma {:induction false} LabelsOfChars(s: string, acc: LabelMap, c: char)
    requires c !in s && c != '\n'
    requires forall n :: n in acc ==> c !in acc[n]
    ensures forall n :: n in LabelsOf(s, acc) ==> c !in LabelsOf(s, acc)[n]
    decreases |s|
  {
    SkipSeparatorsShortens(s);
    SkipSeparatorsSuffix(s);
    var t := SkipSeparators(s);
    var e := IndexOf(t, '=');
    if e < |t| {
      var after := t[e + 1..];
      if after == [] || after[0] != '"' {
        LabelsOfChars(after, acc, c);
      } else {
        ReadValueChars(after[1..], c);
        var (value, rest) := ReadValue(after[1..]);
        LabelsOfChars(rest, acc[TrimSpace(t[..e]) := value], c);
      }
    }
  }

  lemma SkipSeparatorsSuffix(s: string)
    ensures forall c :: c in SkipSeparators(s) ==> c in s
  {}

  lemma {:induction false} FirstFieldOfSolid(v: string)
    requires forall i :: 0 <= i < |v| ==> !IsSpace(v[i])
    ensures FirstField(v) == v
  {
    if v != [] { FirstFieldOfSolid(v[1..]); }
  }

  lemma {:induction false} IndexOfBlankAfter(name: string, rest: string)
    requires forall i :: 0 <= i < |name| ==> NameChar(name[i])
    ensures IndexOfBlank(name + " " + rest) == |name|
  {
    var s := name + " " + rest;
    if name != [] {
      assert s[1..] == name[1..] + " " + rest;
      IndexOfBlankAfter(name[1..], rest);
    }
  }

  // The parser on a line whose first closing brace ends the text `cut`.
  lemma ParseBraced(name: string, cut: string, rest: string)
    requires LegalName(name) && '}' !in cut
    ensures NameAndRest(name + (['{'] + (cut + (['}'] + rest)))) == Ok((name, LabelsOf(cut, map[]), TrimSpace(rest)))
  {
    hide LabelsOf, TrimSpace, IndexOf;
    var braced := ['{'] + (cut + (['}'] + rest));
    var line := name + braced;
    assert line[|name|] == '{';
    IndexOfIs(line, '{', |name|);
    assert line[|name|..] == braced;
    assert braced[|cut| + 1] == '}';
    IndexOfIs(braced, '}', |cut| + 1);
    assert line[..|name|] == name;
    assert line[|name| + 1..|name| + |cut| + 1] == cut;
    assert line[|name| + |cut| + 2..] == rest;
    TrimName(name);
  }

  lemma Assoc(a: string, b: string, c: string)
    ensures a + b + c == a + (b + c)
  {}

  lemma LineShape(name: string, labels: LabelMap, value: string, cut: string, more: string)
    requires labels != map[]
    requires JoinPairs(SortedSet(labels.Keys), labels) + ['}'] == cut + (['}'] + more)
    ensures SampleLine(name, labels, value) == name + (['{'] + (cut + (['}'] + (more + ([' '] + value)))))
  {
    var inner := JoinPairs(SortedSet(labels.Keys), labels);
    var tail := [' '] + value;
    calc {
      SampleLine(name, labels, value);
      { Assoc(['{'], inner, ['}']); Assoc(name + (['{'] + (inner + ['}'])), [' '], value); }
      name + (['{'] + (inner + ['}'])) + tail;
      { Assoc(name, ['{'] + (inner + ['}']), tail); Assoc(['{'], inner + ['}'], tail); }
      name + (['{'] + ((inner + ['}']) + tail));
      { Assoc(cut, ['}'] + more, tail); Assoc(['}'], more, tail); }
      name + (['{'] + (cut + (['}'] + (more + tail))));
    }
  }

  lemma InnerBraces(labels: LabelMap)
    requires LegalNames(labels)
    ensures '}' in JoinPairs(SortedSet(labels.Keys), labels) <==> !BraceFree(labels)
  {
    JoinPairsChars(SortedSet(labels.Keys), labels, '}');
  }

  lemma InnerReadsBack(labels: LabelMap)
    requires LegalNames(labels)
    ensures LabelsOf(JoinPairs(SortedSet(labels.Keys), labels), map[]) == labels
  {
    hide LabelsOf, JoinPairs;
    var names := SortedSet(labels.Keys);
    ReadPairs(names, labels, map[]);
    assert map[] + Restrict(labels, names) == labels;
  }

  lemma ParsePrinted(name: string, labels: LabelMap, value: string, floats: Floats)
    requires LegalName(name) && LegalNames(labels) && labels != map[] && ValueText(value) && floats(value) && BraceFree(labels)
    ensures SampleOf(SampleLine(name, labels, value), floats) == Ok(Sample(name, labels, value))
  {
    hide LabelsOf, TrimSpace, JoinPairs, FirstField, FormatLabels;
    var inner := JoinPairs(SortedSet(labels.Keys), labels);
    InnerBraces(labels);
    InnerReadsBack(labels);
    ParseBraced(name, inner, [' '] + value);
    assert [] + ([' '] + value) == [' '] + value;
    LineShape(name, labels, value, inner, []);
    TrimValue(value);
  }

  lemma ParseBroken(name: string, labels: LabelMap, value: string, floats: Floats)
    requires LegalName(name) && LegalNames(labels) && labels != map[] && !BraceFree(labels)
    ensures SampleOf(SampleLine(name, labels, value), floats) != Ok(Sample(name, labels, value))
  {
    hide LabelsOf, JoinPairs, NameAndRest, SampleLine, TrimSpace, FirstField, LegalNames;
    var inner := JoinPairs(SortedSet(labels.Keys), labels);
    InnerBraces(labels);
    var k := IndexOf(inner, '}');
    assert k < |inner| && '}' !in inner[..k];
    var cut, more := inner[..k], inner[k + 1..] + ['}'];
    CutAt(inner, k, more);
    LineShape(name, labels, value, cut, more);
    ParseBraced(name, cut, more + ([' '] + value));
    CutDiffers(labels, cut);
  }

  lemma CutAt(inner: string, k: nat, more: string)
    requires k < |inner| && inner[k] == '}' && more == inner[k + 1..] + ['}']
    ensures inner + ['}'] == inner[..k] + (['}'] + more)
  {}

  lemma CutDiffers(labels: LabelMap, cut: string)
    requires !BraceFree(labels) && '}' !in cut
    ensures LabelsOf(cut, map[]) != labels
  {
    LabelsOfChars(cut, map[], '}');
  }

  // Printing a sample and parsing the line gives the sample back exactly when
  // no label value holds a closing brace. Backslashes, quotes and line feeds in
  // values are all recovered.
  lemma RoundTrip(name: string, labels: LabelMap, value: string, floats: Floats)
    requires LegalName(name) && LegalNames(labels) && ValueText(value) && floats(value)
    ensures SampleOf(SampleLine(name, labels, value), floats) == Ok(Sample(name, labels, value)) <==> BraceFree(labels)
  {
    if labels == map[] {
      var line := SampleLine(name, labels, value);
      assert line == name + " " + value;
      assert '{' !in line;
      assert IndexOf(line, '{') == |line|;
      IndexOfBlankAfter(name, value);
      assert line[..|name|] == name && line[|name|..] == [' '] + value;
      TrimName(name);
      TrimValue(value);
    } else if BraceFree(labels) {
      ParsePrinted(name, labels, value, floats);
    } else {
      ParseBroken(name, labels, value, floats);
    }
  }

  lemma {:induction false} EscapeHasNoLineFeed(v: string)
    ensures '\n' !in Escape(v)
  {
    if v != [] { EscapeHasNoLineFeed(v[1..]); }
  }

  lemma {:induction false} JoinPairsHasNoLineFeed(names: seq<string>, labels: LabelMap)
    requires LegalNames(labels)
    requires forall n :: n in names ==> n in labels
    ensures '\n' !in JoinPairs(names, labels)
  {
    if names != [] {
      EscapeHasNoLineFeed(labels[names[0]]);
      assert '\n' !in names[0];
      JoinPairsHasNoLineFeed(names[1..], labels);
    }
  }

  // A printed sample is one line of text that starts with its metric name and
  // ends with its value, so the scraper's line splitting and trimming keep it.
  lemma PrintedSampleIsOneLine(name: string, labels: LabelMap, value: string)
    requires LegalName(name) && LegalNames(labels) && ValueText(value)
    ensures '\n' !in SampleLine(name, labels, value)
    ensures TrimSpace(SampleLine(name, labels, value)) == SampleLine(name, labels, value)
  {
    var line := SampleLine(name, labels, value);
    JoinPairsHasNoLineFeed(SortedSet(labels.Keys), labels);
    assert '\n' !in FormatLabels(labels);
    assert '\n' !in name && '\n' !in value;
    assert line[0] == name[0] && line[|line| - 1] == value[|value| - 1];
    TrimSpaceOfSolid(line);
  }
}
