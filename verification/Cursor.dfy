// Cursors of the escalation feed: an epoch and a sequence number in decimal
// (escalation.go).

module Cursor {
  const MAX_UINT64: nat := 0xFFFF_FFFF_FFFF_FFFF

  predicate IsDigit(c: char) { '0' <= c <= '9' }

  function DigitOf(c: char): nat
    requires IsDigit(c)
  {
    (c - '0') as nat
  }

  function DigitChar(d: nat): char
    requires d < 10
  {
    '0' + d as char
  }

  // strconv.FormatUint(n, 10).
  function FormatUint(n: nat): string {
    if n < 10 then [DigitChar(n)] else FormatUint(n / 10) + [DigitChar(n % 10)]
  }

  datatype Parsed = Number(n: nat) | BadSyntax | OutOfRange

  // The loop of strconv.ParseUint, which stops as soon as the value outgrows 64 bits.
  function ParseFrom(s: string, n: nat): Parsed {
    if s == [] then Number(n)
    else if !IsDigit(s[0]) then BadSyntax
    else if n * 10 + DigitOf(s[0]) > MAX_UINT64 then OutOfRange
    else ParseFrom(s[1..], n * 10 + DigitOf(s[0]))
  }

  function StrictUint(s: string): Parsed { if s == [] then BadSyntax else ParseFrom(s, 0) }

  // The value strconv.ParseUint(s, 10, 64) returns, its error ignored.
  function ParseUint(s: string): nat {
    match StrictUint(s)
    case Number(n) => n
    case BadSyntax => 0
    case OutOfRange => MAX_UINT64
  }

  // strings.Cut(s, ":"): what stands before and after the first colon.
  function ColonAt(s: string): (i: nat)
    ensures i <= |s|
    ensures i < |s| ==> s[i] == ':'
    ensures forall k :: 0 <= k < i ==> s[k] != ':'
  {
    if s == [] || s[0] == ':' then 0 else 1 + ColonAt(s[1..])
  }

  function FormatCursor(n: nat, epoch: string): string {
    if n == 0 then "" else if epoch == "" then FormatUint(n) else epoch + ([':'] + FormatUint(n))
  }

  function ParseCursor(s: string, epoch: string): nat {
    if s == "" then 0 else
      var c := ColonAt(s);
      if c == |s| then ParseUint(s)
      else if epoch != "" && s[..c] != epoch then 0
      else ParseUint(s[c + 1..])
  }

  predicate EpochOk(epoch: string) { epoch != "" && ':' !in epoch }

  lemma {:induction false} ParseDigit(s: string, c: char, n: nat)
    requires forall i :: 0 <= i < |s| ==> IsDigit(s[i])
    requires ParseFrom(s, n).Number? && IsDigit(c)
    requires ParseFrom(s, n).n * 10 + DigitOf(c) <= MAX_UINT64
    ensures ParseFrom(s + [c], n) == Number(ParseFrom(s, n).n * 10 + DigitOf(c))
  {
    if s == [] {
      assert ([] + [c])[1..] == [];
    } else {
      assert (s + [c])[1..] == s[1..] + [c];
      ParseDigit(s[1..], c, n * 10 + DigitOf(s[0]));
    }
  }

  lemma {:induction false} FormatIsDigits(n: nat)
    ensures FormatUint(n) != [] && forall i :: 0 <= i < |FormatUint(n)| ==> IsDigit(FormatUint(n)[i])
  {
    if n >= 10 { FormatIsDigits(n / 10); }
  }

  lemma {:induction false} ParseFormat(n: nat)
    requires n <= MAX_UINT64
    ensures ParseFrom(FormatUint(n), 0) == Number(n)
  {
    FormatIsDigits(n);
    if n >= 10 {
      ParseFormat(n / 10);
      FormatIsDigits(n / 10);
      ParseDigit(FormatUint(n / 10), DigitChar(n % 10), 0);
    } else {
      assert FormatUint(n)[1..] == [];
    }
  }

  lemma {:induction false} ColonAtIs(s: string, i: nat)
    requires i < |s| && s[i] == ':' && forall k :: 0 <= k < i ==> s[k] != ':'
    ensures ColonAt(s) == i
  {
    var j := ColonAt(s);
    assert !(j < i) && !(i < j);
  }

  // A cursor read under its own epoch gives its number back, and under any other
  // epoch it reads as no cursor at all. Read without an epoch it gives its number.
  lemma CursorRoundTrip(n: nat, epoch: string, reader: string)
    requires n <= MAX_UINT64 && EpochOk(epoch)
    ensures ParseCursor(FormatCursor(n, epoch), reader) == if reader == epoch || reader == "" then n else 0
  {
    if n > 0 {
      var s := FormatCursor(n, epoch);
      FormatIsDigits(n);
      ParseFormat(n);
      assert s[|epoch|] == ':';
      ColonAtIs(s, |epoch|);
      assert s[..|epoch|] == epoch && s[|epoch| + 1..] == FormatUint(n);
    }
  }

  // Two numbers or two epochs never share a cursor.
  lemma CursorsDiffer(a: nat, d: string, b: nat, e: string)
    requires 0 < a <= MAX_UINT64 && 0 < b <= MAX_UINT64 && EpochOk(d) && EpochOk(e)
    requires FormatCursor(a, d) == FormatCursor(b, e)
    ensures a == b && d == e
  {
    CursorRoundTrip(a, d, d);
    CursorRoundTrip(b, e, d);
    CursorRoundTrip(b, e, "");
    CursorRoundTrip(a, d, "");
  }
}
