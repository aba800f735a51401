/** The field parsers of the transport-authority documents, as functions of the bytes not yet read.

Each parser has a printer in continuation form, Print(v, rest), and two laws: whatever the parser
accepts is the printed form of a valid value, and every printed valid value is accepted.
*/
module AuthorityParsers {
  import opened Bytes

  const QUOTE: Byte := 34
  const IDENTIFIER_MAXIMUM := 128
  const GENERATION_MAXIMUM := 99999999
  const DIGEST_SIZE := 32

  type Parsed<T> = Option<(T, seq<Byte>)>

  // ---------------------------------------------------------------- literals

  function Expect(s: seq<Byte>, literal: seq<Byte>): (r: Option<seq<Byte>>)
    ensures r.Some? ==> s == literal + r.value
  {
    if literal <= s then Some(s[|literal|..]) else None
  }

  lemma ExpectPrinted(literal: seq<Byte>, rest: seq<Byte>)
    ensures Expect(literal + rest, literal) == Some(rest)
  {
  }

  function PrintExact(text: seq<Byte>, rest: seq<Byte>): seq<Byte> {
    [QUOTE] + (text + ([QUOTE] + rest))
  }

  function ParseExact(s: seq<Byte>, text: seq<Byte>): (r: Option<seq<Byte>>)
    ensures r.Some? ==> s == PrintExact(text, r.value)
  {
    var s :- Expect(s, [QUOTE]);
    var s :- Expect(s, text);
    Expect(s, [QUOTE])
  }

  lemma ExactPrinted(text: seq<Byte>, rest: seq<Byte>)
    ensures ParseExact(PrintExact(text, rest), text) == Some(rest)
  {
  }

  // ---------------------------------------------------------------- identifiers

  predicate AlphaNumeric(b: Byte) {
    'A' as int <= b <= 'Z' as int || 'a' as int <= b <= 'z' as int || '0' as int <= b <= '9' as int
  }

  predicate IdentifierByte(b: Byte, index: nat) {
    AlphaNumeric(b)
    || (index > 0 && (b == '.' as int || b == '_' as int || b == ':' as int || b == '/' as int || b == '-' as int))
  }

  /** An identifier that fits a buffer of the given size with its terminator. */
  predicate IsIdentifier(id: seq<Byte>, size: nat) {
    && 0 < |id| <= IDENTIFIER_MAXIMUM && |id| < size
    && forall i :: 0 <= i < |id| ==> IdentifierByte(id[i], i)
  }

  function UntilQuote(s: seq<Byte>): (n: nat)
    ensures n <= |s|
    ensures n < |s| ==> s[n] == QUOTE
    ensures forall i :: 0 <= i < n ==> s[i] != QUOTE
  {
    if s == [] || s[0] == QUOTE then 0 else 1 + UntilQuote(s[1..])
  }

  function ParseIdentifier(s: seq<Byte>, size: nat): (r: Parsed<seq<Byte>>)
    ensures r.Some? ==> IsIdentifier(r.value.0, size) && s == PrintExact(r.value.0, r.value.1)
  {
    var s :- Expect(s, [QUOTE]);
    var n := UntilQuote(s);
    if !IsIdentifier(s[..n], size) then None
    else
      var rest :- Expect(s[n..], [QUOTE]);
      assert s == s[..n] + s[n..];
      Some((s[..n], rest))
  }

  lemma IdentifierPrinted(id: seq<Byte>, size: nat, rest: seq<Byte>)
    requires IsIdentifier(id, size)
    ensures ParseIdentifier(PrintExact(id, rest), size) == Some((id, rest))
  {
    var s := id + ([QUOTE] + rest);
    ExpectPrinted([QUOTE], s);
    assert UntilQuote(s) == |id| by {
      assert s[|id|] == QUOTE;
      assert forall i :: 0 <= i < |id| ==> s[i] == id[i] && id[i] != QUOTE;
    }
    assert s[..|id|] == id && s[|id|..] == [QUOTE] + rest;
    ExpectPrinted([QUOTE], rest);
  }

  // ---------------------------------------------------------------- digests

  predicate IsDigest(d: seq<Byte>) {
    |d| == DIGEST_SIZE
  }

  predicate IsHex(b: Byte) {
    '0' as int <= b <= '9' as int || 'a' as int <= b <= 'f' as int
  }

  function HexValue(b: Byte): (v: nat)
    requires IsHex(b)
    ensures v < 16
  {
    if b <= '9' as int then b - '0' as int else b - 'a' as int + 10
  }

  function HexDigit(v: nat): (b: Byte)
    requires v < 16
    ensures IsHex(b) && HexValue(b) == v
  {
    if v < 10 then '0' as int + v else 'a' as int + v - 10
  }

  function Hex(d: seq<Byte>, rest: seq<Byte>): seq<Byte> {
    if d == [] then rest else [HexDigit(d[0] / 16), HexDigit(d[0] % 16)] + Hex(d[1..], rest)
  }

  function ParseHex(s: seq<Byte>, n: nat): (r: Parsed<seq<Byte>>)
    ensures r.Some? ==> |r.value.0| == n
  {
    if n == 0 then Some(([], s))
    else if |s| < 2 || !IsHex(s[0]) || !IsHex(s[1]) then None
    else
      var (d, rest) :- ParseHex(s[2..], n - 1);
      Some(([16 * HexValue(s[0]) + HexValue(s[1])] + d, rest))
  }

  lemma {:induction false} HexSound(s: seq<Byte>, n: nat)
    requires ParseHex(s, n).Some?
    ensures s == Hex(ParseHex(s, n).value.0, ParseHex(s, n).value.1)
  {
    if n > 0 {
      HexSound(s[2..], n - 1);
      var d := ParseHex(s[2..], n - 1).value.0;
      assert ParseHex(s, n).value.0[1..] == d;
      assert s == s[..2] + s[2..];
    }
  }

  lemma {:induction false} HexPrinted(d: seq<Byte>, rest: seq<Byte>)
    ensures ParseHex(Hex(d, rest), |d|) == Some((d, rest))
  {
    if d != [] {
      HexPrinted(d[1..], rest);
      assert Hex(d, rest)[2..] == Hex(d[1..], rest);
      assert d == [d[0]] + d[1..];
    }
  }

  function PrintDigest(d: seq<Byte>, rest: seq<Byte>): seq<Byte> {
    [QUOTE] + Hex(d, [QUOTE] + rest)
  }

  function ParseDigest(s: seq<Byte>): (r: Parsed<seq<Byte>>)
    ensures r.Some? ==> IsDigest(r.value.0) && s == PrintDigest(r.value.0, r.value.1)
  {
    var s :- Expect(s, [QUOTE]);
    var (d, t) :- ParseHex(s, DIGEST_SIZE);
    var rest :- Expect(t, [QUOTE]);
    HexSound(s, DIGEST_SIZE);
    Some((d, rest))
  }

  const NULL: seq<Byte> := [110, 117, 108, 108]

  function PrintOptionalDigest(d: Option<seq<Byte>>, rest: seq<Byte>): seq<Byte> {
    if d.None? then NULL + rest else PrintDigest(d.value, rest)
  }

  predicate IsOptionalDigest(d: Option<seq<Byte>>) {
    d.Some? ==> IsDigest(d.value)
  }

  function ParseOptionalDigest(s: seq<Byte>): (r: Parsed<Option<seq<Byte>>>)
    ensures r.Some? ==> IsOptionalDigest(r.value.0) && s == PrintOptionalDigest(r.value.0, r.value.1)
  {
    if NULL <= s then Some((None, s[4..]))
    else
      var (d, s) :- ParseDigest(s);
      Some((Some(d), s))
  }

  lemma OptionalDigestPrinted(d: Option<seq<Byte>>, rest: seq<Byte>)
    requires IsOptionalDigest(d)
    ensures ParseOptionalDigest(PrintOptionalDigest(d, rest)) == Some((d, rest))
  {
    if d.Some? {
      ExpectPrinted([QUOTE], Hex(d.value, [QUOTE] + rest));
      HexPrinted(d.value, [QUOTE] + rest);
      ExpectPrinted([QUOTE], rest);
      assert PrintDigest(d.value, rest)[0] == QUOTE;
    } else {
      ExpectPrinted(NULL, rest);
    }
  }

  // ---------------------------------------------------------------- numbers

  predicate IsDigit(b: Byte) {
    '0' as int <= b <= '9' as int
  }

  function Decimal(n: nat): (s: seq<Byte>)
    ensures s != []
  {
    if n < 10 then ['0' as int + n] else Decimal(n / 10) + ['0' as int + n % 10]
  }

  predicate StartsWithDigit(s: seq<Byte>) {
    s != [] && IsDigit(s[0])
  }

  /** Read digits after `value`; `first` holds until a digit was read. */
  function ParseDigits(s: seq<Byte>, value: nat, first: bool): Parsed<nat> {
    if !StartsWithDigit(s) then if first then None else Some((value, s))
    else
      var digit := s[0] - '0' as int;
      if first && digit == 0 then None
      else if 10 * value + digit > GENERATION_MAXIMUM then None
      else ParseDigits(s[1..], 10 * value + digit, false)
  }

  lemma {:induction false} DigitsSound(s: seq<Byte>, value: nat)
    requires value > 0 && ParseDigits(s, value, false).Some?
    ensures var (v, rest) := ParseDigits(s, value, false).value;
            value <= v && Decimal(value) + s == Decimal(v) + rest && !StartsWithDigit(rest)
            && (value <= GENERATION_MAXIMUM ==> v <= GENERATION_MAXIMUM)
  {
    if StartsWithDigit(s) {
      var value' := 10 * value + (s[0] - '0' as int);
      DigitsSound(s[1..], value');
      assert Decimal(value') + s[1..] == Decimal(value) + s;
    }
  }

  lemma {:induction false} DigitsPrinted(v: nat, rest: seq<Byte>)
    requires 1 <= v <= GENERATION_MAXIMUM
    ensures ParseDigits(Decimal(v) + rest, 0, true) == ParseDigits(rest, v, false)
  {
    if v < 10 {
      assert (Decimal(v) + rest)[1..] == rest;
    } else {
      var last: seq<Byte> := ['0' as int + v % 10];
      assert Decimal(v) + rest == Decimal(v / 10) + (last + rest);
      DigitsPrinted(v / 10, last + rest);
      assert (last + rest)[1..] == rest;
    }
  }

  predicate IsNumber(n: nat) {
    1 <= n <= GENERATION_MAXIMUM
  }

  function ParseNumber(s: seq<Byte>): (r: Parsed<nat>)
    ensures r.Some? ==> IsNumber(r.value.0) && s == Decimal(r.value.0) + r.value.1
  {
    var r := ParseDigits(s, 0, true);
    assert r.Some? ==> IsNumber(r.value.0) && s == Decimal(r.value.0) + r.value.1 by {
      if r.Some? {
        DigitsSound(s[1..], s[0] - '0' as int);
        assert s == Decimal(s[0] - '0' as int) + s[1..];
      }
    }
    r
  }

  lemma NumberPrinted(n: nat, rest: seq<Byte>)
    requires IsNumber(n) && !StartsWithDigit(rest)
    ensures ParseNumber(Decimal(n) + rest) == Some((n, rest))
  {
    DigitsPrinted(n, rest);
  }

  function PrintOptionalNumber(n: Option<nat>, rest: seq<Byte>): seq<Byte> {
    if n.None? then NULL + rest else Decimal(n.value) + rest
  }

  predicate IsOptionalNumber(n: Option<nat>) {
    n.Some? ==> IsNumber(n.value)
  }

  function ParseOptionalNumber(s: seq<Byte>): (r: Parsed<Option<nat>>)
    ensures r.Some? ==> IsOptionalNumber(r.value.0) && s == PrintOptionalNumber(r.value.0, r.value.1)
  {
    if NULL <= s then Some((None, s[4..]))
    else
      var (n, s) :- ParseNumber(s);
      Some((Some(n), s))
  }

  lemma {:induction false} DecimalStartsWithDigit(n: nat)
    ensures IsDigit(Decimal(n)[0])
  {
    if n >= 10 {
      DecimalStartsWithDigit(n / 10);
    }
  }

  lemma OptionalNumberPrinted(n: Option<nat>, rest: seq<Byte>)
    requires IsOptionalNumber(n) && !StartsWithDigit(rest)
    ensures ParseOptionalNumber(PrintOptionalNumber(n, rest)) == Some((n, rest))
  {
    if n.Some? {
      DecimalStartsWithDigit(n.value);
      NumberPrinted(n.value, rest);
    } else {
      ExpectPrinted(NULL, rest);
    }
  }
}
