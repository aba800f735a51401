/** Base64 (section 4 of RFC 4648) as the authority parser decodes it: padding exactly where the
decoded length calls for it, and pad bits zero (section 3.5 of RFC 4648).
*/
module Base64 {
  import opened Bytes

  const PAD: Byte := 61

  predicate IsBase64(b: Byte) {
    'A' as int <= b <= 'Z' as int || 'a' as int <= b <= 'z' as int || '0' as int <= b <= '9' as int
    || b == '+' as int || b == '/' as int
  }

  function Value(b: Byte): (v: nat)
    requires IsBase64(b)
    ensures v < 64
  {
    if 'A' as int <= b <= 'Z' as int then b - 'A' as int
    else if 'a' as int <= b <= 'z' as int then b - 'a' as int + 26
    else if '0' as int <= b <= '9' as int then b - '0' as int + 52
    else if b == '+' as int then 62
    else 63
  }

  function Digit(v: nat): (b: Byte)
    requires v < 64
    ensures IsBase64(b) && Value(b) == v && b != PAD
  {
    if v < 26 then 'A' as int + v
    else if v < 52 then 'a' as int + v - 26
    else if v < 62 then '0' as int + v - 52
    else if v == 62 then '+' as int
    else '/' as int
  }

  lemma DigitOfValue(b: Byte)
    requires IsBase64(b)
    ensures Digit(Value(b)) == b && b != PAD
  {
  }

  // ---------------------------------------------------------------- encoding

  function EncodeGroup(d: seq<Byte>): (g: seq<Byte>)
    requires 1 <= |d| <= 3
    ensures |g| == 4
  {
    if |d| == 1 then [Digit(d[0] / 4), Digit(d[0] % 4 * 16), PAD, PAD]
    else if |d| == 2 then [Digit(d[0] / 4), Digit(d[0] % 4 * 16 + d[1] / 16), Digit(d[1] % 16 * 4), PAD]
    else [Digit(d[0] / 4), Digit(d[0] % 4 * 16 + d[1] / 16), Digit(d[1] % 16 * 4 + d[2] / 64), Digit(d[2] % 64)]
  }

  function Encode(d: seq<Byte>, rest: seq<Byte>): seq<Byte> {
    if d == [] then rest
    else if |d| <= 3 then EncodeGroup(d) + rest
    else EncodeGroup(d[..3]) + Encode(d[3..], rest)
  }

  // ---------------------------------------------------------------- decoding

  predicate ValueOrPad(b: Byte) {
    b == PAD || IsBase64(b)
  }

  function PaddedValue(b: Byte): (v: nat)
    requires ValueOrPad(b)
    ensures v < 64
  {
    if b == PAD then 0 else Value(b)
  }

  /** One group of four characters of which `remaining` bytes are still wanted. */
  function DecodeGroup(c0: Byte, c1: Byte, c2: Byte, c3: Byte, remaining: nat): (r: Option<seq<Byte>>)
    requires remaining > 0
    ensures r.Some? ==> |r.value| == if remaining < 3 then remaining else 3
  {
    if !IsBase64(c0) || !IsBase64(c1) || !ValueOrPad(c2) || !ValueOrPad(c3)
       || (c2 == PAD) != (remaining < 2) || (c3 == PAD) != (remaining < 3) then None
    else
      var v0, v1, v2, v3 := Value(c0), Value(c1), PaddedValue(c2), PaddedValue(c3);
      if remaining == 1 then if v1 % 16 != 0 then None else Some([4 * v0 + v1 / 16])
      else if remaining == 2 then if v2 % 4 != 0 then None else Some([4 * v0 + v1 / 16, v1 % 16 * 16 + v2 / 4])
      else Some([4 * v0 + v1 / 16, v1 % 16 * 16 + v2 / 4, v2 % 4 * 64 + v3])
  }

  function DecodeGroups(s: seq<Byte>, n: nat): (r: Option<(seq<Byte>, seq<Byte>)>)
    ensures r.Some? ==> |r.value.0| == n
  {
    if n == 0 then Some(([], s))
    else if |s| < 4 then None
    else
      var group :- DecodeGroup(s[0], s[1], s[2], s[3], n);
      var (d, rest) :- DecodeGroups(s[4..], n - |group|);
      Some((group + d, rest))
  }

  lemma GroupRoundTrip(d: seq<Byte>, remaining: nat)
    requires 1 <= |d| <= 3 && |d| == if remaining < 3 then remaining else 3
    ensures var g := EncodeGroup(d); DecodeGroup(g[0], g[1], g[2], g[3], remaining) == Some(d)
  {
    var g := EncodeGroup(d);
    var v0, v1 := Value(g[0]), Value(g[1]);
    assert d[0] == 4 * v0 + v1 / 16;
    if |d| == 2 {
      var v2 := Value(g[2]);
      assert d[1] == v1 % 16 * 16 + v2 / 4;
      assert d == [d[0], d[1]];
    } else if |d| == 3 {
      var v2, v3 := Value(g[2]), Value(g[3]);
      assert d[1] == v1 % 16 * 16 + v2 / 4 && d[2] == v2 % 4 * 64 + v3;
      assert d == [d[0], d[1], d[2]];
    } else {
      assert d == [d[0]];
    }
  }

  lemma GroupCanonical(c0: Byte, c1: Byte, c2: Byte, c3: Byte, remaining: nat)
    requires remaining > 0 && DecodeGroup(c0, c1, c2, c3, remaining).Some?
    ensures EncodeGroup(DecodeGroup(c0, c1, c2, c3, remaining).value) == [c0, c1, c2, c3]
  {
    var d := DecodeGroup(c0, c1, c2, c3, remaining).value;
    var v0, v1 := Value(c0), Value(c1);
    DigitOfValue(c0);
    DigitOfValue(c1);
    assert d[0] / 4 == v0;
    if remaining == 1 {
      assert d[0] % 4 * 16 == v1;
    } else {
      var v2 := Value(c2);
      DigitOfValue(c2);
      assert d[0] % 4 * 16 + d[1] / 16 == v1;
      if remaining == 2 {
        assert d[1] % 16 * 4 == v2;
      } else {
        DigitOfValue(c3);
        assert d[1] % 16 * 4 + d[2] / 64 == v2 && d[2] % 64 == Value(c3);
      }
    }
  }

  lemma EncodeStep(group: seq<Byte>, d: seq<Byte>, rest: seq<Byte>)
    requires 1 <= |group| <= 3 && (|group| < 3 ==> d == [])
    ensures Encode(group + d, rest) == EncodeGroup(group) + Encode(d, rest)
  {
    if |group| < 3 {
      assert group + d == group;
    } else {
      assert (group + d)[..3] == group && (group + d)[3..] == d;
    }
  }

  /** Decoding inverts encoding. */
  lemma {:induction false} DecodeEncode(d: seq<Byte>, rest: seq<Byte>)
    ensures DecodeGroups(Encode(d, rest), |d|) == Some((d, rest))
    decreases |d|
  {
    if d != [] {
      var k := if |d| < 3 then |d| else 3;
      assert d == d[..k] + d[k..];
      EncodeStep(d[..k], d[k..], rest);
      GroupRoundTrip(d[..k], |d|);
      DecodeEncode(d[k..], rest);
      assert Encode(d, rest)[4..] == Encode(d[k..], rest);
    }
  }

  /** Encoding inverts decoding: only the canonical encoding is accepted. */
  lemma {:induction false} EncodeDecode(s: seq<Byte>, n: nat)
    requires DecodeGroups(s, n).Some?
    ensures var (d, rest) := DecodeGroups(s, n).value; Encode(d, rest) == s
    decreases n
  {
    if n > 0 {
      var group := DecodeGroup(s[0], s[1], s[2], s[3], n).value;
      GroupCanonical(s[0], s[1], s[2], s[3], n);
      EncodeDecode(s[4..], n - |group|);
      var (d, rest) := DecodeGroups(s[4..], n - |group|).value;
      EncodeStep(group, d, rest);
      assert s == s[..4] + s[4..] && s[..4] == [s[0], s[1], s[2], s[3]];
    }
  }

  /** For each length, exactly one encoding per value: decoding is injective and onto. */
  lemma DecodeInjective(s: seq<Byte>, t: seq<Byte>, n: nat)
    requires DecodeGroups(s, n).Some? && DecodeGroups(s, n) == DecodeGroups(t, n)
    ensures s == t
  {
    EncodeDecode(s, n);
    EncodeDecode(t, n);
  }

  /** The number of characters the parser reads for n bytes. */
  function EncodedSize(n: nat): nat {
    4 * ((n + 2) / 3)
  }

  lemma {:induction false} DecodeConsumes(s: seq<Byte>, n: nat)
    requires DecodeGroups(s, n).Some?
    ensures EncodedSize(n) <= |s| && DecodeGroups(s, n).value.1 == s[EncodedSize(n)..]
    decreases n
  {
    hide DecodeGroup;
    if n > 0 {
      var m := n - |DecodeGroup(s[0], s[1], s[2], s[3], n).value|;
      DecodeConsumes(s[4..], m);
      SizeStep(n, m);
      assert s[4..][EncodedSize(m)..] == s[4 + EncodedSize(m)..];
    }
  }

  lemma SizeStep(n: nat, m: nat)
    requires n > 0 && m == if n < 3 then 0 else n - 3
    ensures EncodedSize(n) == 4 + EncodedSize(m)
  {
  }
}
