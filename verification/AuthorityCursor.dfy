/** The cursor that the authority parser moves over a loaded file, and the two document parsers.

Every cursor method is proved against the parser function of the same name: it succeeds exactly when
the function does, with the same value and the same bytes left to read.
*/
module AuthorityCursor {
  import opened Bytes
  import P = AuthorityParsers
  import D = AuthorityDocuments
  import Base64

  class Cursor {
    const bytes: seq<Byte>
    var offset: nat

    constructor (bytes: seq<Byte>)
      ensures this.bytes == bytes && offset == 0
    {
      this.bytes := bytes;
      offset := 0;
    }

    ghost predicate Valid()
      reads this
    {
      offset <= |bytes|
    }

    /** The bytes not yet read. */
    ghost function Rest(): seq<Byte>
      requires Valid()
      reads this
    {
      bytes[offset..]
    }

    method Expect(literal: seq<Byte>) returns (ok: bool)
      requires Valid()
      modifies this
      ensures Valid()
      ensures ok == P.Expect(old(Rest()), literal).Some?
      ensures ok ==> Rest() == P.Expect(old(Rest()), literal).value
    {
      assert |literal| <= |bytes| - offset ==> Rest()[..|literal|] == bytes[offset..offset + |literal|];
      if |literal| > |bytes| - offset || bytes[offset..offset + |literal|] != literal {
        return false;
      }
      offset := offset + |literal|;
      return true;
    }

    method ParseExact(text: seq<Byte>) returns (ok: bool)
      requires Valid()
      modifies this
      ensures Valid()
      ensures ok == P.ParseExact(old(Rest()), text).Some?
      ensures ok ==> Rest() == P.ParseExact(old(Rest()), text).value
    {
      ok := Expect([P.QUOTE]);
      if ok {
        ok := Expect(text);
      }
      if ok {
        ok := Expect([P.QUOTE]);
      }
    }

    method ParseIdentifier(size: nat) returns (ok: bool, id: seq<Byte>)
      requires Valid()
      modifies this
      ensures Valid()
      ensures ok == P.ParseIdentifier(old(Rest()), size).Some?
      ensures ok ==> (id, Rest()) == P.ParseIdentifier(old(Rest()), size).value
    {
      hide P.UntilQuote, P.IdentifierByte;
      id := [];
      ok := Expect([P.QUOTE]);
      if !ok {
        return;
      }
      ghost var s := Rest();
      ghost var start := offset;
      while offset < |bytes| && bytes[offset] != P.QUOTE
        invariant Valid() && offset == start + |id| && start <= |bytes| && s == bytes[start..]
        invariant |id| <= P.UntilQuote(s) && id == s[..|id|]
        invariant |id| > 0 ==> |id| <= P.IDENTIFIER_MAXIMUM && |id| < size
        invariant forall i :: 0 <= i < |id| ==> P.IdentifierByte(id[i], i)
      {
        assert bytes[offset] == s[|id|] && |id| < P.UntilQuote(s);
        if |id| >= P.IDENTIFIER_MAXIMUM || |id| + 1 >= size || !P.IdentifierByte(bytes[offset], |id|) {
          assert s[..P.UntilQuote(s)][|id|] == s[|id|];
          return false, id;
        }
        id := id + [bytes[offset]];
        offset := offset + 1;
      }
      assert offset < |bytes| ==> s[|id|] == bytes[offset];
      assert |id| == P.UntilQuote(s);
      assert Rest() == s[|id|..];
      if |id| == 0 {
        return false, id;
      }
      ok := Expect([P.QUOTE]);
    }

    /** The loop over the n bytes of a digest field. */
    method ParseHex(n: nat) returns (ok: bool, digest: seq<Byte>)
      requires Valid()
      modifies this
      ensures Valid()
      ensures ok == P.ParseHex(old(Rest()), n).Some?
      ensures ok ==> (digest, Rest()) == P.ParseHex(old(Rest()), n).value
    {
      digest := [];
      ghost var s := bytes[offset..];
      ghost var t := s;
      for index := 0 to n
        invariant Valid() && |digest| == index && t == bytes[offset..]
        invariant P.ParseHex(s, n) == Prepend(digest, P.ParseHex(t, n - index))
      {
        if offset + 2 > |bytes| || !P.IsHex(bytes[offset]) || !P.IsHex(bytes[offset + 1]) {
          return false, digest;
        }
        PrependHex(digest, t, n - index);
        digest := digest + [16 * P.HexValue(bytes[offset]) + P.HexValue(bytes[offset + 1])];
        offset, t := offset + 2, t[2..];
      }
      assert digest + [] == digest;
      ok := true;
    }

    method ParseOptionalDigest() returns (ok: bool, d: Option<seq<Byte>>)
      requires Valid()
      modifies this
      ensures Valid()
      ensures ok == P.ParseOptionalDigest(old(Rest())).Some?
      ensures ok ==> (d, Rest()) == P.ParseOptionalDigest(old(Rest())).value
    {
      d := None;
      assert offset + 4 <= |bytes| ==> Rest()[..4] == bytes[offset..offset + 4];
      if offset + 4 <= |bytes| && bytes[offset..offset + 4] == P.NULL {
        offset := offset + 4;
        return true, None;
      }
      assert !(P.NULL <= Rest());
      ok := Expect([P.QUOTE]);
      if !ok {
        return;
      }
      var digest;
      ok, digest := ParseHex(P.DIGEST_SIZE);
      if ok {
        ok := Expect([P.QUOTE]);
      }
      d := Some(digest);
    }

    method ParseNumber() returns (ok: bool, value: nat)
      requires Valid()
      modifies this
      ensures Valid()
      ensures ok == P.ParseNumber(old(Rest())).Some?
      ensures ok ==> (value, Rest()) == P.ParseNumber(old(Rest())).value
    {
      value := 0;
      var digits := 0;
      while offset < |bytes| && P.IsDigit(bytes[offset])
        invariant Valid()
        invariant P.ParseDigits(old(Rest()), 0, true) == P.ParseDigits(Rest(), value, digits == 0)
      {
        var digit := bytes[offset] - '0' as int;
        if digits == 0 && digit == 0 {
          return false, value;
        }
        value := 10 * value + digit;
        if value > P.GENERATION_MAXIMUM {
          return false, value;
        }
        offset := offset + 1;
        digits := digits + 1;
      }
      ok := digits != 0;
    }

    method ParseOptionalNumber() returns (ok: bool, n: Option<nat>)
      requires Valid()
      modifies this
      ensures Valid()
      ensures ok == P.ParseOptionalNumber(old(Rest())).Some?
      ensures ok ==> (n, Rest()) == P.ParseOptionalNumber(old(Rest())).value
    {
      assert offset + 4 <= |bytes| ==> Rest()[..4] == bytes[offset..offset + 4];
      if offset + 4 <= |bytes| && bytes[offset..offset + 4] == P.NULL {
        offset := offset + 4;
        return true, None;
      }
      assert !(P.NULL <= Rest());
      var value;
      ok, value := ParseNumber();
      n := Some(value);
    }

    /** The decoding loop over the groups of a key field. */
    method DecodeGroups(size: nat) returns (ok: bool, key: seq<Byte>)
      requires Valid() && Base64.EncodedSize(size) <= |Rest()|
      modifies this
      ensures Valid()
      ensures ok == Base64.DecodeGroups(old(Rest()), size).Some?
      ensures ok ==> (key, Rest()) == Base64.DecodeGroups(old(Rest()), size).value
    {
      key := [];
      var groups := (size + 2) / 3;
      ghost var s := bytes[offset..];
      ghost var t := s;
      for group := 0 to groups
        invariant Valid() && t == bytes[offset..] && |key| <= size && groups - group == (size - |key| + 2) / 3
        invariant 4 * (groups - group) <= |bytes| - offset
        invariant Base64.DecodeGroups(s, size) == Prepend(key, Base64.DecodeGroups(t, size - |key|))
      {
        var decoded :=
          Base64.DecodeGroup(bytes[offset], bytes[offset + 1], bytes[offset + 2], bytes[offset + 3], size - |key|);
        if decoded.None? {
          return false, key;
        }
        PrependDecoded(key, t, size - |key|);
        key := key + decoded.value;
        offset, t := offset + 4, t[4..];
      }
      assert key + [] == key;
      ok := true;
    }

    method ParseKey(size: nat) returns (ok: bool, key: seq<Byte>)
      requires Valid()
      modifies this
      ensures Valid()
      ensures ok == D.ParseKey(old(Rest()), size).Some?
      ensures ok ==> (key, Rest()) == D.ParseKey(old(Rest()), size).value
    {
      key := [];
      ok := Expect([P.QUOTE]);
      if !ok {
        return;
      }
      if Base64.EncodedSize(size) > |bytes| - offset {
        if Base64.DecodeGroups(Rest(), size).Some? {
          Base64.DecodeConsumes(Rest(), size);
        }
        return false, key;
      }
      ok, key := DecodeGroups(size);
      if ok {
        ok := Expect([P.QUOTE]);
      }
    }

    method ReadLineage() returns (r: Option<D.Lineage>)
      requires Valid()
      modifies this
      ensures Valid()
      ensures r.Some? <==> D.ParseLineage(old(Rest())).Some?
      ensures r.Some? ==> (r.value, Rest()) == D.ParseLineage(old(Rest())).value
    {
      r := None;
      var ok := Expect(D.PREDECESSOR_MANIFEST);
      if !ok { return; }
      var predecessor;
      ok, predecessor := ParseOptionalDigest();
      if !ok { return; }
      ok := Expect(D.RECOVERY_ID);
      if !ok { return; }
      var recoveryKeyId;
      ok, recoveryKeyId := ParseIdentifier(D.NAME_SIZE);
      if !ok { return; }
      ok := Expect(D.RECOVERY_KEY);
      if !ok { return; }
      var recoveryKey;
      ok, recoveryKey := ParseKey(D.KEY_SIZE);
      if !ok { return; }
      ok := Expect(D.ROOT_ID);
      if !ok { return; }
      var rootKeyId;
      ok, rootKeyId := ParseIdentifier(D.NAME_SIZE);
      if !ok { return; }
      ok := Expect(D.SERVICE);
      if !ok { return; }
      ok := ParseExact(D.TRANSPORT_SERVICE);
      if !ok { return; }
      ok := Expect(D.COMMA);
      if !ok { return; }
      r := Some((predecessor, recoveryKeyId, recoveryKey, rootKeyId));
    }

    method ReadManifestHead() returns (r: Option<D.ManifestHead>)
      requires Valid()
      modifies this
      ensures Valid()
      ensures r.Some? <==> D.ParseManifestHead(old(Rest())).Some?
      ensures r.Some? ==> (r.value, Rest()) == D.ParseManifestHead(old(Rest())).value
    {
      hide P.Expect, P.ParseExact, P.ParseIdentifier, P.ParseNumber, P.ParseOptionalDigest, P.ParseOptionalNumber,
           D.ParseKey, D.ParseLineage;
      r := None;
      var ok := Expect(D.CONTRACT);
      if !ok { return; }
      ok := ParseExact(D.MANIFEST_CONTRACT);
      if !ok { return; }
      ok := Expect(D.ENVIRONMENT);
      if !ok { return; }
      var environment;
      ok, environment := ParseIdentifier(D.NAME_SIZE);
      if !ok { return; }
      ok := Expect(D.GENERATION);
      if !ok { return; }
      var generation;
      ok, generation := ParseNumber();
      if !ok { return; }
      ok := Expect(D.HOST_ID);
      if !ok { return; }
      var hostKeyId;
      ok, hostKeyId := ParseIdentifier(D.NAME_SIZE);
      if !ok { return; }
      ok := Expect(D.HOST_KEY);
      if !ok { return; }
      var hostKey;
      ok, hostKey := ParseKey(D.KEY_SIZE);
      if !ok { return; }
      var lineage := ReadLineage();
      if lineage.None? { return; }
      var (predecessor, recoveryKeyId, recoveryKey, rootKeyId) := lineage.value;
      r := Some(D.ManifestHead(environment, generation, hostKeyId, hostKey, predecessor, recoveryKeyId, recoveryKey,
                               rootKeyId));
    }

    method ReadChoice() returns (r: Option<D.Choice>)
      requires Valid()
      modifies this
      ensures Valid()
      ensures r.Some? <==> D.ParseChoice(old(Rest())).Some?
      ensures r.Some? ==> (r.value, Rest()) == D.ParseChoice(old(Rest())).value
    {
      r := None;
      var ok := Expect(D.RECOVERY_MANIFEST);
      if !ok { return; }
      var recovery;
      ok, recovery := ParseOptionalDigest();
      if !ok { return; }
      ok := Expect(D.SELECTED_GENERATION);
      if !ok { return; }
      var selectedGeneration;
      ok, selectedGeneration := ParseOptionalNumber();
      if !ok { return; }
      ok := Expect(D.SELECTED_MANIFEST);
      if !ok { return; }
      var selectedManifest;
      ok, selectedManifest := ParseOptionalDigest();
      if !ok { return; }
      ok := Expect(D.SEQUENCE);
      if !ok { return; }
      var sequence;
      ok, sequence := ParseNumber();
      if !ok { return; }
      ok := Expect(D.SERVICE);
      if !ok { return; }
      ok := ParseExact(D.TRANSPORT_SERVICE);
      if !ok { return; }
      ok := Expect(D.COMMA);
      if !ok { return; }
      r := Some((recovery, selectedGeneration, selectedManifest, sequence));
    }

    method ReadSelectionHead() returns (r: Option<D.SelectionHead>)
      requires Valid()
      modifies this
      ensures Valid()
      ensures r.Some? <==> D.ParseSelectionHead(old(Rest())).Some?
      ensures r.Some? ==> (r.value, Rest()) == D.ParseSelectionHead(old(Rest())).value
    {
      hide P.Expect, P.ParseExact, P.ParseIdentifier, P.ParseNumber, P.ParseOptionalDigest, P.ParseOptionalNumber,
           D.ParseKey, D.ParseChoice;
      r := None;
      var ok := Expect(D.CONTRACT);
      if !ok { return; }
      ok := ParseExact(D.SELECTION_CONTRACT);
      if !ok { return; }
      ok := Expect(D.DISPOSITION);
      if !ok { return; }
      var disposition;
      ok, disposition := ParseIdentifier(D.CODE_SIZE);
      if !ok { return; }
      ok := Expect(D.ENVIRONMENT);
      if !ok { return; }
      var environment;
      ok, environment := ParseIdentifier(D.NAME_SIZE);
      if !ok { return; }
      ok := Expect(D.PREDECESSOR_SELECTION);
      if !ok { return; }
      var predecessor;
      ok, predecessor := ParseOptionalDigest();
      if !ok { return; }
      ok := Expect(D.REASON);
      if !ok { return; }
      var reason;
      ok, reason := ParseIdentifier(D.CODE_SIZE);
      if !ok { return; }
      var choice := ReadChoice();
      if choice.None? { return; }
      var (recovery, selectedGeneration, selectedManifest, sequence) := choice.value;
      r := Some(D.SelectionHead(disposition, environment, predecessor, reason, recovery, selectedGeneration,
                                selectedManifest, sequence));
    }

    method ReadSignature() returns (ok: bool, signature: seq<Byte>)
      requires Valid()
      modifies this
      ensures Valid()
      ensures ok == D.ParseSignature(old(Rest())).Some?
      ensures ok ==> (signature, Rest()) == D.ParseSignature(old(Rest())).value
    {
      signature := [];
      ok := Expect(D.SIGNATURE);
      if !ok { return; }
      ok, signature := ParseKey(D.SIGNATURE_SIZE);
      if !ok { return; }
      ok := Expect(D.COMMA);
    }

    /** The end of a document: the last literal, and nothing after it. */
    method ExpectEnd() returns (ok: bool)
      requires Valid()
      modifies this
      ensures Valid()
      ensures ok <==> old(Rest()) == D.END
    {
      P.ExpectPrinted(D.END, []);
      assert D.END + [] == D.END;
      ok := Expect(D.END);
      if ok && offset != |bytes| {
        assert Rest() != [];
        return false;
      }
    }

    method ReadManifestTail() returns (r: Option<D.ManifestTail>)
      requires Valid()
      modifies this
      ensures Valid()
      ensures r == D.ParseManifestTail(old(Rest()))
    {
      r := None;
      var ok := Expect(D.STATUS);
      if !ok { return; }
      ok := ParseExact(D.MANIFEST_STATUS);
      if !ok { return; }
      ok := Expect(D.SUPERVISOR_ID);
      if !ok { return; }
      var supervisorKeyId;
      ok, supervisorKeyId := ParseIdentifier(D.NAME_SIZE);
      if !ok { return; }
      ok := Expect(D.SUPERVISOR_KEY);
      if !ok { return; }
      var supervisorKey;
      ok, supervisorKey := ParseKey(D.KEY_SIZE);
      if !ok { return; }
      ok := ExpectEnd();
      if !ok { return; }
      r := Some(D.ManifestTail(supervisorKeyId, supervisorKey));
    }

    method ReadSelectionTail() returns (ok: bool)
      requires Valid()
      modifies this
      ensures Valid()
      ensures ok <==> old(Rest()) == D.SelectionTail()
    {
      P.ExpectPrinted(D.STATUS, P.PrintExact(D.SELECTION_STATUS, D.END));
      P.ExactPrinted(D.SELECTION_STATUS, D.END);
      ok := Expect(D.STATUS);
      if !ok { return; }
      ok := ParseExact(D.SELECTION_STATUS);
      if !ok { return; }
      ok := ExpectEnd();
    }
  }

  lemma PrependHex(digest: seq<Byte>, s: seq<Byte>, n: nat)
    requires n > 0 && |s| >= 2 && P.IsHex(s[0]) && P.IsHex(s[1])
    ensures Prepend(digest, P.ParseHex(s, n))
         == Prepend(digest + [16 * P.HexValue(s[0]) + P.HexValue(s[1])], P.ParseHex(s[2..], n - 1))
  {
    var b: seq<Byte> := [16 * P.HexValue(s[0]) + P.HexValue(s[1])];
    var tail := P.ParseHex(s[2..], n - 1);
    assert tail.Some? ==> digest + (b + tail.value.0) == (digest + b) + tail.value.0;
  }

  lemma PrependDecoded(key: seq<Byte>, s: seq<Byte>, n: nat)
    requires n > 0 && |s| >= 4 && Base64.DecodeGroup(s[0], s[1], s[2], s[3], n).Some?
    ensures var g := Base64.DecodeGroup(s[0], s[1], s[2], s[3], n).value;
            Prepend(key, Base64.DecodeGroups(s, n)) == Prepend(key + g, Base64.DecodeGroups(s[4..], n - |g|))
  {
    var g := Base64.DecodeGroup(s[0], s[1], s[2], s[3], n).value;
    var tail := Base64.DecodeGroups(s[4..], n - |g|);
    assert tail.Some? ==> key + (g + tail.value.0) == (key + g) + tail.value.0;
  }

  /** A parse continued after a prefix was read. */
  ghost function Prepend(prefix: seq<Byte>, r: P.Parsed<seq<Byte>>): (p: P.Parsed<seq<Byte>>)
    ensures prefix == [] ==> p == r
  {
    if r.None? then None
    else
      assert prefix == [] ==> prefix + r.value.0 == r.value.0;
      Some((prefix + r.value.0, r.value.1))
  }

  /** The three groups of a manifest's fields, and the bytes around its signature field. */
  method ReadManifest(bytes: seq<Byte>) returns (r: Option<D.Manifest>, unsigned: seq<Byte>)
    ensures r == D.ReadManifest(bytes)
    ensures r.Some? ==> unsigned == D.UnsignedManifest(r.value)
  {
    hide D.ParseManifestHead, D.ParseSignature, D.ParseManifestTail;
    r, unsigned := None, [];
    var cursor := new Cursor(bytes);
    assert cursor.Rest() == bytes;
    var head := cursor.ReadManifestHead();
    if head.None? { return; }
    var signatureStart := cursor.offset;
    ghost var signed := cursor.Rest();
    var ok, signature := cursor.ReadSignature();
    if !ok { return; }
    var signatureEnd := cursor.offset;
    var tail := cursor.ReadManifestTail();
    if tail.None? { return; }
    r := Some(D.Manifest(head.value, signature, tail.value));
    unsigned := bytes[..signatureStart] + bytes[signatureEnd..];
    D.CutManifest(bytes, head.value, signed, bytes[signatureEnd..]);
  }

  method ParseManifest(bytes: seq<Byte>, pins: D.Pins, verify: D.Verifier) returns (r: D.Verdict<D.Manifest>)
    ensures r == D.JudgeManifest(bytes, pins, verify)
  {
    var m, unsigned := ReadManifest(bytes);
    if m.None? || !D.AdmissibleManifest(m.value, pins) {
      return D.Malformed;
    }
    r := if verify(m.value.signature, D.SignatureInput(D.MANIFEST_DOMAIN, unsigned)) then D.Accepted(m.value)
    else D.SignatureRejected;
  }

  method ReadSelection(bytes: seq<Byte>) returns (r: Option<D.Selection>, unsigned: seq<Byte>)
    ensures r == D.ReadSelection(bytes)
    ensures r.Some? ==> unsigned == D.UnsignedSelection(r.value)
  {
    hide D.ParseSelectionHead, D.ParseSignature;
    r, unsigned := None, [];
    var cursor := new Cursor(bytes);
    assert cursor.Rest() == bytes;
    var head := cursor.ReadSelectionHead();
    if head.None? { return; }
    var signatureStart := cursor.offset;
    ghost var signed := cursor.Rest();
    var ok, signature := cursor.ReadSignature();
    if !ok { return; }
    var signatureEnd := cursor.offset;
    ok := cursor.ReadSelectionTail();
    if !ok { return; }
    r := Some(D.Selection(head.value, signature));
    unsigned := bytes[..signatureStart] + bytes[signatureEnd..];
    D.CutSelection(bytes, head.value, signed, bytes[signatureEnd..]);
  }

  method ParseSelection(bytes: seq<Byte>, pins: D.Pins, verify: D.Verifier) returns (r: D.Verdict<D.Selection>)
    ensures r == D.JudgeSelection(bytes, pins, verify)
  {
    var s, unsigned := ReadSelection(bytes);
    if s.None? || !D.AdmissibleSelection(s.value, pins) {
      return D.Malformed;
    }
    r := if verify(s.value.signature, D.SignatureInput(D.SELECTION_DOMAIN, unsigned)) then D.Accepted(s.value)
    else D.SignatureRejected;
  }
}
