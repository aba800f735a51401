/** The two signed documents of the transport authority: manifests and selections.

Parsing reads the fields in one fixed order with no freedom of layout, so a document is exactly the
printed form of its fields.  The signature covers the document with its signature field cut out.
*/
module AuthorityDocuments {
  import opened Bytes
  import opened AuthorityParsers
  import Base64

  const KEY_SIZE := 32
  const SIGNATURE_SIZE := 64
  const NAME_SIZE := IDENTIFIER_MAXIMUM + 1
  const CODE_SIZE := 32

  const CONTRACT := Ascii("{\"contract_version\":")
  const ENVIRONMENT := Ascii(",\"environment\":")
  const SERVICE := Ascii(",\"service\":")
  const TRANSPORT_SERVICE := Ascii("trusted-time-graceful-stop-transport-v2")
  const COMMA := Ascii(",")
  const SIGNATURE := Ascii("\"signature_ed25519_base64\":")
  const STATUS := Ascii("\"status\":")
  const END := Ascii("}\n")

  const MANIFEST_CONTRACT := Ascii("phase6d-trusted-time-graceful-stop-transport-authority-v1")
  const GENERATION := Ascii(",\"generation\":")
  const HOST_ID := Ascii(",\"host_key_id\":")
  const HOST_KEY := Ascii(",\"host_public_key_base64\":")
  const PREDECESSOR_MANIFEST := Ascii(",\"predecessor_manifest_sha256\":")
  const RECOVERY_ID := Ascii(",\"recovery_key_id\":")
  const RECOVERY_KEY := Ascii(",\"recovery_public_key_base64\":")
  const ROOT_ID := Ascii(",\"root_key_id\":")
  const MANIFEST_STATUS := Ascii("transport_authority_manifest_issued")
  const SUPERVISOR_ID := Ascii(",\"supervisor_key_id\":")
  const SUPERVISOR_KEY := Ascii(",\"supervisor_public_key_base64\":")
  const MANIFEST_DOMAIN := Ascii("AutoQuantTrader/trusted-time/graceful-stop/transport-authority/v1")

  const SELECTION_CONTRACT := Ascii("phase6d-trusted-time-graceful-stop-transport-authority-selection-v1")
  const DISPOSITION := Ascii(",\"disposition\":")
  const PREDECESSOR_SELECTION := Ascii(",\"predecessor_selection_sha256\":")
  const REASON := Ascii(",\"reason_code\":")
  const RECOVERY_MANIFEST := Ascii(",\"recovery_manifest_sha256\":")
  const SELECTED_GENERATION := Ascii(",\"selected_generation\":")
  const SELECTED_MANIFEST := Ascii(",\"selected_manifest_sha256\":")
  const SEQUENCE := Ascii(",\"selection_sequence\":")
  const SELECTION_STATUS := Ascii("transport_authority_selection_recorded")
  const SELECTION_DOMAIN := Ascii("AutoQuantTrader/trusted-time/graceful-stop/transport-authority-selection/v1")

  // ---------------------------------------------------------------- key fields

  function PrintKey(k: seq<Byte>, rest: seq<Byte>): seq<Byte> {
    [QUOTE] + Base64.Encode(k, [QUOTE] + rest)
  }

  function ParseKey(s: seq<Byte>, n: nat): (r: Parsed<seq<Byte>>)
    ensures r.Some? ==> |r.value.0| == n && s == PrintKey(r.value.0, r.value.1)
  {
    var s :- Expect(s, [QUOTE]);
    var (k, t) :- Base64.DecodeGroups(s, n);
    var rest :- Expect(t, [QUOTE]);
    Base64.EncodeDecode(s, n);
    Some((k, rest))
  }

  lemma KeyPrinted(k: seq<Byte>, rest: seq<Byte>)
    ensures ParseKey(PrintKey(k, rest), |k|) == Some((k, rest))
  {
    ExpectPrinted([QUOTE], Base64.Encode(k, [QUOTE] + rest));
    Base64.DecodeEncode(k, [QUOTE] + rest);
    ExpectPrinted([QUOTE], rest);
  }

  // ---------------------------------------------------------------- manifests

  datatype ManifestHead = ManifestHead(
    environment: seq<Byte>, generation: nat, hostKeyId: seq<Byte>, hostKey: seq<Byte>,
    predecessor: Option<seq<Byte>>, recoveryKeyId: seq<Byte>, recoveryKey: seq<Byte>, rootKeyId: seq<Byte>)

  datatype ManifestTail = ManifestTail(supervisorKeyId: seq<Byte>, supervisorKey: seq<Byte>)

  datatype Manifest = Manifest(head: ManifestHead, signature: seq<Byte>, tail: ManifestTail)

  predicate WellFormedHead(h: ManifestHead) {
    && IsIdentifier(h.environment, NAME_SIZE) && IsNumber(h.generation)
    && IsIdentifier(h.hostKeyId, NAME_SIZE) && |h.hostKey| == KEY_SIZE
    && IsOptionalDigest(h.predecessor)
    && IsIdentifier(h.recoveryKeyId, NAME_SIZE) && |h.recoveryKey| == KEY_SIZE
    && IsIdentifier(h.rootKeyId, NAME_SIZE)
  }

  predicate WellFormedTail(t: ManifestTail) {
    IsIdentifier(t.supervisorKeyId, NAME_SIZE) && |t.supervisorKey| == KEY_SIZE
  }

  // The fields of the head from the predecessor digest on.
  type Lineage = (Option<seq<Byte>>, seq<Byte>, seq<Byte>, seq<Byte>)

  function PrintLineage(predecessor: Option<seq<Byte>>, recoveryKeyId: seq<Byte>, recoveryKey: seq<Byte>,
                        rootKeyId: seq<Byte>, rest: seq<Byte>): seq<Byte>
  {
    PREDECESSOR_MANIFEST + PrintOptionalDigest(predecessor,
    RECOVERY_ID + PrintExact(recoveryKeyId,
    RECOVERY_KEY + PrintKey(recoveryKey,
    ROOT_ID + PrintExact(rootKeyId,
    SERVICE + PrintExact(TRANSPORT_SERVICE,
    COMMA + rest)))))
  }

  function ParseLineage(s: seq<Byte>): (r: Parsed<Lineage>)
    ensures r.Some? ==>
              var (predecessor, recoveryKeyId, recoveryKey, rootKeyId) := r.value.0;
              && IsOptionalDigest(predecessor) && IsIdentifier(recoveryKeyId, NAME_SIZE)
              && |recoveryKey| == KEY_SIZE && IsIdentifier(rootKeyId, NAME_SIZE)
              && s == PrintLineage(predecessor, recoveryKeyId, recoveryKey, rootKeyId, r.value.1)
  {
    var s :- Expect(s, PREDECESSOR_MANIFEST);
    var (predecessor, s) :- ParseOptionalDigest(s);
    var s :- Expect(s, RECOVERY_ID);
    var (recoveryKeyId, s) :- ParseIdentifier(s, NAME_SIZE);
    var s :- Expect(s, RECOVERY_KEY);
    var (recoveryKey, s) :- ParseKey(s, KEY_SIZE);
    var s :- Expect(s, ROOT_ID);
    var (rootKeyId, s) :- ParseIdentifier(s, NAME_SIZE);
    var s :- Expect(s, SERVICE);
    var s :- ParseExact(s, TRANSPORT_SERVICE);
    var s :- Expect(s, COMMA);
    Some(((predecessor, recoveryKeyId, recoveryKey, rootKeyId), s))
  }

  lemma LineagePrinted(h: ManifestHead, rest: seq<Byte>)
    requires WellFormedHead(h)
    ensures ParseLineage(PrintLineage(h.predecessor, h.recoveryKeyId, h.recoveryKey, h.rootKeyId, rest))
         == Some(((h.predecessor, h.recoveryKeyId, h.recoveryKey, h.rootKeyId), rest))
  {
    var s10 := COMMA + rest;
    var s9 := SERVICE + PrintExact(TRANSPORT_SERVICE, s10);
    var s8 := ROOT_ID + PrintExact(h.rootKeyId, s9);
    var s7 := RECOVERY_KEY + PrintKey(h.recoveryKey, s8);
    var s6 := RECOVERY_ID + PrintExact(h.recoveryKeyId, s7);
    ExpectPrinted(PREDECESSOR_MANIFEST, PrintOptionalDigest(h.predecessor, s6));
    OptionalDigestPrinted(h.predecessor, s6);
    ExpectPrinted(RECOVERY_ID, PrintExact(h.recoveryKeyId, s7));
    IdentifierPrinted(h.recoveryKeyId, NAME_SIZE, s7);
    ExpectPrinted(RECOVERY_KEY, PrintKey(h.recoveryKey, s8));
    KeyPrinted(h.recoveryKey, s8);
    ExpectPrinted(ROOT_ID, PrintExact(h.rootKeyId, s9));
    IdentifierPrinted(h.rootKeyId, NAME_SIZE, s9);
    ExpectPrinted(SERVICE, PrintExact(TRANSPORT_SERVICE, s10));
    ExactPrinted(TRANSPORT_SERVICE, s10);
    ExpectPrinted(COMMA, rest);
  }

  function PrintManifestHead(h: ManifestHead, rest: seq<Byte>): seq<Byte> {
    CONTRACT + PrintExact(MANIFEST_CONTRACT,
    ENVIRONMENT + PrintExact(h.environment,
    GENERATION + (Decimal(h.generation) + (
    HOST_ID + PrintExact(h.hostKeyId,
    HOST_KEY + PrintKey(h.hostKey,
    PrintLineage(h.predecessor, h.recoveryKeyId, h.recoveryKey, h.rootKeyId, rest)))))))
  }

  function ParseManifestHead(s: seq<Byte>): (r: Parsed<ManifestHead>)
    ensures r.Some? ==> WellFormedHead(r.value.0) && s == PrintManifestHead(r.value.0, r.value.1)
  {
    var s :- Expect(s, CONTRACT);
    var s :- ParseExact(s, MANIFEST_CONTRACT);
    var s :- Expect(s, ENVIRONMENT);
    var (environment, s) :- ParseIdentifier(s, NAME_SIZE);
    var s :- Expect(s, GENERATION);
    var (generation, s) :- ParseNumber(s);
    var s :- Expect(s, HOST_ID);
    var (hostKeyId, s) :- ParseIdentifier(s, NAME_SIZE);
    var s :- Expect(s, HOST_KEY);
    var (hostKey, s) :- ParseKey(s, KEY_SIZE);
    var ((predecessor, recoveryKeyId, recoveryKey, rootKeyId), s) :- ParseLineage(s);
    var head :=
      ManifestHead(environment, generation, hostKeyId, hostKey, predecessor, recoveryKeyId, recoveryKey, rootKeyId);
    Some((head, s))
  }

  lemma ManifestHeadPrinted(h: ManifestHead, rest: seq<Byte>)
    requires WellFormedHead(h)
    ensures ParseManifestHead(PrintManifestHead(h, rest)) == Some((h, rest))
  {
    var s5 := PrintLineage(h.predecessor, h.recoveryKeyId, h.recoveryKey, h.rootKeyId, rest);
    var s4 := HOST_KEY + PrintKey(h.hostKey, s5);
    var s3 := HOST_ID + PrintExact(h.hostKeyId, s4);
    var s2 := GENERATION + (Decimal(h.generation) + s3);
    var s1 := ENVIRONMENT + PrintExact(h.environment, s2);
    ExpectPrinted(CONTRACT, PrintExact(MANIFEST_CONTRACT, s1));
    ExactPrinted(MANIFEST_CONTRACT, s1);
    ExpectPrinted(ENVIRONMENT, PrintExact(h.environment, s2));
    IdentifierPrinted(h.environment, NAME_SIZE, s2);
    ExpectPrinted(GENERATION, Decimal(h.generation) + s3);
    assert s3[0] == HOST_ID[0];
    NumberPrinted(h.generation, s3);
    ExpectPrinted(HOST_ID, PrintExact(h.hostKeyId, s4));
    IdentifierPrinted(h.hostKeyId, NAME_SIZE, s4);
    ExpectPrinted(HOST_KEY, PrintKey(h.hostKey, s5));
    KeyPrinted(h.hostKey, s5);
    LineagePrinted(h, rest);
  }

  function PrintSignature(signature: seq<Byte>, rest: seq<Byte>): seq<Byte> {
    SIGNATURE + PrintKey(signature, COMMA + rest)
  }

  function ParseSignature(s: seq<Byte>): (r: Parsed<seq<Byte>>)
    ensures r.Some? ==> |r.value.0| == SIGNATURE_SIZE && s == PrintSignature(r.value.0, r.value.1)
  {
    var s :- Expect(s, SIGNATURE);
    var (signature, s) :- ParseKey(s, SIGNATURE_SIZE);
    var s :- Expect(s, COMMA);
    Some((signature, s))
  }

  lemma SignaturePrinted(signature: seq<Byte>, rest: seq<Byte>)
    requires |signature| == SIGNATURE_SIZE
    ensures ParseSignature(PrintSignature(signature, rest)) == Some((signature, rest))
  {
    ExpectPrinted(SIGNATURE, PrintKey(signature, COMMA + rest));
    KeyPrinted(signature, COMMA + rest);
    ExpectPrinted(COMMA, rest);
  }

  function PrintManifestTail(t: ManifestTail): seq<Byte> {
    STATUS + PrintExact(MANIFEST_STATUS,
    SUPERVISOR_ID + PrintExact(t.supervisorKeyId,
    SUPERVISOR_KEY + PrintKey(t.supervisorKey, END)))
  }

  /** The tail must end the document. */
  function ParseManifestTail(s: seq<Byte>): (r: Option<ManifestTail>)
    ensures r.Some? ==> WellFormedTail(r.value) && s == PrintManifestTail(r.value)
  {
    var s :- Expect(s, STATUS);
    var s :- ParseExact(s, MANIFEST_STATUS);
    var s :- Expect(s, SUPERVISOR_ID);
    var (supervisorKeyId, s) :- ParseIdentifier(s, NAME_SIZE);
    var s :- Expect(s, SUPERVISOR_KEY);
    var (supervisorKey, s) :- ParseKey(s, KEY_SIZE);
    if s == END then Some(ManifestTail(supervisorKeyId, supervisorKey)) else None
  }

  lemma ManifestTailPrinted(t: ManifestTail)
    requires WellFormedTail(t)
    ensures ParseManifestTail(PrintManifestTail(t)) == Some(t)
  {
    var s2 := SUPERVISOR_KEY + PrintKey(t.supervisorKey, END);
    var s1 := SUPERVISOR_ID + PrintExact(t.supervisorKeyId, s2);
    ExpectPrinted(STATUS, PrintExact(MANIFEST_STATUS, s1));
    ExactPrinted(MANIFEST_STATUS, s1);
    ExpectPrinted(SUPERVISOR_ID, PrintExact(t.supervisorKeyId, s2));
    IdentifierPrinted(t.supervisorKeyId, NAME_SIZE, s2);
    ExpectPrinted(SUPERVISOR_KEY, PrintKey(t.supervisorKey, END));
    KeyPrinted(t.supervisorKey, END);
  }

  predicate WellFormedManifest(m: Manifest) {
    WellFormedHead(m.head) && |m.signature| == SIGNATURE_SIZE && WellFormedTail(m.tail)
  }

  function PrintManifest(m: Manifest): seq<Byte> {
    PrintManifestHead(m.head, PrintSignature(m.signature, PrintManifestTail(m.tail)))
  }

  /** What is signed: the document without its signature field. */
  function UnsignedManifest(m: Manifest): seq<Byte> {
    PrintManifestHead(m.head, PrintManifestTail(m.tail))
  }

  function ReadManifest(s: seq<Byte>): (r: Option<Manifest>)
    ensures r.Some? ==> WellFormedManifest(r.value) && s == PrintManifest(r.value)
  {
    var (head, s) :- ParseManifestHead(s);
    var (signature, s) :- ParseSignature(s);
    var tail :- ParseManifestTail(s);
    Some(Manifest(head, signature, tail))
  }

  /** Reading inverts printing; with ReadManifest's own contract, a document and its fields
      determine each other. */
  lemma ManifestPrinted(m: Manifest)
    requires WellFormedManifest(m)
    ensures ReadManifest(PrintManifest(m)) == Some(m)
  {
    ManifestHeadPrinted(m.head, PrintSignature(m.signature, PrintManifestTail(m.tail)));
    SignaturePrinted(m.signature, PrintManifestTail(m.tail));
    ManifestTailPrinted(m.tail);
  }

  /** The signed bytes fix every field but the signature. */
  lemma UnsignedManifestInjective(m: Manifest, n: Manifest)
    requires WellFormedManifest(m) && WellFormedManifest(n)
    requires UnsignedManifest(m) == UnsignedManifest(n)
    ensures m == n.(signature := m.signature)
  {
    ManifestHeadPrinted(m.head, PrintManifestTail(m.tail));
    ManifestHeadPrinted(n.head, PrintManifestTail(n.tail));
    ManifestTailPrinted(m.tail);
    ManifestTailPrinted(n.tail);
  }

  // ---------------------------------------------------------------- selections

  datatype SelectionHead = SelectionHead(
    disposition: seq<Byte>, environment: seq<Byte>, predecessor: Option<seq<Byte>>, reason: seq<Byte>,
    recovery: Option<seq<Byte>>, selectedGeneration: Option<nat>, selectedManifest: Option<seq<Byte>>, sequence: nat)

  datatype Selection = Selection(head: SelectionHead, signature: seq<Byte>)

  predicate WellFormedSelectionHead(h: SelectionHead) {
    && IsIdentifier(h.disposition, CODE_SIZE) && IsIdentifier(h.environment, NAME_SIZE)
    && IsOptionalDigest(h.predecessor) && IsIdentifier(h.reason, CODE_SIZE)
    && IsOptionalDigest(h.recovery) && IsOptionalNumber(h.selectedGeneration)
    && IsOptionalDigest(h.selectedManifest) && IsNumber(h.sequence)
  }

  // The fields of the head from the recovery digest on.
  type Choice = (Option<seq<Byte>>, Option<nat>, Option<seq<Byte>>, nat)

  function PrintChoice(recovery: Option<seq<Byte>>, generation: Option<nat>, manifest: Option<seq<Byte>>,
                       sequence: nat, rest: seq<Byte>): seq<Byte>
  {
    RECOVERY_MANIFEST + PrintOptionalDigest(recovery,
    SELECTED_GENERATION + PrintOptionalNumber(generation,
    SELECTED_MANIFEST + PrintOptionalDigest(manifest,
    SEQUENCE + (Decimal(sequence) + (
    SERVICE + PrintExact(TRANSPORT_SERVICE,
    COMMA + rest))))))
  }

  function ParseChoice(s: seq<Byte>): (r: Parsed<Choice>)
    ensures r.Some? ==>
              var (recovery, generation, manifest, sequence) := r.value.0;
              && IsOptionalDigest(recovery) && IsOptionalNumber(generation)
              && IsOptionalDigest(manifest) && IsNumber(sequence)
              && s == PrintChoice(recovery, generation, manifest, sequence, r.value.1)
  {
    var s :- Expect(s, RECOVERY_MANIFEST);
    var (recovery, s) :- ParseOptionalDigest(s);
    var s :- Expect(s, SELECTED_GENERATION);
    var (generation, s) :- ParseOptionalNumber(s);
    var s :- Expect(s, SELECTED_MANIFEST);
    var (manifest, s) :- ParseOptionalDigest(s);
    var s :- Expect(s, SEQUENCE);
    var (sequence, s) :- ParseNumber(s);
    var s :- Expect(s, SERVICE);
    var s :- ParseExact(s, TRANSPORT_SERVICE);
    var s :- Expect(s, COMMA);
    Some(((recovery, generation, manifest, sequence), s))
  }

  lemma ChoicePrinted(h: SelectionHead, rest: seq<Byte>)
    requires WellFormedSelectionHead(h)
    ensures ParseChoice(PrintChoice(h.recovery, h.selectedGeneration, h.selectedManifest, h.sequence, rest))
         == Some(((h.recovery, h.selectedGeneration, h.selectedManifest, h.sequence), rest))
  {
    var s10 := COMMA + rest;
    var s9 := SERVICE + PrintExact(TRANSPORT_SERVICE, s10);
    var s8 := SEQUENCE + (Decimal(h.sequence) + s9);
    var s7 := SELECTED_MANIFEST + PrintOptionalDigest(h.selectedManifest, s8);
    var s6 := SELECTED_GENERATION + PrintOptionalNumber(h.selectedGeneration, s7);
    ExpectPrinted(RECOVERY_MANIFEST, PrintOptionalDigest(h.recovery, s6));
    OptionalDigestPrinted(h.recovery, s6);
    ExpectPrinted(SELECTED_GENERATION, PrintOptionalNumber(h.selectedGeneration, s7));
    assert s7[0] == SELECTED_MANIFEST[0];
    OptionalNumberPrinted(h.selectedGeneration, s7);
    ExpectPrinted(SELECTED_MANIFEST, PrintOptionalDigest(h.selectedManifest, s8));
    OptionalDigestPrinted(h.selectedManifest, s8);
    ExpectPrinted(SEQUENCE, Decimal(h.sequence) + s9);
    assert s9[0] == SERVICE[0];
    NumberPrinted(h.sequence, s9);
    ExpectPrinted(SERVICE, PrintExact(TRANSPORT_SERVICE, s10));
    ExactPrinted(TRANSPORT_SERVICE, s10);
    ExpectPrinted(COMMA, rest);
  }

  function PrintSelectionHead(h: SelectionHead, rest: seq<Byte>): seq<Byte> {
    CONTRACT + PrintExact(SELECTION_CONTRACT,
    DISPOSITION + PrintExact(h.disposition,
    ENVIRONMENT + PrintExact(h.environment,
    PREDECESSOR_SELECTION + PrintOptionalDigest(h.predecessor,
    REASON + PrintExact(h.reason,
    PrintChoice(h.recovery, h.selectedGeneration, h.selectedManifest, h.sequence, rest))))))
  }

  function ParseSelectionHead(s: seq<Byte>): (r: Parsed<SelectionHead>)
    ensures r.Some? ==> WellFormedSelectionHead(r.value.0) && s == PrintSelectionHead(r.value.0, r.value.1)
  {
    var s :- Expect(s, CONTRACT);
    var s :- ParseExact(s, SELECTION_CONTRACT);
    var s :- Expect(s, DISPOSITION);
    var (disposition, s) :- ParseIdentifier(s, CODE_SIZE);
    var s :- Expect(s, ENVIRONMENT);
    var (environment, s) :- ParseIdentifier(s, NAME_SIZE);
    var s :- Expect(s, PREDECESSOR_SELECTION);
    var (predecessor, s) :- ParseOptionalDigest(s);
    var s :- Expect(s, REASON);
    var (reason, s) :- ParseIdentifier(s, CODE_SIZE);
    var ((recovery, selectedGeneration, selectedManifest, sequence), s) :- ParseChoice(s);
    var head := SelectionHead(disposition, environment, predecessor, reason, recovery, selectedGeneration,
                              selectedManifest, sequence);
    Some((head, s))
  }

  lemma SelectionHeadPrinted(h: SelectionHead, rest: seq<Byte>)
    requires WellFormedSelectionHead(h)
    ensures ParseSelectionHead(PrintSelectionHead(h, rest)) == Some((h, rest))
  {
    var s5 := PrintChoice(h.recovery, h.selectedGeneration, h.selectedManifest, h.sequence, rest);
    var s4 := REASON + PrintExact(h.reason, s5);
    var s3 := PREDECESSOR_SELECTION + PrintOptionalDigest(h.predecessor, s4);
    var s2 := ENVIRONMENT + PrintExact(h.environment, s3);
    var s1 := DISPOSITION + PrintExact(h.disposition, s2);
    ExpectPrinted(CONTRACT, PrintExact(SELECTION_CONTRACT, s1));
    ExactPrinted(SELECTION_CONTRACT, s1);
    ExpectPrinted(DISPOSITION, PrintExact(h.disposition, s2));
    IdentifierPrinted(h.disposition, CODE_SIZE, s2);
    ExpectPrinted(ENVIRONMENT, PrintExact(h.environment, s3));
    IdentifierPrinted(h.environment, NAME_SIZE, s3);
    ExpectPrinted(PREDECESSOR_SELECTION, PrintOptionalDigest(h.predecessor, s4));
    OptionalDigestPrinted(h.predecessor, s4);
    ExpectPrinted(REASON, PrintExact(h.reason, s5));
    IdentifierPrinted(h.reason, CODE_SIZE, s5);
    ChoicePrinted(h, rest);
  }

  function SelectionTail(): seq<Byte> {
    STATUS + PrintExact(SELECTION_STATUS, END)
  }

  predicate WellFormedSelection(s: Selection) {
    WellFormedSelectionHead(s.head) && |s.signature| == SIGNATURE_SIZE
  }

  function PrintSelection(s: Selection): seq<Byte> {
    PrintSelectionHead(s.head, PrintSignature(s.signature, SelectionTail()))
  }

  function UnsignedSelection(s: Selection): seq<Byte> {
    PrintSelectionHead(s.head, SelectionTail())
  }

  function ReadSelection(s: seq<Byte>): (r: Option<Selection>)
    ensures r.Some? ==> WellFormedSelection(r.value) && s == PrintSelection(r.value)
  {
    var (head, s) :- ParseSelectionHead(s);
    var (signature, s) :- ParseSignature(s);
    if s == SelectionTail() then Some(Selection(head, signature)) else None
  }

  lemma SelectionPrinted(s: Selection)
    requires WellFormedSelection(s)
    ensures ReadSelection(PrintSelection(s)) == Some(s)
  {
    SelectionHeadPrinted(s.head, PrintSignature(s.signature, SelectionTail()));
    SignaturePrinted(s.signature, SelectionTail());
  }

  lemma UnsignedSelectionInjective(s: Selection, t: Selection)
    requires WellFormedSelection(s) && WellFormedSelection(t)
    requires UnsignedSelection(s) == UnsignedSelection(t)
    ensures s == t.(signature := s.signature)
  {
    SelectionHeadPrinted(s.head, SelectionTail());
    SelectionHeadPrinted(t.head, SelectionTail());
  }

  // ---------------------------------------------------------------- cutting the signature field out

  lemma ExactExtends(literal: seq<Byte>, text: seq<Byte>, a: seq<Byte>, rest: seq<Byte>)
    ensures literal + PrintExact(text, a + rest) == literal + PrintExact(text, a) + rest
  {
  }

  lemma {:induction false} HexExtends(d: seq<Byte>, a: seq<Byte>, rest: seq<Byte>)
    ensures Hex(d, a + rest) == Hex(d, a) + rest
  {
    if d != [] {
      HexExtends(d[1..], a, rest);
    }
  }

  lemma Regroup(a: seq<Byte>, b: seq<Byte>, c: seq<Byte>)
    ensures a + (b + c) == a + b + c
  {
  }

  lemma DigestExtends(d: seq<Byte>, a: seq<Byte>, rest: seq<Byte>)
    ensures PrintDigest(d, a + rest) == PrintDigest(d, a) + rest
  {
    Regroup([QUOTE], a, rest);
    HexExtends(d, [QUOTE] + a, rest);
    Regroup([QUOTE], Hex(d, [QUOTE] + a), rest);
  }

  lemma OptionalDigestExtends(literal: seq<Byte>, d: Option<seq<Byte>>, a: seq<Byte>, rest: seq<Byte>)
    ensures literal + PrintOptionalDigest(d, a + rest) == literal + PrintOptionalDigest(d, a) + rest
  {
    if d.Some? {
      DigestExtends(d.value, a, rest);
    } else {
      Regroup(NULL, a, rest);
    }
    Regroup(literal, PrintOptionalDigest(d, a), rest);
  }

  lemma NumberExtends(literal: seq<Byte>, number: seq<Byte>, a: seq<Byte>, rest: seq<Byte>)
    ensures literal + (number + (a + rest)) == literal + (number + a) + rest
  {
  }

  lemma {:induction false} EncodeExtends(k: seq<Byte>, a: seq<Byte>, rest: seq<Byte>)
    ensures Base64.Encode(k, a + rest) == Base64.Encode(k, a) + rest
  {
    if |k| > 3 {
      EncodeExtends(k[3..], a, rest);
    }
  }

  lemma KeyExtends(literal: seq<Byte>, k: seq<Byte>, a: seq<Byte>, rest: seq<Byte>)
    ensures literal + PrintKey(k, a + rest) == literal + PrintKey(k, a) + rest
  {
    Regroup([QUOTE], a, rest);
    EncodeExtends(k, [QUOTE] + a, rest);
    Regroup([QUOTE], Base64.Encode(k, [QUOTE] + a), rest);
    Regroup(literal, PrintKey(k, a), rest);
  }

  lemma LineageExtends(h: ManifestHead, rest: seq<Byte>)
    ensures PrintLineage(h.predecessor, h.recoveryKeyId, h.recoveryKey, h.rootKeyId, rest)
         == PrintLineage(h.predecessor, h.recoveryKeyId, h.recoveryKey, h.rootKeyId, []) + rest
  {
    var s10 := COMMA + [];
    assert COMMA + rest == s10 + rest;
    ExactExtends(SERVICE, TRANSPORT_SERVICE, s10, rest);
    var s9 := SERVICE + PrintExact(TRANSPORT_SERVICE, s10);
    ExactExtends(ROOT_ID, h.rootKeyId, s9, rest);
    var s8 := ROOT_ID + PrintExact(h.rootKeyId, s9);
    KeyExtends(RECOVERY_KEY, h.recoveryKey, s8, rest);
    var s7 := RECOVERY_KEY + PrintKey(h.recoveryKey, s8);
    ExactExtends(RECOVERY_ID, h.recoveryKeyId, s7, rest);
    var s6 := RECOVERY_ID + PrintExact(h.recoveryKeyId, s7);
    OptionalDigestExtends(PREDECESSOR_MANIFEST, h.predecessor, s6, rest);
  }

  lemma ManifestHeadExtends(h: ManifestHead, rest: seq<Byte>)
    ensures PrintManifestHead(h, rest) == PrintManifestHead(h, []) + rest
  {
    LineageExtends(h, rest);
    var s5 := PrintLineage(h.predecessor, h.recoveryKeyId, h.recoveryKey, h.rootKeyId, []);
    KeyExtends(HOST_KEY, h.hostKey, s5, rest);
    var s4 := HOST_KEY + PrintKey(h.hostKey, s5);
    ExactExtends(HOST_ID, h.hostKeyId, s4, rest);
    var s3 := HOST_ID + PrintExact(h.hostKeyId, s4);
    NumberExtends(GENERATION, Decimal(h.generation), s3, rest);
    var s2 := GENERATION + (Decimal(h.generation) + s3);
    ExactExtends(ENVIRONMENT, h.environment, s2, rest);
    var s1 := ENVIRONMENT + PrintExact(h.environment, s2);
    ExactExtends(CONTRACT, MANIFEST_CONTRACT, s1, rest);
  }

  lemma ChoiceExtends(h: SelectionHead, rest: seq<Byte>)
    ensures PrintChoice(h.recovery, h.selectedGeneration, h.selectedManifest, h.sequence, rest)
         == PrintChoice(h.recovery, h.selectedGeneration, h.selectedManifest, h.sequence, []) + rest
  {
    var s10 := COMMA + [];
    assert COMMA + rest == s10 + rest;
    ExactExtends(SERVICE, TRANSPORT_SERVICE, s10, rest);
    var s9 := SERVICE + PrintExact(TRANSPORT_SERVICE, s10);
    NumberExtends(SEQUENCE, Decimal(h.sequence), s9, rest);
    var s8 := SEQUENCE + (Decimal(h.sequence) + s9);
    OptionalDigestExtends(SELECTED_MANIFEST, h.selectedManifest, s8, rest);
    var s7 := SELECTED_MANIFEST + PrintOptionalDigest(h.selectedManifest, s8);
    var number := if h.selectedGeneration.None? then NULL else Decimal(h.selectedGeneration.value);
    NumberExtends(SELECTED_GENERATION, number, s7, rest);
    var s6 := SELECTED_GENERATION + PrintOptionalNumber(h.selectedGeneration, s7);
    OptionalDigestExtends(RECOVERY_MANIFEST, h.recovery, s6, rest);
  }

  lemma SelectionHeadExtends(h: SelectionHead, rest: seq<Byte>)
    ensures PrintSelectionHead(h, rest) == PrintSelectionHead(h, []) + rest
  {
    ChoiceExtends(h, rest);
    var s5 := PrintChoice(h.recovery, h.selectedGeneration, h.selectedManifest, h.sequence, []);
    ExactExtends(REASON, h.reason, s5, rest);
    var s4 := REASON + PrintExact(h.reason, s5);
    OptionalDigestExtends(PREDECESSOR_SELECTION, h.predecessor, s4, rest);
    var s3 := PREDECESSOR_SELECTION + PrintOptionalDigest(h.predecessor, s4);
    ExactExtends(ENVIRONMENT, h.environment, s3, rest);
    var s2 := ENVIRONMENT + PrintExact(h.environment, s3);
    ExactExtends(DISPOSITION, h.disposition, s2, rest);
    var s1 := DISPOSITION + PrintExact(h.disposition, s2);
    ExactExtends(CONTRACT, SELECTION_CONTRACT, s1, rest);
  }

  /** Putting another ending after the head of a document prints the head with that ending. */
  lemma CutManifest(bytes: seq<Byte>, h: ManifestHead, signed: seq<Byte>, tail: seq<Byte>)
    requires bytes == PrintManifestHead(h, signed) && |signed| <= |bytes|
    ensures bytes[..|bytes| - |signed|] + tail == PrintManifestHead(h, tail)
  {
    ManifestHeadExtends(h, signed);
    ManifestHeadExtends(h, tail);
    assert bytes[..|bytes| - |signed|] == PrintManifestHead(h, []);
  }

  lemma CutSelection(bytes: seq<Byte>, h: SelectionHead, signed: seq<Byte>, tail: seq<Byte>)
    requires bytes == PrintSelectionHead(h, signed) && |signed| <= |bytes|
    ensures bytes[..|bytes| - |signed|] + tail == PrintSelectionHead(h, tail)
  {
    SelectionHeadExtends(h, signed);
    SelectionHeadExtends(h, tail);
    assert bytes[..|bytes| - |signed|] == PrintSelectionHead(h, []);
  }

  // ---------------------------------------------------------------- acceptance

  /** The reviewed root key and environment compiled into the verifier. */
  datatype Pins = Pins(rootKeyId: seq<Byte>, rootKey: seq<Byte>, environment: seq<Byte>)

  /** Whether a signature on an input is the pinned root's. */
  type Verifier = (seq<Byte>, seq<Byte>) -> bool

  datatype Verdict<+T> = Accepted(value: T) | Malformed | SignatureRejected

  predicate Distinct4(a: seq<Byte>, b: seq<Byte>, c: seq<Byte>, d: seq<Byte>) {
    a != b && a != c && a != d && b != c && b != d && c != d
  }

  predicate AdmissibleManifest(m: Manifest, pins: Pins) {
    && m.head.environment == pins.environment
    && (m.head.generation == 1 <==> m.head.predecessor.None?)
    && m.head.rootKeyId == pins.rootKeyId
    && Distinct4(m.head.hostKeyId, m.tail.supervisorKeyId, m.head.recoveryKeyId, pins.rootKeyId)
    && Distinct4(m.head.hostKey, m.tail.supervisorKey, m.head.recoveryKey, pins.rootKey)
  }

  function SignatureInput(domain: seq<Byte>, unsigned: seq<Byte>): seq<Byte> {
    domain + [0] + unsigned
  }

  function JudgeManifest(bytes: seq<Byte>, pins: Pins, verify: Verifier): Verdict<Manifest> {
    match ReadManifest(bytes)
    case None => Malformed
    case Some(m) =>
      if !AdmissibleManifest(m, pins) then Malformed
      else if verify(m.signature, SignatureInput(MANIFEST_DOMAIN, UnsignedManifest(m))) then Accepted(m)
      else SignatureRejected
  }

  const SELECTED := Ascii("generation_selected")
  const DENIED := Ascii("new_roots_denied")

  predicate ReasonValid(reason: seq<Byte>, sequence: nat) {
    if sequence == 1 then reason == Ascii("initial")
    else
      || reason == Ascii("rotation")
      || reason == Ascii("suspected_compromise")
      || reason == Ascii("administrative_hold")
  }

  predicate AdmissibleSelection(s: Selection, pins: Pins) {
    && (s.head.selectedGeneration.Some? <==> s.head.selectedManifest.Some?)
    && s.head.environment == pins.environment
    && (s.head.sequence == 1 <==> s.head.predecessor.None?)
    && ReasonValid(s.head.reason, s.head.sequence)
    && ((s.head.disposition == SELECTED && s.head.selectedGeneration.Some?)
        || (s.head.disposition == DENIED && s.head.selectedGeneration.None?))
  }

  function JudgeSelection(bytes: seq<Byte>, pins: Pins, verify: Verifier): Verdict<Selection> {
    match ReadSelection(bytes)
    case None => Malformed
    case Some(s) =>
      if !AdmissibleSelection(s, pins) then Malformed
      else if verify(s.signature, SignatureInput(SELECTION_DOMAIN, UnsignedSelection(s))) then Accepted(s)
      else SignatureRejected
  }
}
