/** Which directories authenticate.  The verifier walks down from the head and up through the manifests;
here the directories it accepts are described without any walk, by the documents each file must print.
*/
module AuthorityPublication {
  import opened Bytes
  import Base64
  import P = AuthorityParsers
  import D = AuthorityDocuments
  import opened AuthorityChain

  // ---------------------------------------------------------------- every document fits its file

  lemma {:induction false} HexSize(d: seq<Byte>, rest: seq<Byte>)
    ensures |P.Hex(d, rest)| == 2 * |d| + |rest|
  {
    if d != [] {
      HexSize(d[1..], rest);
    }
  }

  lemma {:induction false} EncodeSize(d: seq<Byte>, rest: seq<Byte>)
    ensures |Base64.Encode(d, rest)| <= 4 * |d| + |rest|
  {
    if |d| > 3 {
      EncodeSize(d[3..], rest);
    }
  }

  lemma {:induction false} DecimalSize(n: nat, width: nat)
    requires n < Power10(width)
    ensures |P.Decimal(n)| <= width + 1
  {
    if n >= 10 {
      DecimalSize(n / 10, width - 1);
    }
  }

  lemma NumberSize(n: nat)
    requires P.IsNumber(n)
    ensures |P.Decimal(n)| <= 9
  {
    assert Power10(8) == P.GENERATION_MAXIMUM + 1;
    DecimalSize(n, 8);
  }

  lemma ExactSize(literal: seq<Byte>, text: seq<Byte>, rest: seq<Byte>)
    ensures |literal + P.PrintExact(text, rest)| == |literal| + |text| + 2 + |rest|
  {
  }

  lemma KeySize(literal: seq<Byte>, key: seq<Byte>, rest: seq<Byte>)
    ensures |literal + D.PrintKey(key, rest)| <= |literal| + 4 * |key| + 2 + |rest|
  {
    EncodeSize(key, [P.QUOTE] + rest);
  }

  lemma DigestSize(literal: seq<Byte>, digest: Option<seq<Byte>>, rest: seq<Byte>)
    requires P.IsOptionalDigest(digest)
    ensures |literal + P.PrintOptionalDigest(digest, rest)| <= |literal| + 66 + |rest|
  {
    if digest.Some? {
      HexSize(digest.value, [P.QUOTE] + rest);
    }
  }

  lemma LineageSize(h: D.ManifestHead, rest: seq<Byte>)
    requires D.WellFormedHead(h)
    ensures |D.PrintLineage(h.predecessor, h.recoveryKeyId, h.recoveryKey, h.rootKeyId, rest)| <= 2000 + |rest|
  {
    hide P.PrintExact, P.PrintOptionalDigest, D.PrintKey;
    var s5 := D.SERVICE + P.PrintExact(D.TRANSPORT_SERVICE, D.COMMA + rest);
    ExactSize(D.SERVICE, D.TRANSPORT_SERVICE, D.COMMA + rest);
    var s4 := D.ROOT_ID + P.PrintExact(h.rootKeyId, s5);
    ExactSize(D.ROOT_ID, h.rootKeyId, s5);
    var s3 := D.RECOVERY_KEY + D.PrintKey(h.recoveryKey, s4);
    KeySize(D.RECOVERY_KEY, h.recoveryKey, s4);
    var s2 := D.RECOVERY_ID + P.PrintExact(h.recoveryKeyId, s3);
    ExactSize(D.RECOVERY_ID, h.recoveryKeyId, s3);
    DigestSize(D.PREDECESSOR_MANIFEST, h.predecessor, s2);
  }

  lemma ManifestHeadSize(h: D.ManifestHead, rest: seq<Byte>)
    requires D.WellFormedHead(h)
    ensures 0 < |D.PrintManifestHead(h, rest)| <= 4000 + |rest|
  {
    hide P.PrintExact, P.Decimal, D.PrintKey, D.PrintLineage;
    var s6 := D.PrintLineage(h.predecessor, h.recoveryKeyId, h.recoveryKey, h.rootKeyId, rest);
    LineageSize(h, rest);
    var s5 := D.HOST_KEY + D.PrintKey(h.hostKey, s6);
    KeySize(D.HOST_KEY, h.hostKey, s6);
    var s4 := D.HOST_ID + P.PrintExact(h.hostKeyId, s5);
    ExactSize(D.HOST_ID, h.hostKeyId, s5);
    var s3 := D.GENERATION + (P.Decimal(h.generation) + s4);
    NumberSize(h.generation);
    var s2 := D.ENVIRONMENT + P.PrintExact(h.environment, s3);
    ExactSize(D.ENVIRONMENT, h.environment, s3);
    ExactSize(D.CONTRACT, D.MANIFEST_CONTRACT, s2);
  }

  lemma ManifestTailSize(t: D.ManifestTail)
    requires D.WellFormedTail(t)
    ensures |D.PrintManifestTail(t)| <= 2000
  {
    hide P.PrintExact, D.PrintKey;
    var s2 := D.SUPERVISOR_KEY + D.PrintKey(t.supervisorKey, D.END);
    KeySize(D.SUPERVISOR_KEY, t.supervisorKey, D.END);
    var s1 := D.SUPERVISOR_ID + P.PrintExact(t.supervisorKeyId, s2);
    ExactSize(D.SUPERVISOR_ID, t.supervisorKeyId, s2);
    ExactSize(D.STATUS, D.MANIFEST_STATUS, s1);
  }

  lemma SignatureSize(signature: seq<Byte>, rest: seq<Byte>)
    requires |signature| == D.SIGNATURE_SIZE
    ensures |D.PrintSignature(signature, rest)| <= 1000 + |rest|
  {
    hide D.PrintKey;
    KeySize(D.SIGNATURE, signature, D.COMMA + rest);
  }

  /** The bound on the file size refuses no well-formed manifest. */
  lemma ManifestFits(m: D.Manifest)
    requires D.WellFormedManifest(m)
    ensures 0 < |D.PrintManifest(m)| <= MAXIMUM_BYTES
  {
    hide D.PrintManifestHead, D.PrintSignature, D.PrintManifestTail;
    ManifestTailSize(m.tail);
    SignatureSize(m.signature, D.PrintManifestTail(m.tail));
    ManifestHeadSize(m.head, D.PrintSignature(m.signature, D.PrintManifestTail(m.tail)));
  }

  lemma ChoiceSize(h: D.SelectionHead, rest: seq<Byte>)
    requires D.WellFormedSelectionHead(h)
    ensures |D.PrintChoice(h.recovery, h.selectedGeneration, h.selectedManifest, h.sequence, rest)| <= 1000 + |rest|
  {
    hide P.PrintExact, P.PrintOptionalDigest, P.Decimal;
    var s5 := D.SERVICE + P.PrintExact(D.TRANSPORT_SERVICE, D.COMMA + rest);
    ExactSize(D.SERVICE, D.TRANSPORT_SERVICE, D.COMMA + rest);
    var s4 := D.SEQUENCE + (P.Decimal(h.sequence) + s5);
    NumberSize(h.sequence);
    var s3 := D.SELECTED_MANIFEST + P.PrintOptionalDigest(h.selectedManifest, s4);
    DigestSize(D.SELECTED_MANIFEST, h.selectedManifest, s4);
    var s2 := D.SELECTED_GENERATION + P.PrintOptionalNumber(h.selectedGeneration, s3);
    if h.selectedGeneration.Some? {
      NumberSize(h.selectedGeneration.value);
    }
    DigestSize(D.RECOVERY_MANIFEST, h.recovery, s2);
  }

  lemma SelectionHeadSize(h: D.SelectionHead, rest: seq<Byte>)
    requires D.WellFormedSelectionHead(h)
    ensures 0 < |D.PrintSelectionHead(h, rest)| <= 3000 + |rest|
  {
    hide P.PrintExact, P.PrintOptionalDigest, D.PrintChoice;
    var s5 := D.PrintChoice(h.recovery, h.selectedGeneration, h.selectedManifest, h.sequence, rest);
    ChoiceSize(h, rest);
    var s4 := D.REASON + P.PrintExact(h.reason, s5);
    ExactSize(D.REASON, h.reason, s5);
    var s3 := D.PREDECESSOR_SELECTION + P.PrintOptionalDigest(h.predecessor, s4);
    DigestSize(D.PREDECESSOR_SELECTION, h.predecessor, s4);
    var s2 := D.ENVIRONMENT + P.PrintExact(h.environment, s3);
    ExactSize(D.ENVIRONMENT, h.environment, s3);
    var s1 := D.DISPOSITION + P.PrintExact(h.disposition, s2);
    ExactSize(D.DISPOSITION, h.disposition, s2);
    ExactSize(D.CONTRACT, D.SELECTION_CONTRACT, s1);
  }

  /** The bound on the file size refuses no well-formed selection. */
  lemma SelectionFits(s: D.Selection)
    requires D.WellFormedSelection(s)
    ensures 0 < |D.PrintSelection(s)| <= MAXIMUM_BYTES
  {
    hide D.PrintSelectionHead, D.PrintSignature;
    assert |D.SelectionTail()| <= 1000;
    SignatureSize(s.signature, D.SelectionTail());
    SelectionHeadSize(s.head, D.PrintSignature(s.signature, D.SelectionTail()));
  }

  // ---------------------------------------------------------------- one file, one document

  predicate ProperSelection(s: D.Selection, pins: D.Pins, verify: D.Verifier) {
    && D.WellFormedSelection(s) && D.AdmissibleSelection(s, pins)
    && verify(s.signature, D.SignatureInput(D.SELECTION_DOMAIN, D.UnsignedSelection(s)))
  }

  predicate ProperManifest(m: D.Manifest, pins: D.Pins, verify: D.Verifier) {
    && D.WellFormedManifest(m) && D.AdmissibleManifest(m, pins)
    && verify(m.signature, D.SignatureInput(D.MANIFEST_DOMAIN, D.UnsignedManifest(m)))
  }

  predicate HasFile(d: Directory, c: Context, name: Name, bytes: seq<Byte>, digest: Digest) {
    name in d.files && d.files[name] == bytes && c.hash(bytes) == digest
  }

  /** The n-th selection is printed in the file its number and digest name. */
  predicate HasSelection(d: Directory, c: Context, verify: D.Verifier, s: Selection, n: nat) {
    && s.document.head.sequence == n && ProperSelection(s.document, c.pins, verify)
    && HasFile(d, c, ChainName(SELECTION_PREFIX, n, s.sha256), D.PrintSelection(s.document), s.sha256)
  }

  predicate HasManifest(d: Directory, c: Context, verify: D.Verifier, m: Manifest, n: nat) {
    && m.document.head.generation == n && ProperManifest(m.document, c.pins, verify)
    && HasFile(d, c, ChainName(MANIFEST_PREFIX, n, m.sha256), D.PrintManifest(m.document), m.sha256)
  }

  lemma SelectionJudged(bytes: seq<Byte>, s: D.Selection, pins: D.Pins, verify: D.Verifier)
    ensures D.JudgeSelection(bytes, pins, verify) == D.Accepted(s)
            <==> ProperSelection(s, pins, verify) && bytes == D.PrintSelection(s)
  {
    hide D.ReadSelection, D.PrintSelection, D.AdmissibleSelection, D.UnsignedSelection, D.WellFormedSelection;
    if D.WellFormedSelection(s) {
      D.SelectionPrinted(s);
    }
  }

  lemma ManifestJudged(bytes: seq<Byte>, m: D.Manifest, pins: D.Pins, verify: D.Verifier)
    ensures D.JudgeManifest(bytes, pins, verify) == D.Accepted(m)
            <==> ProperManifest(m, pins, verify) && bytes == D.PrintManifest(m)
  {
    hide D.ReadManifest, D.PrintManifest, D.AdmissibleManifest, D.UnsignedManifest, D.WellFormedManifest;
    if D.WellFormedManifest(m) {
      D.ManifestPrinted(m);
    }
  }

  lemma SelectionLoads(d: Directory, c: Context, verify: D.Verifier, n: nat, expected: Digest, s: Selection)
    requires Judges(c, verify)
    ensures LoadSelection(d, c, n, expected) == Some(s) <==> HasSelection(d, c, verify, s, n) && s.sha256 == expected
  {
    hide D.PrintSelection, D.AdmissibleSelection, D.UnsignedSelection, D.WellFormedSelection, ChainName,
         D.JudgeSelection;
    var name := ChainName(SELECTION_PREFIX, n, expected);
    if name in d.files {
      SelectionJudged(d.files[name], s.document, c.pins, verify);
    }
    if ProperSelection(s.document, c.pins, verify) {
      SelectionFits(s.document);
    }
  }

  lemma ManifestLoads(d: Directory, c: Context, verify: D.Verifier, n: nat, expected: Digest, m: Manifest)
    requires Judges(c, verify)
    ensures LoadManifest(d, c, n, expected) == Some(m) <==> HasManifest(d, c, verify, m, n) && m.sha256 == expected
  {
    hide D.PrintManifest, D.AdmissibleManifest, D.UnsignedManifest, D.WellFormedManifest, ChainName, D.JudgeManifest;
    var name := ChainName(MANIFEST_PREFIX, n, expected);
    if name in d.files {
      ManifestJudged(d.files[name], m.document, c.pins, verify);
    }
    if ProperManifest(m.document, c.pins, verify) {
      ManifestFits(m.document);
    }
  }

  // ---------------------------------------------------------------- the two chains

  predicate HasSelections(d: Directory, c: Context, verify: D.Verifier, selections: seq<Selection>) {
    forall i :: 0 <= i < |selections| ==> HasSelection(d, c, verify, selections[i], i + 1)
  }

  predicate HasManifests(d: Directory, c: Context, verify: D.Verifier, manifests: seq<Manifest>) {
    forall k :: 0 <= k < |manifests| ==>
      HasManifest(d, c, verify, manifests[k], k + 1) && Extends(manifests[..k], manifests[k])
  }

  lemma {:induction false} SelectionsLoad(d: Directory, c: Context, verify: D.Verifier, selections: seq<Selection>,
                                          n: nat)
    requires Judges(c, verify) && HasSelections(d, c, verify, selections) && ValidChain(selections)
    requires 0 < n <= |selections|
    ensures LoadSelections(d, c, n, selections[n - 1].sha256) == Some(selections[..n])
  {
    hide Judges, HasSelection, LoadSelection;
    var s := selections[n - 1];
    SelectionLoads(d, c, verify, n, s.sha256, s);
    assert ValidAt(selections, n - 1);
    if n == 1 {
      assert selections[..1] == [s];
    } else {
      SelectionsLoad(d, c, verify, selections, n - 1);
      assert selections[..n - 1] + [s] == selections[..n];
    }
  }

  lemma {:induction false} SelectionsHeld(d: Directory, c: Context, verify: D.Verifier, n: nat, expected: Digest)
    requires Judges(c, verify) && n > 0 && LoadSelections(d, c, n, expected).Some?
    ensures var selections := LoadSelections(d, c, n, expected).value;
            HasSelections(d, c, verify, selections) && selections[n - 1].sha256 == expected
  {
    hide Judges, HasSelection, LoadSelection;
    var s := LoadSelection(d, c, n, expected).value;
    SelectionLoads(d, c, verify, n, expected, s);
    if n > 1 {
      SelectionsHeld(d, c, verify, n - 1, s.document.head.predecessor.value);
    }
  }

  function Digests(manifests: seq<Manifest>): (r: seq<Digest>)
    ensures |r| == |manifests|
  {
    seq(|manifests|, k requires 0 <= k < |manifests| => manifests[k].sha256)
  }

  lemma {:induction false} ManifestsLoad(d: Directory, c: Context, verify: D.Verifier, manifests: seq<Manifest>)
    requires Judges(c, verify) && HasManifests(d, c, verify, manifests)
    ensures LoadManifests(d, c, Digests(manifests)) == Some(manifests)
  {
    hide Judges, HasManifest, LoadManifest, Extends;
    if manifests != [] {
      var n := |manifests| - 1;
      assert forall k :: 0 <= k < n ==> manifests[..n][..k] == manifests[..k];
      ManifestsLoad(d, c, verify, manifests[..n]);
      assert Digests(manifests)[..n] == Digests(manifests[..n]);
      ManifestLoads(d, c, verify, n + 1, manifests[n].sha256, manifests[n]);
      assert manifests[..n] + [manifests[n]] == manifests;
    }
  }

  lemma {:induction false} ManifestsHeld(d: Directory, c: Context, verify: D.Verifier, digests: seq<Digest>)
    requires Judges(c, verify) && LoadManifests(d, c, digests).Some?
    ensures var manifests := LoadManifests(d, c, digests).value;
            HasManifests(d, c, verify, manifests) && Digests(manifests) == digests
  {
    hide Judges, HasManifest, LoadManifest, Extends;
    if digests != [] {
      var n := |digests| - 1;
      ManifestsHeld(d, c, verify, digests[..n]);
      var prior, m := LoadManifests(d, c, digests[..n]).value, LoadManifest(d, c, n + 1, digests[n]).value;
      ManifestLoads(d, c, verify, n + 1, digests[n], m);
      assert forall k :: 0 <= k < n ==> (prior + [m])[..k] == prior[..k];
      assert (prior + [m])[..n] == prior;
      assert Digests(prior + [m]) == Digests(prior) + [digests[n]];
    }
  }

  // ---------------------------------------------------------------- the whole directory

  predicate HasRoot(d: Directory, c: Context) {
    |c.pins.rootKey| == D.KEY_SIZE && HasFile(d, c, ROOT_NAME, c.pins.rootKey, c.rootDigest)
  }

  /** The head has the bytes of the newest selection, each manifest is the one its selection names, and
      there are not too many files. */
  predicate HasChain(d: Directory, c: Context, verify: D.Verifier, chain: Chain) {
    var n := |chain.selections|;
    && n > 0 && chain.manifests != [] && n + |chain.manifests| + 2 <= MAXIMUM_CHAIN_FILES
    && HEAD_NAME in d.files && d.files[HEAD_NAME] == D.PrintSelection(chain.selections[n - 1].document)
    && HasSelections(d, c, verify, chain.selections) && ValidChain(chain.selections)
    && HasManifests(d, c, verify, chain.manifests) && Digests(chain.manifests) == SelectedDigests(chain.selections)
  }

  ghost predicate Publishes(d: Directory, c: Context, verify: D.Verifier, chain: Chain) {
    && HasRoot(d, c) && HasChain(d, c, verify, chain)
    && Elements(Entries(d.listing)) == Elements(ExpectedNames(chain.selections, chain.manifests))
  }

  lemma HeadLoads(d: Directory, c: Context, verify: D.Verifier, chain: Chain)
    requires Judges(c, verify) && HasChain(d, c, verify, chain)
    ensures LoadFile(d, HEAD_NAME, MAXIMUM_BYTES) == Some(d.files[HEAD_NAME])
    ensures LoadFromHead(d, c, d.files[HEAD_NAME]) == Some(chain.selections)
  {
    hide D.PrintSelection, D.AdmissibleSelection, D.UnsignedSelection, D.WellFormedSelection, D.JudgeSelection,
         ChainName, ValidChain, HasManifests, SelectedDigests, LoadSelections;
    var n := |chain.selections|;
    var s := chain.selections[n - 1];
    assert HasSelection(d, c, verify, s, n);
    SelectionFits(s.document);
    SelectionJudged(d.files[HEAD_NAME], s.document, c.pins, verify);
    SelectionsLoad(d, c, verify, chain.selections, n);
    assert chain.selections[..n] == chain.selections;
  }

  lemma ChainLoads(d: Directory, c: Context, verify: D.Verifier, chain: Chain)
    requires Judges(c, verify) && HasRoot(d, c) && HasChain(d, c, verify, chain)
    ensures LoadChain(d, c) == Some(chain)
  {
    hide HasSelections, HasManifests, ValidChain, SelectedDigests, LoadManifests, LoadFromHead, Judges,
         D.PrintSelection;
    HeadLoads(d, c, verify, chain);
    ManifestsLoad(d, c, verify, chain.manifests);
  }

  lemma HeadHeld(d: Directory, c: Context, verify: D.Verifier, head: seq<Byte>)
    requires Judges(c, verify) && LoadFromHead(d, c, head).Some?
    ensures var selections := LoadFromHead(d, c, head).value;
            && selections != [] && HasSelections(d, c, verify, selections)
            && head == D.PrintSelection(selections[|selections| - 1].document)
  {
    hide LoadSelections, D.PrintSelection, ChainName, D.JudgeSelection, D.AdmissibleSelection, D.UnsignedSelection;
    var s := c.judgeSelection(head).value;
    SelectionJudged(head, s, c.pins, verify);
    SelectionsHeld(d, c, verify, s.head.sequence, c.hash(head));
    var selections := LoadFromHead(d, c, head).value;
    assert HasSelection(d, c, verify, selections[|selections| - 1], |selections|);
  }

  lemma ChainHeld(d: Directory, c: Context, verify: D.Verifier)
    requires Judges(c, verify) && LoadChain(d, c).Some?
    ensures HasRoot(d, c) && HasChain(d, c, verify, LoadChain(d, c).value)
  {
    hide HasSelections, HasManifests, ValidChain, SelectedDigests, LoadManifests, LoadFromHead, Judges,
         D.PrintSelection;
    HeadHeld(d, c, verify, LoadFile(d, HEAD_NAME, MAXIMUM_BYTES).value);
    ManifestsHeld(d, c, verify, SelectedDigests(LoadChain(d, c).value.selections));
  }

  /** The role gets generation and key of `a` from the chain. */
  predicate Grants(chain: Chain, role: nat, generation: nat, manifest: Option<Digest>, a: Authenticated) {
    && chain.selections != [] && chain.manifests != []
    && RoleGeneration(chain, role, generation, manifest) == Some(a.generation)
    && a.key == RoleKeys(chain.manifests[a.generation - 1])[role - 1]
  }

  /** A directory publishes at most one chain. */
  lemma PublishesOne(d: Directory, c: Context, verify: D.Verifier, chain: Chain, other: Chain)
    requires Judges(c, verify) && Publishes(d, c, verify, chain) && Publishes(d, c, verify, other)
    ensures chain == other
  {
    hide HasChain, HasRoot, Judges, Elements, Entries, ExpectedNames;
    ChainLoads(d, c, verify, chain);
    ChainLoads(d, c, verify, other);
  }

  lemma AuthenticatedPublishes(d: Directory, c: Context, verify: D.Verifier, role: nat, generation: nat,
                               manifest: Option<Digest>)
    requires Judges(c, verify) && IsDirectory(d) && Authenticate(d, c, role, generation, manifest).Some?
    ensures LoadChain(d, c).Some? && Publishes(d, c, verify, LoadChain(d, c).value)
    ensures Grants(LoadChain(d, c).value, role, generation, manifest,
                   Authenticate(d, c, role, generation, manifest).value)
  {
    hide HasChain, HasRoot, Judges, ExpectedNames, Entries, Elements, LoadChain, RoleGeneration, NoDuplicates, RoleKeys;
    var chain := LoadChain(d, c).value;
    ChainHeld(d, c, verify);
    LoadedChain(d, c);
    InventoryExact(d.listing, chain.selections, chain.manifests);
  }

  lemma PublishedAuthenticates(d: Directory, c: Context, verify: D.Verifier, role: nat, generation: nat,
                               manifest: Option<Digest>, chain: Chain, a: Authenticated)
    requires Judges(c, verify) && IsDirectory(d)
    requires Publishes(d, c, verify, chain) && Grants(chain, role, generation, manifest, a)
    ensures Authenticate(d, c, role, generation, manifest) == Some(a)
  {
    hide HasChain, HasRoot, Judges, ExpectedNames, Entries, Elements, LoadChain, RoleGeneration, NoDuplicates, RoleKeys;
    ChainLoads(d, c, verify, chain);
    LoadedChain(d, c);
    InventoryExact(d.listing, chain.selections, chain.manifests);
  }

  /** The verifier accepts exactly the directories that publish a chain in which the role may be taken. */
  lemma AuthenticatesExactly(d: Directory, c: Context, verify: D.Verifier, role: nat, generation: nat,
                             manifest: Option<Digest>, a: Authenticated)
    requires Judges(c, verify) && IsDirectory(d)
    ensures Authenticate(d, c, role, generation, manifest) == Some(a)
            <==> exists chain :: Publishes(d, c, verify, chain) && Grants(chain, role, generation, manifest, a)
  {
    hide *;
    if Authenticate(d, c, role, generation, manifest) == Some(a) {
      AuthenticatedPublishes(d, c, verify, role, generation, manifest);
    }
    if chain :| Publishes(d, c, verify, chain) && Grants(chain, role, generation, manifest, a) {
      PublishedAuthenticates(d, c, verify, role, generation, manifest, chain, a);
    }
  }

  // ---------------------------------------------------------------- the first generation

  function FirstDirectory(c: Context, s: Selection, m: Manifest): Directory {
    var selection := D.PrintSelection(s.document);
    var files := map[ROOT_NAME := c.pins.rootKey, HEAD_NAME := selection,
                     ChainName(SELECTION_PREFIX, 1, s.sha256) := selection,
                     ChainName(MANIFEST_PREFIX, 1, m.sha256) := D.PrintManifest(m.document)];
    Directory(files, [DOT, DOT_DOT] + ExpectedNames([s], [m]))
  }

  /** A signed first manifest and a signed first selection of it, each with the digest of its bytes. */
  predicate FirstGeneration(c: Context, verify: D.Verifier, s: Selection, m: Manifest) {
    && |c.pins.rootKey| == D.KEY_SIZE && c.rootDigest == c.hash(c.pins.rootKey)
    && ProperManifest(m.document, c.pins, verify) && m.document.head.generation == 1
    && m.sha256 == c.hash(D.PrintManifest(m.document))
    && ProperSelection(s.document, c.pins, verify) && s.document.head.sequence == 1
    && s.sha256 == c.hash(D.PrintSelection(s.document))
    && s.document.head.selectedGeneration == Some(1) && s.document.head.selectedManifest == Some(m.sha256)
    && s.document.head.recovery.None?
  }

  lemma FirstNames(s: Selection, m: Manifest)
    ensures ExpectedNames([s], [m])
         == [ROOT_NAME, HEAD_NAME, ChainName(SELECTION_PREFIX, 1, s.sha256), ChainName(MANIFEST_PREFIX, 1, m.sha256)]
    ensures NoDuplicates([DOT, DOT_DOT] + ExpectedNames([s], [m]))
  {
    hide ChainName;
    assert ExpectedNames([s], [m])
        == [ROOT_NAME, HEAD_NAME, ChainName(SELECTION_PREFIX, 1, s.sha256), ChainName(MANIFEST_PREFIX, 1, m.sha256)];
    ExpectedNamesDistinct([s], [m]);
    LongerThanDots(SELECTION_PREFIX, s.sha256);
    LongerThanDots(MANIFEST_PREFIX, m.sha256);
  }

  lemma LongerThanDots(prefix: Name, digest: Digest)
    ensures |ChainName(prefix, 1, digest)| > 2
  {
  }

  lemma FirstEntries(s: Selection, m: Manifest)
    ensures Elements(Entries([DOT, DOT_DOT] + ExpectedNames([s], [m]))) == Elements(ExpectedNames([s], [m]))
  {
    hide ExpectedNames, ChainName;
    FirstNames(s, m);
    LongerThanDots(SELECTION_PREFIX, s.sha256);
    LongerThanDots(MANIFEST_PREFIX, m.sha256);
    assert forall name :: name in ExpectedNames([s], [m]) ==> IsEntry(name);
  }

  lemma FirstFiles(c: Context, s: Selection, m: Manifest)
    ensures var files := FirstDirectory(c, s, m).files;
            && files[ROOT_NAME] == c.pins.rootKey && files[HEAD_NAME] == D.PrintSelection(s.document)
            && files[ChainName(SELECTION_PREFIX, 1, s.sha256)] == D.PrintSelection(s.document)
            && files[ChainName(MANIFEST_PREFIX, 1, m.sha256)] == D.PrintManifest(m.document)
            && IsDirectory(FirstDirectory(c, s, m))
  {
    hide ChainName, D.PrintSelection, D.PrintManifest;
    PrefixesDiffer(1, 1, s.sha256, m.sha256);
    FirstNames(s, m);
    LongerThanDots(SELECTION_PREFIX, s.sha256);
    LongerThanDots(MANIFEST_PREFIX, m.sha256);
  }

  lemma FirstChainValid(c: Context, verify: D.Verifier, s: Selection, m: Manifest)
    requires FirstGeneration(c, verify, s, m)
    ensures ValidChain([s]) && SelectedDigests([s]) == [m.sha256] && Extends([], m)
    ensures IsSelected(s)
  {
    hide D.PrintSelection, D.PrintManifest, D.UnsignedManifest, D.UnsignedSelection;
    assert [s][..0] == [];
    assert SelectedDigests([s]) == [m.sha256];
  }

  lemma FirstPublishes(c: Context, verify: D.Verifier, s: Selection, m: Manifest)
    requires FirstGeneration(c, verify, s, m)
    ensures Publishes(FirstDirectory(c, s, m), c, verify, Chain([s], [m]))
  {
    hide ChainName, D.PrintSelection, D.PrintManifest, ValidChain, SelectedDigests, ProperManifest, ProperSelection,
         Elements, Entries, ExpectedNames, Extends, NoDuplicates;
    var d := FirstDirectory(c, s, m);
    FirstChainValid(c, verify, s, m);
    FirstFiles(c, s, m);
    FirstEntries(s, m);
    assert HasSelection(d, c, verify, s, 1) && HasManifest(d, c, verify, m, 1);
    assert [m][..0] == [];
    assert Digests([m]) == [m.sha256];
  }

  lemma FirstGrants(c: Context, verify: D.Verifier, s: Selection, m: Manifest, role: nat)
    requires FirstGeneration(c, verify, s, m) && IsSelected(s) && 1 <= role <= 2
    ensures Grants(Chain([s], [m]), role, 0, None, Authenticated(1, RoleKeys(m)[role - 1]))
  {
    hide D.PrintSelection, D.PrintManifest, ProperManifest, ProperSelection, IsSelected, RoleKeys;
  }

  /** Any first generation can be published, and its four files let host and supervisor authenticate. */
  lemma FirstGenerationAuthenticates(c: Context, verify: D.Verifier, s: Selection, m: Manifest, role: nat)
    requires Judges(c, verify) && FirstGeneration(c, verify, s, m) && 1 <= role <= 2
    ensures IsDirectory(FirstDirectory(c, s, m))
    ensures Authenticate(FirstDirectory(c, s, m), c, role, 0, None) == Some(Authenticated(1, RoleKeys(m)[role - 1]))
  {
    hide *;
    FirstChainValid(c, verify, s, m);
    FirstFiles(c, s, m);
    FirstPublishes(c, verify, s, m);
    FirstGrants(c, verify, s, m, role);
    AuthenticatesExactly(FirstDirectory(c, s, m), c, verify, role, 0, None, Authenticated(1, RoleKeys(m)[role - 1]));
  }

  // ---------------------------------------------------------------- a directory that authenticates

  function Sample(b: Byte): (s: seq<Byte>)
    ensures |s| == 32 && s[0] == b
  {
    seq(32, _ => b)
  }

  function SamplePins(): D.Pins {
    D.Pins(['r' as int], Sample(0), ['t' as int])
  }

  function SampleManifest(): D.Manifest {
    var head := D.ManifestHead(['t' as int], 1, ['h' as int], Sample(1), None, ['c' as int], Sample(2), ['r' as int]);
    D.Manifest(head, Sample(0) + Sample(0), D.ManifestTail(['s' as int], Sample(3)))
  }

  /** A hash that tells the files of the sample directory apart. */
  function SampleHash(bytes: seq<Byte>): (r: Digest)
    ensures |r| == 32
  {
    if bytes == SamplePins().rootKey then Sample(1)
    else if bytes == D.PrintManifest(SampleManifest()) then Sample(2)
    else Sample(3)
  }

  function SampleSelection(): D.Selection {
    var digest := SampleHash(D.PrintManifest(SampleManifest()));
    var head := D.SelectionHead(D.SELECTED, ['t' as int], None, Ascii("initial"), None, Some(1), Some(digest), 1);
    D.Selection(head, Sample(0) + Sample(0))
  }

  function Trusting(): D.Verifier {
    (_, _) => true
  }

  function SampleContext(): Context {
    ContextOf(SampleHash, SampleHash(Sample(0)), SamplePins(), Trusting())
  }

  lemma SampleManifestProper()
    ensures ProperManifest(SampleManifest(), SamplePins(), Trusting())
  {
    hide D.UnsignedManifest, Ascii, Sample;
    var m := SampleManifest();
    assert m.head.hostKey[0] == 1 && m.head.recoveryKey[0] == 2 && m.tail.supervisorKey[0] == 3
           && SamplePins().rootKey[0] == 0;
    assert m.head.hostKeyId[0] == 'h' as int && m.head.recoveryKeyId[0] == 'c' as int
           && m.tail.supervisorKeyId[0] == 's' as int;
    assert SamplePins().rootKeyId[0] == 'r' as int;
  }

  predicate IsCode(text: string) {
    0 < |text| < 32 && text[0] != '_' && forall i :: 0 <= i < |text| ==> 'a' <= text[i] <= 'z' || text[i] == '_'
  }

  lemma CodeIsIdentifier(text: string)
    requires IsCode(text)
    ensures P.IsIdentifier(Ascii(text), D.CODE_SIZE)
  {
  }

  lemma SampleSelectionProper()
    ensures ProperSelection(SampleSelection(), SamplePins(), Trusting())
  {
    hide D.PrintManifest, D.UnsignedSelection, Sample, SampleHash, Ascii;
    CodeIsIdentifier("generation_selected");
    CodeIsIdentifier("initial");
  }

  lemma SampleFirst()
    ensures FirstGeneration(SampleContext(), Trusting(),
                            Loaded(SampleSelection(), SampleHash(D.PrintSelection(SampleSelection()))),
                            Loaded(SampleManifest(), SampleHash(D.PrintManifest(SampleManifest()))))
  {
    hide D.PrintManifest, D.PrintSelection, SampleHash, Sample, ProperManifest, ProperSelection;
    SampleManifestProper();
    SampleSelectionProper();
  }

  lemma SampleJudges()
    ensures Judges(SampleContext(), Trusting())
    ensures SampleContext().hash == SampleHash && SampleContext().pins == SamplePins()
  {
    ContextJudges(SampleHash, SampleHash(Sample(0)), SamplePins(), Trusting());
  }

  lemma SampleCollisionFree(c: Context, s: Selection, m: Manifest)
    requires c.hash == SampleHash && c.pins == SamplePins() && m.document == SampleManifest()
    ensures var d := FirstDirectory(c, s, m); CollisionFree(c, d, d) && SameFile(d, d, HEAD_NAME)
  {
    hide D.PrintManifest, D.PrintSelection, ChainName, Sample, SampleManifest, SamplePins;
    var d := FirstDirectory(c, s, m);
    assert forall name :: name in d.files ==>
      d.files[name] in {c.pins.rootKey, D.PrintSelection(s.document), D.PrintManifest(m.document)};
    assert Sample(1)[0] == 1 && Sample(2)[0] == 2 && Sample(3)[0] == 3;
  }

  /** There is a directory that authenticates and whose files do not collide. */
  lemma SomeDirectoryAuthenticates() returns (d: Directory, c: Context, verify: D.Verifier)
    ensures Judges(c, verify) && IsDirectory(d) && CollisionFree(c, d, d) && SameFile(d, d, HEAD_NAME)
    ensures Authenticate(d, c, 1, 0, None).Some?
  {
    hide *;
    verify := Trusting();
    c := SampleContext();
    var s := Loaded(SampleSelection(), SampleHash(D.PrintSelection(SampleSelection())));
    var m := Loaded(SampleManifest(), SampleHash(D.PrintManifest(SampleManifest())));
    SampleFirst();
    SampleJudges();
    d := FirstDirectory(c, s, m);
    FirstGenerationAuthenticates(c, verify, s, m, 1);
    FirstFiles(c, s, m);
    SampleCollisionFree(c, s, m);
  }
}
