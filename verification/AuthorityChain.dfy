/** The chain verifier of the transport authority: from the head selection down to the first, then up
through the manifests, with an exact inventory of the directory.

The hash and the signature check are parameters.  Nothing is assumed of the signature check, and of
the hash only, where a theorem says so, that the files at hand do not collide.
*/
module AuthorityChain {
  import opened Bytes
  import P = AuthorityParsers
  import D = AuthorityDocuments
  import C = AuthorityCursor

  const MAXIMUM_BYTES := 64 * 1024
  const MAXIMUM_CHAIN_FILES := 256
  const ROOT_NAME := Ascii("root-ed25519.pub")
  const HEAD_NAME := Ascii("selection.json")
  const SELECTION_PREFIX := Ascii("transport-authority-selection-s")
  const MANIFEST_PREFIX := Ascii("transport-authority-manifest-g")
  const DASH := Ascii("-")
  const SUFFIX := Ascii(".json")
  const DOT := Ascii(".")
  const DOT_DOT := Ascii("..")

  type Name = seq<Byte>
  type Digest = seq<Byte>

  /** What the verifier is given: a hash, the pinned root with its digest, and how it judges documents. */
  datatype Context = Context(
    hash: seq<Byte> -> Digest, rootDigest: Digest, pins: D.Pins,
    judgeSelection: seq<Byte> -> D.Verdict<D.Selection>, judgeManifest: seq<Byte> -> D.Verdict<D.Manifest>)

  /** The context of a signature check: documents are judged as the parser judges them. */
  function ContextOf(hash: seq<Byte> -> Digest, rootDigest: Digest, pins: D.Pins, verify: D.Verifier): Context {
    Context(hash, rootDigest, pins, s => D.JudgeSelection(s, pins, verify), s => D.JudgeManifest(s, pins, verify))
  }

  ghost predicate Judges(c: Context, verify: D.Verifier) {
    && (forall s :: c.judgeSelection(s) == D.JudgeSelection(s, c.pins, verify))
    && (forall s :: c.judgeManifest(s) == D.JudgeManifest(s, c.pins, verify))
  }

  lemma ContextJudges(hash: seq<Byte> -> Digest, rootDigest: Digest, pins: D.Pins, verify: D.Verifier)
    ensures Judges(ContextOf(hash, rootDigest, pins, verify), verify)
  {
  }

  /** A directory: the bytes of its loadable files, and the names the kernel lists, each once. */
  datatype Directory = Directory(files: map<Name, seq<Byte>>, listing: seq<Name>)

  predicate NoDuplicates<T(==)>(s: seq<T>) {
    forall i, j :: 0 <= i < j < |s| ==> s[i] != s[j]
  }

  predicate IsDirectory(d: Directory) {
    && NoDuplicates(d.listing)
    && forall name :: name in d.files ==> name in d.listing && name != DOT && name != DOT_DOT
  }

  // ---------------------------------------------------------------- names

  /** The %08u form of numbers below 10^8. */
  function ZeroPadded(n: nat, width: nat): (s: seq<Byte>)
    ensures |s| == width
  {
    if width == 0 then [] else ZeroPadded(n / 10, width - 1) + ['0' as int + n % 10]
  }

  function Power10(width: nat): nat {
    if width == 0 then 1 else 10 * Power10(width - 1)
  }

  lemma {:induction false} ZeroPaddedInjective(m: nat, n: nat, width: nat)
    requires m < Power10(width) && n < Power10(width)
    requires ZeroPadded(m, width) == ZeroPadded(n, width)
    ensures m == n
  {
    if width > 0 {
      var a, b := ZeroPadded(m, width), ZeroPadded(n, width);
      assert a[width - 1] == b[width - 1] && a[..width - 1] == b[..width - 1];
      assert a[..width - 1] == ZeroPadded(m / 10, width - 1) && b[..width - 1] == ZeroPadded(n / 10, width - 1);
      ZeroPaddedInjective(m / 10, n / 10, width - 1);
    }
  }

  function ChainName(prefix: Name, number: nat, digest: Digest): Name {
    prefix + (ZeroPadded(number, 8) + (DASH + P.Hex(digest, SUFFIX)))
  }

  lemma ChainNameInjective(prefix: Name, m: nat, n: nat, a: Digest, b: Digest)
    requires m <= P.GENERATION_MAXIMUM && n <= P.GENERATION_MAXIMUM
    requires ChainName(prefix, m, a) == ChainName(prefix, n, b)
    ensures m == n
  {
    var x, y := ChainName(prefix, m, a), ChainName(prefix, n, b);
    assert x[|prefix|..|prefix| + 8] == ZeroPadded(m, 8) && y[|prefix|..|prefix| + 8] == ZeroPadded(n, 8);
    assert Power10(8) == P.GENERATION_MAXIMUM + 1;
    ZeroPaddedInjective(m, n, 8);
  }

  // ---------------------------------------------------------------- loading and parsing one file

  function LoadFile(d: Directory, name: Name, maximum: nat): Option<seq<Byte>> {
    if name in d.files && 0 < |d.files[name]| <= maximum then Some(d.files[name]) else None
  }

  /** A parsed document with the digest of its file. */
  datatype Loaded<+T> = Loaded(document: T, sha256: Digest)

  type Selection = Loaded<D.Selection>
  type Manifest = Loaded<D.Manifest>

  function LoadSelection(d: Directory, c: Context, sequence: nat, expected: Digest): Option<Selection> {
    var bytes :- LoadFile(d, ChainName(SELECTION_PREFIX, sequence, expected), MAXIMUM_BYTES);
    if c.hash(bytes) != expected then None
    else
      match c.judgeSelection(bytes)
      case Accepted(s) => if s.head.sequence == sequence then Some(Loaded(s, c.hash(bytes))) else None
      case _ => None
  }

  function LoadManifest(d: Directory, c: Context, generation: nat, expected: Digest): Option<Manifest> {
    var bytes :- LoadFile(d, ChainName(MANIFEST_PREFIX, generation, expected), MAXIMUM_BYTES);
    if c.hash(bytes) != expected then None
    else
      match c.judgeManifest(bytes)
      case Accepted(m) => if m.head.generation == generation then Some(Loaded(m, c.hash(bytes))) else None
      case _ => None
  }

  // ---------------------------------------------------------------- the chain of selections

  /** Follow predecessor digests from selection `sequence` down to selection 1. */
  function LoadSelections(d: Directory, c: Context, sequence: nat, expected: Digest): (r: Option<seq<Selection>>)
    ensures r.Some? ==> |r.value| == sequence
  {
    if sequence == 0 then Some([])
    else
      var s :- LoadSelection(d, c, sequence, expected);
      if sequence == 1 then Some([s])
      else if s.document.head.predecessor.None? then None
      else
        Appended(LoadSelections(d, c, sequence - 1, s.document.head.predecessor.value), [s])
  }

  function Appended<T>(r: Option<seq<T>>, tail: seq<T>): (s: Option<seq<T>>)
    ensures tail == [] ==> s == r
    ensures r == Some([]) ==> s == Some(tail)
    ensures s.Some? <==> r.Some?
    ensures s.Some? ==> |s.value| == |r.value| + |tail|
  {
    if r.None? then None
    else
      assert tail == [] ==> r.value + tail == r.value;
      assert r.value == [] ==> r.value + tail == tail;
      Some(r.value + tail)
  }

  lemma AppendedTwice<T>(r: Option<seq<T>>, s: seq<T>, t: seq<T>)
    ensures Appended(Appended(r, s), t) == Appended(r, s + t)
  {
    assert r.Some? ==> r.value + s + t == r.value + (s + t);
  }

  predicate IsSelected(s: Selection) {
    s.document.head.disposition == D.SELECTED
  }

  function SelectedManifest(s: Selection): Digest {
    if s.document.head.selectedManifest.Some? then s.document.head.selectedManifest.value else []
  }

  /** The manifest digests selected so far, oldest first. */
  function SelectedDigests(selections: seq<Selection>): (r: seq<Digest>)
    ensures |r| <= |selections|
  {
    if selections == [] then []
    else
      var last := selections[|selections| - 1];
      SelectedDigests(selections[..|selections| - 1]) + if IsSelected(last) then [SelectedManifest(last)] else []
  }

  predicate ValidAt(selections: seq<Selection>, i: nat)
    requires i < |selections|
  {
    var h := selections[i].document.head;
    && h.sequence == i + 1
    && (i == 0 <==> h.predecessor.None?)
    && (i > 0 ==>
        h.predecessor == Some(selections[i - 1].sha256) && h.environment == selections[0].document.head.environment)
    && (IsSelected(selections[i]) ==> h.selectedGeneration == Some(|SelectedDigests(selections[..i])| + 1))
    && (h.recovery.Some? ==> h.recovery.value in SelectedDigests(selections[..i + 1]))
  }

  predicate ValidChain(selections: seq<Selection>) {
    forall i :: 0 <= i < |selections| ==> ValidAt(selections, i)
  }

  method DigestWasSelected(digests: seq<Digest>, digest: Digest) returns (found: bool)
    ensures found <==> digest in digests
  {
    for index := 0 to |digests|
      invariant digest !in digests[..index]
    {
      if digests[index] == digest {
        return true;
      }
    }
    assert digests[..|digests|] == digests;
    return false;
  }

  method ValidateSelectionChain(selections: seq<Selection>) returns (r: Option<seq<Digest>>)
    ensures r.Some? <==> ValidChain(selections)
    ensures r.Some? ==> r.value == SelectedDigests(selections)
  {
    var selected: seq<Digest> := [];
    for index := 0 to |selections|
      invariant forall i :: 0 <= i < index ==> ValidAt(selections, i)
      invariant selected == SelectedDigests(selections[..index])
    {
      var h := selections[index].document.head;
      assert selections[..index + 1][..index] == selections[..index];
      if h.sequence != index + 1
         || (index == 0) != h.predecessor.None?
         || (index > 0 && h.predecessor != Some(selections[index - 1].sha256))
         || (index > 0 && h.environment != selections[0].document.head.environment)
      {
        assert !ValidAt(selections, index);
        return None;
      }
      if IsSelected(selections[index]) {
        if h.selectedGeneration != Some(|selected| + 1) {
          assert !ValidAt(selections, index);
          return None;
        }
        selected := selected + [SelectedManifest(selections[index])];
      }
      if h.recovery.Some? {
        var found := DigestWasSelected(selected, h.recovery.value);
        if !found {
          assert !ValidAt(selections, index);
          return None;
        }
      }
    }
    assert selections[..|selections|] == selections;
    return Some(selected);
  }

  /** The generations of the selections that select one, in order. */
  function SelectedGenerations(selections: seq<Selection>): seq<Option<nat>> {
    if selections == [] then []
    else
      var last := selections[|selections| - 1];
      SelectedGenerations(selections[..|selections| - 1])
      + if IsSelected(last) then [last.document.head.selectedGeneration] else []
  }

  /** In an accepted chain the selected generations are 1, 2, ..., m, one per selected digest. */
  lemma {:induction false} GenerationsConsecutive(selections: seq<Selection>, n: nat)
    requires ValidChain(selections) && n <= |selections|
    ensures |SelectedGenerations(selections[..n])| == |SelectedDigests(selections[..n])|
    ensures forall k :: 0 <= k < |SelectedGenerations(selections[..n])| ==>
              SelectedGenerations(selections[..n])[k] == Some(k + 1)
  {
    if n > 0 {
      GenerationsConsecutive(selections, n - 1);
      assert selections[..n][..n - 1] == selections[..n - 1];
      assert ValidAt(selections, n - 1);
    }
  }

  /** A recovery digest was selected at its own selection or before. */
  lemma RecoveryWasSelected(selections: seq<Selection>, i: nat)
    requires ValidChain(selections) && i < |selections|
    requires selections[i].document.head.recovery.Some?
    ensures exists j :: 0 <= j <= i && IsSelected(selections[j])
                        && SelectedManifest(selections[j]) == selections[i].document.head.recovery.value
  {
    assert ValidAt(selections, i);
    var j := SelectedSomewhere(selections[..i + 1], selections[i].document.head.recovery.value);
  }

  lemma {:induction false} SelectedSomewhere(selections: seq<Selection>, digest: Digest) returns (j: nat)
    requires digest in SelectedDigests(selections)
    ensures j < |selections| && IsSelected(selections[j]) && SelectedManifest(selections[j]) == digest
  {
    var n := |selections| - 1;
    if IsSelected(selections[n]) && SelectedManifest(selections[n]) == digest {
      j := n;
    } else {
      j := SelectedSomewhere(selections[..n], digest);
    }
  }

  method LoadAndParseSelection(d: Directory, c: Context, verify: D.Verifier, sequence: nat, expected: Digest)
    returns (r: Option<Selection>)
    requires Judges(c, verify)
    ensures r == LoadSelection(d, c, sequence, expected)
  {
    var bytes := LoadFile(d, ChainName(SELECTION_PREFIX, sequence, expected), MAXIMUM_BYTES);
    if bytes.None? || c.hash(bytes.value) != expected {
      return None;
    }
    var parsed := C.ParseSelection(bytes.value, c.pins, verify);
    if !parsed.Accepted? || parsed.value.head.sequence != sequence {
      return None;
    }
    return Some(Loaded(parsed.value, c.hash(bytes.value)));
  }

  /** The loop that walks the chain down from the head. */
  method LoadSelectionChain(d: Directory, c: Context, verify: D.Verifier, sequence: nat, head: Digest)
    returns (r: Option<seq<Selection>>)
    requires Judges(c, verify)
    ensures r == LoadSelections(d, c, sequence, head)
  {
    var selections: seq<Selection> := [];
    var expected := head;
    var n: nat := sequence;
    while n > 0
      invariant LoadSelections(d, c, sequence, head) == Appended(LoadSelections(d, c, n, expected), selections)
    {
      var s := LoadAndParseSelection(d, c, verify, n, expected);
      if s.None? {
        return None;
      }
      if n > 1 {
        if s.value.document.head.predecessor.None? {
          return None;
        }
        expected := s.value.document.head.predecessor.value;
      }
      AppendedTwice(LoadSelections(d, c, n - 1, expected), [s.value], selections);
      selections := [s.value] + selections;
      n := n - 1;
    }
    return Some(selections);
  }

  // ---------------------------------------------------------------- the chain of manifests

  function RoleIds(m: Manifest): (r: seq<seq<Byte>>)
    ensures |r| == 3
  {
    [m.document.head.hostKeyId, m.document.tail.supervisorKeyId, m.document.head.recoveryKeyId]
  }

  function RoleKeys(m: Manifest): (r: seq<seq<Byte>>)
    ensures |r| == 3
  {
    [m.document.head.hostKey, m.document.tail.supervisorKey, m.document.head.recoveryKey]
  }

  predicate SharesAt(m: Manifest, prior: Manifest, left: nat, right: nat)
    requires left < 3 && right < 3
  {
    RoleIds(m)[left] == RoleIds(prior)[right] || RoleKeys(m)[left] == RoleKeys(prior)[right]
  }

  predicate Shares(m: Manifest, prior: Manifest) {
    exists left, right :: 0 <= left < 3 && 0 <= right < 3 && SharesAt(m, prior, left, right)
  }

  method ManifestReusedKey(manifests: seq<Manifest>, candidate: Manifest) returns (reused: bool)
    ensures reused <==> exists k :: 0 <= k < |manifests| && Shares(candidate, manifests[k])
  {
    for index := 0 to |manifests|
      invariant forall k :: 0 <= k < index ==> !Shares(candidate, manifests[k])
    {
      for left := 0 to 3
        invariant forall l, r :: 0 <= l < left && 0 <= r < 3 ==> !SharesAt(candidate, manifests[index], l, r)
      {
        for right := 0 to 3
          invariant forall r :: 0 <= r < right ==> !SharesAt(candidate, manifests[index], left, r)
        {
          if SharesAt(candidate, manifests[index], left, right) {
            return true;
          }
        }
      }
    }
    return false;
  }

  predicate Extends(prior: seq<Manifest>, m: Manifest) {
    var h := m.document.head;
    && (prior == [] <==> h.predecessor.None?)
    && (prior != [] ==> h.environment == prior[0].document.head.environment
                        && h.predecessor == Some(prior[|prior| - 1].sha256))
    && forall k :: 0 <= k < |prior| ==> !Shares(m, prior[k])
  }

  function LoadManifests(d: Directory, c: Context, digests: seq<Digest>): (r: Option<seq<Manifest>>)
    ensures r.Some? ==> |r.value| == |digests|
  {
    if digests == [] then Some([])
    else
      var n := |digests|;
      var prior :- LoadManifests(d, c, digests[..n - 1]);
      var m :- LoadManifest(d, c, n, digests[n - 1]);
      if Extends(prior, m) then Some(prior + [m]) else None
  }

  method LoadAndParseManifest(d: Directory, c: Context, verify: D.Verifier, generation: nat, expected: Digest)
    returns (r: Option<Manifest>)
    requires Judges(c, verify)
    ensures r == LoadManifest(d, c, generation, expected)
  {
    var bytes := LoadFile(d, ChainName(MANIFEST_PREFIX, generation, expected), MAXIMUM_BYTES);
    if bytes.None? || c.hash(bytes.value) != expected {
      return None;
    }
    var parsed := C.ParseManifest(bytes.value, c.pins, verify);
    if !parsed.Accepted? || parsed.value.head.generation != generation {
      return None;
    }
    return Some(Loaded(parsed.value, c.hash(bytes.value)));
  }

  lemma {:induction false} LoadManifestsPrefix(d: Directory, c: Context, digests: seq<Digest>, n: nat)
    requires n <= |digests| && LoadManifests(d, c, digests).Some?
    ensures LoadManifests(d, c, digests[..n]).Some?
    ensures LoadManifests(d, c, digests[..n]).value == LoadManifests(d, c, digests).value[..n]
    decreases |digests|
  {
    if n < |digests| {
      LoadManifestsPrefix(d, c, digests[..|digests| - 1], n);
      assert digests[..|digests| - 1][..n] == digests[..n];
    } else {
      assert digests[..n] == digests;
    }
  }

  method LoadManifestChain(d: Directory, c: Context, verify: D.Verifier, digests: seq<Digest>)
    returns (r: Option<seq<Manifest>>)
    requires Judges(c, verify)
    ensures r == LoadManifests(d, c, digests)
  {
    hide Judges, LoadManifest;
    var manifests: seq<Manifest> := [];
    for n := 0 to |digests|
      invariant LoadManifests(d, c, digests[..n]) == Some(manifests)
    {
      assert digests[..n + 1][..n] == digests[..n];
      var m := LoadAndParseManifest(d, c, verify, n + 1, digests[n]);
      var reused := false;
      if m.Some? {
        reused := ManifestReusedKey(manifests, m.value);
      }
      if m.None?
         || (n > 0 && m.value.document.head.environment != manifests[0].document.head.environment)
         || (n == 0) != m.value.document.head.predecessor.None?
         || (n > 0 && m.value.document.head.predecessor != Some(manifests[n - 1].sha256))
         || reused
      {
        if LoadManifests(d, c, digests).Some? {
          LoadManifestsPrefix(d, c, digests, n + 1);
        }
        return None;
      }
      manifests := manifests + [m.value];
    }
    assert digests[..|digests|] == digests;
    return Some(manifests);
  }

  // ---------------------------------------------------------------- what an accepted manifest chain is

  predicate ManifestChain(c: Context, manifests: seq<Manifest>) {
    forall k :: 0 <= k < |manifests| ==>
      && D.WellFormedManifest(manifests[k].document) && D.AdmissibleManifest(manifests[k].document, c.pins)
      && manifests[k].document.head.generation == k + 1
      && Extends(manifests[..k], manifests[k])
  }

  lemma LoadedManifest(d: Directory, c: Context, verify: D.Verifier, generation: nat, expected: Digest)
    requires Judges(c, verify)
    requires LoadManifest(d, c, generation, expected).Some?
    ensures var m := LoadManifest(d, c, generation, expected).value;
            && D.WellFormedManifest(m.document) && D.AdmissibleManifest(m.document, c.pins)
            && m.document.head.generation == generation && m.sha256 == expected
  {
  }

  lemma ManifestChainGrows(c: Context, prior: seq<Manifest>, m: Manifest)
    requires ManifestChain(c, prior) && Extends(prior, m)
    requires D.WellFormedManifest(m.document) && D.AdmissibleManifest(m.document, c.pins)
    requires m.document.head.generation == |prior| + 1
    ensures ManifestChain(c, prior + [m])
  {
    hide D.WellFormedManifest, D.AdmissibleManifest, Extends;
    assert (prior + [m])[..|prior|] == prior;
    assert forall k :: 0 <= k < |prior| ==> (prior + [m])[..k] == prior[..k];
  }

  lemma {:induction false} LoadedManifestChain(d: Directory, c: Context, verify: D.Verifier, digests: seq<Digest>)
    requires Judges(c, verify)
    requires LoadManifests(d, c, digests).Some?
    ensures ManifestChain(c, LoadManifests(d, c, digests).value)
    ensures forall k :: 0 <= k < |digests| ==> LoadManifests(d, c, digests).value[k].sha256 == digests[k]
  {
    hide Judges, LoadManifest, Extends, D.WellFormedManifest, D.AdmissibleManifest;
    if digests != [] {
      var n := |digests| - 1;
      LoadedManifestChain(d, c, verify, digests[..n]);
      LoadedManifest(d, c, verify, n + 1, digests[n]);
      ManifestChainGrows(c, LoadManifests(d, c, digests[..n]).value, LoadManifest(d, c, n + 1, digests[n]).value);
    }
  }

  /** Every manifest after the first names the digest of the file before it. */
  predicate Linked(manifests: seq<Manifest>) {
    forall k :: 0 < k < |manifests| ==> manifests[k].document.head.predecessor == Some(manifests[k - 1].sha256)
  }

  lemma ManifestChainLinked(c: Context, manifests: seq<Manifest>)
    requires ManifestChain(c, manifests)
    ensures Linked(manifests)
  {
    hide D.WellFormedManifest, D.AdmissibleManifest;
    forall k | 0 < k < |manifests|
      ensures manifests[k].document.head.predecessor == Some(manifests[k - 1].sha256)
    {
      assert Extends(manifests[..k], manifests[k]);
    }
  }

  function AllIds(manifests: seq<Manifest>): (r: seq<seq<Byte>>)
    ensures |r| == 3 * |manifests|
  {
    seq(3 * |manifests|, i requires 0 <= i < 3 * |manifests| => RoleIds(manifests[i / 3])[i % 3])
  }

  function AllKeys(manifests: seq<Manifest>): (r: seq<seq<Byte>>)
    ensures |r| == 3 * |manifests|
  {
    seq(3 * |manifests|, i requires 0 <= i < 3 * |manifests| => RoleKeys(manifests[i / 3])[i % 3])
  }

  lemma FreshAcross(c: Context, manifests: seq<Manifest>, j: nat, k: nat, left: nat, right: nat)
    requires ManifestChain(c, manifests) && j < k < |manifests| && left < 3 && right < 3
    ensures RoleIds(manifests[k])[left] != RoleIds(manifests[j])[right]
    ensures RoleKeys(manifests[k])[left] != RoleKeys(manifests[j])[right]
  {
    assert Extends(manifests[..k], manifests[k]);
    assert manifests[..k][j] == manifests[j];
    assert !Shares(manifests[k], manifests[j]);
    assert !SharesAt(manifests[k], manifests[j], left, right);
  }

  lemma FreshWithin(c: Context, m: Manifest, left: nat, right: nat)
    requires D.AdmissibleManifest(m.document, c.pins) && left < right < 3
    ensures RoleIds(m)[left] != RoleIds(m)[right] && RoleKeys(m)[left] != RoleKeys(m)[right]
  {
  }

  lemma FreshFromRoot(c: Context, m: Manifest, role: nat)
    requires D.AdmissibleManifest(m.document, c.pins) && role < 3
    ensures RoleIds(m)[role] != c.pins.rootKeyId && RoleKeys(m)[role] != c.pins.rootKey
  {
  }

  /** All 3m role key ids, and all 3m role keys, are pairwise distinct and none is the root's. */
  lemma KeysFresh(c: Context, manifests: seq<Manifest>)
    requires ManifestChain(c, manifests)
    ensures NoDuplicates(AllIds(manifests)) && c.pins.rootKeyId !in AllIds(manifests)
    ensures NoDuplicates(AllKeys(manifests)) && c.pins.rootKey !in AllKeys(manifests)
  {
    hide D.WellFormedManifest, D.AdmissibleManifest, Extends, RoleIds, RoleKeys;
    forall x, y | 0 <= x < y < 3 * |manifests|
      ensures AllIds(manifests)[x] != AllIds(manifests)[y] && AllKeys(manifests)[x] != AllKeys(manifests)[y]
    {
      if x / 3 == y / 3 {
        FreshWithin(c, manifests[x / 3], x % 3, y % 3);
      } else {
        FreshAcross(c, manifests, x / 3, y / 3, y % 3, x % 3);
      }
    }
    forall x | 0 <= x < 3 * |manifests|
      ensures AllIds(manifests)[x] != c.pins.rootKeyId && AllKeys(manifests)[x] != c.pins.rootKey
    {
      FreshFromRoot(c, manifests[x / 3], x % 3);
    }
  }

  // ---------------------------------------------------------------- the exact inventory

  function ChainNames<T>(prefix: Name, loaded: seq<Loaded<T>>): (r: seq<Name>)
    ensures |r| == |loaded|
  {
    seq(|loaded|, i requires 0 <= i < |loaded| => ChainName(prefix, i + 1, loaded[i].sha256))
  }

  /** The root key, the head, and one file per selection and manifest. */
  function ExpectedNames(selections: seq<Selection>, manifests: seq<Manifest>): seq<Name> {
    [ROOT_NAME, HEAD_NAME] + ChainNames(SELECTION_PREFIX, selections) + ChainNames(MANIFEST_PREFIX, manifests)
  }

  method ExpectedAuthorityName(name: Name, selections: seq<Selection>, manifests: seq<Manifest>) returns (ok: bool)
    ensures ok <==> name in ExpectedNames(selections, manifests)
  {
    hide ChainName;
    ghost var s, m := ChainNames(SELECTION_PREFIX, selections), ChainNames(MANIFEST_PREFIX, manifests);
    if name == ROOT_NAME || name == HEAD_NAME {
      return true;
    }
    for index := 0 to |selections|
      invariant forall i :: 0 <= i < index ==> s[i] != name
    {
      if name == ChainName(SELECTION_PREFIX, index + 1, selections[index].sha256) {
        assert s[index] == name;
        return true;
      }
    }
    for index := 0 to |manifests|
      invariant forall i :: 0 <= i < index ==> m[i] != name
    {
      if name == ChainName(MANIFEST_PREFIX, index + 1, manifests[index].sha256) {
        assert m[index] == name;
        return true;
      }
    }
    return false;
  }

  predicate IsEntry(name: Name) {
    name != DOT && name != DOT_DOT
  }

  function Entries(listing: seq<Name>): (r: seq<Name>)
    ensures forall name :: name in r <==> name in listing && IsEntry(name)
    ensures NoDuplicates(listing) ==> NoDuplicates(r)
  {
    if listing == [] then []
    else
      var n := |listing| - 1;
      Entries(listing[..n]) + if IsEntry(listing[n]) then [listing[n]] else []
  }

  /** The scan checks each entry and counts them; the count makes it exact. */
  method ScanAuthorityDirectory(listing: seq<Name>, selections: seq<Selection>, manifests: seq<Manifest>)
    returns (ok: bool)
    ensures ok <==> && (forall name :: name in Entries(listing) ==> name in ExpectedNames(selections, manifests))
                    && |Entries(listing)| == |selections| + |manifests| + 2
  {
    var count := 0;
    for index := 0 to |listing|
      invariant count == |Entries(listing[..index])|
      invariant forall name :: name in Entries(listing[..index]) ==> name in ExpectedNames(selections, manifests)
    {
      assert listing[..index + 1][..index] == listing[..index];
      if listing[index] != DOT && listing[index] != DOT_DOT {
        var expected := ExpectedAuthorityName(listing[index], selections, manifests);
        if !expected {
          assert listing[index] in Entries(listing);
          return false;
        }
        count := count + 1;
      }
    }
    assert listing[..|listing|] == listing;
    return count == |selections| + |manifests| + 2;
  }

  ghost function Elements<T(!new)>(s: seq<T>): set<T> {
    set x | x in s
  }

  lemma {:induction false} ElementsCount<T(!new)>(s: seq<T>)
    requires NoDuplicates(s)
    ensures |Elements(s)| == |s|
  {
    if s != [] {
      var n := |s| - 1;
      ElementsCount(s[..n]);
      assert Elements(s) == Elements(s[..n]) + {s[n]};
    }
  }

  lemma ChainNamesDistinct<T>(prefix: Name, loaded: seq<Loaded<T>>)
    requires |loaded| < P.GENERATION_MAXIMUM
    ensures NoDuplicates(ChainNames(prefix, loaded))
  {
    forall i, j | 0 <= i < j < |loaded|
      ensures ChainNames(prefix, loaded)[i] != ChainNames(prefix, loaded)[j]
    {
      if ChainNames(prefix, loaded)[i] == ChainNames(prefix, loaded)[j] {
        ChainNameInjective(prefix, i + 1, j + 1, loaded[i].sha256, loaded[j].sha256);
      }
    }
  }

  lemma PrefixesDiffer(m: nat, n: nat, a: Digest, b: Digest)
    ensures ChainName(SELECTION_PREFIX, m, a) != ChainName(MANIFEST_PREFIX, n, b)
    ensures ChainName(SELECTION_PREFIX, m, a) != ROOT_NAME && ChainName(SELECTION_PREFIX, m, a) != HEAD_NAME
    ensures ChainName(MANIFEST_PREFIX, n, b) != ROOT_NAME && ChainName(MANIFEST_PREFIX, n, b) != HEAD_NAME
    ensures ROOT_NAME != HEAD_NAME
  {
    assert SELECTION_PREFIX[20] != MANIFEST_PREFIX[20];
    assert ChainName(SELECTION_PREFIX, m, a)[20] == SELECTION_PREFIX[20];
    assert ChainName(MANIFEST_PREFIX, n, b)[20] == MANIFEST_PREFIX[20];
    assert ChainName(SELECTION_PREFIX, m, a)[0] == SELECTION_PREFIX[0]
           && ChainName(MANIFEST_PREFIX, n, b)[0] == MANIFEST_PREFIX[0];
    assert ROOT_NAME[0] == 'r' as int && HEAD_NAME[0] == 's' as int;
    assert SELECTION_PREFIX[0] == 't' as int && MANIFEST_PREFIX[0] == 't' as int;
  }

  lemma ExpectedNamesDistinct(selections: seq<Selection>, manifests: seq<Manifest>)
    requires |selections| < P.GENERATION_MAXIMUM && |manifests| < P.GENERATION_MAXIMUM
    ensures NoDuplicates(ExpectedNames(selections, manifests))
  {
    hide ChainName;
    var s, m := ChainNames(SELECTION_PREFIX, selections), ChainNames(MANIFEST_PREFIX, manifests);
    ChainNamesDistinct(SELECTION_PREFIX, selections);
    ChainNamesDistinct(MANIFEST_PREFIX, manifests);
    PrefixesDiffer(0, 0, [], []);
    forall i, j | 0 <= i < |s| && 0 <= j < |m|
      ensures s[i] != m[j]
    {
      PrefixesDiffer(i + 1, j + 1, selections[i].sha256, manifests[j].sha256);
    }
    forall i | 0 <= i < |s|
      ensures s[i] != ROOT_NAME && s[i] != HEAD_NAME
    {
      PrefixesDiffer(i + 1, 0, selections[i].sha256, []);
    }
    forall j | 0 <= j < |m|
      ensures m[j] != ROOT_NAME && m[j] != HEAD_NAME
    {
      PrefixesDiffer(0, j + 1, [], manifests[j].sha256);
    }
  }

  lemma SubsetOfSameSize<T>(a: set<T>, b: set<T>)
    requires a <= b && |a| == |b|
    ensures a == b
  {
    assert a + (b - a) == b && |b - a| == |b| - |a|;
  }

  /** Every name is expected and the count is right, exactly when the directory holds the expected
      names and nothing else. */
  lemma InventoryExact(listing: seq<Name>, selections: seq<Selection>, manifests: seq<Manifest>)
    requires NoDuplicates(listing)
    requires |selections| < P.GENERATION_MAXIMUM && |manifests| < P.GENERATION_MAXIMUM
    ensures (&& (forall name :: name in Entries(listing) ==> name in ExpectedNames(selections, manifests))
             && |Entries(listing)| == |selections| + |manifests| + 2)
            <==> Elements(Entries(listing)) == Elements(ExpectedNames(selections, manifests))
  {
    var entries, expected := Entries(listing), ExpectedNames(selections, manifests);
    ExpectedNamesDistinct(selections, manifests);
    ElementsCount(entries);
    ElementsCount(expected);
    if |entries| == |expected| && forall name :: name in entries ==> name in expected {
      SubsetOfSameSize(Elements(entries), Elements(expected));
    }
    if Elements(entries) == Elements(expected) {
      assert forall name :: name in entries ==> name in Elements(entries);
    }
  }

  // ---------------------------------------------------------------- authentication

  /** What authentication reads before it looks at the role. */
  datatype Chain = Chain(selections: seq<Selection>, manifests: seq<Manifest>)

  datatype Authenticated = Authenticated(generation: nat, key: seq<Byte>)

  function LoadRoot(d: Directory, c: Context): Option<()> {
    var bytes :- LoadFile(d, ROOT_NAME, D.KEY_SIZE);
    if |bytes| == D.KEY_SIZE && bytes == c.pins.rootKey && c.hash(bytes) == c.rootDigest then Some(()) else None
  }

  /** The selections the head file leads to; the newest must have the head's own bytes. */
  function LoadFromHead(d: Directory, c: Context, head: seq<Byte>): Option<seq<Selection>> {
    match c.judgeSelection(head)
    case Accepted(s) =>
      var name := ChainName(SELECTION_PREFIX, s.head.sequence, c.hash(head));
      if s.head.sequence + 3 > MAXIMUM_CHAIN_FILES then None
      else if LoadFile(d, name, MAXIMUM_BYTES) != Some(head) then None
      else LoadSelections(d, c, s.head.sequence, c.hash(head))
    case _ => None
  }

  function LoadChain(d: Directory, c: Context): Option<Chain> {
    var _ :- LoadRoot(d, c);
    var head :- LoadFile(d, HEAD_NAME, MAXIMUM_BYTES);
    var selections :- LoadFromHead(d, c, head);
    if !ValidChain(selections) then None
    else
      var digests := SelectedDigests(selections);
      if digests == [] || |selections| + |digests| + 2 > MAXIMUM_CHAIN_FILES then None
      else
        var manifests :- LoadManifests(d, c, digests);
        Some(Chain(selections, manifests))
  }

  /** Roles 1 and 2 use the newest generation, which the head must select; role 3 recovers a named one. */
  function RoleGeneration(chain: Chain, role: nat, generation: nat, manifest: Option<Digest>): (r: Option<nat>)
    requires chain.selections != [] && chain.manifests != []
    ensures r.Some? ==> 1 <= role <= 3 && 1 <= r.value <= |chain.manifests|
  {
    var newest := chain.selections[|chain.selections| - 1];
    var count := |chain.manifests|;
    if role == 1 || role == 2 then
      if IsSelected(newest) && newest.document.head.selectedGeneration == Some(count)
         && SelectedManifest(newest) == chain.manifests[count - 1].sha256
      then Some(count) else None
    else if role == 3 then
      if 1 <= generation <= count && manifest.Some? && newest.document.head.recovery == manifest
         && chain.manifests[generation - 1].sha256 == manifest.value
      then Some(generation) else None
    else None
  }

  function Authenticate(d: Directory, c: Context, role: nat, generation: nat,
                        manifest: Option<Digest>): Option<Authenticated>
  {
    var chain :- LoadChain(d, c);
    if chain.selections == [] || chain.manifests == [] then None
    else
      var g :- RoleGeneration(chain, role, generation, manifest);
      if (forall name :: name in Entries(d.listing) ==> name in ExpectedNames(chain.selections, chain.manifests))
         && |Entries(d.listing)| == |chain.selections| + |chain.manifests| + 2
      then Some(Authenticated(g, RoleKeys(chain.manifests[g - 1])[role - 1])) else None
  }

  lemma LoadedChain(d: Directory, c: Context)
    requires LoadChain(d, c).Some?
    ensures var chain := LoadChain(d, c).value;
            && ValidChain(chain.selections) && |chain.selections| + |chain.manifests| + 2 <= MAXIMUM_CHAIN_FILES
            && LoadManifests(d, c, SelectedDigests(chain.selections)) == Some(chain.manifests)
  {
    hide ValidChain, LoadManifests, LoadFromHead, SelectedDigests;
  }

  /** What authentication vouches for: consecutive generations with one manifest each, linked by their
      digests, keys never reused, and a directory that holds exactly the files of the chain. */
  lemma AuthenticatedChain(d: Directory, c: Context, verify: D.Verifier, role: nat, generation: nat,
                           manifest: Option<Digest>)
    requires Judges(c, verify) && IsDirectory(d)
    requires Authenticate(d, c, role, generation, manifest).Some?
    ensures LoadChain(d, c).Some?
    ensures var chain := LoadChain(d, c).value;
            && |SelectedGenerations(chain.selections)| == |SelectedDigests(chain.selections)| == |chain.manifests|
            && (forall k :: 0 <= k < |chain.manifests| ==>
                  && SelectedGenerations(chain.selections)[k] == Some(k + 1)
                  && chain.manifests[k].sha256 == SelectedDigests(chain.selections)[k])
            && ManifestChain(c, chain.manifests) && Linked(chain.manifests)
            && NoDuplicates(AllIds(chain.manifests)) && c.pins.rootKeyId !in AllIds(chain.manifests)
            && NoDuplicates(AllKeys(chain.manifests)) && c.pins.rootKey !in AllKeys(chain.manifests)
            && Elements(Entries(d.listing)) == Elements(ExpectedNames(chain.selections, chain.manifests))
  {
    hide Judges, LoadChain, ManifestChain, ValidChain, LoadManifests, ExpectedNames, Entries, Elements, NoDuplicates,
         AllIds, AllKeys, Linked, SelectedGenerations, SelectedDigests, RoleGeneration;
    var chain := LoadChain(d, c).value;
    LoadedChain(d, c);
    assert chain.selections[..|chain.selections|] == chain.selections;
    GenerationsConsecutive(chain.selections, |chain.selections|);
    LoadedManifestChain(d, c, verify, SelectedDigests(chain.selections));
    ManifestChainLinked(c, chain.manifests);
    KeysFresh(c, chain.manifests);
    assert NoDuplicates(d.listing);
    InventoryExact(d.listing, chain.selections, chain.manifests);
  }

  /** The k-th selected digest, and generation k + 1 with it, come from one selection. */
  lemma {:induction false} SelectedTogether(selections: seq<Selection>, n: nat, k: nat) returns (j: nat)
    requires ValidChain(selections) && n <= |selections| && k < |SelectedDigests(selections[..n])|
    ensures j < n && IsSelected(selections[j]) && SelectedManifest(selections[j]) == SelectedDigests(selections[..n])[k]
    ensures selections[j].document.head.selectedGeneration == Some(k + 1)
  {
    assert selections[..n][..n - 1] == selections[..n - 1];
    if k < |SelectedDigests(selections[..n - 1])| {
      j := SelectedTogether(selections, n - 1, k);
    } else {
      j := n - 1;
      assert ValidAt(selections, j);
    }
  }

  /** What a role gets: the key of a manifest that one selection selected together with its generation;
      for the host and the supervisor that selection is the head, and recovery gets what it named. */
  lemma AuthenticatedWasSelected(d: Directory, c: Context, verify: D.Verifier, role: nat, generation: nat,
                                 manifest: Option<Digest>)
    returns (j: nat)
    requires Judges(c, verify) && Authenticate(d, c, role, generation, manifest).Some?
    ensures LoadChain(d, c).Some?
    ensures var chain, a := LoadChain(d, c).value, Authenticate(d, c, role, generation, manifest).value;
            && j < |chain.selections| && IsSelected(chain.selections[j]) && 1 <= role <= 3
            && 1 <= a.generation <= |chain.manifests|
            && chain.selections[j].document.head.selectedGeneration == Some(a.generation)
            && SelectedManifest(chain.selections[j]) == chain.manifests[a.generation - 1].sha256
            && a.key == RoleKeys(chain.manifests[a.generation - 1])[role - 1]
            && (role != 3 ==> j == |chain.selections| - 1)
            && (role == 3 ==> a.generation == generation && manifest == Some(SelectedManifest(chain.selections[j])))
  {
    hide Judges, LoadChain, ManifestChain, ValidChain, LoadManifests, ExpectedNames, Entries, SelectedDigests, RoleKeys;
    var chain, a := LoadChain(d, c).value, Authenticate(d, c, role, generation, manifest).value;
    LoadedChain(d, c);
    assert chain.selections[..|chain.selections|] == chain.selections;
    LoadedManifestChain(d, c, verify, SelectedDigests(chain.selections));
    j := |chain.selections| - 1;
    if role == 3 {
      j := SelectedTogether(chain.selections, |chain.selections|, generation - 1);
    }
  }

  method AuthenticateDirectory(d: Directory, c: Context, verify: D.Verifier, role: nat, generation: nat,
                               manifest: Option<Digest>)
    returns (r: Option<Authenticated>)
    requires Judges(c, verify)
    ensures r == Authenticate(d, c, role, generation, manifest)
  {
    hide LoadChain, ExpectedNames, Entries, Judges;
    var chain := LoadWholeChain(d, c, verify);
    if chain.None? || chain.value.selections == [] || chain.value.manifests == [] {
      return None;
    }
    var g := RoleGeneration(chain.value, role, generation, manifest);
    if g.None? {
      return None;
    }
    var exact := ScanAuthorityDirectory(d.listing, chain.value.selections, chain.value.manifests);
    if !exact {
      return None;
    }
    return Some(Authenticated(g.value, RoleKeys(chain.value.manifests[g.value - 1])[role - 1]));
  }

  method LoadWholeChain(d: Directory, c: Context, verify: D.Verifier) returns (r: Option<Chain>)
    requires Judges(c, verify)
    ensures r == LoadChain(d, c)
  {
    var root := LoadRoot(d, c);
    var head := LoadFile(d, HEAD_NAME, MAXIMUM_BYTES);
    if root.None? || head.None? {
      return None;
    }
    var selections := LoadFromHeadFile(d, c, verify, head.value);
    if selections.None? {
      return None;
    }
    var digests := ValidateSelectionChain(selections.value);
    if digests.None? || digests.value == [] || |selections.value| + |digests.value| + 2 > MAXIMUM_CHAIN_FILES {
      return None;
    }
    var manifests := LoadManifestChain(d, c, verify, digests.value);
    if manifests.None? {
      return None;
    }
    return Some(Chain(selections.value, manifests.value));
  }

  method LoadFromHeadFile(d: Directory, c: Context, verify: D.Verifier, head: seq<Byte>)
    returns (r: Option<seq<Selection>>)
    requires Judges(c, verify)
    ensures r == LoadFromHead(d, c, head)
  {
    var parsed := C.ParseSelection(head, c.pins, verify);
    if !parsed.Accepted? || parsed.value.head.sequence + 3 > MAXIMUM_CHAIN_FILES {
      return None;
    }
    var sequence := parsed.value.head.sequence;
    if LoadFile(d, ChainName(SELECTION_PREFIX, sequence, c.hash(head)), MAXIMUM_BYTES) != Some(head) {
      return None;
    }
    r := LoadSelectionChain(d, c, verify, sequence, c.hash(head));
  }

  // ---------------------------------------------------------------- the head commits to everything

  /** No two files of the two directories collide under the hash. */
  ghost predicate CollisionFree(c: Context, d1: Directory, d2: Directory) {
    forall a, b :: a in d1.files && b in d2.files && c.hash(d1.files[a]) == c.hash(d2.files[b]) ==>
      d1.files[a] == d2.files[b]
  }

  ghost predicate SameFile(d1: Directory, d2: Directory, name: Name) {
    name in d1.files && name in d2.files && d1.files[name] == d2.files[name]
  }

  lemma SelectionAgrees(d1: Directory, d2: Directory, c: Context, sequence: nat, expected: Digest)
    requires CollisionFree(c, d1, d2)
    requires LoadSelection(d1, c, sequence, expected).Some? && LoadSelection(d2, c, sequence, expected).Some?
    ensures LoadSelection(d1, c, sequence, expected) == LoadSelection(d2, c, sequence, expected)
    ensures LoadSelection(d1, c, sequence, expected).value.sha256 == expected
    ensures SameFile(d1, d2, ChainName(SELECTION_PREFIX, sequence, expected))
  {
  }

  lemma ManifestAgrees(d1: Directory, d2: Directory, c: Context, generation: nat, expected: Digest)
    requires CollisionFree(c, d1, d2)
    requires LoadManifest(d1, c, generation, expected).Some? && LoadManifest(d2, c, generation, expected).Some?
    ensures LoadManifest(d1, c, generation, expected) == LoadManifest(d2, c, generation, expected)
    ensures LoadManifest(d1, c, generation, expected).value.sha256 == expected
    ensures SameFile(d1, d2, ChainName(MANIFEST_PREFIX, generation, expected))
  {
  }

  /** Downward over the selections: equal digests lead to equal chains and equal files. */
  lemma {:induction false} SelectionsAgree(d1: Directory, d2: Directory, c: Context, sequence: nat, expected: Digest)
    requires CollisionFree(c, d1, d2)
    requires LoadSelections(d1, c, sequence, expected).Some? && LoadSelections(d2, c, sequence, expected).Some?
    ensures LoadSelections(d1, c, sequence, expected) == LoadSelections(d2, c, sequence, expected)
    ensures forall i :: 0 <= i < sequence ==>
              SameFile(d1, d2,
                       ChainName(SELECTION_PREFIX, i + 1, LoadSelections(d1, c, sequence, expected).value[i].sha256))
  {
    hide LoadSelection, ChainName, CollisionFree, SameFile;
    if sequence > 0 {
      SelectionAgrees(d1, d2, c, sequence, expected);
      if sequence > 1 {
        var s := LoadSelection(d1, c, sequence, expected).value;
        SelectionsAgree(d1, d2, c, sequence - 1, s.document.head.predecessor.value);
      }
    }
  }

  /** Upward over the manifests. */
  lemma {:induction false} ManifestsAgree(d1: Directory, d2: Directory, c: Context, digests: seq<Digest>)
    requires CollisionFree(c, d1, d2)
    requires LoadManifests(d1, c, digests).Some? && LoadManifests(d2, c, digests).Some?
    ensures LoadManifests(d1, c, digests) == LoadManifests(d2, c, digests)
    ensures forall i :: 0 <= i < |digests| ==>
              SameFile(d1, d2, ChainName(MANIFEST_PREFIX, i + 1, LoadManifests(d1, c, digests).value[i].sha256))
  {
    hide LoadManifest, ChainName, CollisionFree, SameFile, Extends;
    if digests != [] {
      var n := |digests|;
      ManifestsAgree(d1, d2, c, digests[..n - 1]);
      ManifestAgrees(d1, d2, c, n, digests[n - 1]);
    }
  }

  /** Two directories with the same head that both load, load the same chain from the same files. */
  lemma ChainsAgree(d1: Directory, d2: Directory, c: Context)
    requires CollisionFree(c, d1, d2) && SameFile(d1, d2, HEAD_NAME)
    requires LoadChain(d1, c).Some? && LoadChain(d2, c).Some?
    ensures LoadChain(d1, c) == LoadChain(d2, c)
    ensures var chain := LoadChain(d1, c).value;
            forall name :: name in ExpectedNames(chain.selections, chain.manifests) ==> SameFile(d1, d2, name)
  {
    hide ChainName, LoadSelections, LoadManifests, SelectedDigests, ValidChain;
    var head := d1.files[HEAD_NAME];
    var s := c.judgeSelection(head).value;
    SelectionsAgree(d1, d2, c, s.head.sequence, c.hash(head));
    var selections := LoadFromHead(d1, c, head).value;
    ManifestsAgree(d1, d2, c, SelectedDigests(selections));
  }

  /** Every file of a directory that authenticates is one the chain expects. */
  lemma FilesExpected(d: Directory, c: Context, role: nat, generation: nat, manifest: Option<Digest>)
    requires IsDirectory(d) && Authenticate(d, c, role, generation, manifest).Some?
    ensures LoadChain(d, c).Some?
    ensures var chain := LoadChain(d, c).value;
            forall name :: name in d.files ==> name in ExpectedNames(chain.selections, chain.manifests)
  {
    hide LoadChain, ExpectedNames, RoleGeneration, RoleKeys;
    forall name | name in d.files
      ensures name in Entries(d.listing)
    {
    }
  }

  lemma SameChainSameResult(d1: Directory, d2: Directory, c: Context, role: nat, generation: nat,
                            manifest: Option<Digest>)
    requires Authenticate(d1, c, role, generation, manifest).Some?
             && Authenticate(d2, c, role, generation, manifest).Some?
    requires LoadChain(d1, c) == LoadChain(d2, c)
    ensures Authenticate(d1, c, role, generation, manifest) == Authenticate(d2, c, role, generation, manifest)
  {
    hide LoadChain, ExpectedNames, RoleGeneration, RoleKeys, Entries;
  }

  /** Commitment: the bytes of selection.json fix, for each role, the generation and the key, and with
      the exact inventory the whole directory. */
  lemma HeadCommits(d1: Directory, d2: Directory, c: Context, role: nat, generation: nat, manifest: Option<Digest>)
    requires IsDirectory(d1) && IsDirectory(d2) && CollisionFree(c, d1, d2)
    requires SameFile(d1, d2, HEAD_NAME)
    requires Authenticate(d1, c, role, generation, manifest).Some?
             && Authenticate(d2, c, role, generation, manifest).Some?
    ensures Authenticate(d1, c, role, generation, manifest) == Authenticate(d2, c, role, generation, manifest)
    ensures d1.files == d2.files
  {
    hide Authenticate, IsDirectory, CollisionFree, ExpectedNames;
    FilesExpected(d1, c, role, generation, manifest);
    FilesExpected(d2, c, role, generation, manifest);
    ChainsAgree(d1, d2, c);
    SameChainSameResult(d1, d2, c, role, generation, manifest);
  }
}
