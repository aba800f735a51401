/** The installer of the admission launcher: the tree validator, and the transaction that stages a copy
and publishes it with one rename.

A tree is a finite map from component paths to nodes.  Every system call of the transaction may fail;
nobody else touches the stage or the destination.
*/
module InstallTransaction {
  import opened Bytes

  type Name = string
  type Path = seq<Name>

  datatype Meta = Meta(mode: nat, uid: nat, gid: nat, extended: bool)

  datatype Node = Directory(meta: Meta) | File(meta: Meta, links: nat, content: seq<Byte>) | Special(meta: Meta)

  type Tree = map<Path, Node>

  const MODE_0555 := 0x16d
  const MODE_0700 := 0x1c0
  const MODE_0600 := 0x180

  function Parent(p: Path): Path
    requires p != []
  {
    p[..|p| - 1]
  }

  predicate IsDirectory(t: Tree, p: Path) {
    p in t && t[p].Directory?
  }

  /** What a file system guarantees: a root directory, and every other entry in a directory. */
  predicate IsTree(t: Tree) {
    IsDirectory(t, []) && forall p :: p in t && p != [] ==> IsDirectory(t, Parent(p))
  }

  datatype Record =
    | DirectoryRecord(mode: nat, uid: nat, gid: nat)
    | FileRecord(mode: nat, uid: nat, gid: nat, size: nat, sha256: seq<Byte>)

  type Records = map<Path, Record>

  /** Who owns the tree: the unprivileged builder owns a candidate; an installed root record is mapped. */
  datatype Owners = Candidate(uid: nat, gid: nat) | Installed(uid: nat, gid: nat)

  type Hash = seq<Byte> -> seq<Byte>

  function OwnerOf(r: Record, o: Owners): (nat, nat) {
    if o.Candidate? || r.uid == 0 then (o.uid, o.gid) else (r.uid, r.gid)
  }

  predicate Matches(n: Node, r: Record, o: Owners, hash: Hash) {
    && n.meta == Meta(r.mode, OwnerOf(r, o).0, OwnerOf(r, o).1, false)
    && if r.DirectoryRecord? then n.Directory?
       else n.File? && n.links == 1 && |n.content| == r.size && hash(n.content) == r.sha256
  }

  predicate RootMatches(n: Node, o: Owners) {
    n == Directory(Meta(MODE_0555, o.uid, o.gid, false))
  }

  /** The tree holds exactly the recorded entries, each as recorded. */
  predicate Exact(t: Tree, records: Records, o: Owners, hash: Hash) {
    && [] in t && RootMatches(t[[]], o)
    && t.Keys == records.Keys + {[]}
    && forall p :: p in t && p != [] ==> Matches(t[p], records[p], o, hash)
  }

  // ---------------------------------------------------------------- walking a tree

  function Below(t: Tree, prefix: Path): set<Path> {
    set p | p in t && prefix < p
  }

  /** Of the paths below a directory, those through one of the given names. */
  function Through(t: Tree, prefix: Path, names: set<Name>): set<Path> {
    set p | p in t && prefix < p && p[|prefix|] in names
  }

  function Children(t: Tree, prefix: Path): set<Name> {
    set p | p in t && |p| == |prefix| + 1 && prefix < p :: p[|prefix|]
  }

  predicate AllMatch(t: Tree, paths: set<Path>, records: Records, o: Owners, hash: Hash) {
    forall p :: p in paths && p in t ==> p in records && Matches(t[p], records[p], o, hash)
  }

  /** The first component below a directory is one of its children. */
  lemma {:induction false} ChildOnTheWay(t: Tree, prefix: Path, p: Path)
    requires IsTree(t) && p in t && prefix < p
    ensures prefix + [p[|prefix|]] in t && prefix + [p[|prefix|]] <= p && p[|prefix|] in Children(t, prefix)
    decreases |p|
  {
    var child := prefix + [p[|prefix|]];
    if |p| == |child| {
      assert p == child;
    } else {
      assert prefix < Parent(p) && Parent(p)[|prefix|] == p[|prefix|];
      ChildOnTheWay(t, prefix, Parent(p));
    }
    assert child[|prefix|] == p[|prefix|];
  }

  lemma {:induction false} OnlyDirectoriesHaveEntries(t: Tree, prefix: Path)
    requires IsTree(t) && prefix in t && !t[prefix].Directory?
    ensures Below(t, prefix) == {}
  {
    forall p | p in t && prefix < p
      ensures false
    {
      ParentIsDirectory(t, prefix, p);
    }
  }

  lemma {:induction false} ParentIsDirectory(t: Tree, prefix: Path, p: Path)
    requires IsTree(t) && p in t && prefix < p
    ensures IsDirectory(t, prefix)
    decreases |p|
  {
    if |p| == |prefix| + 1 {
      assert Parent(p) == prefix;
    } else {
      assert prefix < Parent(p);
      ParentIsDirectory(t, prefix, Parent(p));
    }
  }

  lemma ThroughChild(t: Tree, prefix: Path, name: Name, done: set<Name>)
    requires prefix + [name] in t && name !in done
    ensures Through(t, prefix, done + {name})
            == Through(t, prefix, done) + {prefix + [name]} + Below(t, prefix + [name])
    ensures prefix + [name] !in Through(t, prefix, done) && Through(t, prefix, done) !! Below(t, prefix + [name])
    ensures Below(t, prefix + [name]) < Below(t, prefix) && prefix + [name] in Below(t, prefix)
  {
    var q := prefix + [name];
    assert q[|prefix|] == name;
    forall p | p in t && prefix < p && p[|prefix|] == name
      ensures p == q || q < p
    {
      assert p[..|q|] == q;
    }
    assert q in Below(t, prefix) && q !in Below(t, q);
    assert forall p :: p in Below(t, q) ==> p[|prefix|] == name && prefix < p;
  }

  lemma ThroughAll(t: Tree, prefix: Path)
    requires IsTree(t)
    ensures Through(t, prefix, Children(t, prefix)) == Below(t, prefix) && Through(t, prefix, {}) == {}
  {
    forall p | p in t && prefix < p
      ensures p[|prefix|] in Children(t, prefix)
    {
      ChildOnTheWay(t, prefix, p);
    }
  }

  lemma ChildInTree(t: Tree, prefix: Path, name: Name)
    requires name in Children(t, prefix)
    ensures prefix + [name] in t
  {
    var p :| p in t && |p| == |prefix| + 1 && prefix < p && p[|prefix|] == name;
    assert p == prefix + [name];
  }

  /** The recursive walk: every entry below a directory is recorded and matches, or the tree is refused;
      `seen` gains exactly those entries. */
  method Walk(t: Tree, records: Records, o: Owners, hash: Hash, prefix: Path, seen: set<Path>)
    returns (r: Option<set<Path>>)
    requires IsTree(t) && IsDirectory(t, prefix) && seen !! Below(t, prefix)
    ensures r.Some? <==> AllMatch(t, Below(t, prefix), records, o, hash)
    ensures r.Some? ==> r.value == seen + Below(t, prefix)
    decreases Below(t, prefix)
  {
    hide Matches;
    var names := Children(t, prefix);
    var result := seen;
    ghost var done: set<Name> := {};
    ThroughAll(t, prefix);
    while names != {}
      invariant names + done == Children(t, prefix) && names !! done
      invariant result == seen + Through(t, prefix, done)
      invariant AllMatch(t, Through(t, prefix, done), records, o, hash)
      decreases names
    {
      var name :| name in names;
      ChildInTree(t, prefix, name);
      var relative := prefix + [name];
      ThroughChild(t, prefix, name, done);
      if relative !in records || relative in result || !Matches(t[relative], records[relative], o, hash) {
        assert relative in Below(t, prefix);
        return None;
      }
      result := result + {relative};
      if records[relative].DirectoryRecord? {
        MatchedDirectory(t[relative], records[relative], o, hash);
        var deeper := Walk(t, records, o, hash, relative, result);
        if deeper.None? {
          assert !AllMatch(t, Below(t, relative), records, o, hash);
          return None;
        }
        result := deeper.value;
      } else {
        MatchedFile(t[relative], records[relative], o, hash);
        OnlyDirectoriesHaveEntries(t, relative);
      }
      done := done + {name};
      names := names - {name};
    }
    assert done == Children(t, prefix);
    return Some(result);
  }

  lemma MatchedDirectory(n: Node, r: Record, o: Owners, hash: Hash)
    requires Matches(n, r, o, hash) && r.DirectoryRecord?
    ensures n.Directory?
  {
  }

  lemma MatchedFile(n: Node, r: Record, o: Owners, hash: Hash)
    requires Matches(n, r, o, hash) && r.FileRecord?
    ensures n.File?
  {
  }

  /** Tree validation accepts exactly the trees equal to the manifest records. */
  method ValidateTree(t: Tree, records: Records, o: Owners, hash: Hash) returns (ok: bool)
    requires IsTree(t) && [] !in records
    ensures ok <==> Exact(t, records, o, hash)
  {
    hide Matches, RootMatches;
    if !RootMatches(t[[]], o) {
      return false;
    }
    var seen := Walk(t, records, o, hash, [], {});
    assert Below(t, []) == t.Keys - {[]};
    return seen.Some? && seen.value == records.Keys;
  }

  /** What validation proves of the records: each lies at the top or in a recorded directory. */
  predicate Closed(records: Records) {
    forall p :: p in records ==> p != [] && (|p| > 1 ==> Parent(p) in records && records[Parent(p)].DirectoryRecord?)
  }

  lemma ValidatedRecordsClosed(t: Tree, records: Records, o: Owners, hash: Hash)
    requires IsTree(t) && [] !in records && Exact(t, records, o, hash)
    ensures Closed(records)
  {
  }

  // ---------------------------------------------------------------- ordering by depth

  lemma {:induction false} Shallowest(paths: set<Path>) returns (p: Path)
    requires paths != {}
    ensures p in paths && forall q :: q in paths ==> |p| <= |q|
    decreases paths
  {
    p :| p in paths;
    if paths != {p} {
      var other := Shallowest(paths - {p});
      if |other| < |p| {
        p := other;
      }
    }
  }

  predicate ByDepth(order: seq<Path>) {
    forall i, j :: 0 <= i < j < |order| ==> |order[i]| <= |order[j]| && order[i] != order[j]
  }

  function Elements(order: seq<Path>): set<Path> {
    set p | p in order
  }

  lemma Appended(order: seq<Path>, p: Path)
    requires ByDepth(order) && p !in order && forall q :: q in order ==> |q| <= |p|
    ensures ByDepth(order + [p]) && Elements(order + [p]) == Elements(order) + {p}
  {
  }

  method SortByDepth(paths: set<Path>) returns (order: seq<Path>)
    ensures Elements(order) == paths && ByDepth(order)
  {
    hide ByDepth;
    order := [];
    var rest := paths;
    assert ByDepth([]) by { NothingByDepth(); }
    while rest != {}
      invariant Elements(order) + rest == paths && Elements(order) !! rest
      invariant ByDepth(order)
      invariant forall p, q :: p in order && q in rest ==> |p| <= |q|
      decreases rest
    {
      ghost var least := Shallowest(rest);
      var p :| p in rest && forall q :: q in rest ==> |p| <= |q|;
      Appended(order, p);
      order := order + [p];
      rest := rest - {p};
    }
  }

  lemma NothingByDepth()
    ensures ByDepth([])
  {
  }

  // ---------------------------------------------------------------- the transaction

  function DirectoryRecords(records: Records): set<Path> {
    set p | p in records && records[p].DirectoryRecord?
  }

  function FileRecords(records: Records): set<Path> {
    set p | p in records && records[p].FileRecord?
  }

  datatype Outcome = Published | Refused | Unconfirmed | Ambiguous

  /** The destination directory as the transaction sees it: two names in it, and which system call fails.
      `bound` collects everything the destination name was ever bound to: every method keeps it complete. */
  class Disk {
    var destination: Option<Tree>
    var stage: Option<Tree>
    var clock: nat
    const fails: nat -> bool
    const writes: nat -> nat
    const uid: nat
    const gid: nat
    ghost var bound: set<Option<Tree>>

    constructor (d: Option<Tree>, f: nat -> bool, w: nat -> nat, u: nat, g: nat)
      ensures Logged() && destination == d && stage.None? && bound == {d} && fails == f && writes == w
    {
      destination, stage, clock, fails, writes, uid, gid := d, None, 0, f, w, u, g;
      bound := {d};
    }

    /** No system call fails and every write takes something. */
    ghost predicate Smooth() {
      forall i :: !fails(i) && writes(i) > 0
    }

    function NewMeta(mode: nat): Meta {
      Meta(mode, uid, gid, false)
    }

    /** One system call: it happens, or it fails and nothing does. */
    method Attempt() returns (ok: bool)
      modifies this`clock
      ensures ok == !fails(old(clock)) && (Smooth() ==> ok)
    {
      ok := !fails(clock);
      clock := clock + 1;
    }

    ghost predicate Logged()
      reads this
    {
      destination in bound
    }

    ghost predicate Staged()
      reads this
    {
      Logged() && stage.Some? && IsTree(stage.value)
    }

    method MakeDirectory(p: Path) returns (ok: bool)
      requires Staged() && p != [] && p !in stage.value && IsDirectory(stage.value, Parent(p))
      modifies this`stage, this`clock
      ensures Staged()
      ensures stage.value == if ok then old(stage.value)[p := Directory(NewMeta(MODE_0700))] else old(stage.value)
      ensures Smooth() ==> ok
    {
      ok := Attempt();
      if ok {
        stage := Some(stage.value[p := Directory(NewMeta(MODE_0700))]);
      }
    }

    /** The directories, each after its parent. */
    method MakeDirectories(records: Records) returns (ok: bool)
      requires Staged() && Closed(records) && stage.value.Keys == {[]}
      modifies this`stage, this`clock
      ensures Staged()
      ensures ok ==> stage.value.Keys == {[]} + DirectoryRecords(records)
      ensures ok ==> forall p :: p in stage.value ==> stage.value[p].Directory?
      ensures Smooth() ==> ok
    {
      hide IsTree, ByDepth, Closed, Smooth;
      StagedRoot(stage.value);
      var order := SortByDepth(DirectoryRecords(records));
      for i := 0 to |order|
        invariant Staged()
        invariant stage.value.Keys == {[]} + Elements(order[..i])
        invariant forall p :: p in stage.value ==> stage.value[p].Directory?
      {
        ParentComesFirst(records, order, i);
        var made := MakeDirectory(order[i]);
        if !made {
          return false;
        }
        assert order[..i + 1] == order[..i] + [order[i]];
      }
      assert order[..|order|] == order;
      return true;
    }

    /** Put a node at a path of the stage whose parent is there: create, write, chown and chmod. */
    method Put(p: Path, n: Node) returns (ok: bool)
      requires Staged() && p != [] && IsDirectory(stage.value, Parent(p)) && n.File?
               && (p in stage.value ==> stage.value[p].File?)
      modifies this`stage, this`clock
      ensures Staged()
      ensures stage.value == if ok then old(stage.value)[p := n] else old(stage.value)
      ensures IsDirectory(stage.value, Parent(p)) && (Smooth() ==> ok)
    {
      ok := Attempt();
      if ok {
        KeepsTree(stage.value, p, n);
        stage := Some(stage.value[p := n]);
      }
    }

    /** Write a whole chunk, however few bytes each write takes. */
    method WriteChunk(p: Path, chunk: seq<Byte>) returns (ok: bool)
      requires Staged() && p != [] && p in stage.value && stage.value[p].File? && IsDirectory(stage.value, Parent(p))
      modifies this`stage, this`clock
      ensures Staged()
      ensures ok ==>
                var n := old(stage.value[p]);
                stage.value == old(stage.value)[p := File(n.meta, n.links, n.content + chunk)]
      ensures p in stage.value && stage.value[p].File? && stage.value.Keys == old(stage.value.Keys)
              && IsDirectory(stage.value, Parent(p))
      ensures forall q :: q in stage.value && q != p ==> stage.value[q] == old(stage.value)[q]
      ensures Smooth() ==> ok
    {
      hide IsTree, IsDirectory;
      ghost var t, n := stage.value, stage.value[p];
      var offset := 0;
      assert n.content + chunk[..0] == n.content;
      while offset < |chunk|
        invariant 0 <= offset <= |chunk|
        invariant Staged() && IsDirectory(stage.value, Parent(p))
        invariant stage.value == t[p := File(n.meta, n.links, n.content + chunk[..offset])]
      {
        var written := if writes(clock) < |chunk| - offset then writes(clock) else |chunk| - offset;
        if written == 0 {
          return false;
        }
        var node := stage.value[p];
        ok := Put(p, File(node.meta, node.links, node.content + chunk[offset..offset + written]));
        if !ok {
          return false;
        }
        assert n.content + chunk[..offset] + chunk[offset..offset + written] == n.content + chunk[..offset + written];
        offset := offset + written;
      }
      assert chunk[..|chunk|] == chunk;
      return true;
    }

    /** Everything that can be read is written and counted. */
    method CopyChunks(p: Path, size: nat, chunks: seq<seq<Byte>>) returns (data: Option<seq<Byte>>)
      requires Staged() && p != [] && p in stage.value && stage.value[p].File? && IsDirectory(stage.value, Parent(p))
      requires stage.value[p].content == []
      modifies this`stage, this`clock
      ensures Staged() && IsDirectory(stage.value, Parent(p))
      ensures data.Some? ==> data.value == Joined(chunks)
      ensures data.Some? ==>
                var n := old(stage.value[p]);
                stage.value == old(stage.value)[p := File(n.meta, n.links, data.value)]
      ensures Smooth() && |Joined(chunks)| <= size ==> data.Some?
      ensures p in stage.value && stage.value[p].File? && stage.value.Keys == old(stage.value.Keys)
      ensures forall q :: q in stage.value && q != p ==> stage.value[q] == old(stage.value)[q]
    {
      hide IsTree, IsDirectory;
      ghost var t, n := stage.value, stage.value[p];
      var all: seq<Byte> := [];
      for i := 0 to |chunks|
        invariant Staged() && IsDirectory(stage.value, Parent(p))
        invariant stage.value == t[p := File(n.meta, n.links, all)] && all == Joined(chunks[..i])
      {
        assert chunks[..i + 1][..i] == chunks[..i];
        JoinedGrows(chunks, i + 1);
        all := all + chunks[i];
        if |all| > size {
          return None;
        }
        var ok := WriteChunk(p, chunks[i]);
        if !ok {
          return None;
        }
      }
      assert chunks[..|chunks|] == chunks;
      return Some(all);
    }

    /** Copy one file: what was written must be what the record says, in size and in hash. */
    method CopyFile(p: Path, r: Record, chunks: seq<seq<Byte>>, o: Owners, hash: Hash) returns (ok: bool)
      requires Staged() && r.FileRecord? && p != [] && p !in stage.value && IsDirectory(stage.value, Parent(p))
      modifies this`stage, this`clock
      ensures Staged()
      ensures ok ==> stage.value.Keys == old(stage.value.Keys) + {p} && Matches(stage.value[p], r, o, hash)
      ensures ok ==> Faithful(r, chunks, hash) && stage.value[p].content == Joined(chunks)
      ensures Smooth() && Faithful(r, chunks, hash) ==> ok
      ensures forall q :: q in stage.value && q != p ==> q in old(stage.value) && stage.value[q] == old(stage.value)[q]
    {
      hide IsTree, IsDirectory;
      ok := Put(p, File(NewMeta(MODE_0600), 1, []));
      if !ok {
        return;
      }
      var data := CopyChunks(p, r.size, chunks);
      if data.None? || |data.value| != r.size || hash(data.value) != r.sha256 {
        return false;
      }
      ok := Put(p, File(Meta(r.mode, OwnerOf(r, o).0, OwnerOf(r, o).1, false), 1, data.value));
    }

    method CopyFiles(records: Records, candidate: map<Path, seq<seq<Byte>>>, o: Owners, hash: Hash) returns (ok: bool)
      requires Staged() && Closed(records) && stage.value.Keys == {[]} + DirectoryRecords(records)
      requires forall p :: p in stage.value ==> stage.value[p].Directory?
      modifies this`stage, this`clock
      ensures Staged()
      ensures ok ==>
                stage.value.Keys == {[]} + records.Keys
                && FilesMatch(stage.value, FileRecords(records), records, o, hash)
      ensures ok ==> forall p :: p in {[]} + DirectoryRecords(records) ==> IsDirectory(stage.value, p)
      ensures ok ==> AllFaithful(records, candidate, hash)
      ensures Smooth() && AllFaithful(records, candidate, hash) ==> ok
    {
      hide IsTree, IsDirectory, FilesMatch, Matches, Closed, Faithful, Smooth;
      RootAndDirectories(stage.value, records);
      NoFilesYet(stage.value, records, o, hash);
      var rest := FileRecords(records);
      ghost var done: set<Path> := {};
      while rest != {}
        invariant Staged() && rest + done == FileRecords(records) && rest !! done
        invariant stage.value.Keys == {[]} + DirectoryRecords(records) + done
        invariant forall p :: p in {[]} + DirectoryRecords(records) ==> IsDirectory(stage.value, p)
        invariant FilesMatch(stage.value, done, records, o, hash)
        invariant forall p :: p in done ==> p in candidate && Faithful(records[p], candidate[p], hash)
        decreases rest
      {
        var p :| p in rest;
        ParentRecorded(records, p);
        if p !in candidate {
          return false;
        }
        ghost var t := stage.value;
        ok := CopyFile(p, records[p], candidate[p], o, hash);
        if !ok {
          return;
        }
        FileAdded(t, stage.value, p, done, records, o, hash);
        done := done + {p};
        rest := rest - {p};
      }
      assert records.Keys == DirectoryRecords(records) + FileRecords(records);
      return true;
    }

    method SetDirectory(p: Path, m: Meta) returns (ok: bool)
      requires Staged() && IsDirectory(stage.value, p)
      modifies this`stage, this`clock
      ensures Staged()
      ensures stage.value == if ok then old(stage.value)[p := Directory(m)] else old(stage.value)
      ensures Smooth() ==> ok
    {
      ok := Attempt();
      if ok {
        stage := Some(stage.value[p := Directory(m)]);
      }
    }

    /** Give the directories their recorded owners and modes, the deepest first. */
    method FinalizeDirectories(records: Records, o: Owners, hash: Hash) returns (ok: bool)
      requires Staged() && stage.value.Keys == {[]} + records.Keys
      requires forall p :: p in {[]} + DirectoryRecords(records) ==> IsDirectory(stage.value, p)
      modifies this`stage, this`clock
      ensures Staged() && (Smooth() ==> ok) && IsDirectory(stage.value, []) && stage.value.Keys == old(stage.value.Keys)
      ensures forall p :: p in stage.value && p !in DirectoryRecords(records) ==> stage.value[p] == old(stage.value)[p]
      ensures ok ==> forall p :: p in DirectoryRecords(records) ==> Matches(stage.value[p], records[p], o, hash)
    {
      hide IsTree, ByDepth, Smooth, Matches;
      ghost var t := stage.value;
      var order := SortByDepth(DirectoryRecords(records));
      var i := |order|;
      assert order[..i] == order;
      while i > 0
        invariant 0 <= i <= |order| && Staged() && stage.value.Keys == t.Keys
        invariant forall p :: p in {[]} + DirectoryRecords(records) ==> IsDirectory(stage.value, p)
        invariant forall p :: p in t && p !in DirectoryRecords(records) ==> stage.value[p] == t[p]
        invariant forall p :: p in DirectoryRecords(records) && p !in order[..i] ==>
                    Matches(stage.value[p], records[p], o, hash)
      {
        i := i - 1;
        assert order[..i + 1] == order[..i] + [order[i]];
        assert order[i] in Elements(order);
        var r := records[order[i]];
        var m := Meta(r.mode, OwnerOf(r, o).0, OwnerOf(r, o).1, false);
        NewDirectoryMatches(r, o, hash);
        ok := SetDirectory(order[i], m);
        if !ok {
          return;
        }
      }
      return true;
    }

    /** The directories, and the root last. */
    method Finalize(records: Records, o: Owners, hash: Hash) returns (ok: bool)
      requires Staged() && [] !in records && stage.value.Keys == {[]} + records.Keys
      requires FilesMatch(stage.value, FileRecords(records), records, o, hash)
      requires forall p :: p in {[]} + DirectoryRecords(records) ==> IsDirectory(stage.value, p)
      modifies this`stage, this`clock
      ensures Staged()
      ensures ok ==> Exact(stage.value, records, o, hash)
      ensures Smooth() ==> ok
    {
      hide IsTree, Smooth, Matches;
      ok := FinalizeDirectories(records, o, hash);
      if ok {
        ok := SetDirectory([], Meta(MODE_0555, o.uid, o.gid, false));
      }
    }

    /** Rename the stage to the destination name, which must be free. */
    method Publish() returns (ok: bool)
      requires Staged()
      modifies this`stage, this`destination, this`clock, this`bound
      ensures ok ==>
                old(destination).None? && destination == old(stage) && stage.None?
                && bound == old(bound) + {destination}
      ensures !ok ==> stage == old(stage) && destination == old(destination) && bound == old(bound)
      ensures Logged() && (Smooth() && old(destination).None? ==> ok)
    {
      ok := Attempt();
      if ok {
        if destination.Some? {
          return false;
        }
        destination, stage := stage, None;
        bound := bound + {destination};
      }
    }

    method Unlink(p: Path) returns (ok: bool)
      requires Staged() && p in stage.value && p != [] && Below(stage.value, p) == {}
      modifies this`stage, this`clock
      ensures Staged()
      ensures stage.value == if ok then old(stage.value) - {p} else old(stage.value)
    {
      ok := Attempt();
      if ok {
        RemovalKeepsTree(stage.value, p);
        stage := Some(stage.value - {p});
      }
    }

    method RemoveEmpty(p: Path) returns (ok: bool)
      requires Staged() && IsDirectory(stage.value, p) && Below(stage.value, p) == {}
      modifies this`stage, this`clock
      ensures ok && p == [] ==> stage.None?
      ensures !ok || p != [] ==> Staged() && stage.value == if ok then old(stage.value) - {p} else old(stage.value)
    {
      if p != [] {
        ok := Unlink(p);
      } else {
        ok := Attempt();
        if ok {
          stage := None;
        }
      }
    }

    /** Remove a directory of the stage with everything below it, children first. */
    method RemoveTree(prefix: Path) returns (ok: bool)
      requires Staged() && IsDirectory(stage.value, prefix)
      modifies this`stage, this`clock
      ensures ok && prefix == [] ==> stage.None?
      ensures !ok || prefix != [] ==> Staged()
      ensures ok && prefix != [] ==> stage.value == old(stage.value) - ({prefix} + Below(old(stage.value), prefix))
      decreases Below(stage.value, prefix), 0
    {
      hide IsTree;
      ok := SetDirectory(prefix, NewMeta(MODE_0700));
      if !ok {
        return;
      }
      ghost var t := stage.value;
      assert Below(t, prefix) == Below(old(stage.value), prefix);
      var names := Children(stage.value, prefix);
      ghost var done: set<Name> := {};
      ThroughAll(t, prefix);
      assert t - {} == t;
      while names != {}
        invariant names + done == Children(t, prefix) && names !! done
        invariant Staged() && stage.value == t - Through(t, prefix, done)
        decreases names
      {
        var name :| name in names;
        ChildInTree(t, prefix, name);
        var child := prefix + [name];
        ThroughChild(t, prefix, name, done);
        RemainingBelow(t, Through(t, prefix, done), child);
        ok := RemoveEntry(prefix, child);
        if !ok {
          return;
        }
        RemovedAlso(t, Through(t, prefix, done), {child} + Below(t, child));
        done := done + {name};
        names := names - {name};
      }
      assert done == Children(t, prefix);
      AllBelowRemoved(t, prefix);
      ok := RemoveEmpty(prefix);
      if ok && prefix != [] {
        RemovedAlso(t, Below(t, prefix), {prefix});
        assert t - (Below(t, prefix) + {prefix}) == old(stage.value) - ({prefix} + Below(old(stage.value), prefix));
      }
    }

    method RemoveEntry(prefix: Path, child: Path) returns (ok: bool)
      requires Staged() && child in stage.value && child != [] && Below(stage.value, child) < Below(stage.value, prefix)
      modifies this`stage, this`clock
      ensures Staged()
      ensures ok ==> stage.value == old(stage.value) - ({child} + Below(old(stage.value), child))
      decreases Below(stage.value, child), 1
    {
      match stage.value[child]
      case Directory(_) =>
        ok := RemoveTree(child);
      case File(_, _, _) =>
        OnlyDirectoriesHaveEntries(stage.value, child);
        ok := Unlink(child);
      case Special(_) =>
        ok := false;
    }

    method MakeStage() returns (ok: bool)
      requires Logged() && stage.None?
      modifies this`stage, this`clock
      ensures if ok then stage == Some(map[[] := Directory(NewMeta(MODE_0700))]) && Staged() else stage.None?
      ensures Smooth() ==> ok
    {
      ok := Attempt();
      if ok {
        stage := Some(map[[] := Directory(NewMeta(MODE_0700))]);
      }
    }

    /** Everything between creating the stage and publishing it. */
    method FillStage(records: Records, candidate: map<Path, seq<seq<Byte>>>, o: Owners, hash: Hash) returns (ok: bool)
      requires Closed(records) && Staged() && stage.value.Keys == {[]}
      modifies this`stage, this`clock
      ensures Staged() && (ok ==> Exact(stage.value, records, o, hash) && AllFaithful(records, candidate, hash))
      ensures Smooth() && AllFaithful(records, candidate, hash) ==> ok
    {
      hide IsTree, Exact, Smooth, AllFaithful, Closed, FilesMatch;
      assert [] !in records by { RootUnrecorded(records); }
      ok := Attempt();
      if ok {
        ok := MakeDirectories(records);
      }
      if ok {
        ok := CopyFiles(records, candidate, o, hash);
      }
      if ok {
        ok := Finalize(records, o, hash);
      }
    }

    /** The transaction.  Whatever fails, the destination name is never bound to anything but what it was
        and a tree equal to the records; and unless cleaning up itself fails, no stage is left behind. */
    method Install(records: Records, candidate: map<Path, seq<seq<Byte>>>, o: Owners, hash: Hash)
      returns (outcome: Outcome)
      requires Logged() && Closed(records) && stage.None?
      modifies this
      ensures Logged()
      ensures outcome.Published? || outcome.Ambiguous? ==>
                && old(destination).None? && destination.Some? && IsTree(destination.value)
                && Exact(destination.value, records, o, hash)
                && stage.None? && bound == old(bound) + {destination}
      ensures outcome.Refused? || outcome.Unconfirmed? ==> destination == old(destination) && bound == old(bound)
      ensures outcome.Refused? ==> stage.None?
      ensures outcome.Published? ==> AllFaithful(records, candidate, hash)
      ensures Smooth() && old(destination).None? && AllFaithful(records, candidate, hash) ==> outcome.Published?
    {
      hide IsTree, Exact, Smooth, Closed;
      var ok := Attempt();
      if !ok || destination.Some? {
        return Refused;
      }
      ok := MakeStage();
      if !ok {
        return Refused;
      }
      ok := FillStage(records, candidate, o, hash);
      if ok {
        ok := Attempt();
      }
      if ok {
        ok := Publish();
      }
      if ok {
        ok := Attempt();
        return if ok then Published else Ambiguous;
      }
      StagedRoot(stage.value);
      ok := RemoveTree([]);
      return if ok then Refused else Unconfirmed;
    }
  }

  lemma NewDirectoryMatches(r: Record, o: Owners, hash: Hash)
    requires r.DirectoryRecord?
    ensures Matches(Directory(Meta(r.mode, OwnerOf(r, o).0, OwnerOf(r, o).1, false)), r, o, hash)
  {
  }

  lemma RootUnrecorded(records: Records)
    requires Closed(records)
    ensures [] !in records
  {
  }

  lemma StagedRoot(t: Tree)
    requires IsTree(t)
    ensures IsDirectory(t, [])
  {
  }

  function Joined(chunks: seq<seq<Byte>>): seq<Byte> {
    if chunks == [] then [] else Joined(chunks[..|chunks| - 1]) + chunks[|chunks| - 1]
  }

  lemma {:induction false} JoinedGrows(chunks: seq<seq<Byte>>, n: nat)
    requires n <= |chunks|
    ensures |Joined(chunks[..n])| <= |Joined(chunks)|
    decreases |chunks|
  {
    if n < |chunks| {
      JoinedGrows(chunks[..|chunks| - 1], n);
      assert chunks[..|chunks| - 1][..n] == chunks[..n];
    } else {
      assert chunks[..n] == chunks;
    }
  }

  /** What is read from the candidate is what the record says. */
  predicate Faithful(r: Record, chunks: seq<seq<Byte>>, hash: Hash) {
    r.FileRecord? && |Joined(chunks)| == r.size && hash(Joined(chunks)) == r.sha256
  }

  predicate AllFaithful(records: Records, candidate: map<Path, seq<seq<Byte>>>, hash: Hash) {
    forall p :: p in FileRecords(records) ==> p in candidate && Faithful(records[p], candidate[p], hash)
  }

  lemma RemovalKeepsTree(t: Tree, p: Path)
    requires IsTree(t) && p != [] && Below(t, p) == {}
    ensures IsTree(t - {p})
  {
  }

  lemma RemainingBelow(t: Tree, gone: set<Path>, child: Path)
    requires gone !! Below(t, child)
    ensures Below(t - gone, child) == Below(t, child)
  {
  }

  lemma RemovedAlso(t: Tree, gone: set<Path>, more: set<Path>)
    ensures t - gone - more == t - (gone + more)
  {
  }

  lemma AllBelowRemoved(t: Tree, prefix: Path)
    requires prefix in t
    ensures Below(t - Below(t, prefix), prefix) == {} && prefix in t - Below(t, prefix)
  {
  }

  predicate FilesMatch(t: Tree, files: set<Path>, records: Records, o: Owners, hash: Hash) {
    forall p :: p in files ==> p in t && p in records && Matches(t[p], records[p], o, hash)
  }

  lemma RootAndDirectories(t: Tree, records: Records)
    requires t.Keys == {[]} + DirectoryRecords(records) && forall p :: p in t ==> t[p].Directory?
    ensures forall p :: p in {[]} + DirectoryRecords(records) ==> IsDirectory(t, p)
  {
  }

  lemma NoFilesYet(t: Tree, records: Records, o: Owners, hash: Hash)
    ensures FilesMatch(t, {}, records, o, hash)
  {
  }

  /** A file put beside what was there disturbs neither the directories nor the files. */
  lemma FileAdded(t: Tree, t': Tree, p: Path, done: set<Path>, records: Records, o: Owners, hash: Hash)
    requires t'.Keys == t.Keys + {p} && forall q :: q in t' && q != p ==> q in t && t'[q] == t[q]
    requires p in FileRecords(records) && p !in t && FilesMatch(t, done, records, o, hash)
             && Matches(t'[p], records[p], o, hash)
    ensures FilesMatch(t', done + {p}, records, o, hash)
    ensures forall q :: IsDirectory(t, q) ==> IsDirectory(t', q)
  {
  }

  lemma ParentRecorded(records: Records, p: Path)
    requires Closed(records) && p in records
    ensures p != [] && Parent(p) in {[]} + DirectoryRecords(records)
  {
  }

  lemma KeepsTree(t: Tree, p: Path, n: Node)
    requires IsTree(t) && p != [] && IsDirectory(t, Parent(p)) && (p in t && t[p].Directory? ==> n.Directory?)
    ensures IsTree(t[p := n])
  {
  }

  /** Depth order puts the parent of every directory before it. */
  lemma ParentComesFirst(records: Records, order: seq<Path>, i: nat)
    requires Closed(records) && Elements(order) == DirectoryRecords(records) && ByDepth(order) && i < |order|
    ensures |order[i]| == 1 ==> Parent(order[i]) == []
    ensures |order[i]| > 1 ==> Parent(order[i]) in order[..i]
    ensures order[i] != [] && order[i] !in order[..i]
  {
    assert order[i] in DirectoryRecords(records);
    if |order[i]| > 1 {
      assert Parent(order[i]) in DirectoryRecords(records);
      var j :| 0 <= j < |order| && order[j] == Parent(order[i]);
      assert j < i;
    }
  }

  /** A candidate that still reads as it was validated is copied faithfully. */
  lemma UnchangedIsFaithful(t: Tree, records: Records, o: Owners, hash: Hash, candidate: map<Path, seq<seq<Byte>>>)
    requires [] !in records && Exact(t, records, o, hash)
    requires forall p :: p in t && t[p].File? ==> p in candidate && Joined(candidate[p]) == t[p].content
    ensures AllFaithful(records, candidate, hash)
  {
  }

  /** The whole installation: validate the candidate, install it, and verify what was installed.  The
      last step never refuses what the transaction published. */
  method InstallValidated(disk: Disk, t: Tree, candidate: map<Path, seq<seq<Byte>>>, records: Records,
                          builder: Owners, o: Owners, hash: Hash)
    returns (verified: bool, outcome: Outcome)
    requires IsTree(t) && [] !in records && disk.Logged() && disk.stage.None?
    modifies disk
    ensures disk.Logged()
    ensures !Exact(t, records, builder, hash) ==> outcome.Refused? && disk.destination == old(disk.destination)
    ensures verified <==> outcome.Published?
    ensures verified ==> disk.destination.Some? && Exact(disk.destination.value, records, o, hash)
    ensures forall b :: b in disk.bound - old(disk.bound) ==> b.Some? && Exact(b.value, records, o, hash)
  {
    hide Exact, IsTree, Closed, AllFaithful;
    verified, outcome := false, Refused;
    var admitted := ValidateTree(t, records, builder, hash);
    if !admitted {
      return;
    }
    ValidatedRecordsClosed(t, records, builder, hash);
    outcome := disk.Install(records, candidate, o, hash);
    if outcome.Published? {
      verified := ValidateTree(disk.destination.value, records, o, hash);
    }
  }
}
