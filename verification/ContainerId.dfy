/** The container id in a cgroup file: 64 lower-case hexadecimal digits, set off from other digits and
letters, and the same wherever they appear.
*/
module ContainerId {
  import opened Bytes

  const SIZE := 64

  predicate IsDigit(b: Byte) {
    '0' as int <= b <= '9' as int || 'a' as int <= b <= 'f' as int
  }

  /** What may not touch an id: everything from '0' to 'f', not only digits. */
  predicate Sticks(b: Byte) {
    '0' as int <= b <= 'f' as int
  }

  predicate AllDigits(bytes: seq<Byte>, from: nat, to: nat)
    requires from <= to <= |bytes|
  {
    forall i :: from <= i < to ==> IsDigit(bytes[i])
  }

  predicate IsWindow(bytes: seq<Byte>, offset: nat) {
    && offset + SIZE <= |bytes|
    && AllDigits(bytes, offset, offset + SIZE)
    && (offset > 0 ==> !Sticks(bytes[offset - 1]))
    && (offset + SIZE < |bytes| ==> !Sticks(bytes[offset + SIZE]))
  }

  function Content(bytes: seq<Byte>, offset: nat): seq<Byte>
    requires IsWindow(bytes, offset)
  {
    bytes[offset..offset + SIZE]
  }

  /** The ids an exhaustive search finds. */
  ghost function Ids(bytes: seq<Byte>): set<seq<Byte>> {
    set offset | 0 <= offset < |bytes| && IsWindow(bytes, offset) :: Content(bytes, offset)
  }

  datatype Search = Unique(id: seq<Byte>) | Absent | Conflict

  /** No window starts inside another: the byte before it would stick. */
  lemma WindowsApart(bytes: seq<Byte>, a: nat, b: nat)
    requires IsWindow(bytes, a) && IsWindow(bytes, b) && a < b
    ensures b > a + SIZE
  {
  }

  method ScanDigits(bytes: seq<Byte>, offset: nat) returns (valid: bool)
    requires offset + SIZE <= |bytes|
    ensures valid <==> AllDigits(bytes, offset, offset + SIZE)
  {
    for index := 0 to SIZE
      invariant AllDigits(bytes, offset, offset + index)
    {
      if !IsDigit(bytes[offset + index]) {
        return false;
      }
    }
    return true;
  }

  /** The search that jumps over each id it finds gives the answer of the exhaustive one. */
  method ExtractUnique(bytes: seq<Byte>) returns (r: Search)
    ensures r.Unique? <==> exists id :: Ids(bytes) == {id}
    ensures r.Unique? ==> Ids(bytes) == {r.id}
    ensures r.Absent? <==> Ids(bytes) == {}
    ensures r.Conflict? <==> exists a, b :: a in Ids(bytes) && b in Ids(bytes) && a != b
  {
    var selected: Option<seq<Byte>> := None;
    var offset := 0;
    while offset + SIZE <= |bytes|
      invariant selected.None? ==> forall o :: 0 <= o < offset ==> !IsWindow(bytes, o)
      invariant selected.Some? ==> selected.value in Ids(bytes)
      invariant selected.Some? ==>
                  forall o :: 0 <= o < offset && IsWindow(bytes, o) ==> Content(bytes, o) == selected.value
      decreases |bytes| - offset
    {
      var valid := ScanDigits(bytes, offset);
      if !valid || (offset > 0 && Sticks(bytes[offset - 1]))
         || (offset + SIZE < |bytes| && Sticks(bytes[offset + SIZE]))
      {
        assert !IsWindow(bytes, offset);
        offset := offset + 1;
        continue;
      }
      assert IsWindow(bytes, offset);
      var id := bytes[offset..offset + SIZE];
      assert id == Content(bytes, offset) && id in Ids(bytes);
      if selected.None? {
        selected := Some(id);
      } else if selected.value != id {
        NotUnique(bytes, selected.value, id);
        return Conflict;
      }
      SkipIsSafe(bytes, offset);
      offset := offset + SIZE;
    }
    assert forall o :: 0 <= o && IsWindow(bytes, o) ==> o < offset;
    if selected.None? {
      assert Ids(bytes) == {};
      return Absent;
    }
    assert Ids(bytes) == {selected.value};
    return Unique(selected.value);
  }

  lemma SkipIsSafe(bytes: seq<Byte>, offset: nat)
    requires IsWindow(bytes, offset)
    ensures forall o :: offset < o < offset + SIZE ==> !IsWindow(bytes, o)
  {
  }

  lemma NotUnique(bytes: seq<Byte>, a: seq<Byte>, b: seq<Byte>)
    requires a in Ids(bytes) && b in Ids(bytes) && a != b
    ensures !exists id :: Ids(bytes) == {id}
    ensures Ids(bytes) != {}
  {
  }
}
