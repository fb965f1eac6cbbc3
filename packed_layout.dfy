/** Byte layout of C structs declared `__attribute__((packed))`: every member
    starts exactly where the previous one ends, with no padding in between and
    none at the end. A struct is an ordered list of members; a member's offset
    is the sum of the sizes of the members before it, and `sizeof` is the sum
    of all of them. */
module PackedLayout {

  datatype Option<T> = None | Some(value: T)

  /** One member of a packed struct: its name and its size in bytes. */
  datatype Field = Field(name: string, size: nat)

  /** Where a byte falls inside a struct: the member that holds it and the
      byte's offset from the start of that member. */
  datatype Hit = Hit(index: nat, within: nat)

  /** True when `r` places a byte inside member `i`. */
  predicate InMember(r: Option<Hit>, i: nat)
  {
    r.Some? && r.value.index == i
  }

  /** `sizeof` of a packed struct. */
  function SizeOf(fields: seq<Field>): nat
  {
    if fields == [] then 0 else fields[0].size + SizeOf(fields[1..])
  }

  lemma {:induction false} SizeOfAppend(a: seq<Field>, b: seq<Field>)
    ensures SizeOf(a + b) == SizeOf(a) + SizeOf(b)
  {
    if a == [] {
      assert a + b == b;
    } else {
      assert (a + b)[1..] == a[1..] + b;
      SizeOfAppend(a[1..], b);
    }
  }

  lemma SizeOfSingle(f: Field)
    ensures SizeOf([f]) == f.size
  {
    assert [f][1..] == [];
  }

  /** `offsetof` of member `i`; `i == |fields|` gives the end of the struct.
      What lies from there to the end of the struct is exactly the size of
      the remaining members. */
  function OffsetOf(fields: seq<Field>, i: nat): (r: nat)
    requires i <= |fields|
    ensures r + SizeOf(fields[i..]) == SizeOf(fields)
  {
    assert fields[..i] + fields[i..] == fields;
    SizeOfAppend(fields[..i], fields[i..]);
    SizeOf(fields[..i])
  }

  lemma OffsetOfFirst(fields: seq<Field>)
    ensures OffsetOf(fields, 0) == 0
  {
    assert fields[..0] == [];
  }

  lemma OffsetOfEnd(fields: seq<Field>)
    ensures OffsetOf(fields, |fields|) == SizeOf(fields)
  {
    assert fields[|fields|..] == [];
  }

  /** Members are contiguous: each one ends where the next one starts. */
  lemma Contiguous(fields: seq<Field>, i: nat)
    requires i < |fields|
    ensures OffsetOf(fields, i + 1) == OffsetOf(fields, i) + fields[i].size
  {
    assert fields[..i + 1] == fields[..i] + [fields[i]];
    SizeOfAppend(fields[..i], [fields[i]]);
    SizeOfSingle(fields[i]);
  }

  /** The offset of member `i` seen from the struct's second member onwards. */
  lemma {:induction false} OffsetOfTail(fields: seq<Field>, i: nat)
    requires 0 < i <= |fields|
    ensures OffsetOf(fields, i) == fields[0].size + OffsetOf(fields[1..], i - 1)
  {
    assert fields[..i][1..] == fields[1..][..i - 1];
  }

  /** A member placed after a whole struct starts where that struct ends. */
  lemma OffsetOfAppend(a: seq<Field>, b: seq<Field>, j: nat)
    requires j <= |b|
    ensures OffsetOf(a + b, |a| + j) == SizeOf(a) + OffsetOf(b, j)
  {
    assert (a + b)[..|a| + j] == a + b[..j];
    SizeOfAppend(a, b[..j]);
  }

  /** Members never overlap, and each lies inside the struct. */
  lemma Disjoint(fields: seq<Field>, i: nat, j: nat)
    requires i < j <= |fields|
    ensures OffsetOf(fields, i) + fields[i].size <= OffsetOf(fields, j) <= SizeOf(fields)
  {
    Contiguous(fields, i);
    assert fields[..j] == fields[..i + 1] + fields[i + 1..j];
    SizeOfAppend(fields[..i + 1], fields[i + 1..j]);
  }

  /** The member holding byte `pos` of the struct, or None when `pos` lies
      outside it. Zero-sized members hold no byte. */
  function Locate(fields: seq<Field>, pos: int): (r: Option<Hit>)
    ensures r.None? <==> !(0 <= pos < SizeOf(fields))
    ensures r.Some? ==> r.value.index < |fields|
                        && r.value.within < fields[r.value.index].size
                        && OffsetOf(fields, r.value.index) + r.value.within == pos
  {
    if fields == [] || pos < 0 then None
    else if pos < fields[0].size then Some(Hit(0, pos))
    else
      match Locate(fields[1..], pos - fields[0].size)
      case None => None
      case Some(h) =>
        OffsetOfTail(fields, h.index + 1);
        Some(Hit(h.index + 1, h.within))
  }

  /** Locate inverts OffsetOf: every byte of every member is found in that
      member, at its own distance from the member's start. */
  lemma {:induction false} LocateOffset(fields: seq<Field>, i: nat, k: nat)
    requires i < |fields| && k < fields[i].size
    ensures Locate(fields, OffsetOf(fields, i) + k) == Some(Hit(i, k))
  {
    if i == 0 {
      OffsetOfFirst(fields);
    } else {
      var rest, pos := fields[1..], OffsetOf(fields, i) + k;
      OffsetOfTail(fields, i);
      assert pos - fields[0].size == OffsetOf(rest, i - 1) + k;
      LocateOffset(rest, i - 1, k);
      LocatePast(fields, pos, i - 1, k);
    }
  }

  /** A byte past the first member is located in the remaining members. */
  lemma LocatePast(fields: seq<Field>, pos: int, j: nat, k: nat)
    requires fields != [] && fields[0].size <= pos
    requires Locate(fields[1..], pos - fields[0].size) == Some(Hit(j, k))
    ensures Locate(fields, pos) == Some(Hit(j + 1, k))
  {
  }

  /** `n` members of the same size, as an array of `n` elements is laid out. */
  function Repeat(f: Field, n: nat): (r: seq<Field>)
    ensures |r| == n
    ensures forall i :: 0 <= i < n ==> r[i] == f
  {
    if n == 0 then [] else [f] + Repeat(f, n - 1)
  }

  /** An array of `n` equal elements is `n` times the element size. */
  lemma {:induction false} RepeatSize(f: Field, n: nat)
    ensures SizeOf(Repeat(f, n)) == n * f.size
  {
    if n > 0 {
      var r := Repeat(f, n);
      assert r[1..] == Repeat(f, n - 1);
      RepeatSize(f, n - 1);
    }
  }

  /** Element `k` of an array of `n` equal elements starts at `k` times the
      element size, so the whole array is `n` times that size. */
  lemma {:induction false} RepeatOffset(f: Field, n: nat, k: nat)
    requires k <= n
    ensures OffsetOf(Repeat(f, n), k) == k * f.size
    ensures SizeOf(Repeat(f, n)) == n * f.size
  {
    RepeatSize(f, n);
    var r := Repeat(f, n);
    if k == 0 {
      OffsetOfFirst(r);
    } else {
      assert r[1..] == Repeat(f, n - 1);
      RepeatOffset(f, n - 1, k - 1);
      OffsetOfTail(r, k);
    }
  }
}
