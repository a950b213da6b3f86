/** The slice-clearing helpers of slices.go. A Go slice is a header over a
    shared backing array; clearing writes the element type's zero value into
    every slot from the slice's start to the end of its capacity, in place,
    so that the backing array keeps no references. */
module Slices {

  /** A Go slice header: nil, or `length` elements of `data` starting at
      `start`. Its capacity runs from `start` to the end of `data`. */
  datatype GoSlice<T> = NilSlice | SliceOf(data: array<T>, start: nat, length: nat)

  /** The header lies within its backing array. */
  predicate Valid<T>(s: GoSlice<T>) {
    s.SliceOf? ==> s.start + s.length <= s.data.Length
  }

  /** `len(s)`. */
  function Len<T>(s: GoSlice<T>): nat {
    if s.NilSlice? then 0 else s.length
  }

  /** `cap(s)`. */
  function Cap<T>(s: GoSlice<T>): (c: nat)
    requires Valid(s)
    ensures Len(s) <= c
  {
    if s.NilSlice? then 0 else s.data.Length - s.start
  }

  /** The objects a slice's elements live in. */
  function Backing<T>(s: GoSlice<T>): set<object> {
    if s.NilSlice? then {} else {s.data}
  }

  /** The elements `s[0:len(s)]`. */
  function Contents<T>(s: GoSlice<T>): (c: seq<T>)
    requires Valid(s)
    reads Backing(s)
    ensures |c| == Len(s)
  {
    if s.NilSlice? then [] else s.data[s.start..s.start + s.length]
  }

  /** `full := s[:cap(s)]; for i := range full { full[i] = zero }`: every slot
      from the slice's start to the end of its capacity becomes `zero`; the
      slots of the backing array before the start are left alone. */
  method ZeroCapacity<T>(s: GoSlice<T>, zero: T)
    requires Valid(s) && s.SliceOf?
    modifies s.data
    ensures forall i :: s.start <= i < s.data.Length ==> s.data[i] == zero
    ensures forall i :: 0 <= i < s.start ==> s.data[i] == old(s.data[i])
  {
    var full := Cap(s);
    var i := 0;
    while i < full
      invariant 0 <= i <= full
      invariant forall k :: s.start <= k < s.start + i ==> s.data[k] == zero
      invariant forall k :: 0 <= k < s.start ==> s.data[k] == old(s.data[k])
    {
      s.data[s.start + i] := zero;
      i := i + 1;
    }
  }

  /** `ClearSlice`: zeroes the whole capacity and returns an empty slice over
      the same backing array, with the same capacity. A nil input gives a
      non-nil empty slice of capacity 0. `zero` is the element type's zero
      value. */
  method ClearSlice<T>(s: GoSlice<T>, zero: T) returns (r: GoSlice<T>)
    requires Valid(s)
    modifies Backing(s)
    ensures Valid(r) && r.SliceOf? && Len(r) == 0 && Contents(r) == []
    ensures s.NilSlice? ==> Cap(r) == 0 && fresh(r.data)
    ensures s.SliceOf? ==> r == SliceOf(s.data, s.start, 0) && Cap(r) == Cap(s)
    ensures forall i :: r.start <= i < r.data.Length ==> r.data[i] == zero
    ensures s.SliceOf? ==> forall i :: 0 <= i < s.start ==> s.data[i] == old(s.data[i])
  {
    if s.NilSlice? {
      var empty := new T[0](_ => zero);
      return SliceOf(empty, 0, 0);
    }
    ZeroCapacity(s, zero);
    r := SliceOf(s.data, s.start, 0);
  }

  /** `ClearAndNilSlice`: zeroes the whole capacity of a non-nil slice and
      always returns nil; a nil input changes nothing. */
  method ClearAndNilSlice<T>(s: GoSlice<T>, zero: T) returns (r: GoSlice<T>)
    requires Valid(s)
    modifies Backing(s)
    ensures r.NilSlice?
    ensures s.SliceOf? ==> forall i :: s.start <= i < s.data.Length ==> s.data[i] == zero
    ensures s.SliceOf? ==> forall i :: 0 <= i < s.start ==> s.data[i] == old(s.data[i])
  {
    if s.SliceOf? {
      ZeroCapacity(s, zero);
    }
    r := NilSlice;
  }

  /** Writes `vs` into `a` from index `at` on; every other slot is kept. */
  method StoreAt<T>(a: array<T>, at: nat, vs: seq<T>)
    requires at + |vs| <= a.Length
    modifies a
    ensures a[at..at + |vs|] == vs
    ensures forall k :: 0 <= k < at ==> a[k] == old(a[k])
    ensures forall k :: at + |vs| <= k < a.Length ==> a[k] == old(a[k])
  {
    var j := 0;
    while j < |vs|
      invariant 0 <= j <= |vs|
      invariant forall k :: 0 <= k < at ==> a[k] == old(a[k])
      invariant forall k :: at <= k < at + j ==> a[k] == vs[k - at]
      invariant forall k :: at + j <= k < a.Length ==> a[k] == old(a[k])
    {
      a[at + j] := vs[j];
      j := j + 1;
    }
  }

  /** Go's built-in `append(s, vs...)`. When the values fit in the spare
      capacity they are written in place and the result shares the backing
      array; otherwise a fresh array just large enough is allocated (Go's
      growth policy for the new capacity is not modelled). */
  method Append<T>(s: GoSlice<T>, vs: seq<T>) returns (r: GoSlice<T>)
    requires Valid(s)
    modifies Backing(s)
    ensures Valid(r) && Contents(r) == old(Contents(s)) + vs
    ensures s.SliceOf? && Len(s) + |vs| <= Cap(s) ==>
              r == SliceOf(s.data, s.start, s.length + |vs|)
    ensures s.SliceOf? ==> forall i :: 0 <= i < s.start + s.length ==> s.data[i] == old(s.data[i])
    ensures s.SliceOf? && Len(s) + |vs| <= Cap(s) ==>
              forall i :: s.start + s.length + |vs| <= i < s.data.Length ==> s.data[i] == old(s.data[i])
    ensures vs == [] ==> r == s
    ensures vs != [] && (s.NilSlice? || Len(s) + |vs| > Cap(s)) ==>
              r.SliceOf? && fresh(r.data) && r.start == 0 && Cap(r) == Len(r)
    ensures s.SliceOf? && Len(s) + |vs| > Cap(s) ==> unchanged(s.data)
  {
    if vs == [] {
      return s;
    }
    if s.SliceOf? && s.length + |vs| <= s.data.Length - s.start {
      var end := s.start + s.length;
      ghost var before := Contents(s);
      StoreAt(s.data, end, vs);
      r := SliceOf(s.data, s.start, s.length + |vs|);
      assert s.data[s.start..end] == before;
      assert s.data[s.start..end + |vs|] == s.data[s.start..end] + s.data[end..end + |vs|];
    } else {
      var prefix := Contents(s);
      var grown := new T[|prefix| + |vs|](k requires 0 <= k < |prefix| + |vs| =>
                                             if k < |prefix| then prefix[k] else vs[k - |prefix|]);
      r := SliceOf(grown, 0, |prefix| + |vs|);
      assert grown[..] == prefix + vs;
    }
  }

  /** Reusing a cleared slice: appending up to its capacity stores exactly the
      appended values, in the original backing array at the original start;
      the rest of the capacity stays zeroed and the slots before the start
      are left alone. */
  method ReuseAfterClear<T>(s: GoSlice<T>, zero: T, vs: seq<T>) returns (r: GoSlice<T>)
    requires Valid(s) && s.SliceOf? && |vs| <= Cap(s)
    modifies s.data
    ensures r == SliceOf(s.data, s.start, |vs|)
    ensures Valid(r) && Contents(r) == vs
    ensures forall i :: s.start + |vs| <= i < s.data.Length ==> s.data[i] == zero
    ensures forall i :: 0 <= i < s.start ==> s.data[i] == old(s.data[i])
  {
    var cleared := ClearSlice(s, zero);
    r := Append(cleared, vs);
  }
}
