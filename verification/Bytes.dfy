/** Bytes, slices and machine-width arithmetic as the source uses them. */
module Bytes {
  import opened Wrappers

  type byte = b: int | 0 <= b < 256
  type bytes = seq<byte>

  const U64_MAX: nat := 0xFFFF_FFFF_FFFF_FFFF
  const USIZE_MAX: nat := U64_MAX

  const SOH: byte := 1
  const EQUALS: byte := '=' as int
  const ZERO: byte := '0' as int

  /** A sub-slice by range: absent when the range does not fit. */
  function Get(s: bytes, lo: nat, hi: nat): (r: Option<bytes>) {
    if lo <= hi <= |s| then Some(s[lo..hi]) else None
  }

  /** Addition of machine words: absent on overflow. */
  function CheckedAdd(a: nat, b: nat): (r: Option<nat>)
    ensures r.None? <==> a + b > USIZE_MAX
  {
    if a + b <= USIZE_MAX then Some(a + b) else None
  }

  /** The index of the first `wanted` byte. */
  function Position(s: bytes, wanted: byte): (r: Option<nat>)
    ensures r.Some? ==> r.value < |s| && s[r.value] == wanted
    ensures r.Some? ==> forall j :: 0 <= j < r.value ==> s[j] != wanted
    ensures r.None? ==> forall j :: 0 <= j < |s| ==> s[j] != wanted
  {
    if s == [] then None
    else if s[0] == wanted then Some(0)
    else
      match Position(s[1..], wanted)
      case Some(i) => Some(i + 1)
      case None => None
  }

  lemma DropConcat(a: bytes, b: bytes, n: nat)
    requires n <= |a|
    ensures (a + b)[n..] == a[n..] + b
  {
  }

  lemma SliceOfSlice(s: bytes, lo: nat, hi: nat, i: nat, j: nat)
    requires lo <= hi <= |s| && i <= j <= hi - lo
    ensures s[lo..hi][i..j] == s[lo + i..lo + j]
  {
    var a, b := s[lo..hi][i..j], s[lo + i..lo + j];
    assert forall k :: 0 <= k < |a| ==> a[k] == s[lo + i + k] == b[k];
  }

  /** All the byte strings of a list, one after the other. */
  function Concat(parts: seq<bytes>): (r: bytes) {
    if parts == [] then [] else parts[0] + Concat(parts[1..])
  }

  lemma {:induction false} ConcatAppend(a: seq<bytes>, b: seq<bytes>)
    ensures Concat(a + b) == Concat(a) + Concat(b)
  {
    if a == [] {
      assert a + b == b;
    } else {
      assert (a + b)[1..] == a[1..] + b;
      ConcatAppend(a[1..], b);
    }
  }
}
