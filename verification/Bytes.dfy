/** Bytes, and buffers of them that are filled in place. */
module Bytes {

  type Byte = x: int | 0 <= x < 256

  /** The buffers agree except from `lo` up to `hi`. */
  ghost predicate SameOutside(a: seq<Byte>, b: seq<Byte>, lo: nat, hi: nat) {
    |a| == |b| && forall j :: 0 <= j < |a| && !(lo <= j < hi) ==> a[j] == b[j]
  }

  /** memcpy. */
  method Copy(dst: array<Byte>, at: nat, bytes: seq<Byte>)
    requires at + |bytes| <= dst.Length
    modifies dst
    ensures dst[at..at + |bytes|] == bytes && SameOutside(old(dst[..]), dst[..], at, at + |bytes|)
  {
    var i: nat := 0;
    while i < |bytes|
      invariant i <= |bytes| && dst[at..at + i] == bytes[..i]
      invariant forall j :: 0 <= j < dst.Length && !(at <= j < at + i) ==> dst[j] == old(dst[j])
    {
      dst[at + i] := bytes[i];
      assert dst[at..at + i + 1] == dst[at..at + i] + [bytes[i]];
      i := i + 1;
    }
  }
}
