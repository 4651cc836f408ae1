/**
 Byte strings and the little-endian integers of Go's encoding/binary, shared by every
 file format of the store.
 */
module Bytes {

  type Byte = b: int | 0 <= b < 256
  type ByteString = seq<Byte>

  datatype Option<+T> = None | Some(value: T)

  /** 256 to the power w: how many values fit in w bytes. */
  function Pow256(w: nat): (p: nat)
    ensures p >= 1
  {
    if w == 0 then 1 else 256 * Pow256(w - 1)
  }

  /** The w low bytes of n, least significant first (PutUint16, PutUint32, PutUint64). */
  function PutLE(n: nat, w: nat): (s: ByteString)
    ensures |s| == w
  {
    if w == 0 then [] else [n % 256] + PutLE(n / 256, w - 1)
  }

  /** The number whose bytes, least significant first, are s (Uint16, Uint32, Uint64). */
  function GetLE(s: ByteString): (n: nat)
    ensures n < Pow256(|s|)
  {
    if s == [] then 0 else s[0] + 256 * GetLE(s[1..])
  }

  /** A number that fits comes back from its bytes. */
  lemma {:induction false} RoundTripLE(n: nat, w: nat)
    requires n < Pow256(w)
    ensures GetLE(PutLE(n, w)) == n
  {
    if w > 0 {
      RoundTripLE(n / 256, w - 1);
      assert PutLE(n, w)[1..] == PutLE(n / 256, w - 1);
    }
  }

  /** A slice of a slice. */
  lemma SliceAt(f: ByteString, p: nat, q: nat, a: nat, b: nat)
    requires p <= q <= |f| && a <= b <= q - p
    ensures f[p..q][a..b] == f[p + a..p + b]
  {
    var x, y := f[p..q][a..b], f[p + a..p + b];
    assert forall i :: 0 <= i < |x| ==> x[i] == f[p..q][a + i] == f[p + a + i] == y[i];
  }

  const U16: nat := 0x1_0000
  const U32: nat := 0x1_0000_0000
  const U64: nat := 0x1_0000_0000_0000_0000

  lemma PowValues()
    ensures Pow256(2) == U16 && Pow256(4) == U32 && Pow256(8) == U64
  {
    assert Pow256(1) == 256;
    assert Pow256(3) == 256 * Pow256(2);
    assert Pow256(4) == 256 * Pow256(3);
    assert Pow256(5) == 256 * Pow256(4);
    assert Pow256(6) == 256 * Pow256(5);
    assert Pow256(7) == 256 * Pow256(6);
  }
}
