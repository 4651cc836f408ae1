/**
 The Bloom filter of a table (internal/bloom/bloom.go). The 128-bit hash is a parameter.
 */
module Bloom {
  import opened Bytes

  type Hash = ByteString -> (nat, nat)

  // ---- bits of a byte

  function TestBit(b: nat, i: nat): bool {
    if i == 0 then b % 2 == 1 else TestBit(b / 2, i - 1)
  }

  /** b with bit i set: b | (1 << i). */
  function SetBit(b: nat, i: nat): nat {
    if i == 0 then b / 2 * 2 + 1 else 2 * SetBit(b / 2, i - 1) + b % 2
  }

  lemma {:induction false} SetTest(b: nat, i: nat, j: nat)
    ensures TestBit(SetBit(b, i), j) == (i == j || TestBit(b, j))
    decreases i
  {
    if i > 0 && j > 0 {
      assert SetBit(b, i) / 2 == SetBit(b / 2, i - 1);
      SetTest(b / 2, i - 1, j - 1);
    } else if i == 0 && j > 0 {
      assert SetBit(b, i) / 2 == b / 2;
    }
  }

  lemma {:induction false} SetBound(b: nat, i: nat, w: nat)
    requires i < w && b < Two(w)
    ensures SetBit(b, i) < Two(w)
  {
    hide SetBit, Two;
    TwoNext(w);
    SetBitIs(b, i);
    if i > 0 { SetBound(b / 2, i - 1, w - 1); }
  }

  lemma TwoNext(w: nat)
    requires w > 0
    ensures Two(w) == 2 * Two(w - 1)
  {
  }

  lemma SetBitIs(b: nat, i: nat)
    ensures SetBit(b, i) == if i == 0 then b / 2 * 2 + 1 else 2 * SetBit(b / 2, i - 1) + b % 2
  {
  }

  function Two(n: nat): nat {
    if n == 0 then 1 else 2 * Two(n - 1)
  }

  lemma TwoIs()
    ensures Two(8) == 256
  {
    assert Two(4) == 16;
  }

  // ---- the filter as a value

  datatype Filter = Filter(bits: ByteString, nHash: nat)

  function NumBits(f: Filter): nat {
    |f.bits| * 8
  }

  /** The bit probe i of a key looks at, in 32-bit arithmetic. */
  function Position(hash: Hash, key: ByteString, i: nat, numBits: nat): (p: nat)
    requires numBits > 0
    ensures p < numBits
  {
    var (h1, h2) := hash(key);
    (h1 % U32 + i * (h2 % U32)) % U32 % numBits
  }

  function BitAt(bits: ByteString, p: nat): bool
    requires p < |bits| * 8
  {
    TestBit(bits[p / 8], p % 8)
  }

  function WithBit(bits: ByteString, p: nat): (r: ByteString)
    requires p < |bits| * 8
    ensures |r| == |bits|
  {
    TwoIs();
    SetBound(bits[p / 8], p % 8, 8);
    bits[p / 8 := SetBit(bits[p / 8], p % 8)]
  }

  lemma WithBitAt(bits: ByteString, p: nat, q: nat)
    requires p < |bits| * 8 && q < |bits| * 8
    ensures BitAt(WithBit(bits, p), q) == (p == q || BitAt(bits, q))
  {
    hide TestBit, SetBit;
    if p / 8 == q / 8 { SetTest(bits[p / 8], p % 8, q % 8); }
  }

  /** The first n probes of a key, set. */
  function SetProbes(hash: Hash, bits: ByteString, key: ByteString, n: nat): (r: ByteString)
    requires bits != []
    ensures |r| == |bits|
  {
    if n == 0 then bits
    else WithBit(SetProbes(hash, bits, key, n - 1), Position(hash, key, n - 1, |bits| * 8))
  }

  function WithKey(hash: Hash, f: Filter, key: ByteString): Filter {
    if f.bits == [] then f else f.(bits := SetProbes(hash, f.bits, key, f.nHash))
  }

  predicate Admits(hash: Hash, f: Filter, key: ByteString) {
    f.bits != [] && forall i :: 0 <= i < f.nHash ==> BitAt(f.bits, Position(hash, key, i, NumBits(f)))
  }

  function WithKeys(hash: Hash, f: Filter, keys: seq<ByteString>): Filter {
    if keys == [] then f else WithKey(hash, WithKeys(hash, f, keys[..|keys| - 1]), keys[|keys| - 1])
  }

  /** Setting probes sets them and no other bit, and clears nothing. */
  lemma {:induction false} ProbesSet(hash: Hash, bits: ByteString, key: ByteString, n: nat, q: nat)
    requires bits != [] && q < |bits| * 8
    ensures BitAt(SetProbes(hash, bits, key, n), q)
            <==> BitAt(bits, q) || exists i :: 0 <= i < n && q == Position(hash, key, i, |bits| * 8)
  {
    hide BitAt, WithBit, Position;
    if n > 0 {
      ProbesSet(hash, bits, key, n - 1, q);
      WithBitAt(SetProbes(hash, bits, key, n - 1), Position(hash, key, n - 1, |bits| * 8), q);
    }
  }

  lemma AddFinds(hash: Hash, f: Filter, key: ByteString)
    requires f.bits != []
    ensures Admits(hash, WithKey(hash, f, key), key)
  {
    hide BitAt, Position, SetProbes;
    var g := WithKey(hash, f, key);
    forall i | 0 <= i < g.nHash ensures BitAt(g.bits, Position(hash, key, i, NumBits(g))) {
      ProbesSet(hash, f.bits, key, f.nHash, Position(hash, key, i, NumBits(g)));
    }
  }

  lemma AddKeeps(hash: Hash, f: Filter, key: ByteString, other: ByteString)
    requires Admits(hash, f, other)
    ensures Admits(hash, WithKey(hash, f, key), other)
  {
    hide BitAt, Position, SetProbes;
    var g := WithKey(hash, f, key);
    forall i | 0 <= i < g.nHash ensures BitAt(g.bits, Position(hash, other, i, NumBits(g))) {
      assert BitAt(f.bits, Position(hash, other, i, NumBits(f)));
      ProbesSet(hash, f.bits, key, f.nHash, Position(hash, other, i, NumBits(g)));
    }
  }

  /** No false negatives, for any hash, any size and any number of probes. */
  lemma {:induction false} NoFalseNegatives(hash: Hash, f: Filter, keys: seq<ByteString>, i: nat)
    requires f.bits != [] && i < |keys|
    ensures Admits(hash, WithKeys(hash, f, keys), keys[i])
    decreases |keys|
  {
    hide Admits, WithKey;
    var front, last := keys[..|keys| - 1], keys[|keys| - 1];
    AddAllShape(hash, f, front);
    if i == |keys| - 1 {
      AddFinds(hash, WithKeys(hash, f, front), last);
    } else {
      NoFalseNegatives(hash, f, front, i);
      AddKeeps(hash, WithKeys(hash, f, front), last, keys[i]);
    }
  }

  lemma {:induction false} AddAllShape(hash: Hash, f: Filter, keys: seq<ByteString>)
    ensures var g := WithKeys(hash, f, keys); |g.bits| == |f.bits| && g.nHash == f.nHash
  {
    hide SetProbes;
    if keys != [] { AddAllShape(hash, f, keys[..|keys| - 1]); }
  }

  /** A probe of one of the keys is at q. */
  ghost predicate Probed(hash: Hash, nHash: nat, numBits: nat, keys: seq<ByteString>, q: nat)
    requires numBits > 0
  {
    exists j, i :: 0 <= j < |keys| && 0 <= i < nHash && q == Position(hash, keys[j], i, numBits)
  }

  lemma {:induction false} BitsAreProbes(hash: Hash, f: Filter, keys: seq<ByteString>, q: nat)
    requires f.bits != [] && q < NumBits(f) && |WithKeys(hash, f, keys).bits| == |f.bits|
    ensures BitAt(WithKeys(hash, f, keys).bits, q) <==> BitAt(f.bits, q) || Probed(hash, f.nHash, NumBits(f), keys, q)
    decreases |keys|
  {
    hide BitAt, Position, SetProbes;
    if keys != [] {
      var front, last := keys[..|keys| - 1], keys[|keys| - 1];
      AddAllShape(hash, f, front);
      BitsAreProbes(hash, f, front, q);
      ProbesSet(hash, WithKeys(hash, f, front).bits, last, f.nHash, q);
      if j, i :| 0 <= j < |keys| && 0 <= i < f.nHash && q == Position(hash, keys[j], i, NumBits(f)) {
        if j < |front| { assert front[j] == keys[j]; }
      }
      if j, i :| 0 <= j < |front| && 0 <= i < f.nHash && q == Position(hash, front[j], i, NumBits(f)) {
        assert keys[j] == front[j];
      }
      if i :| 0 <= i < f.nHash && q == Position(hash, last, i, NumBits(f)) {
        assert keys[|keys| - 1] == last;
      }
    }
  }

  lemma ZeroBit(n: nat, q: nat)
    requires q < n * 8
    ensures !BitAt(seq(n, _ => 0), q)
  {
    ZeroTest(q % 8);
  }

  lemma {:induction false} ZeroTest(i: nat)
    ensures !TestBit(0, i)
  {
    if i > 0 { ZeroTest(i - 1); }
  }

  /**
   What a filter answers, exactly: after any keys have been added to an empty one, it admits a key
   if and only if each probe of it is a probe of an added key. So a key with a probe of its own is
   refused.
   */
  lemma AdmitsExactly(hash: Hash, n: nat, nHash: nat, keys: seq<ByteString>, key: ByteString)
    requires n > 0
    ensures Admits(hash, WithKeys(hash, Filter(seq(n, _ => 0), nHash), keys), key)
            <==> forall i :: 0 <= i < nHash ==> Probed(hash, nHash, n * 8, keys, Position(hash, key, i, n * 8))
  {
    hide BitAt, Position, WithKeys, Probed;
    var f := Filter(seq(n, _ => 0), nHash);
    var g := WithKeys(hash, f, keys);
    AddAllShape(hash, f, keys);
    forall i | 0 <= i < nHash
      ensures BitAt(g.bits, Position(hash, key, i, NumBits(g))) <==> Probed(hash, nHash, n * 8, keys, Position(hash, key, i, n * 8))
    {
      var q := Position(hash, key, i, n * 8);
      BitsAreProbes(hash, f, keys, q);
      ZeroBit(n, q);
    }
  }

  // ---- storage

  function Encode(f: Filter): (s: ByteString)
    ensures |s| == 1 + |f.bits|
  {
    [f.nHash % 256] + f.bits
  }

  function Decode(data: ByteString): Filter {
    if |data| < 1 then Filter([], 0) else Filter(data[1..], data[0])
  }

  /** A stored filter comes back: the number of probes is at most thirty. */
  lemma DecodeEncode(f: Filter)
    requires f.nHash < 256
    ensures Decode(Encode(f)) == f
  {
    assert Encode(f)[1..] == f.bits;
  }

  /** NewFilter's size in bytes, in 32-bit arithmetic. */
  function NewBytes(numKeys: int, bitsPerKey: int): nat {
    var keys: nat := if numKeys < 0 then 0 else numKeys;
    var per: nat := if bitsPerKey < 1 then 1 else bitsPerKey;
    var bits: nat := keys * per % U32;
    var atLeast: nat := if bits < 64 then 64 else bits;
    (atLeast + 7) % U32 / 8
  }

  /** A new filter has bits, and so never loses a key, unless rounding up wraps around. */
  lemma NewFilterHasBits(numKeys: nat, bitsPerKey: nat)
    requires bitsPerKey >= 1
    ensures NewBytes(numKeys, bitsPerKey) > 0 <==> numKeys * bitsPerKey % U32 + 7 < U32
  {
  }

  /** Where nothing wraps around, it has as many whole bytes as the bits asked for need, and eight at the least. */
  lemma NewFilterSize(numKeys: nat, bitsPerKey: nat, asked: nat)
    requires bitsPerKey >= 1 && asked == numKeys * bitsPerKey && asked + 7 < U32
    ensures var n := NewBytes(numKeys, bitsPerKey); n >= 8 && n * 8 >= asked && (n > 8 ==> (n - 1) * 8 < asked)
  {
    WholeBytes(asked);
    WholeBytes(64);
    assert NewBytes(numKeys, bitsPerKey) == (if asked < 64 then (64 + 7) % U32 / 8 else (asked + 7) % U32 / 8);
  }

  lemma WholeBytes(bits: nat)
    requires bits + 7 < U32
    ensures var n := (bits + 7) % U32 / 8; n * 8 >= bits && (n - 1) * 8 < bits && (bits >= 64 ==> n >= 8)
  {
    assert (bits + 7) % U32 == bits + 7;
  }

  // ---- the filter object

  class BloomFilter {
    const bits: array<Byte>
    const nHash: nat
    const numBits: nat

    ghost predicate Valid()
      reads this, bits
    {
      numBits == bits.Length * 8
    }

    ghost function View(): Filter
      reads this, bits
    {
      Filter(bits[..], nHash)
    }

    constructor (bytes: nat, probes: nat)
      ensures Valid() && fresh(bits) && View() == Filter(seq(bytes, i => 0), probes)
    {
      bits := new Byte[bytes](i => 0);
      nHash, numBits := probes, bytes * 8;
      new;
      assert bits[..] == seq(bytes, i => 0);
    }

    method Add(hash: Hash, key: ByteString)
      requires Valid()
      modifies bits
      ensures View() == WithKey(hash, old(View()), key)
    {
      hide Position, SetBit;
      if bits.Length == 0 { return; }
      ghost var before := bits[..];
      var i := 0;
      while i < nHash
        invariant 0 <= i <= nHash && bits[..] == SetProbes(hash, before, key, i)
      {
        var bitPos := Position(hash, key, i, numBits);
        TwoIs();
        SetBound(bits[bitPos / 8], bitPos % 8, 8);
        bits[bitPos / 8] := SetBit(bits[bitPos / 8], bitPos % 8);
        i := i + 1;
      }
    }

    method MayContain(hash: Hash, key: ByteString) returns (r: bool)
      requires Valid()
      ensures r == Admits(hash, View(), key)
    {
      hide Position, TestBit;
      if bits.Length == 0 { return false; }
      var i := 0;
      while i < nHash
        invariant 0 <= i <= nHash
        invariant forall j :: 0 <= j < i ==> BitAt(bits[..], Position(hash, key, j, numBits))
      {
        var bitPos := Position(hash, key, i, numBits);
        assert bitPos == Position(hash, key, i, NumBits(View()));
        assert BitAt(View().bits, bitPos) == TestBit(bits[bitPos / 8], bitPos % 8);
        if !TestBit(bits[bitPos / 8], bitPos % 8) { return false; }
        i := i + 1;
      }
      return true;
    }
  }
}
