/**
 MVCC keys: a user key followed by the bitwise complement of an eight-byte timestamp, and the
 order in which every sorted structure of the store keeps them.
 */
module KeyOrder {
  import opened Bytes

  type Key = ByteString

  /** bytes.Compare: lexicographic, a proper prefix first. */
  function Compare(a: ByteString, b: ByteString): int {
    if a == [] then (if b == [] then 0 else -1)
    else if b == [] then 1
    else if a[0] < b[0] then -1
    else if a[0] > b[0] then 1
    else Compare(a[1..], b[1..])
  }

  function UserKey(k: Key): ByteString {
    if |k| < 8 then k else k[..|k| - 8]
  }

  function CompareKeys(a: Key, b: Key): int {
    var c := Compare(UserKey(a), UserKey(b));
    if c != 0 then c else Compare(a, b)
  }

  /** The w low bytes of n, most significant first (binary.BigEndian). */
  function PutBE(n: nat, w: nat): (s: ByteString)
    ensures |s| == w
  {
    if w == 0 then [] else PutBE(n / 256, w - 1) + [n % 256]
  }

  function GetBE(s: ByteString): nat {
    if s == [] then 0 else 256 * GetBE(s[..|s| - 1]) + s[|s| - 1]
  }

  function EncodeKey(userKey: ByteString, ts: nat): (k: Key)
    requires ts < U64
    ensures |k| == |userKey| + 8
  {
    userKey + PutBE(U64 - 1 - ts, 8)
  }

  lemma {:induction false} GetBEBound(s: ByteString)
    ensures GetBE(s) < Pow256(|s|)
  {
    if s != [] { GetBEBound(s[..|s| - 1]); }
  }

  /** The user key and the timestamp; a key too short to carry one reads as timestamp zero. */
  function DecodeKey(k: Key): (r: (ByteString, nat))
    ensures r.1 < U64
  {
    if |k| < 8 then (k, 0)
    else
      GetBEBound(k[|k| - 8..]);
      PowValues();
      (k[..|k| - 8], U64 - 1 - GetBE(k[|k| - 8..]))
  }

  lemma {:induction false} RoundTripBE(n: nat, w: nat)
    requires n < Pow256(w)
    ensures GetBE(PutBE(n, w)) == n
  {
    if w > 0 {
      RoundTripBE(n / 256, w - 1);
      assert PutBE(n, w)[..w - 1] == PutBE(n / 256, w - 1);
    }
  }

  lemma {:induction false} RoundTripPutBE(s: ByteString)
    ensures PutBE(GetBE(s), |s|) == s
  {
    if s != [] {
      var front, last := s[..|s| - 1], s[|s| - 1];
      RoundTripPutBE(front);
      assert GetBE(s) / 256 == GetBE(front) && GetBE(s) % 256 == last;
      assert s == front + [last];
    }
  }

  /** Decoding undoes encoding. */
  lemma DecodeEncode(userKey: ByteString, ts: nat)
    requires ts < U64
    ensures DecodeKey(EncodeKey(userKey, ts)) == (userKey, ts)
    ensures UserKey(EncodeKey(userKey, ts)) == userKey
  {
    var k := EncodeKey(userKey, ts);
    PowValues();
    RoundTripBE(U64 - 1 - ts, 8);
    assert k[|k| - 8..] == PutBE(U64 - 1 - ts, 8);
    assert k[..|k| - 8] == userKey;
  }

  /** Every key of at least eight bytes is an encoded key. */
  lemma EncodeDecode(k: Key)
    requires |k| >= 8
    ensures var (u, ts) := DecodeKey(k); u == UserKey(k) && EncodeKey(u, ts) == k
  {
    var tail := k[|k| - 8..];
    GetBEBound(tail);
    PowValues();
    RoundTripPutBE(tail);
    assert k == k[..|k| - 8] + tail;
  }

  // ---- the order is total

  lemma {:induction false} CompareReflexive(a: ByteString)
    ensures Compare(a, a) == 0
  {
    if a != [] { CompareReflexive(a[1..]); }
  }

  lemma {:induction false} CompareZero(a: ByteString, b: ByteString)
    requires Compare(a, b) == 0
    ensures a == b
  {
    if a != [] {
      CompareZero(a[1..], b[1..]);
      assert a == [a[0]] + a[1..] && b == [b[0]] + b[1..];
    }
  }

  lemma {:induction false} CompareFlips(a: ByteString, b: ByteString)
    ensures Compare(b, a) == -Compare(a, b)
    ensures -1 <= Compare(a, b) <= 1
  {
    if a != [] && b != [] { CompareFlips(a[1..], b[1..]); }
  }

  lemma {:induction false} CompareTransitive(a: ByteString, b: ByteString, d: ByteString)
    requires Compare(a, b) < 0 && Compare(b, d) < 0
    ensures Compare(a, d) < 0
  {
    if a != [] && b != [] && d != [] && a[0] == b[0] == d[0] {
      CompareTransitive(a[1..], b[1..], d[1..]);
    }
  }

  predicate Less(a: Key, b: Key) {
    CompareKeys(a, b) < 0
  }

  /** CompareKeys answers zero exactly on equal byte strings, whatever their length. */
  lemma CompareKeysZero(a: Key, b: Key)
    ensures CompareKeys(a, b) == 0 <==> a == b
  {
    if a == b {
      CompareReflexive(a);
      CompareReflexive(UserKey(a));
    } else if CompareKeys(a, b) == 0 {
      CompareZero(a, b);
    }
  }

  lemma CompareKeysFlips(a: Key, b: Key)
    ensures CompareKeys(b, a) == -CompareKeys(a, b)
  {
    CompareFlips(a, b);
    CompareFlips(UserKey(a), UserKey(b));
  }

  lemma LessTransitive(a: Key, b: Key, d: Key)
    requires Less(a, b) && Less(b, d)
    ensures Less(a, d)
  {
    var (x, y, z) := (UserKey(a), UserKey(b), UserKey(d));
    if Compare(x, y) == 0 { CompareZero(x, y); }
    if Compare(y, z) == 0 { CompareZero(y, z); }
    if Compare(x, y) < 0 && Compare(y, z) < 0 {
      CompareTransitive(x, y, z);
    } else if Compare(x, y) == 0 && Compare(y, z) == 0 {
      CompareReflexive(x);
      CompareTransitive(a, b, d);
    }
  }

  /** CompareKeys orders all byte strings totally; everything else uses only this. */
  lemma KeysOrdered()
    ensures forall a: Key :: !Less(a, a)
    ensures forall a: Key, b: Key :: Less(a, b) || Less(b, a) || a == b
    ensures forall a: Key, b: Key, d: Key :: Less(a, b) && Less(b, d) ==> Less(a, d)
  {
    forall a: Key ensures !Less(a, a) { CompareKeysZero(a, a); }
    forall a: Key, b: Key ensures Less(a, b) || Less(b, a) || a == b {
      CompareKeysZero(a, b);
      CompareKeysFlips(a, b);
    }
    forall a: Key, b: Key, d: Key | Less(a, b) && Less(b, d) ensures Less(a, d) { LessTransitive(a, b, d); }
  }

  lemma {:induction false} CompareAppend(p: ByteString, q: ByteString, a: Byte, b: Byte)
    requires |p| == |q|
    ensures Compare(p + [a], q + [b])
            == if Compare(p, q) != 0 then Compare(p, q) else if a < b then -1 else if a > b then 1 else 0
  {
    if p != [] {
      CompareAppend(p[1..], q[1..], a, b);
      assert (p + [a])[1..] == p[1..] + [a] && (q + [b])[1..] == q[1..] + [b];
    }
  }

  lemma {:induction false} ComparePrefix(p: ByteString, a: ByteString, b: ByteString)
    ensures Compare(p + a, p + b) == Compare(a, b)
  {
    if p == [] {
      assert p + a == a && p + b == b;
    } else {
      ComparePrefix(p[1..], a, b);
      assert (p + a)[1..] == p[1..] + a && (p + b)[1..] == p[1..] + b;
    }
  }

  lemma {:induction false} CompareBE(x: nat, y: nat, w: nat)
    requires x < Pow256(w) && y < Pow256(w)
    ensures Compare(PutBE(x, w), PutBE(y, w)) == if x < y then -1 else if x > y then 1 else 0
  {
    if w > 0 {
      CompareBE(x / 256, y / 256, w - 1);
      CompareAppend(PutBE(x / 256, w - 1), PutBE(y / 256, w - 1), x % 256, y % 256);
    }
  }

  /** Versions of one user key are kept newest first; different user keys in their own order. */
  lemma EncodedOrder(u: ByteString, ts: nat, v: ByteString, ts': nat)
    requires ts < U64 && ts' < U64
    ensures Less(EncodeKey(u, ts), EncodeKey(v, ts')) <==> Compare(u, v) < 0 || (u == v && ts > ts')
  {
    DecodeEncode(u, ts);
    DecodeEncode(v, ts');
    if Compare(u, v) == 0 { CompareZero(u, v); }
    if u == v {
      CompareReflexive(u);
      ComparePrefix(u, PutBE(U64 - 1 - ts, 8), PutBE(U64 - 1 - ts', 8));
      PowValues();
      CompareBE(U64 - 1 - ts, U64 - 1 - ts', 8);
    }
  }
}
