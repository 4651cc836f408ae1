/**
 Write batches as log records (internal/wal/batch.go).
 */
module Batches {
  import opened Bytes
  import opened WalFiles

  /** One operation; a missing value is Go's nil. */
  datatype Entry = Entry(op: Byte, key: ByteString, val: Option<ByteString>)

  type Batch = seq<Entry>

  function ValueBytes(e: Entry): ByteString {
    if e.val.Some? then e.val.value else []
  }

  /** A length-prefixed byte string; the length keeps its low 32 bits. */
  function Sized(s: ByteString): (r: ByteString)
    ensures |r| == 4 + |s|
  {
    PutLE(|s|, 4) + s
  }

  function EncodeEntry(e: Entry): (r: ByteString)
    ensures |r| == 9 + |e.key| + |ValueBytes(e)|
  {
    [e.op] + Sized(e.key) + Sized(ValueBytes(e))
  }

  function EncodeEntries(b: Batch): ByteString {
    if b == [] then [] else EncodeEntries(b[..|b| - 1]) + EncodeEntry(b[|b| - 1])
  }

  function EncodeBatch(b: Batch): ByteString {
    PutLE(|b|, 4) + EncodeEntries(b)
  }

  // ---- decoding

  /** A length-prefixed byte string at off: its bytes and where it ends. */
  function TakeSized(data: ByteString, off: nat): (r: Option<(ByteString, nat)>)
    ensures r.Some? ==> off + 4 <= r.value.1 <= |data| && |r.value.0| == r.value.1 - off - 4 && |r.value.0| < U32
  {
    PowValues();
    if off + 4 > |data| then None
    else
      var n := GetLE(data[off..off + 4]);
      if off + 4 + n > |data| then None else Some((data[off + 4..off + 4 + n], off + 4 + n))
  }

  function TakeEntry(data: ByteString, off: nat): (r: Option<(Entry, nat)>)
    ensures r.Some? ==> off < r.value.1 <= |data|
  {
    if off + 1 > |data| then None
    else
      var k := TakeSized(data, off + 1);
      if k.None? then None
      else
        var v := TakeSized(data, k.value.1);
        if v.None? then None
        else Some((Entry(data[off], k.value.0, if v.value.0 == [] then None else Some(v.value.0)), v.value.1))
  }

  function TakeEntries(data: ByteString, off: nat, n: nat): Option<Batch>
    decreases n
  {
    if n == 0 then Some([])
    else
      var e := TakeEntry(data, off);
      if e.None? then None
      else
        var rest := TakeEntries(data, e.value.1, n - 1);
        if rest.None? then None else Some([e.value.0] + rest.value)
  }

  /** DecodeBatch; bytes after the counted entries are ignored. */
  function DecodeBatch(data: ByteString): Option<Batch> {
    if |data| < 4 then None else TakeEntries(data, 4, GetLE(data[..4]))
  }

  // ---- the round trip

  /** Lengths and count fit the 32-bit fields. */
  predicate Fits(b: Batch) {
    |b| < U32 && forall i :: 0 <= i < |b| ==> |b[i].key| < U32 && |ValueBytes(b[i])| < U32
  }

  /** An entry as it comes back: an empty value is no value. */
  function Canonical(e: Entry): Entry {
    Entry(e.op, e.key, if ValueBytes(e) == [] then None else e.val)
  }

  function CanonicalBatch(b: Batch): (r: Batch)
    ensures |r| == |b|
  {
    seq(|b|, i requires 0 <= i < |b| => Canonical(b[i]))
  }

  lemma TakeSizedBack(pre: ByteString, s: ByteString, post: ByteString)
    requires |s| < U32
    ensures TakeSized(pre + Sized(s) + post, |pre|) == Some((s, |pre| + 4 + |s|))
  {
    hide GetLE, PutLE;
    var data, n := pre + Sized(s) + post, |pre|;
    PowValues();
    RoundTripLE(|s|, 4);
    assert data[n..n + 4] == PutLE(|s|, 4);
    assert data[n + 4..n + 4 + |s|] == s;
  }

  lemma TakeEntryBack(pre: ByteString, e: Entry, post: ByteString)
    requires |e.key| < U32 && |ValueBytes(e)| < U32
    ensures TakeEntry(pre + EncodeEntry(e) + post, |pre|) == Some((Canonical(e), |pre| + |EncodeEntry(e)|))
  {
    hide Sized, TakeSized;
    var data := pre + EncodeEntry(e) + post;
    var k, v := Sized(e.key), Sized(ValueBytes(e));
    var pre1 := pre + [e.op];
    assert data == pre1 + k + (v + post);
    TakeSizedBack(pre1, e.key, v + post);
    var pre2 := pre1 + k;
    assert data == pre2 + v + post;
    TakeSizedBack(pre2, ValueBytes(e), post);
  }

  lemma EncodeSnoc(b: Batch, i: nat)
    requires i < |b|
    ensures EncodeEntries(b[..i + 1]) == EncodeEntries(b[..i]) + EncodeEntry(b[i])
  {
    hide EncodeEntry;
    assert b[..i + 1][..i] == b[..i];
  }

  /** The entry at i inside the encoded batch. */
  lemma EncodedAt(b: Batch, i: nat, head: ByteString, data: ByteString, post: ByteString)
    requires Fits(b) && i < |b| && data == head + EncodeEntries(b) + post
    ensures TakeEntry(data, |head| + |EncodeEntries(b[..i])|) == Some((Canonical(b[i]), |head| + |EncodeEntries(b[..i + 1])|))
  {
    hide EncodeEntry, Canonical, TakeEntry, EncodeEntries;
    EncodeSnoc(b, i);
    EncodePrefix(b, i + 1);
    var pre, e := EncodeEntries(b[..i]), EncodeEntry(b[i]);
    var rest := EncodeEntries(b)[|pre + e|..];
    assert EncodeEntries(b) == pre + e + rest;
    assert data == (head + pre) + e + (rest + post);
    TakeEntryBack(head + pre, b[i], rest + post);
  }

  lemma {:induction false} TakeEntriesBack(b: Batch, i: nat, head: ByteString, data: ByteString, post: ByteString)
    requires Fits(b) && i <= |b| && data == head + EncodeEntries(b) + post
    ensures TakeEntries(data, |head| + |EncodeEntries(b[..i])|, |b| - i) == Some(CanonicalBatch(b)[i..])
    decreases |b| - i
  {
    hide Canonical, TakeEntry, EncodeEntries, Fits;
    if i < |b| {
      TakeEntriesBack(b, i + 1, head, data, post);
      EncodedAt(b, i, head, data, post);
      assert CanonicalBatch(b)[i..] == [Canonical(b[i])] + CanonicalBatch(b)[i + 1..];
    } else {
      assert CanonicalBatch(b)[i..] == [];
    }
  }

  lemma {:induction false} EncodePrefix(b: Batch, i: nat)
    requires i <= |b|
    ensures EncodeEntries(b[..i]) <= EncodeEntries(b)
    decreases |b| - i
  {
    if i < |b| {
      EncodePrefix(b, i + 1);
      assert b[..i + 1][..i] == b[..i];
      assert EncodeEntries(b[..i]) <= EncodeEntries(b[..i + 1]);
    } else {
      assert b[..i] == b;
    }
  }

  /** Decoding undoes encoding, whatever follows the record, up to empty values. */
  lemma BatchRoundTrip(b: Batch, post: ByteString)
    requires Fits(b)
    ensures DecodeBatch(EncodeBatch(b) + post) == Some(CanonicalBatch(b))
  {
    hide TakeEntries, EncodeEntries, PutLE, GetLE;
    var data := EncodeBatch(b) + post;
    PowValues();
    RoundTripLE(|b|, 4);
    assert data[..4] == PutLE(|b|, 4);
    EncodeNothing(b);
    TakeEntriesBack(b, 0, PutLE(|b|, 4), data, post);
    assert CanonicalBatch(b)[0..] == CanonicalBatch(b);
  }

  lemma EncodeNothing(b: Batch)
    ensures EncodeEntries(b[..0]) == []
  {
  }

  lemma {:induction false} TakenFits(data: ByteString, off: nat, n: nat)
    requires TakeEntries(data, off, n).Some?
    ensures var b := TakeEntries(data, off, n).value;
            |b| == n && forall i :: 0 <= i < n ==> |b[i].key| < U32 && |ValueBytes(b[i])| < U32 && Canonical(b[i]) == b[i]
    decreases n
  {
    hide TakeSized;
    if n > 0 { TakenFits(data, TakeEntry(data, off).value.1, n - 1); }
  }

  /** A batch that was decoded, from any bytes, survives being written and decoded again. */
  lemma DecodedReencodes(data: ByteString, b: Batch)
    requires DecodeBatch(data) == Some(b)
    ensures DecodeBatch(EncodeBatch(b)) == Some(b)
  {
    hide TakeEntries, EncodeBatch, Canonical;
    PowValues();
    TakenFits(data, 4, GetLE(data[..4]));
    BatchRoundTrip(b, []);
    assert EncodeBatch(b) + [] == EncodeBatch(b);
    assert CanonicalBatch(b) == b;
  }

  // ---- the loops

  method EncodedSize(b: Batch) returns (size: nat)
    ensures size == |EncodeBatch(b)|
  {
    hide EncodeEntry, PutLE, EncodeEntries;
    size := 4;
    EncodeNothing(b);
    var i := 0;
    while i < |b|
      invariant 0 <= i <= |b| && size == 4 + |EncodeEntries(b[..i])|
    {
      EncodeSnoc(b, i);
      size := size + 1 + 4 + |b[i].key| + 4 + |ValueBytes(b[i])|;
      i := i + 1;
    }
    assert b[..i] == b;
  }

  /** Encode: one pass for the size, one to fill the buffer. */
  method Encode(b: Batch) returns (buf: array<Byte>)
    ensures buf[..] == EncodeBatch(b) && fresh(buf)
  {
    hide EncodeEntry, PutLE, EncodeEntries;
    var size := EncodedSize(b);
    buf := new Byte[size](j => 0);
    ghost var head := PutLE(|b|, 4);
    CopyInto(buf, 0, PutLE(|b|, 4));
    var offset: nat := 4;
    var i := 0;
    EncodeNothing(b);
    assert buf[..4] == head == head + [];
    while i < |b|
      invariant 0 <= i <= |b| && offset == 4 + |EncodeEntries(b[..i])| <= buf.Length == |EncodeBatch(b)|
      invariant buf[..offset] == head + EncodeEntries(b[..i])
    {
      EncodePrefix(b, i + 1);
      EncodeSnoc(b, i);
      PutEntry(buf, offset, b[i]);
      assert head + EncodeEntries(b[..i]) + EncodeEntry(b[i]) == head + EncodeEntries(b[..i + 1]);
      offset := offset + 1 + 4 + |b[i].key| + 4 + |ValueBytes(b[i])|;
      i := i + 1;
    }
    assert b[..i] == b && buf[..offset] == buf[..];
  }

  /** Writes one entry at an offset, field by field. */
  method PutEntry(buf: array<Byte>, start: nat, e: Entry)
    requires start + |EncodeEntry(e)| <= buf.Length
    modifies buf
    ensures buf[..start + |EncodeEntry(e)|] == old(buf[..start]) + EncodeEntry(e)
  {
    hide PutLE;
    ghost var before := buf[..start];
    var offset := start;
    buf[offset] := e.op;
    offset := offset + 1;
    assert buf[..offset] == before + [e.op];
    PutField(buf, offset, e.key);
    offset := offset + 4 + |e.key|;
    PutField(buf, offset, ValueBytes(e));
    offset := offset + 4 + |ValueBytes(e)|;
    assert before + [e.op] + Sized(e.key) + Sized(ValueBytes(e)) == before + EncodeEntry(e);
  }

  method PutField(buf: array<Byte>, start: nat, s: ByteString)
    requires start + 4 + |s| <= buf.Length
    modifies buf
    ensures buf[..start + 4 + |s|] == old(buf[..start]) + Sized(s)
  {
    hide PutLE;
    ghost var before := buf[..start];
    CopyInto(buf, start, PutLE(|s|, 4));
    CopyInto(buf, start + 4, s);
    assert buf[..start] == before;
    assert buf[..start + 4 + |s|] == buf[..start] + buf[start..start + 4] + buf[start + 4..start + 4 + |s|];
  }

  /** DecodeBatch's loop over the offset. */
  method Decode(data: ByteString) returns (r: Option<Batch>)
    ensures r == DecodeBatch(data)
  {
    hide TakeEntry;
    if |data| < 4 { return None; }
    PowValues();
    var count := GetLE(data[..4]);
    var b: Batch := [];
    var offset: nat := 4;
    var i := 0;
    assert forall rest: Batch :: b + rest == rest;
    while i < count
      invariant 0 <= i <= count
      invariant var rest := TakeEntries(data, offset, count - i);
                TakeEntries(data, 4, count) == if rest.None? then None else Some(b + rest.value)
    {
      var e := TakeEntry(data, offset);
      if e.None? { return None; }
      ghost var rest := TakeEntries(data, e.value.1, count - i - 1);
      assert rest.Some? ==> b + ([e.value.0] + rest.value) == b + [e.value.0] + rest.value;
      b := b + [e.value.0];
      offset := e.value.1;
      i := i + 1;
    }
    assert b + [] == b;
    return Some(b);
  }
}
