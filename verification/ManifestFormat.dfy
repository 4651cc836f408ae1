/**
 Version edits on disk: their encoding and the length-prefixed file of edits
 (internal/lsm/manifest.go, Encode, DecodeVersionEdit and the replay in OpenManifest).
 */
module ManifestFormat {
  import opened Bytes
  import opened KeyOrder
  import opened Batches

  datatype FileMeta = FileMeta(level: nat, num: nat, size: nat, entries: nat, smallest: Key, largest: Key)

  /** next is zero when the edit does not move the file counter. */
  datatype VersionEdit = VersionEdit(dels: seq<(nat, nat)>, adds: seq<FileMeta>, next: nat)

  // ---- encoding

  function EncodeDel(d: (nat, nat)): (r: ByteString)
    ensures |r| == 12
  {
    PutLE(d.0, 4) + PutLE(d.1, 8)
  }

  function EncodeAdd(f: FileMeta): (r: ByteString)
    ensures |r| == 36 + |f.smallest| + |f.largest|
  {
    PutLE(f.level, 4) + PutLE(f.num, 8) + PutLE(f.size, 8) + PutLE(f.entries, 8) + Sized(f.smallest) + Sized(f.largest)
  }

  function EncodeDels(ds: seq<(nat, nat)>): ByteString {
    if ds == [] then [] else EncodeDel(ds[0]) + EncodeDels(ds[1..])
  }

  function EncodeAdds(fs: seq<FileMeta>): ByteString {
    if fs == [] then [] else EncodeAdd(fs[0]) + EncodeAdds(fs[1..])
  }

  function EncodeEdit(e: VersionEdit): ByteString {
    PutLE(e.next, 8) + PutLE(|e.dels|, 4) + EncodeDels(e.dels) + PutLE(|e.adds|, 4) + EncodeAdds(e.adds)
  }

  // ---- decoding

  /** A little-endian number of w bytes at off. */
  function TakeNum(data: ByteString, off: nat, w: nat): (r: Option<nat>)
    ensures r.Some? <==> off + w <= |data|
  {
    if off + w > |data| then None else Some(GetLE(data[off..off + w]))
  }

  function TakeDels(data: ByteString, off: nat, n: nat): (r: Option<(seq<(nat, nat)>, nat)>)
    ensures r.Some? ==> off <= r.value.1
    decreases n
  {
    if n == 0 then Some(([], off))
    else if off + 12 > |data| then None
    else
      var d: (nat, nat) := (TakeNum(data, off, 4).value, TakeNum(data, off + 4, 8).value);
      var rest := TakeDels(data, off + 12, n - 1);
      if rest.None? then None else Some(([d] + rest.value.0, rest.value.1))
  }

  function TakeAdd(data: ByteString, off: nat): (r: Option<(FileMeta, nat)>)
    ensures r.Some? ==> off <= r.value.1
  {
    if off + 28 > |data| then None
    else
      var small := TakeSized(data, off + 28);
      if small.None? then None
      else
        var large := TakeSized(data, small.value.1);
        if large.None? then None
        else
          Some((FileMeta(TakeNum(data, off, 4).value, TakeNum(data, off + 4, 8).value, TakeNum(data, off + 12, 8).value,
                         TakeNum(data, off + 20, 8).value, small.value.0, large.value.0),
                large.value.1))
  }

  function TakeAdds(data: ByteString, off: nat, n: nat): Option<seq<FileMeta>>
    decreases n
  {
    if n == 0 then Some([])
    else
      var f := TakeAdd(data, off);
      if f.None? then None
      else
        var rest := TakeAdds(data, f.value.1, n - 1);
        if rest.None? then None else Some([f.value.0] + rest.value)
  }

  /** DecodeVersionEdit: none for bytes that end too soon; bytes after the edit are ignored. */
  function DecodeEdit(data: ByteString): Option<VersionEdit> {
    if |data| < 8 then None
    else
      var n := TakeNum(data, 8, 4);
      if n.None? then None
      else
        var dels := TakeDels(data, 12, n.value);
        if dels.None? then None
        else
          var m := TakeNum(data, dels.value.1, 4);
          if m.None? then None
          else
            var adds := TakeAdds(data, dels.value.1 + 4, m.value);
            if adds.None? then None else Some(VersionEdit(dels.value.0, adds.value, TakeNum(data, 0, 8).value))
  }

  /** An edit has at least its counter and its two counts. */
  lemma DecodeNeeds(data: ByteString)
    requires DecodeEdit(data).Some?
    ensures |data| >= 16 && DecodeEdit(data).value.next == GetLE(data[0..8])
  {
    hide GetLE, TakeDels, TakeAdds;
  }

  // ---- the round trip

  predicate DelFits(d: (nat, nat)) {
    d.0 < U32 && d.1 < U64
  }

  predicate AddFits(f: FileMeta) {
    f.level < U32 && f.num < U64 && f.size < U64 && f.entries < U64 && |f.smallest| < U32 && |f.largest| < U32
  }

  /** Every field fits its width, and the whole its length prefix. */
  predicate EditFits(e: VersionEdit) {
    && e.next < U64 && |e.dels| < U32 && |e.adds| < U32 && |EncodeEdit(e)| < U32
    && (forall i :: 0 <= i < |e.dels| ==> DelFits(e.dels[i])) && (forall i :: 0 <= i < |e.adds| ==> AddFits(e.adds[i]))
  }

  lemma TakeNumBack(pre: ByteString, n: nat, w: nat, post: ByteString)
    requires n < Pow256(w)
    ensures TakeNum(pre + PutLE(n, w) + post, |pre|, w) == Some(n)
  {
    hide GetLE, PutLE;
    RoundTripLE(n, w);
    var data := pre + PutLE(n, w) + post;
    assert data[|pre|..|pre| + w] == PutLE(n, w);
  }

  lemma {:induction false} TakeDelsBack(ds: seq<(nat, nat)>, pre: ByteString, post: ByteString)
    requires forall i :: 0 <= i < |ds| ==> DelFits(ds[i])
    ensures TakeDels(pre + EncodeDels(ds) + post, |pre|, |ds|) == Some((ds, |pre| + |EncodeDels(ds)|))
    decreases |ds|
  {
    hide PutLE, TakeNum;
    var data := pre + EncodeDels(ds) + post;
    if ds != [] {
      var d, rest := ds[0], EncodeDels(ds[1..]);
      PowValues();
      assert data == pre + PutLE(d.0, 4) + (PutLE(d.1, 8) + rest + post);
      TakeNumBack(pre, d.0, 4, PutLE(d.1, 8) + rest + post);
      assert data == (pre + PutLE(d.0, 4)) + PutLE(d.1, 8) + (rest + post);
      TakeNumBack(pre + PutLE(d.0, 4), d.1, 8, rest + post);
      assert data == (pre + EncodeDel(d)) + rest + post;
      TakeDelsBack(ds[1..], pre + EncodeDel(d), post);
      assert ds == [d] + ds[1..];
    }
  }

  lemma TakeAddBack(f: FileMeta, pre: ByteString, post: ByteString)
    requires AddFits(f)
    ensures TakeAdd(pre + EncodeAdd(f) + post, |pre|) == Some((f, |pre| + |EncodeAdd(f)|))
  {
    hide PutLE, TakeNum, TakeSized, Sized;
    PowValues();
    var data := pre + EncodeAdd(f) + post;
    var a, b, c, d := PutLE(f.level, 4), PutLE(f.num, 8), PutLE(f.size, 8), PutLE(f.entries, 8);
    var x, y := Sized(f.smallest), Sized(f.largest);
    assert data == pre + a + (b + c + d + x + y + post);
    TakeNumBack(pre, f.level, 4, b + c + d + x + y + post);
    assert data == (pre + a) + b + (c + d + x + y + post);
    TakeNumBack(pre + a, f.num, 8, c + d + x + y + post);
    assert data == (pre + a + b) + c + (d + x + y + post);
    TakeNumBack(pre + a + b, f.size, 8, d + x + y + post);
    assert data == (pre + a + b + c) + d + (x + y + post);
    TakeNumBack(pre + a + b + c, f.entries, 8, x + y + post);
    assert data == (pre + a + b + c + d) + x + (y + post);
    TakeSizedBack(pre + a + b + c + d, f.smallest, y + post);
    assert data == (pre + a + b + c + d + x) + y + post;
    TakeSizedBack(pre + a + b + c + d + x, f.largest, post);
  }

  lemma {:induction false} TakeAddsBack(fs: seq<FileMeta>, pre: ByteString, post: ByteString)
    requires forall i :: 0 <= i < |fs| ==> AddFits(fs[i])
    ensures TakeAdds(pre + EncodeAdds(fs) + post, |pre|, |fs|) == Some(fs)
    decreases |fs|
  {
    hide EncodeAdd, TakeAdd;
    var data := pre + EncodeAdds(fs) + post;
    if fs != [] {
      var f, rest := fs[0], EncodeAdds(fs[1..]);
      assert data == pre + EncodeAdd(f) + (rest + post);
      TakeAddBack(f, pre, rest + post);
      assert data == (pre + EncodeAdd(f)) + rest + post;
      TakeAddsBack(fs[1..], pre + EncodeAdd(f), post);
      assert fs == [f] + fs[1..];
    }
  }

  /** Every field fits its width. */
  predicate FieldsFit(e: VersionEdit) {
    && e.next < U64 && |e.dels| < U32 && |e.adds| < U32
    && (forall i :: 0 <= i < |e.dels| ==> DelFits(e.dels[i])) && (forall i :: 0 <= i < |e.adds| ==> AddFits(e.adds[i]))
  }

  /** Decoding undoes encoding, whatever follows the edit. */
  lemma EditRoundTripThen(e: VersionEdit, post: ByteString)
    requires FieldsFit(e)
    ensures DecodeEdit(EncodeEdit(e) + post) == Some(e)
  {
    hide PutLE, TakeNum, TakeDels, TakeAdds, EncodeDels, EncodeAdds, DelFits, AddFits;
    PowValues();
    var data := EncodeEdit(e) + post;
    var a, b, ds, c, fs := PutLE(e.next, 8), PutLE(|e.dels|, 4), EncodeDels(e.dels), PutLE(|e.adds|, 4), EncodeAdds(e.adds);
    assert data == [] + a + (b + ds + c + fs + post);
    TakeNumBack([], e.next, 8, b + ds + c + fs + post);
    assert data == a + b + (ds + c + fs + post);
    TakeNumBack(a, |e.dels|, 4, ds + c + fs + post);
    assert data == (a + b) + ds + (c + fs + post);
    TakeDelsBack(e.dels, a + b, c + fs + post);
    assert data == (a + b + ds) + c + (fs + post);
    TakeNumBack(a + b + ds, |e.adds|, 4, fs + post);
    assert data == (a + b + ds + c) + fs + post;
    TakeAddsBack(e.adds, a + b + ds + c, post);
  }

  /** Decoding undoes encoding. */
  lemma EditRoundTrip(e: VersionEdit)
    requires EditFits(e)
    ensures DecodeEdit(EncodeEdit(e)) == Some(e)
  {
    hide DecodeEdit, EncodeEdit;
    EditRoundTripThen(e, []);
    assert EncodeEdit(e) + [] == EncodeEdit(e);
  }
}
