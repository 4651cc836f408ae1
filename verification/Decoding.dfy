/**
 What the decoders accept: a batch, an edit, an index or a footer comes only from bytes that are its
 encoding, so bytes cut short are refused (internal/wal/batch.go, internal/lsm/manifest.go,
 internal/sstable/reader.go).
 */
module Decoding {
  import opened Bytes
  import opened SortedLists
  import opened KeyOrder
  import opened Batches
  import opened ManifestFormat
  import opened SsTable
  import Bloom

  /** Bytes come back from the number they are read as. */
  lemma {:induction false} PutGetLE(s: ByteString)
    ensures PutLE(GetLE(s), |s|) == s
  {
    if s != [] {
      var rest: nat := GetLE(s[1..]);
      assert (s[0] + 256 * rest) % 256 == s[0] && (s[0] + 256 * rest) / 256 == rest;
      PutGetLE(s[1..]);
      assert s == [s[0]] + s[1..];
    }
  }

  lemma Joined(data: ByteString, a: nat, b: nat, d: nat)
    requires a <= b <= d <= |data|
    ensures data[a..d] == data[a..b] + data[b..d]
  {
  }

  // ---- batches

  lemma SizedAt(data: ByteString, off: nat)
    requires TakeSized(data, off).Some?
    ensures var (s, q) := TakeSized(data, off).value; off <= q <= |data| && data[off..q] == Sized(s) && |s| < U32
  {
    hide PutLE, GetLE;
    var (s, q) := TakeSized(data, off).value;
    PutGetLE(data[off..off + 4]);
    Joined(data, off, off + 4, q);
  }

  lemma EntryAt(data: ByteString, off: nat)
    requires TakeEntry(data, off).Some?
    ensures var (e, q) := TakeEntry(data, off).value; off <= q <= |data| && data[off..q] == EncodeEntry(e)
  {
    hide TakeSized, Sized;
    var (k, p) := TakeSized(data, off + 1).value;
    var (v, q) := TakeSized(data, p).value;
    SizedAt(data, off + 1);
    SizedAt(data, p);
    Joined(data, off, off + 1, q);
    Joined(data, off + 1, p, q);
    assert data[off..off + 1] == [data[off]];
    assert [data[off]] + (Sized(k) + Sized(v)) == [data[off]] + Sized(k) + Sized(v);
  }

  lemma {:induction false} EncodeCons(e: Entry, b: Batch)
    ensures EncodeEntries([e] + b) == EncodeEntry(e) + EncodeEntries(b)
    decreases |b|
  {
    hide EncodeEntry;
    if b == [] {
      assert [e] + b == [e] && [e][..0] == [];
      assert EncodeEntries([e][..0]) == [];
    } else {
      var front, last := b[..|b| - 1], b[|b| - 1];
      EncodeCons(e, front);
      assert ([e] + b)[..|b|] == [e] + front;
      assert EncodeEntry(e) + EncodeEntries(front) + EncodeEntry(last) == EncodeEntry(e) + (EncodeEntries(front) + EncodeEntry(last));
    }
  }

  lemma {:induction false} EntriesAt(data: ByteString, off: nat, n: nat)
    requires TakeEntries(data, off, n).Some? && off <= |data|
    ensures var enc := EncodeEntries(TakeEntries(data, off, n).value); off + |enc| <= |data| && data[off..off + |enc|] == enc
    decreases n
  {
    hide TakeEntry, EncodeEntry, EncodeEntries;
    EncodeNothing([]);
    if n > 0 {
      var (e, q) := TakeEntry(data, off).value;
      EntryAt(data, off);
      EntriesAt(data, q, n - 1);
      var rest := TakeEntries(data, q, n - 1).value;
      EncodeCons(e, rest);
      Joined(data, off, q, q + |EncodeEntries(rest)|);
    }
  }

  /** A batch is decoded only from bytes that begin with its encoding. */
  lemma DecodedBatchIsEncoded(data: ByteString, b: Batch)
    requires DecodeBatch(data) == Some(b)
    ensures EncodeBatch(b) <= data
  {
    hide TakeEntries, EncodeEntries, PutLE, GetLE;
    PowValues();
    var n := GetLE(data[..4]);
    TakenFits(data, 4, n);
    EntriesAt(data, 4, n);
    PutGetLE(data[..4]);
    Joined(data, 0, 4, 4 + |EncodeEntries(b)|);
  }

  lemma {:induction false} CanonicalEncodes(b: Batch)
    ensures EncodeEntries(CanonicalBatch(b)) == EncodeEntries(b)
  {
    if b != [] {
      CanonicalEncodes(b[..|b| - 1]);
      assert CanonicalBatch(b)[..|b| - 1] == CanonicalBatch(b[..|b| - 1]);
    }
  }

  /** A batch cut short anywhere is refused. */
  lemma CutBatchRefused(b: Batch, n: nat)
    requires Fits(b) && n < |EncodeBatch(b)|
    ensures DecodeBatch(EncodeBatch(b)[..n]) == None
  {
    hide DecodeBatch, EncodeEntries, PutLE, Fits, CanonicalBatch;
    var whole := EncodeBatch(b);
    var d := DecodeBatch(whole[..n]);
    CanonicalEncodes(b);
    assert EncodeBatch(CanonicalBatch(b)) == whole && whole + [] == whole;
    BatchRoundTrip(b, []);
    if d.Some? {
      var b' := d.value;
      DecodedBatchIsEncoded(whole[..n], b');
      DecodedFits(whole[..n], b');
      var post := whole[|EncodeBatch(b')|..];
      assert whole == EncodeBatch(b') + post;
      BatchRoundTrip(b', post);
      assert false;
    }
  }

  lemma DecodedFits(data: ByteString, b: Batch)
    requires DecodeBatch(data) == Some(b)
    ensures Fits(b) && CanonicalBatch(b) == b
  {
    hide TakeEntries, Canonical;
    PowValues();
    TakenFits(data, 4, GetLE(data[..4]));
  }

  // ---- version edits

  lemma NumAt(data: ByteString, off: nat, w: nat)
    requires off + w <= |data|
    ensures TakeNum(data, off, w).Some? && data[off..off + w] == PutLE(TakeNum(data, off, w).value, w)
  {
    hide PutLE, GetLE;
    PutGetLE(data[off..off + w]);
  }

  lemma DelAt(data: ByteString, off: nat)
    requires off + 12 <= |data|
    ensures var d: (nat, nat) := (TakeNum(data, off, 4).value, TakeNum(data, off + 4, 8).value);
            data[off..off + 12] == EncodeDel(d) && DelFits(d)
  {
    hide PutLE;
    PowValues();
    NumAt(data, off, 4);
    NumAt(data, off + 4, 8);
    Joined(data, off, off + 4, off + 12);
  }

  lemma {:induction false} DelsAt(data: ByteString, off: nat, n: nat)
    requires TakeDels(data, off, n).Some? && off <= |data|
    ensures var (ds, q) := TakeDels(data, off, n).value;
            off <= q <= |data| && data[off..q] == EncodeDels(ds) && |ds| == n && forall i :: 0 <= i < n ==> DelFits(ds[i])
    decreases n
  {
    hide EncodeDel, DelFits, TakeNum;
    if n > 0 {
      DelAt(data, off);
      DelsAt(data, off + 12, n - 1);
      var (rest, q) := TakeDels(data, off + 12, n - 1).value;
      Joined(data, off, off + 12, q);
      var d: (nat, nat) := (TakeNum(data, off, 4).value, TakeNum(data, off + 4, 8).value);
      assert ([d] + rest)[1..] == rest;
    }
  }

  lemma AddAt(data: ByteString, off: nat)
    requires TakeAdd(data, off).Some?
    ensures var (f, q) := TakeAdd(data, off).value; off <= q <= |data| && data[off..q] == EncodeAdd(f) && AddFits(f)
  {
    hide PutLE, TakeSized, Sized;
    PowValues();
    var (f, q) := TakeAdd(data, off).value;
    NumAt(data, off, 4);
    NumAt(data, off + 4, 8);
    NumAt(data, off + 12, 8);
    NumAt(data, off + 20, 8);
    SizedAt(data, off + 28);
    var (small, p) := TakeSized(data, off + 28).value;
    SizedAt(data, p);
    Joined(data, off, p, q);
    Joined(data, off, off + 28, p);
    Joined(data, off, off + 20, off + 28);
    Joined(data, off, off + 12, off + 20);
    Joined(data, off, off + 4, off + 12);
  }

  lemma {:induction false} AddsAt(data: ByteString, off: nat, n: nat)
    requires TakeAdds(data, off, n).Some? && off <= |data|
    ensures var fs := TakeAdds(data, off, n).value;
            && off + |EncodeAdds(fs)| <= |data| && data[off..off + |EncodeAdds(fs)|] == EncodeAdds(fs)
            && |fs| == n && forall i :: 0 <= i < n ==> AddFits(fs[i])
    decreases n
  {
    hide EncodeAdd, AddFits, TakeAdd;
    if n > 0 {
      AddAt(data, off);
      var (f, q) := TakeAdd(data, off).value;
      AddsAt(data, q, n - 1);
      var rest := TakeAdds(data, q, n - 1).value;
      Joined(data, off, q, q + |EncodeAdds(rest)|);
      assert ([f] + rest)[1..] == rest;
    }
  }

  /** An edit is decoded only from bytes that begin with its encoding. */
  lemma DecodedEditIsEncoded(data: ByteString, e: VersionEdit)
    requires DecodeEdit(data) == Some(e)
    ensures FieldsFit(e) && EncodeEdit(e) <= data
  {
    hide PutLE, TakeDels, TakeAdds, TakeNum, EncodeDels, EncodeAdds, DelFits, AddFits;
    PowValues();
    var n := TakeNum(data, 8, 4).value;
    var (ds, p) := TakeDels(data, 12, n).value;
    var m := TakeNum(data, p, 4).value;
    var fs := TakeAdds(data, p + 4, m).value;
    var q := p + 4 + |EncodeAdds(fs)|;
    NumAt(data, 0, 8);
    NumAt(data, 8, 4);
    DelsAt(data, 12, n);
    NumAt(data, p, 4);
    AddsAt(data, p + 4, m);
    NumsBounded(data, 0, 8);
    NumsBounded(data, 8, 4);
    NumsBounded(data, p, 4);
    Joined(data, 0, p + 4, q);
    Joined(data, 0, p, p + 4);
    Joined(data, 0, 12, p);
    Joined(data, 0, 8, 12);
    assert data[..q] == data[0..q] == EncodeEdit(e);
  }

  lemma NumsBounded(data: ByteString, off: nat, w: nat)
    requires off + w <= |data|
    ensures TakeNum(data, off, w).Some? && TakeNum(data, off, w).value < Pow256(w)
  {
    hide GetLE, Pow256;
    assert |data[off..off + w]| == w;
  }

  /** An edit cut short anywhere is refused. */
  lemma CutEditRefused(e: VersionEdit, n: nat)
    requires FieldsFit(e) && n < |EncodeEdit(e)|
    ensures DecodeEdit(EncodeEdit(e)[..n]) == None
  {
    hide DecodeEdit, EncodeEdit, FieldsFit;
    var whole := EncodeEdit(e);
    var d := DecodeEdit(whole[..n]);
    assert whole + [] == whole;
    EditRoundTripThen(e, []);
    if d.Some? {
      var e' := d.value;
      DecodedEditIsEncoded(whole[..n], e');
      var post := whole[|EncodeEdit(e')|..];
      assert whole == EncodeEdit(e') + post;
      EditRoundTripThen(e', post);
      assert false;
    }
  }

  // ---- tables

  lemma IndexEntryAt(data: ByteString, off: nat)
    requires off + 4 <= |data| && off + 20 + GetLE(data[off..off + 4]) <= |data|
    ensures var at := off + 4 + GetLE(data[off..off + 4]);
            var e := IndexEntry(data[off + 4..at], Handle(GetLE(data[at..at + 8]), GetLE(data[at + 8..at + 16])));
            data[off..at + 16] == EncodeIndexEntry(e) && |e.key| < U32 && e.handle.off < U64 && e.handle.size < U64
  {
    hide GetLE, PutLE, Pow256;
    PowValues();
    var at := off + 4 + GetLE(data[off..off + 4]);
    PutGetLE(data[off..off + 4]);
    PutGetLE(data[at..at + 8]);
    PutGetLE(data[at + 8..at + 16]);
    Joined(data, off, at + 8, at + 16);
    Joined(data, off, at, at + 8);
    Joined(data, off, off + 4, at);
  }

  lemma {:induction false} IndexAt(data: ByteString, off: nat)
    requires off <= |data| && ParseIndex(data, off).Some?
    ensures var es := ParseIndex(data, off).value; data[off..] == EncodeIndex(es) && IndexFits(es)
    decreases |data| - off
  {
    hide GetLE, EncodeIndexEntry;
    if off < |data| {
      var at := off + 4 + GetLE(data[off..off + 4]);
      IndexEntryAt(data, off);
      IndexAt(data, at + 16);
      var rest := ParseIndex(data, at + 16).value;
      Joined(data, off, at + 16, |data|);
      assert ParseIndex(data, off).value[1..] == rest;
      assert data[off..] == data[off..|data|] && data[at + 16..] == data[at + 16..|data|];
    }
  }

  lemma FooterAt(data: ByteString)
    requires DecodeFooter(data).Some? && |data| == FOOTER
    ensures var f := DecodeFooter(data).value;
            && data == EncodeFooter(f.index, f.bloom, f.count) && f.count < U64
            && f.index.off < U64 && f.index.size < U64 && f.bloom.off < U64 && f.bloom.size < U64
  {
    hide GetLE, PutLE;
    PowValues();
    PutGetLE(data[0..8]);
    PutGetLE(data[8..16]);
    PutGetLE(data[16..24]);
    PutGetLE(data[24..32]);
    PutGetLE(data[32..40]);
    PutGetLE(data[40..48]);
    Joined(data, 0, 40, 48);
    Joined(data, 0, 32, 40);
    Joined(data, 0, 24, 32);
    Joined(data, 0, 16, 24);
    Joined(data, 0, 8, 16);
    assert data[0..48] == data;
  }

  /** The file ends with a footer, and where it points lie an index and a filter. */
  ghost predicate WellFormed(file: ByteString, f: Footer, index: seq<IndexEntry>) {
    && |file| >= FOOTER && file[|file| - FOOTER..] == EncodeFooter(f.index, f.bloom, f.count)
    && f.index.off < U64 && f.index.size < U64 && f.bloom.off < U64 && f.bloom.size < U64 && f.count < U64
    && f.index.off + f.index.size <= |file| && f.bloom.off + f.bloom.size <= |file|
    && file[f.index.off..f.index.off + f.index.size] == EncodeIndex(index) && IndexFits(index)
  }

  /**
   A table opens if and only if its file ends with a footer, magic number and all, that points at a
   whole index and at a filter within the file; and then that is the index and the filter it has.
   */
  lemma OpensExactly(file: ByteString)
    ensures Open(file).Some? <==> exists f, index :: WellFormed(file, f, index)
    ensures forall f, index :: WellFormed(file, f, index) ==>
              Open(file) == Some(TableReader(file, index, Bloom.Decode(file[f.bloom.off..f.bloom.off + f.bloom.size])))
  {
    hide Bloom.Decode, Open, EncodeFooter, EncodeIndex, IndexFits;
    if Open(file).Some? {
      var f, index := OpenedIs(file);
      assert WellFormed(file, f, index);
    }
    forall f, index | WellFormed(file, f, index)
      ensures Open(file) == Some(TableReader(file, index, Bloom.Decode(file[f.bloom.off..f.bloom.off + f.bloom.size])))
    {
      WellFormedOpens(file, f, index);
    }
  }

  lemma OpenedIs(file: ByteString) returns (f: Footer, index: seq<IndexEntry>)
    requires Open(file).Some?
    ensures WellFormed(file, f, index)
  {
    hide DecodeFooter, EncodeFooter, ParseIndex, EncodeIndex, Bloom.Decode, IndexFits;
    var foot := file[|file| - FOOTER..];
    f := DecodeFooter(foot).value;
    FooterAt(foot);
    var data := file[f.index.off..f.index.off + f.index.size];
    index := ParseIndex(data, 0).value;
    IndexAt(data, 0);
    assert data[0..] == data;
  }

  lemma WellFormedOpens(file: ByteString, f: Footer, index: seq<IndexEntry>)
    requires WellFormed(file, f, index)
    ensures Open(file) == Some(TableReader(file, index, Bloom.Decode(file[f.bloom.off..f.bloom.off + f.bloom.size])))
  {
    hide DecodeFooter, EncodeFooter, ParseIndex, EncodeIndex, Bloom.Decode, IndexFits;
    FooterBack(f.index, f.bloom, f.count);
    ParseIndexBack([], index);
    assert [] + EncodeIndex(index) == EncodeIndex(index);
  }

  /** An entry is parsed only from bytes that are its encoding. */
  lemma ParsedIsEncoded(data: ByteString, off: nat)
    requires ParseKV(data, off).Some?
    ensures var (e, q) := ParseKV(data, off).value; data[off..q] == EncodeKV(e) && EntryFits(e)
  {
    hide GetLE, PutLE, Pow256;
    PowValues();
    var (e, q) := ParseKV(data, off).value;
    var p := off + 8 + |e.key|;
    PutGetLE(data[off..off + 4]);
    PutGetLE(data[off + 4..off + 8]);
    Joined(data, off, p, q);
    Joined(data, off, off + 8, p);
    Joined(data, off, off + 4, off + 8);
  }

  /** An entry cut short is not parsed. */
  lemma CutEntryRefused(pre: ByteString, e: KV, n: nat)
    requires EntryFits(e) && n < |EncodeKV(e)|
    ensures ParseKV(pre + EncodeKV(e)[..n], |pre|) == None
  {
    hide ParseKV, EncodeKV;
    var whole := EncodeKV(e);
    var data := pre + whole[..n];
    ParseBack(pre, e, []);
    assert pre + whole + [] == pre + whole;
    if ParseKV(data, |pre|).Some? {
      ParsedIsEncoded(data, |pre|);
      var (e', q) := ParseKV(data, |pre|).value;
      var post := (pre + whole)[q..];
      assert pre + whole == pre + EncodeKV(e') + post;
      ParseBack(pre, e', post);
      assert false;
    }
  }

  /** What a scan of whole entries with a damaged end answers. */
  lemma {:induction false} ScanCutFrom(es: Run, i: nat, tail: ByteString, key: Key)
    requires Sorted(es) && RunFits(es) && i <= |es| && tail != [] && ParseKV(BlockBytes(es) + tail, |BlockBytes(es)|).None?
    ensures |BlockBytes(es[..i])| <= |BlockBytes(es)|
    ensures Scan(BlockBytes(es) + tail, |BlockBytes(es[..i])|, key)
            == var found := Find(es[i..], key);
               if found.Some? then Hit(found.value)
               else if i < |es| && Less(key, es[|es| - 1].key) then Miss else Damaged
    decreases |es| - i
  {
    hide ParseKV, Less, BlockBytes, EntryFits;
    KeysOrdered();
    BlockPrefix(es, i);
    if i == |es| {
      assert es[..i] == es && es[i..] == [];
    } else {
      ParseCutAt(es, i, tail);
      BlockGrows(es, i);
      ScanCutFrom(es, i + 1, tail, key);
      assert es[i..][1..] == es[i + 1..];
      if Less(key, es[i].key) { LessThanRest(es, i, key); }
    }
  }

  lemma ParseCutAt(es: Run, i: nat, tail: ByteString)
    requires RunFits(es) && i < |es|
    ensures ParseKV(BlockBytes(es) + tail, |BlockBytes(es[..i])|) == Some((es[i], |BlockBytes(es[..i + 1])|))
  {
    hide ParseKV, EncodeKV, BlockBytes, EntryFits;
    BlockSnoc(es, i);
    BlockPrefix(es, i + 1);
    var pre := BlockBytes(es[..i]);
    var post := BlockBytes(es)[|BlockBytes(es[..i + 1])|..] + tail;
    assert BlockBytes(es) + tail == pre + EncodeKV(es[i]) + post;
    ParseBack(pre, es[i], post);
  }

  /**
   A block whose end is damaged: a key among its whole entries is found, one before the last of them
   is missed, and for any other the answer is that the block is damaged, never that the key is absent.
   */
  lemma ScanDamagedEnd(es: Run, tail: ByteString, key: Key)
    requires Sorted(es) && RunFits(es) && tail != [] && ParseKV(BlockBytes(es) + tail, |BlockBytes(es)|).None?
    ensures Scan(BlockBytes(es) + tail, 0, key)
            == var found := Find(es, key);
               if found.Some? then Hit(found.value)
               else if es != [] && Less(key, es[|es| - 1].key) then Miss else Damaged
  {
    hide Scan, Sorted, RunFits, ParseKV;
    ScanCutFrom(es, 0, tail, key);
    assert es[..0] == [] && es[0..] == es;
  }
}
