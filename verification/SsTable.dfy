/**
 The table file: data blocks, index, Bloom filter and footer (internal/sstable/format.go,
 writer.go, reader.go). The block compressor is a parameter.
 */
module SsTable {
  import opened Bytes
  import opened KeyOrder
  import opened SortedLists
  import opened Compaction
  import opened Batches
  import Bloom

  // ---- entries

  const TOMBSTONE: nat := 0xFFFF_FFFF
  const FOOTER: nat := 48
  const MAGIC: nat := 0x5354_5241_5455_4D00
  const DECOMPRESS_LIMIT: nat := 8 * 4096

  function ValueOf(e: KV): ByteString {
    if e.val.Some? then e.val.value else []
  }

  /** An entry in a block: both lengths, key, value; a tombstone's length is all ones. */
  function EncodeKV(e: KV): (s: ByteString)
    ensures |s| == Cost(e)
  {
    PutLE(|e.key|, 4) + PutLE(if e.val.None? then TOMBSTONE else |e.val.value|, 4) + e.key + ValueOf(e)
  }

  function BlockBytes(es: Run): ByteString {
    if es == [] then [] else BlockBytes(es[..|es| - 1]) + EncodeKV(es[|es| - 1])
  }

  /** The entry at off and where it ends; none if the block ends too soon. */
  function ParseKV(data: ByteString, off: nat): (r: Option<(KV, nat)>)
    ensures r.Some? ==> off + 8 <= r.value.1 <= |data|
  {
    if off + 8 > |data| then None
    else
      var n, raw := GetLE(data[off..off + 4]), GetLE(data[off + 4..off + 8]);
      var m := if raw == TOMBSTONE then 0 else raw;
      if off + 8 + n + m > |data| then None
      else
        var key := data[off + 8..off + 8 + n];
        Some((KV(key, if raw == TOMBSTONE then None else Some(data[off + 8 + n..off + 8 + n + m])), off + 8 + n + m))
  }

  predicate EntryFits(e: KV) {
    |e.key| < U32 && (e.val.Some? ==> |e.val.value| < TOMBSTONE)
  }

  predicate RunFits(es: Run) {
    forall i :: 0 <= i < |es| ==> EntryFits(es[i])
  }

  lemma ParseBack(pre: ByteString, e: KV, post: ByteString)
    requires EntryFits(e)
    ensures ParseKV(pre + EncodeKV(e) + post, |pre|) == Some((e, |pre| + Cost(e)))
  {
    hide GetLE, PutLE;
    var data, n := pre + EncodeKV(e) + post, |pre|;
    var raw := if e.val.None? then TOMBSTONE else |e.val.value|;
    PowValues();
    RoundTripLE(|e.key|, 4);
    RoundTripLE(raw, 4);
    assert data[n..n + 4] == PutLE(|e.key|, 4);
    assert data[n + 4..n + 8] == PutLE(raw, 4);
    assert data[n + 8..n + 8 + |e.key|] == e.key;
    assert data[n + 8 + |e.key|..n + 8 + |e.key| + |ValueOf(e)|] == ValueOf(e);
  }

  lemma {:induction false} BlockPrefix(es: Run, i: nat)
    requires i <= |es|
    ensures BlockBytes(es[..i]) <= BlockBytes(es)
    decreases |es| - i
  {
    hide EncodeKV;
    if i < |es| {
      BlockPrefix(es, i + 1);
      BlockSnoc(es, i);
    } else {
      assert es[..i] == es;
    }
  }

  lemma BlockSnoc(es: Run, i: nat)
    requires i < |es|
    ensures BlockBytes(es[..i + 1]) == BlockBytes(es[..i]) + EncodeKV(es[i])
  {
    hide EncodeKV;
    assert es[..i + 1][..i] == es[..i];
  }

  /** The i-th entry of a block, found at its offset. */
  lemma ParseAt(es: Run, i: nat)
    requires RunFits(es) && i < |es|
    ensures ParseKV(BlockBytes(es), |BlockBytes(es[..i])|) == Some((es[i], |BlockBytes(es[..i + 1])|))
  {
    hide EncodeKV, ParseKV, BlockBytes, EntryFits;
    BlockSnoc(es, i);
    BlockPrefix(es, i + 1);
    var pre := BlockBytes(es[..i]);
    var post := BlockBytes(es)[|pre + EncodeKV(es[i])|..];
    assert BlockBytes(es) == pre + EncodeKV(es[i]) + post;
    ParseBack(pre, es[i], post);
  }

  // ---- looking a key up in a block

  datatype Answer = Hit(val: Option<ByteString>) | Miss | Damaged

  function Scan(data: ByteString, off: nat, key: Key): Answer
    requires off <= |data|
    decreases |data| - off
  {
    if off == |data| then Miss
    else
      var p := ParseKV(data, off);
      if p.None? then Damaged
      else
        var (e, off') := p.value;
        if e.key == key then Hit(e.val) else if Less(key, e.key) then Miss else Scan(data, off', key)
  }

  function AnswerOf(f: Option<Option<ByteString>>): Answer {
    if f.Some? then Hit(f.value) else Miss
  }

  lemma {:induction false} ScanFrom(es: Run, i: nat, key: Key)
    requires Sorted(es) && RunFits(es) && i <= |es|
    ensures |BlockBytes(es[..i])| <= |BlockBytes(es)|
    ensures Scan(BlockBytes(es), |BlockBytes(es[..i])|, key) == AnswerOf(Find(es[i..], key))
    decreases |es| - i
  {
    hide ParseKV, Less, BlockBytes, EntryFits;
    BlockPrefix(es, i);
    if i == |es| {
      assert es[..i] == es;
    } else {
      ParseAt(es, i);
      BlockGrows(es, i);
      ScanFrom(es, i + 1, key);
      assert es[i..][1..] == es[i + 1..];
      if Less(key, es[i].key) { LessThanRest(es, i, key); }
    }
  }

  lemma BlockGrows(es: Run, i: nat)
    requires i < |es|
    ensures |BlockBytes(es[..i])| < |BlockBytes(es)|
  {
    hide EncodeKV;
    BlockSnoc(es, i);
    BlockPrefix(es, i + 1);
  }

  lemma LessThanRest(es: Run, i: nat, key: Key)
    requires Sorted(es) && i < |es| && Less(key, es[i].key)
    ensures Find(es[i..], key).None? && es[i].key != key
  {
    hide Less;
    KeysOrdered();
    FindPast(es[i..], key);
  }

  /** Scanning a block is looking the key up in it. */
  lemma ScanFinds(es: Run, key: Key)
    requires Sorted(es) && RunFits(es)
    ensures Scan(BlockBytes(es), 0, key) == AnswerOf(Find(es, key))
  {
    hide Scan, Sorted, RunFits;
    ScanFrom(es, 0, key);
    assert es[..0] == [] && es[0..] == es;
  }

  // ---- blocks on disk

  datatype Codec = Codec(compress: ByteString -> ByteString, decompress: ByteString -> Option<ByteString>)

  /** The compressor is used for a block if it makes it smaller and not empty. */
  predicate Shrinks(c: Codec, data: ByteString) {
    0 < |c.compress(data)| < |data|
  }

  /** The block is left as it is, or its bytes fit the reader's buffer. */
  predicate Readable(c: Codec, data: ByteString) {
    Shrinks(c, data) ==> |data| <= DECOMPRESS_LIMIT
  }

  /** Decompression undoes compression into the reader's fixed buffer, and fails beyond it. */
  ghost predicate CodecOk(c: Codec) {
    forall data :: Shrinks(c, data) ==>
                     c.decompress(c.compress(data)) == if |data| <= DECOMPRESS_LIMIT then Some(data) else None
  }

  function Stored(c: Codec, data: ByteString): (s: ByteString)
    ensures |s| >= 1
  {
    if Shrinks(c, data) then [1] + c.compress(data) else [0] + data
  }

  datatype Handle = Handle(off: nat, size: nat)
  datatype IndexEntry = IndexEntry(key: Key, handle: Handle)

  /** readBlock without a cache. */
  function ReadBlock(c: Codec, file: ByteString, h: Handle): Option<ByteString> {
    if h.off + h.size > |file| || h.size < 1 then None
    else
      var buf := file[h.off..h.off + h.size];
      if buf[0] == 1 then c.decompress(buf[1..]) else Some(buf[1..])
  }

  /**
   A stored block is read back exactly if it was left uncompressed or fits the reader's fixed
   buffer; a larger one that compresses cannot be read at all.
   */
  lemma StoredReadable(c: Codec, pre: ByteString, data: ByteString, post: ByteString)
    requires CodecOk(c)
    ensures var s := Stored(c, data);
            ReadBlock(c, pre + s + post, Handle(|pre|, |s|))
            == if Readable(c, data) then Some(data) else None
  {
    hide Shrinks;
    var s := Stored(c, data);
    var file := pre + s + post;
    assert file[|pre|..|pre| + |s|] == s;
    assert s[1..] == if Shrinks(c, data) then c.compress(data) else data;
  }

  // ---- the data section and its index

  function DataBytes(c: Codec, blocks: seq<Run>): ByteString {
    if blocks == [] then [] else DataBytes(c, blocks[..|blocks| - 1]) + Stored(c, BlockBytes(blocks[|blocks| - 1]))
  }

  function LastKey(es: Run): Key {
    if es == [] then [] else es[|es| - 1].key
  }

  /** Where block i is and the last key in it. */
  function EntryAt(c: Codec, blocks: seq<Run>, i: nat): IndexEntry
    requires i < |blocks|
  {
    IndexEntry(LastKey(blocks[i]), Handle(|DataBytes(c, blocks[..i])|, |Stored(c, BlockBytes(blocks[i]))|))
  }

  function IndexFor(c: Codec, blocks: seq<Run>): (r: seq<IndexEntry>)
    ensures |r| == |blocks|
  {
    seq(|blocks|, i requires 0 <= i < |blocks| => EntryAt(c, blocks, i))
  }

  lemma DataSnoc(c: Codec, blocks: seq<Run>, i: nat)
    requires i < |blocks|
    ensures DataBytes(c, blocks[..i + 1]) == DataBytes(c, blocks[..i]) + Stored(c, BlockBytes(blocks[i]))
  {
    hide Stored, BlockBytes;
    assert blocks[..i + 1][..i] == blocks[..i];
  }

  lemma {:induction false} DataPrefix(c: Codec, blocks: seq<Run>, i: nat)
    requires i <= |blocks|
    ensures DataBytes(c, blocks[..i]) <= DataBytes(c, blocks)
    decreases |blocks| - i
  {
    hide Stored, BlockBytes;
    if i < |blocks| {
      DataPrefix(c, blocks, i + 1);
      DataSnoc(c, blocks, i);
    } else {
      assert blocks[..i] == blocks;
    }
  }

  /** No block outgrows the reader's decompression buffer. */
  ghost predicate BlocksReadable(c: Codec, blocks: seq<Run>) {
    forall i :: 0 <= i < |blocks| ==> Readable(c, BlockBytes(blocks[i]))
  }

  /** Every block is read back through its index entry, or cannot be read. */
  lemma BlockReadBack(c: Codec, blocks: seq<Run>, i: nat, rest: ByteString)
    requires CodecOk(c) && i < |blocks|
    ensures ReadBlock(c, DataBytes(c, blocks) + rest, IndexFor(c, blocks)[i].handle)
            == if Readable(c, BlockBytes(blocks[i])) then Some(BlockBytes(blocks[i])) else None
  {
    hide Stored, BlockBytes, CodecOk, ReadBlock, DataBytes, Readable;
    DataSnoc(c, blocks, i);
    DataPrefix(c, blocks, i + 1);
    var pre, s := DataBytes(c, blocks[..i]), Stored(c, BlockBytes(blocks[i]));
    var post := DataBytes(c, blocks)[|pre + s|..] + rest;
    assert DataBytes(c, blocks) + rest == pre + s + post;
    StoredReadable(c, pre, BlockBytes(blocks[i]), post);
  }

  // ---- the index on disk

  function EncodeIndexEntry(e: IndexEntry): (r: ByteString)
    ensures |r| == 20 + |e.key|
  {
    Sized(e.key) + PutLE(e.handle.off, 8) + PutLE(e.handle.size, 8)
  }

  function EncodeIndex(es: seq<IndexEntry>): ByteString {
    if es == [] then [] else EncodeIndexEntry(es[0]) + EncodeIndex(es[1..])
  }

  /** The loop over the index block. */
  function ParseIndex(data: ByteString, off: nat): Option<seq<IndexEntry>>
    requires off <= |data|
    decreases |data| - off
  {
    if off == |data| then Some([])
    else if off + 4 > |data| then None
    else
      var n := GetLE(data[off..off + 4]);
      if off + 4 + n + 16 > |data| then None
      else
        var at := off + 4 + n;
        var e := IndexEntry(data[off + 4..at], Handle(GetLE(data[at..at + 8]), GetLE(data[at + 8..at + 16])));
        var rest := ParseIndex(data, at + 16);
        if rest.None? then None else Some([e] + rest.value)
  }

  predicate IndexFits(es: seq<IndexEntry>) {
    forall i :: 0 <= i < |es| ==> |es[i].key| < U32 && es[i].handle.off < U64 && es[i].handle.size < U64
  }

  lemma IndexFields(pre: ByteString, e: IndexEntry, post: ByteString)
    requires |e.key| < U32 && e.handle.off < U64 && e.handle.size < U64
    ensures var data, off := pre + EncodeIndexEntry(e) + post, |pre|;
            var at := off + 4 + |e.key|;
            && GetLE(data[off..off + 4]) == |e.key| && data[off + 4..at] == e.key
            && GetLE(data[at..at + 8]) == e.handle.off && GetLE(data[at + 8..at + 16]) == e.handle.size
  {
    hide GetLE, PutLE;
    var data, off := pre + EncodeIndexEntry(e) + post, |pre|;
    var at := off + 4 + |e.key|;
    PowValues();
    RoundTripLE(|e.key|, 4);
    RoundTripLE(e.handle.off, 8);
    RoundTripLE(e.handle.size, 8);
    assert data[off..off + 4] == PutLE(|e.key|, 4);
    assert data[off + 4..at] == e.key;
    assert data[at..at + 8] == PutLE(e.handle.off, 8);
    assert data[at + 8..at + 16] == PutLE(e.handle.size, 8);
  }

  lemma {:induction false} ParseIndexBack(pre: ByteString, es: seq<IndexEntry>)
    requires IndexFits(es)
    ensures ParseIndex(pre + EncodeIndex(es), |pre|) == Some(es)
    decreases |es|
  {
    hide GetLE, EncodeIndexEntry;
    var data := pre + EncodeIndex(es);
    if es != [] {
      var e, rest := es[0], EncodeIndex(es[1..]);
      assert data == pre + EncodeIndexEntry(e) + rest;
      IndexFields(pre, e, rest);
      assert data == (pre + EncodeIndexEntry(e)) + rest;
      ParseIndexBack(pre + EncodeIndexEntry(e), es[1..]);
      assert es == [e] + es[1..];
    }
  }

  // ---- the whole file

  function EncodeFooter(index: Handle, bloom: Handle, count: nat): (r: ByteString)
    ensures |r| == FOOTER
  {
    PutLE(index.off, 8) + PutLE(index.size, 8) + PutLE(bloom.off, 8) + PutLE(bloom.size, 8) + PutLE(count, 8) + PutLE(MAGIC, 8)
  }

  datatype Footer = Footer(index: Handle, bloom: Handle, count: nat)

  function DecodeFooter(data: ByteString): Option<Footer> {
    if |data| < FOOTER || GetLE(data[40..48]) != MAGIC then None
    else Some(Footer(Handle(GetLE(data[0..8]), GetLE(data[8..16])), Handle(GetLE(data[16..24]), GetLE(data[24..32])),
                     GetLE(data[32..40])))
  }

  lemma LastPart(a: ByteString, b: ByteString)
    ensures (a + b)[|a|..] == b
  {
  }

  lemma FooterBack(index: Handle, bloom: Handle, count: nat)
    requires index.off < U64 && index.size < U64 && bloom.off < U64 && bloom.size < U64 && count < U64
    ensures DecodeFooter(EncodeFooter(index, bloom, count)) == Some(Footer(index, bloom, count))
  {
    hide GetLE, PutLE;
    PowValues();
    var data := EncodeFooter(index, bloom, count);
    RoundTripLE(index.off, 8);
    RoundTripLE(index.size, 8);
    RoundTripLE(bloom.off, 8);
    RoundTripLE(bloom.size, 8);
    RoundTripLE(count, 8);
    RoundTripLE(MAGIC, 8);
    assert data[0..8] == PutLE(index.off, 8);
    assert data[8..16] == PutLE(index.size, 8);
    assert data[16..24] == PutLE(bloom.off, 8);
    assert data[24..32] == PutLE(bloom.size, 8);
    assert data[32..40] == PutLE(count, 8);
    var pre := PutLE(index.off, 8) + PutLE(index.size, 8) + PutLE(bloom.off, 8) + PutLE(bloom.size, 8) + PutLE(count, 8);
    LastPart(pre, PutLE(MAGIC, 8));
    assert data[40..48] == data[40..];
  }

  function TableFile(c: Codec, blocks: seq<Run>, bloom: Bloom.Filter, count: nat): ByteString {
    var data, index, filter := DataBytes(c, blocks), EncodeIndex(IndexFor(c, blocks)), Bloom.Encode(bloom);
    data + index + filter
    + EncodeFooter(Handle(|data|, |index|), Handle(|data| + |index|, |filter|), count)
  }

  /** An open table. */
  datatype TableReader = TableReader(file: ByteString, index: seq<IndexEntry>, bloom: Bloom.Filter)

  /** OpenReader; none for a file it refuses. */
  function Open(file: ByteString): Option<TableReader> {
    if |file| < FOOTER then None
    else
      var f := DecodeFooter(file[|file| - FOOTER..]);
      if f.None? then None
      else
        var i, b := f.value.index, f.value.bloom;
        if i.off + i.size > |file| || b.off + b.size > |file| then None
        else
          var index := ParseIndex(file[i.off..i.off + i.size], 0);
          if index.None? then None
          else Some(TableReader(file, index.value, Bloom.Decode(file[b.off..b.off + b.size])))
  }

  lemma OpenBack(c: Codec, blocks: seq<Run>, bloom: Bloom.Filter, count: nat)
    requires |TableFile(c, blocks, bloom, count)| < U64 && count < U64 && IndexFits(IndexFor(c, blocks)) && bloom.nHash < 256
    ensures var file := TableFile(c, blocks, bloom, count);
            Open(file) == Some(TableReader(file, IndexFor(c, blocks), bloom))
  {
    hide DataBytes, EncodeIndex, EncodeFooter, DecodeFooter, ParseIndex, IndexFor, IndexFits, Bloom.Encode, Bloom.Decode;
    var data, index, filter := DataBytes(c, blocks), EncodeIndex(IndexFor(c, blocks)), Bloom.Encode(bloom);
    var ih, bh := Handle(|data|, |index|), Handle(|data| + |index|, |filter|);
    var foot := EncodeFooter(ih, bh, count);
    var file := TableFile(c, blocks, bloom, count);
    FooterBack(ih, bh, count);
    assert file == data + index + filter + foot;
    assert file[|file| - FOOTER..] == foot;
    assert file[|data|..|data| + |index|] == index;
    assert file[|data| + |index|..|data| + |index| + |filter|] == filter;
    ParseIndexBack([], IndexFor(c, blocks));
    assert [] + index == index;
    Bloom.DecodeEncode(bloom);
  }
}
