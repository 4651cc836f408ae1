/**
 Writing a table entry by entry and reading it through the block cache
 (internal/sstable/writer.go, reader.go).
 */
module SsTableFiles {
  import opened Bytes
  import opened KeyOrder
  import opened SortedLists
  import opened Compaction
  import opened SsTable
  import opened SsTableReads
  import Bloom
  import BlockCache

  // ---- the writer

  class TableWriter {
    var file: ByteString
    var blockBuf: ByteString
    var indexEntries: seq<IndexEntry>
    var bloom: Bloom.Filter
    var offset: nat
    const blockSize: nat
    var entryCount: nat
    var lastKey: Key
    ghost var blocks: seq<Run>
    ghost var cur: Run

    /** The file holds the finished blocks, the buffer the entries of the next one. */
    ghost predicate Valid(c: Codec)
      reads this
    {
      && file == DataBytes(c, blocks) && offset == |file| && indexEntries == IndexFor(c, blocks)
      && blockBuf == BlockBytes(cur) && (cur != [] ==> lastKey == LastKey(cur))
    }

    constructor (c: Codec, size: nat, empty: Bloom.Filter)
      ensures Valid(c) && blocks == [] && cur == [] && bloom == empty && entryCount == 0 && blockSize == size
    {
      file, blockBuf, indexEntries, bloom, offset, entryCount, lastKey := [], [], [], empty, 0, 0, [];
      blockSize := size;
      blocks, cur := [], [];
    }

    /** Adds an entry and finishes the block once it is large enough. */
    method Add(c: Codec, hash: Bloom.Hash, e: KV)
      requires Valid(c)
      modifies this
      ensures Valid(c) && bloom == Bloom.WithKey(hash, old(bloom), e.key) && entryCount == old(entryCount) + 1
      ensures var full := |BlockBytes(old(cur) + [e])| >= blockSize;
              blocks == (if full then old(blocks) + [old(cur) + [e]] else old(blocks)) && cur == if full then [] else old(cur) + [e]
    {
      hide Bloom.WithKey, PutLE, DataBytes, IndexFor, BlockBytes;
      bloom := Bloom.WithKey(hash, bloom, e.key);
      AppendEntry(cur, e);
      var raw := if e.val.None? then TOMBSTONE else |e.val.value|;
      var bytes := PutLE(|e.key|, 4) + PutLE(raw, 4) + e.key;
      if e.val.Some? { bytes := bytes + e.val.value; }
      blockBuf := blockBuf + bytes;
      entryCount := entryCount + 1;
      lastKey := e.key;
      cur := cur + [e];
      if |blockBuf| >= blockSize { FlushDataBlock(c); }
    }

    method FlushDataBlock(c: Codec)
      requires Valid(c) && cur != []
      modifies this`file, this`blockBuf, this`indexEntries, this`offset, this`blocks, this`cur
      ensures Valid(c) && blocks == old(blocks) + [old(cur)] && cur == []
    {
      hide BlockBytes, DataBytes, IndexFor, Stored, LastKey;
      var uncompressed := blockBuf;
      var packed := c.compress(uncompressed);
      var useIt := 0 < |packed| < |uncompressed|;
      var onDisk: ByteString := if useIt then [1] + packed else [0] + uncompressed;
      StoredIs(c, uncompressed);
      FlushedBlock(c, blocks, cur);
      NothingStored();
      file := file + onDisk;
      indexEntries := indexEntries + [IndexEntry(lastKey, Handle(offset, |onDisk|))];
      offset := offset + |onDisk|;
      blocks, cur := blocks + [cur], [];
      blockBuf := [];
    }

    /** Finishes the last block and writes index, filter and footer. */
    method Close(c: Codec)
      requires Valid(c)
      modifies this
      ensures blocks == old(if cur == [] then blocks else blocks + [cur])
      ensures file == TableFile(c, blocks, old(bloom), old(entryCount))
    {
      hide BlockBytes, DataBytes, IndexFor, EncodeFooter, Bloom.Encode;
      BlockNotEmpty(cur);
      if |blockBuf| != 0 { FlushDataBlock(c); }
      var indexOffset := offset;
      var indexBuf := IndexBlock(indexEntries);
      file := file + indexBuf;
      var bloomData := Bloom.Encode(bloom);
      file := file + bloomData;
      file := file + EncodeFooter(Handle(indexOffset, |indexBuf|), Handle(indexOffset + |indexBuf|, |bloomData|), entryCount);
    }
  }

  method IndexBlock(es: seq<IndexEntry>) returns (buf: ByteString)
    ensures buf == EncodeIndex(es)
  {
    hide EncodeIndexEntry;
    buf := [];
    var i := 0;
    assert es[0..] == es && buf + EncodeIndex(es) == EncodeIndex(es);
    while i < |es|
      invariant 0 <= i <= |es| && buf + EncodeIndex(es[i..]) == EncodeIndex(es)
    {
      assert es[i..][1..] == es[i + 1..];
      assert buf + (EncodeIndexEntry(es[i]) + EncodeIndex(es[i + 1..])) == buf + EncodeIndexEntry(es[i]) + EncodeIndex(es[i + 1..]);
      buf := buf + EncodeIndexEntry(es[i]);
      i := i + 1;
    }
    assert buf + [] == buf;
  }

  lemma AppendEntry(cur: Run, e: KV)
    ensures var bytes := PutLE(|e.key|, 4) + PutLE(if e.val.None? then TOMBSTONE else |e.val.value|, 4) + e.key;
            BlockBytes(cur + [e]) == BlockBytes(cur) + if e.val.Some? then bytes + e.val.value else bytes
  {
    hide PutLE;
    assert (cur + [e])[..|cur|] == cur;
    var bytes := PutLE(|e.key|, 4) + PutLE(if e.val.None? then TOMBSTONE else |e.val.value|, 4) + e.key;
    assert bytes + [] == bytes;
  }

  lemma StoredIs(c: Codec, data: ByteString)
    ensures var packed := c.compress(data);
            Stored(c, data) == if 0 < |packed| < |data| then [1] + packed else [0] + data
  {
  }

  lemma NothingStored()
    ensures BlockBytes([]) == []
  {
  }

  lemma BlockNotEmpty(es: Run)
    ensures BlockBytes(es) == [] <==> es == []
  {
    hide EncodeKV;
    if es != [] { assert |EncodeKV(es[|es| - 1])| == Cost(es[|es| - 1]) > 0; }
  }

  lemma FlushedBlock(c: Codec, blocks: seq<Run>, cur: Run)
    ensures DataBytes(c, blocks + [cur]) == DataBytes(c, blocks) + Stored(c, BlockBytes(cur))
    ensures IndexFor(c, blocks + [cur])
            == IndexFor(c, blocks) + [IndexEntry(LastKey(cur), Handle(|DataBytes(c, blocks)|, |Stored(c, BlockBytes(cur))|))]
  {
    hide Stored, BlockBytes, LastKey;
    var all := blocks + [cur];
    assert all[..|all| - 1] == blocks && all[..|blocks|] == blocks;
    forall i | 0 <= i < |blocks| ensures EntryAt(c, all, i) == EntryAt(c, blocks, i) {
      assert all[..i] == blocks[..i];
    }
  }

  /** Adding all entries and closing leaves the file the reader theorems are about. */
  method WriteTable(c: Codec, hash: Bloom.Hash, es: Run, blockSize: nat, empty: Bloom.Filter) returns (file: ByteString)
    ensures file == Written(c, hash, es, blockSize, empty)
  {
    hide TableFile, Bloom.WithKeys, Bloom.WithKey, BlockBytes, Split, Cost, DataBytes, IndexFor, Keys, TableWriter.Valid;
    var w := new TableWriter(c, blockSize, empty);
    var i := 0;
    WriteStart(hash, es, blockSize, empty);
    while i < |es|
      invariant 0 <= i <= |es| && w.Valid(c) && fresh(w) && w.blockSize == blockSize && w.entryCount == i
      invariant w.bloom == Bloom.WithKeys(hash, empty, Keys(es)[..i])
      invariant Split(es, blockSize, [], 0) == w.blocks + Split(es[i..], blockSize, w.cur, |BlockBytes(w.cur)|)
    {
      WriteStep(hash, es, i, empty);
      BlockSize(w.cur, es[i]);
      SplitUnfold(w.blocks, es[i], es[i + 1..], blockSize, w.cur, |BlockBytes(w.cur)|);
      NothingStored();
      w.Add(c, hash, es[i]);
      i := i + 1;
    }
    WriteEnd(hash, es, blockSize, empty, w.blocks, w.cur);
    w.Close(c);
    file := w.file;
  }

  lemma WriteStart(hash: Bloom.Hash, es: Run, blockSize: nat, empty: Bloom.Filter)
    ensures Bloom.WithKeys(hash, empty, Keys(es)[..0]) == empty
    ensures Split(es, blockSize, [], 0) == [] + Split(es[0..], blockSize, [], |BlockBytes([])|)
  {
    hide Split;
    assert es[0..] == es;
  }

  lemma WriteStep(hash: Bloom.Hash, es: Run, i: nat, empty: Bloom.Filter)
    requires i < |es|
    ensures Bloom.WithKeys(hash, empty, Keys(es)[..i + 1]) == Bloom.WithKey(hash, Bloom.WithKeys(hash, empty, Keys(es)[..i]), es[i].key)
    ensures es[i..] == [es[i]] + es[i + 1..]
  {
    hide Bloom.WithKey;
    var ks := Keys(es)[..i + 1];
    assert ks[..|ks| - 1] == Keys(es)[..i];
  }

  lemma WriteEnd(hash: Bloom.Hash, es: Run, blockSize: nat, empty: Bloom.Filter, blocks: seq<Run>, cur: Run)
    ensures Keys(es)[..|es|] == Keys(es)
    ensures blocks + Split(es[|es|..], blockSize, cur, |BlockBytes(cur)|) == if cur == [] then blocks else blocks + [cur]
  {
  }

  // ---- reading through the cache

  /** The disk holds this table's blocks under its file number. */
  ghost predicate OnDisk(c: Codec, r: TableReader, id: nat, disk: BlockCache.Disk) {
    forall i :: 0 <= i < |r.index| ==> disk(id, r.index[i].handle.off) == ReadBlock(c, r.file, r.index[i].handle)
  }

  /** readBlock: the cache never changes an answer. */
  method CachedBlock(c: Codec, r: TableReader, id: nat, cache: BlockCache.Cache, i: nat, ghost disk: BlockCache.Disk)
    returns (data: Option<ByteString>)
    requires i < |r.index| && OnDisk(c, r, id, disk) && cache.Valid() && cache.Tells(disk)
    modifies cache.shards
    ensures cache.Valid() && cache.Tells(disk) && data == ReadBlock(c, r.file, r.index[i].handle)
    ensures var off := r.index[i].handle.off; data.Some? && cache.Fits(id, off, data.value) ==> cache.Held(id, off) == data
  {
    hide BlockCache.Truthful, BlockCache.Unique, BlockCache.Indexed;
    var h := r.index[i].handle;
    var cached := cache.Get(id, h.off, disk);
    if cached.Some? { return cached; }
    if h.off + h.size > |r.file| || h.size < 1 { return None; }
    var buf := r.file[h.off..h.off + h.size];
    var block := if buf[0] == 1 then c.decompress(buf[1..]) else Some(buf[1..]);
    if block.None? { return None; }
    cache.Put(id, h.off, block.value, disk);
    return block;
  }

  /** Reader.Get. */
  method Get(c: Codec, hash: Bloom.Hash, r: TableReader, id: nat, cache: BlockCache.Cache, key: Key, ghost disk: BlockCache.Disk)
    returns (a: Answer)
    requires OnDisk(c, r, id, disk) && cache.Valid() && cache.Tells(disk) && IndexSorted(r.index)
    modifies cache.shards
    ensures cache.Valid() && cache.Tells(disk) && a == Lookup(c, hash, r, key)
  {
    hide OnDisk, BlockCache.Truthful, BlockCache.Unique, BlockCache.Indexed, Bloom.Admits, FirstBlock, ReadBlock, ParseKV, Less;
    if !Bloom.Admits(hash, r.bloom, key) { return Miss; }
    var idx := FindBlockIndex(r.index, key);
    if idx >= |r.index| { return Miss; }
    var block := CachedBlock(c, r, id, cache, idx, disk);
    if block.None? { return Damaged; }
    a := ScanBlock(block.value, key);
  }

  /** The loop over the entries of a block. */
  method ScanBlock(data: ByteString, key: Key) returns (a: Answer)
    ensures a == Scan(data, 0, key)
  {
    hide ParseKV, Less;
    var offset: nat := 0;
    while offset < |data|
      invariant offset <= |data| && Scan(data, 0, key) == Scan(data, offset, key)
    {
      var p := ParseKV(data, offset);
      if p.None? { return Damaged; }
      var (e, offset') := p.value;
      if e.key == key { return Hit(e.val); }
      if Less(key, e.key) { return Miss; }
      offset := offset';
    }
    return Miss;
  }

  /**
   The writer, the reader and the cache together: a key looked up in the table that was written is
   answered from the entries it was written from.
   */
  method WriteThenGet(c: Codec, hash: Bloom.Hash, es: Run, blockSize: nat, empty: Bloom.Filter, id: nat,
                      cache: BlockCache.Cache, key: Key, ghost disk: BlockCache.Disk)
    returns (a: Answer)
    requires CodecOk(c) && Sorted(es) && TableFits(c, hash, es, blockSize, empty) && empty.bits != []
    requires BlocksReadable(c, Split(es, blockSize, [], 0)) && cache.Valid() && cache.Tells(disk)
    requires var r := Open(Written(c, hash, es, blockSize, empty)); r.Some? ==> OnDisk(c, r.value, id, disk)
    modifies cache.shards
    ensures cache.Valid() && cache.Tells(disk) && a == AnswerOf(Find(es, key))
  {
    hide CodecOk, Sorted, TableFits, BlocksReadable, Open, Written, OnDisk, IndexSorted, Lookup, Find, Split,
      BlockCache.Truthful, BlockCache.Unique, BlockCache.Indexed;
    var file := WriteTable(c, hash, es, blockSize, empty);
    var r := Open(file);
    OpenedSorted(c, hash, es, blockSize, empty);
    TableGet(c, hash, es, blockSize, empty, key);
    a := Get(c, hash, r.value, id, cache, key, disk);
  }
}
