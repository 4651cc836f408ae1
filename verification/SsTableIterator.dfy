/**
 Iterating over a table, block by block (internal/sstable/iterator.go).
 */
module SsTableIterator {
  import opened Bytes
  import opened KeyOrder
  import opened SortedLists
  import opened MergeIterator
  import opened Compaction
  import opened SsTable
  import opened SsTableReads
  import opened SsTableFiles
  import Bloom
  import BlockCache

  /** What the reader makes of a block. */
  function BlockRead(c: Codec, block: Run): Option<ByteString> {
    if Readable(c, BlockBytes(block)) then Some(BlockBytes(block)) else None
  }

  /** Every index entry leads to its block, if that can be read. */
  ghost predicate Holds(c: Codec, r: TableReader, blocks: seq<Run>) {
    && |r.index| == |blocks| && NoEmpty(blocks) && RunFits(Flatten(blocks)) && Sorted(Flatten(blocks))
    && (forall i :: 0 <= i < |blocks| ==> r.index[i].key == LastKey(blocks[i]))
    && (forall i :: 0 <= i < |blocks| ==> ReadBlock(c, r.file, r.index[i].handle) == BlockRead(c, blocks[i]))
  }

  /** An opened table holds the blocks it was written as. */
  lemma WrittenHolds(c: Codec, hash: Bloom.Hash, es: Run, blockSize: nat, empty: Bloom.Filter)
    requires CodecOk(c) && Sorted(es) && TableFits(c, hash, es, blockSize, empty)
    ensures var r, blocks := Open(Written(c, hash, es, blockSize, empty)), Split(es, blockSize, [], 0);
            r.Some? && Holds(c, r.value, blocks) && Flatten(blocks) == es
  {
    hide CodecOk, Sorted, RunFits, Readable, Open, TableFile, Split, DataBytes, BlockBytes, ReadBlock, Bloom.WithKeys, EntryAt;
    var blocks := Split(es, blockSize, [], 0);
    SplitFlattens(es, blockSize, [], 0);
    assert [] + es == es;
    TableOpens(c, hash, es, blockSize, empty);
    var r := Open(Written(c, hash, es, blockSize, empty)).value;
    var rest := TableFileStarts(c, blocks, r.bloom, |es|);
    forall i | 0 <= i < |blocks|
      ensures r.index[i].key == LastKey(blocks[i]) && ReadBlock(c, r.file, r.index[i].handle) == BlockRead(c, blocks[i])
    {
      IndexKey(c, blocks, i);
      BlockReadBack(c, blocks, i, rest);
    }
  }

  class TableIterator {
    const c: Codec
    const r: TableReader
    const id: nat
    const cache: BlockCache.Cache
    var blockIdx: nat
    var offset: nat
    var failed: bool
    var blockData: ByteString
    var currentKey: Key
    var currentVal: Option<ByteString>
    var valid: bool
    ghost var j: nat

    /** The table and the cache are in order. */
    ghost predicate Ready(blocks: seq<Run>, disk: BlockCache.Disk)
      reads this, cache, cache.shards
    {
      Holds(c, r, blocks) && OnDisk(c, r, id, disk) && cache.Valid() && cache.Tells(disk)
    }

    /** Inside block blockIdx, with its first j entries parsed. */
    ghost predicate Inside(blocks: seq<Run>)
      reads this
    {
      && blockIdx < |blocks| && j <= |blocks[blockIdx]|
      && blockData == BlockBytes(blocks[blockIdx]) && offset == |BlockBytes(blocks[blockIdx][..j])|
    }

    ghost predicate Positioned(blocks: seq<Run>)
      reads this
    {
      valid ==> Inside(blocks) && 0 < j && KV(currentKey, currentVal) == blocks[blockIdx][j - 1]
    }

    /** An error is never forgotten, so it ends the iteration for good. */
    predicate Valid()
      reads this
    {
      valid && !failed
    }

    /** The entries from the current one on. */
    ghost function Rest(blocks: seq<Run>): Run
      reads this
    {
      if Valid() && blockIdx < |blocks| && 0 < j <= |blocks[blockIdx]|
      then blocks[blockIdx][j - 1..] + Leading(c, blocks[blockIdx + 1..])
      else []
    }

    constructor (codec: Codec, reader: TableReader, fileId: nat, blockCache: BlockCache.Cache)
      ensures c == codec && r == reader && id == fileId && cache == blockCache && !valid && !failed
    {
      c, r, id, cache := codec, reader, fileId, blockCache;
      blockIdx, offset, failed, blockData, currentKey, currentVal, valid := 0, 0, false, [], [], None, false;
    }

    /** Loads block blockIdx and parses its first entry. */
    method LoadBlock(ghost blocks: seq<Run>, ghost disk: BlockCache.Disk)
      requires Ready(blocks, disk)
      modifies this, cache.shards
      ensures Ready(blocks, disk) && Positioned(blocks)
      ensures Rest(blocks) == if old(failed) then [] else LeadingFrom(c, blocks, old(blockIdx))
      decreases |r.index| - blockIdx, 1
    {
      hide Holds, OnDisk, BlockBytes, ReadBlock, Readable, Leading, BlockCache.Truthful, BlockCache.Shard.Valid, BlockCache.Cache.Valid,
        BlockCache.Cache.Tells, BlockCache.Cache.Held, BlockCache.Cache.Fits;
      valid := false;
      HoldsParts(c, r, blocks);
      if blockIdx >= |r.index| { return; }
      LeadingStep(c, blocks, blockIdx);
      var data := CachedBlock(c, r, id, cache, blockIdx, disk);
      if data.None? {
        failed := true;
        return;
      }
      blockData := data.value;
      offset := 0;
      j := 0;
      ParseCurrent(blocks, disk);
    }

    /** Parses the entry at the offset, moving to the next block at the end of this one. */
    method ParseCurrent(ghost blocks: seq<Run>, ghost disk: BlockCache.Disk)
      requires Ready(blocks, disk) && Inside(blocks)
      modifies this, cache.shards
      ensures Ready(blocks, disk) && Positioned(blocks)
      ensures Rest(blocks) == if old(failed) then [] else old(blocks[blockIdx][j..]) + Leading(c, blocks[old(blockIdx) + 1..])
      decreases |r.index| - blockIdx, 0
    {
      hide Holds, OnDisk, BlockBytes, ParseKV, Leading, BlockCache.Truthful, BlockCache.Shard.Valid, BlockCache.Cache.Valid,
        BlockCache.Cache.Tells, RunFits, Sorted;
      HoldsParts(c, r, blocks);
      AtOffset(blocks, blockIdx, j);
      if offset >= |blockData| {
        valid := false;
        PastBlock(c, blocks, blockIdx, j);
        blockIdx := blockIdx + 1;
        LoadBlock(blocks, disk);
        return;
      }
      var p := ParseKV(blockData, offset);
      if p.None? {
        assert false;
      }
      currentKey, currentVal := p.value.0.key, p.value.0.val;
      offset := p.value.1;
      j := j + 1;
      valid := true;
    }

    method SeekToFirst(ghost blocks: seq<Run>, ghost disk: BlockCache.Disk)
      requires Ready(blocks, disk)
      modifies this, cache.shards
      ensures Ready(blocks, disk) && Positioned(blocks)
      ensures Rest(blocks) == if old(failed) then [] else Leading(c, blocks)
    {
      hide Holds, OnDisk, BlockBytes, Leading, BlockCache.Truthful, BlockCache.Shard.Valid, BlockCache.Cache.Valid, BlockCache.Cache.Tells;
      blockIdx := 0;
      LeadingAll(c, blocks);
      LoadBlock(blocks, disk);
    }

    method Next(ghost blocks: seq<Run>, ghost disk: BlockCache.Disk)
      requires Ready(blocks, disk) && Positioned(blocks)
      modifies this, cache.shards
      ensures Ready(blocks, disk) && Positioned(blocks)
      ensures Rest(blocks) == if old(Rest(blocks)) == [] then [] else old(Rest(blocks))[1..]
    {
      hide Holds, OnDisk, BlockBytes, Leading, BlockCache.Truthful, BlockCache.Shard.Valid, BlockCache.Cache.Valid, BlockCache.Cache.Tells;
      if !valid { return; }
      ghost var rest := Rest(blocks);
      NextRest(c, blocks, blockIdx, j);
      if offset >= |blockData| {
        LastOfBlock(c, r, blocks, blockIdx, j);
        blockIdx := blockIdx + 1;
        LoadBlock(blocks, disk);
        return;
      }
      ParseCurrent(blocks, disk);
    }

    /** Moves to the first entry not below the target in the block the index search finds, or later. */
    method Seek(target: Key, ghost blocks: seq<Run>, ghost disk: BlockCache.Disk)
      requires Ready(blocks, disk)
      modifies this, cache.shards
      ensures Ready(blocks, disk) && Positioned(blocks)
      ensures var from := LeadingFrom(c, blocks, FirstBlock(r.index, target, 0));
              Rest(blocks) == if old(failed) then [] else SeekRun(from, target)
      ensures BlocksReadable(c, blocks) && !old(failed) ==> Rest(blocks) == SeekRun(Flatten(blocks), target)
    {
      hide Holds, OnDisk, BlockBytes, BlockCache.Truthful, BlockCache.Shard.Valid, BlockCache.Cache.Valid, BlockCache.Cache.Tells,
        Flatten, Less, SeekRun, FirstBlock, Leading, BlocksReadable;
      IndexIsSorted(c, r, blocks);
      HoldsParts(c, r, blocks);
      blockIdx := FindBlockIndex(r.index, target);
      ghost var from := LeadingFrom(c, blocks, blockIdx);
      if BlocksReadable(c, blocks) { SkipBlocks(c, r, blocks, target); }
      LoadBlock(blocks, disk);
      while Valid() && Less(currentKey, target)
        invariant Ready(blocks, disk) && Positioned(blocks)
        invariant if old(failed) then Rest(blocks) == [] else SeekRun(Rest(blocks), target) == SeekRun(from, target)
        decreases |Rest(blocks)|
      {
        SeekStep(Rest(blocks), target);
        Next(blocks, disk);
      }
      SeekDone(Rest(blocks), target);
    }
  }

  /**
   The writer, the reader and the iterator together, as a compaction uses them: an iteration gives
   the entries of the blocks before the first that cannot be read, and ends there like at the end of
   the table. These are all the entries exactly if every block can be read.
   */
  method WriteThenIterate(c: Codec, hash: Bloom.Hash, es: Run, blockSize: nat, empty: Bloom.Filter, id: nat,
                          cache: BlockCache.Cache, ghost disk: BlockCache.Disk)
    returns (out: Run)
    requires CodecOk(c) && Sorted(es) && TableFits(c, hash, es, blockSize, empty) && cache.Valid() && cache.Tells(disk)
    requires var r := Open(Written(c, hash, es, blockSize, empty)); r.Some? ==> OnDisk(c, r.value, id, disk)
    modifies cache.shards
    ensures cache.Valid() && cache.Tells(disk)
    ensures out == Leading(c, Split(es, blockSize, [], 0)) && out <= es
    ensures out == es <==> BlocksReadable(c, Split(es, blockSize, [], 0))
  {
    hide CodecOk, Sorted, TableFits, BlocksReadable, Open, Written, OnDisk, Holds, Split, Leading, BlockBytes, Flatten,
      BlockCache.Truthful, BlockCache.Shard.Valid, BlockCache.Cache.Valid, BlockCache.Cache.Tells;
    ghost var blocks := Split(es, blockSize, [], 0);
    SplitFlattens(es, blockSize, [], 0);
    WrittenHolds(c, hash, es, blockSize, empty);
    LeadingIs(c, blocks);
    var file := WriteTable(c, hash, es, blockSize, empty);
    var it := new TableIterator(c, Open(file).value, id, cache);
    it.SeekToFirst(blocks, disk);
    out := [];
    while it.Valid()
      invariant it.Ready(blocks, disk) && it.Positioned(blocks) && fresh(it) && it.cache == cache
      invariant out + it.Rest(blocks) == Leading(c, blocks)
      decreases |it.Rest(blocks)|
    {
      ghost var rest := it.Rest(blocks);
      assert rest[0] == KV(it.currentKey, it.currentVal);
      assert out + [rest[0]] + rest[1..] == out + rest;
      out := out + [KV(it.currentKey, it.currentVal)];
      it.Next(blocks, disk);
    }
    assert out + [] == out;
  }

  lemma HoldsParts(c: Codec, r: TableReader, blocks: seq<Run>)
    requires Holds(c, r, blocks)
    ensures |r.index| == |blocks| && NoEmpty(blocks) && RunFits(Flatten(blocks))
    ensures forall i :: 0 <= i < |blocks| ==> ReadBlock(c, r.file, r.index[i].handle) == BlockRead(c, blocks[i])
  {
    hide RunFits, Sorted, ReadBlock, BlockBytes, Flatten, BlockRead;
  }

  /** The entries that can be read in order from block i on. */
  function LeadingFrom(c: Codec, blocks: seq<Run>, i: nat): Run {
    if i < |blocks| then Leading(c, blocks[i..]) else []
  }

  lemma LeadingAll(c: Codec, blocks: seq<Run>)
    ensures LeadingFrom(c, blocks, 0) == Leading(c, blocks)
  {
    assert blocks[0..] == blocks;
  }

  lemma LeadingStep(c: Codec, blocks: seq<Run>, i: nat)
    requires i < |blocks|
    ensures |BlockBytes(blocks[i][..0])| == 0
    ensures LeadingFrom(c, blocks, i)
            == if Readable(c, BlockBytes(blocks[i])) then blocks[i][0..] + Leading(c, blocks[i + 1..]) else []
  {
    assert blocks[i][..0] == [] && blocks[i][0..] == blocks[i];
    assert blocks[i..][1..] == blocks[i + 1..];
  }

  /** At an offset there is either the next entry or the end of the block. */
  lemma AtOffset(blocks: seq<Run>, i: nat, j: nat)
    requires RunFits(Flatten(blocks)) && i < |blocks| && j <= |blocks[i]|
    ensures var data, off := BlockBytes(blocks[i]), |BlockBytes(blocks[i][..j])|;
            && (off >= |data| <==> j == |blocks[i]|)
            && (j < |blocks[i]| ==> ParseKV(data, off) == Some((blocks[i][j], |BlockBytes(blocks[i][..j + 1])|)))
  {
    hide BlockBytes, ParseKV, RunFits;
    FlattenFits(blocks, i);
    if j < |blocks[i]| {
      ParseAt(blocks[i], j);
      BlockGrows(blocks[i], j);
    } else {
      assert blocks[i][..j] == blocks[i];
    }
  }

  lemma PastBlock(c: Codec, blocks: seq<Run>, i: nat, j: nat)
    requires i < |blocks| && j == |blocks[i]|
    ensures blocks[i][j..] + Leading(c, blocks[i + 1..]) == LeadingFrom(c, blocks, i + 1)
  {
    assert blocks[i][j..] == [];
    assert [] + Leading(c, blocks[i + 1..]) == Leading(c, blocks[i + 1..]);
    if i + 1 == |blocks| { assert blocks[i + 1..] == []; }
  }

  lemma LastOfBlock(c: Codec, r: TableReader, blocks: seq<Run>, i: nat, j: nat)
    requires Holds(c, r, blocks) && i < |blocks| && j <= |blocks[i]|
    requires |BlockBytes(blocks[i][..j])| >= |BlockBytes(blocks[i])|
    ensures blocks[i][j..] + Leading(c, blocks[i + 1..]) == LeadingFrom(c, blocks, i + 1)
  {
    hide Holds, BlockBytes, Leading;
    HoldsParts(c, r, blocks);
    AtOffset(blocks, i, j);
    PastBlock(c, blocks, i, j);
  }

  lemma NextRest(c: Codec, blocks: seq<Run>, i: nat, j: nat)
    requires i < |blocks| && 0 < j <= |blocks[i]|
    ensures (blocks[i][j - 1..] + Leading(c, blocks[i + 1..]))[1..] == blocks[i][j..] + Leading(c, blocks[i + 1..])
  {
    hide Leading;
    assert blocks[i][j - 1..][1..] == blocks[i][j..];
  }

  lemma IndexIsSorted(c: Codec, r: TableReader, blocks: seq<Run>)
    requires Holds(c, r, blocks)
    ensures IndexSorted(r.index)
  {
    hide Less, Sorted, RunFits, ReadBlock, BlockBytes;
    forall i, j | 0 <= i < j < |r.index| ensures Less(r.index[i].key, r.index[j].key) {
      BlocksSorted(blocks, i, j);
      assert blocks[j][|blocks[j]| - 1] in blocks[j];
    }
  }

  /** The blocks before the one the index search finds hold only smaller keys. */
  lemma SkipBlocks(c: Codec, r: TableReader, blocks: seq<Run>, target: Key)
    requires Holds(c, r, blocks) && BlocksReadable(c, blocks)
    ensures |r.index| == |blocks|
    ensures SeekRun(LeadingFrom(c, blocks, FirstBlock(r.index, target, 0)), target) == SeekRun(Flatten(blocks), target)
  {
    hide Less, Sorted, RunFits, ReadBlock, BlockBytes, Flatten, SeekRun, FirstBlock, Leading, BlockRead;
    var i := FirstBlock(r.index, target, 0);
    FirstBlockFacts(r.index, target, 0);
    forall x | 0 <= x < i ensures Less(LastKey(blocks[x]), target) { assert Less(r.index[x].key, target); }
    SkipPrefix(blocks, i, target);
    if i == |blocks| {
      assert blocks[i..] == [];
      assert Flatten([]) == [] by { EmptyFlatten(); }
    } else {
      LeadingIs(c, blocks[i..]);
    }
  }

  lemma EmptyFlatten()
    ensures Flatten([]) == []
  {
  }

  lemma {:induction false} SkipPrefix(blocks: seq<Run>, i: nat, target: Key)
    requires NoEmpty(blocks) && Sorted(Flatten(blocks)) && i <= |blocks|
    requires forall x :: 0 <= x < i ==> Less(LastKey(blocks[x]), target)
    ensures SeekRun(Flatten(blocks[i..]), target) == SeekRun(Flatten(blocks), target)
    decreases |blocks|
  {
    hide Less, SeekRun;
    if i > 0 {
      var tail := Flatten(blocks[1..]);
      HeadTailSorted(blocks[0], tail);
      SkipPrefix(blocks[1..], i - 1, target);
      assert blocks[1..][i - 1..] == blocks[i..];
      SeekPastRun(blocks[0], tail, target);
    } else {
      assert blocks[0..] == blocks;
    }
  }

  /** A run that ends below the target is skipped whole. */
  lemma {:induction false} SeekPastRun(a: Run, b: Run, target: Key)
    requires Sorted(a) && a != [] && Less(LastKey(a), target)
    ensures SeekRun(a + b, target) == SeekRun(b, target)
  {
    hide Less, SeekRun;
    KeysOrdered();
    if |a| > 1 { assert Less(a[0].key, a[|a| - 1].key); }
    SeekStep(a + b, target);
    assert (a + b)[1..] == a[1..] + b;
    if |a| > 1 {
      SeekPastRun(a[1..], b, target);
    } else {
      assert a[1..] + b == b;
    }
  }

  lemma SeekStep(es: Run, target: Key)
    requires es != [] && Less(es[0].key, target)
    ensures SeekRun(es, target) == SeekRun(es[1..], target)
  {
  }

  lemma SeekDone(es: Run, target: Key)
    requires es == [] || !Less(es[0].key, target)
    ensures SeekRun(es, target) == es
  {
  }
}
