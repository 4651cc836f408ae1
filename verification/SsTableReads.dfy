/**
 Reading a table: the index search, point lookups and the writer that produced it
 (internal/sstable/reader.go, writer.go).
 */
module SsTableReads {
  import opened Bytes
  import opened KeyOrder
  import opened SortedLists
  import opened Compaction
  import opened SsTable
  import Bloom

  // ---- the index search

  /** The first block whose last key is not below the key, from i on. */
  function FirstBlock(index: seq<IndexEntry>, key: Key, i: nat): (r: nat)
    requires i <= |index|
    ensures i <= r <= |index|
    decreases |index| - i
  {
    if i == |index| || !Less(index[i].key, key) then i else FirstBlock(index, key, i + 1)
  }

  ghost predicate IndexSorted(index: seq<IndexEntry>) {
    forall i, j :: 0 <= i < j < |index| ==> Less(index[i].key, index[j].key)
  }

  lemma {:induction false} FirstBlockIs(index: seq<IndexEntry>, key: Key, i: nat, r: nat)
    requires i <= r <= |index| && (r < |index| ==> !Less(index[r].key, key))
    requires forall j :: i <= j < r ==> Less(index[j].key, key)
    ensures FirstBlock(index, key, i) == r
    decreases r - i
  {
    hide Less;
    if i < r { FirstBlockIs(index, key, i + 1, r); }
  }

  /** findBlockIndex: sort.Search by halving. */
  method FindBlockIndex(index: seq<IndexEntry>, key: Key) returns (r: nat)
    requires IndexSorted(index)
    ensures r == FirstBlock(index, key, 0)
  {
    hide Less, FirstBlock;
    KeysOrdered();
    var i, j := 0, |index|;
    while i < j
      invariant 0 <= i <= j <= |index|
      invariant forall x :: 0 <= x < i ==> Less(index[x].key, key)
      invariant forall x :: j <= x < |index| ==> !Less(index[x].key, key)
    {
      var h := (i + j) / 2;
      if Less(index[h].key, key) {
        forall x | 0 <= x < h ensures Less(index[x].key, key) { assert Less(index[x].key, index[h].key); }
        i := h + 1;
      } else {
        forall x | h <= x < |index| ensures !Less(index[x].key, key) {
          if x > h { assert Less(index[h].key, index[x].key); }
        }
        j := h;
      }
    }
    FirstBlockIs(index, key, 0, i);
    return i;
  }

  lemma {:induction false} BlocksSorted(blocks: seq<Run>, i: nat, j: nat)
    requires NoEmpty(blocks) && Sorted(Flatten(blocks)) && i < j < |blocks|
    ensures Sorted(blocks[i]) && Sorted(blocks[j])
    ensures forall e :: e in blocks[j] ==> Less(LastKey(blocks[i]), e.key)
    decreases |blocks|
  {
    hide Less;
    var all, n := Flatten(blocks), |blocks[0]|;
    assert all == blocks[0] + Flatten(blocks[1..]);
    var tail := all[n..];
    assert tail == Flatten(blocks[1..]);
    HeadTailSorted(blocks[0], tail);
    if i > 0 {
      BlocksSorted(blocks[1..], i - 1, j - 1);
    } else {
      BlockSorted(blocks[1..], j - 1);
      forall e | e in blocks[j] ensures Less(LastKey(blocks[0]), e.key) {
        FlattenMembers(blocks[1..], j - 1, e);
      }
    }
  }

  lemma HeadTailSorted(a: Run, b: Run)
    requires Sorted(a + b)
    ensures Sorted(a) && Sorted(b)
    ensures a != [] ==> forall e :: e in b ==> Less(LastKey(a), e.key)
  {
    hide Less;
    var all := a + b;
    forall i, j | 0 <= i < j < |a| ensures Less(a[i].key, a[j].key) { assert all[i] == a[i] && all[j] == a[j]; }
    forall i, j | 0 <= i < j < |b| ensures Less(b[i].key, b[j].key) { assert all[|a| + i] == b[i] && all[|a| + j] == b[j]; }
    if a != [] {
      forall x | 0 <= x < |b| ensures Less(LastKey(a), b[x].key) {
        assert all[|a| - 1] == a[|a| - 1] && all[|a| + x] == b[x];
      }
    }
  }

  lemma {:induction false} BlockSorted(blocks: seq<Run>, i: nat)
    requires Sorted(Flatten(blocks)) && i < |blocks|
    ensures Sorted(blocks[i])
    decreases |blocks|
  {
    HeadTailSorted(blocks[0], Flatten(blocks[1..]));
    if i > 0 { BlockSorted(blocks[1..], i - 1); }
  }

  lemma BlockIndexSorted(c: Codec, blocks: seq<Run>)
    requires NoEmpty(blocks) && Sorted(Flatten(blocks))
    ensures IndexSorted(IndexFor(c, blocks))
  {
    hide Less, Sorted, Stored, DataBytes, BlockBytes;
    var index := IndexFor(c, blocks);
    forall i, j | 0 <= i < j < |index| ensures Less(index[i].key, index[j].key) {
      BlocksSorted(blocks, i, j);
      assert blocks[j][|blocks[j]| - 1] in blocks[j];
    }
  }

  /** The key can only be in the block the index search finds. */
  lemma {:induction false} BlockDecides(blocks: seq<Run>, key: Key, r: nat)
    requires NoEmpty(blocks) && Sorted(Flatten(blocks)) && r <= |blocks|
    requires forall i :: 0 <= i < r ==> Less(LastKey(blocks[i]), key)
    requires r < |blocks| ==> !Less(LastKey(blocks[r]), key)
    ensures Find(Flatten(blocks), key) == if r < |blocks| then Find(blocks[r], key) else None
    decreases |blocks|
  {
    hide Less;
    KeysOrdered();
    if blocks != [] {
      var head, tail := blocks[0], Flatten(blocks[1..]);
      HeadTailSorted(head, tail);
      FindConcat(head, tail, key);
      if r > 0 {
        BeyondLast(head, key);
        BlockDecides(blocks[1..], key, r - 1);
      } else if Find(tail, key).Some? {
        var i := FindSome(tail, key);
        assert false;
      }
    }
  }

  lemma BeyondLast(es: Run, key: Key)
    requires Sorted(es) && es != [] && Less(LastKey(es), key)
    ensures Find(es, key).None?
  {
    hide Less;
    KeysOrdered();
    FindNone(es, key);
    forall i | 0 <= i < |es| ensures es[i].key != key {
      if i < |es| - 1 { assert Less(es[i].key, es[|es| - 1].key); }
    }
  }

  lemma FirstBlockFacts(index: seq<IndexEntry>, key: Key, i: nat)
    requires i <= |index|
    ensures var r := FirstBlock(index, key, i);
            (r < |index| ==> !Less(index[r].key, key)) && forall j :: i <= j < r ==> Less(index[j].key, key)
    decreases |index| - i
  {
    hide Less;
    if i < |index| && Less(index[i].key, key) { FirstBlockFacts(index, key, i + 1); }
  }

  // ---- Get

  /** Reader.Get: filter, index, block. */
  function Lookup(c: Codec, hash: Bloom.Hash, r: TableReader, key: Key): Answer {
    if !Bloom.Admits(hash, r.bloom, key) then Miss
    else
      var i := FirstBlock(r.index, key, 0);
      if i == |r.index| then Miss
      else
        var data := ReadBlock(c, r.file, r.index[i].handle);
        if data.None? then Damaged else Scan(data.value, 0, key)
  }

  function Keys(es: Run): (r: seq<Key>)
    ensures |r| == |es|
  {
    seq(|es|, i requires 0 <= i < |es| => es[i].key)
  }

  /** What a writer leaves of entries es: blocks cut at blockSize and a filter of all keys. */
  function Written(c: Codec, hash: Bloom.Hash, es: Run, blockSize: nat, empty: Bloom.Filter): ByteString {
    TableFile(c, Split(es, blockSize, [], 0), Bloom.WithKeys(hash, empty, Keys(es)), |es|)
  }

  /** The file's numbers fit their fields. */
  predicate TableFits(c: Codec, hash: Bloom.Hash, es: Run, blockSize: nat, empty: Bloom.Filter) {
    RunFits(es) && |Written(c, hash, es, blockSize, empty)| < U64 && |es| < U64 && empty.nHash < 256
  }

  lemma {:induction false} FlattenFits(blocks: seq<Run>, i: nat)
    requires RunFits(Flatten(blocks)) && i < |blocks|
    ensures RunFits(blocks[i])
    decreases |blocks|
  {
    hide EntryFits;
    var head, tail := blocks[0], Flatten(blocks[1..]);
    var all := Flatten(blocks);
    if i == 0 {
      forall x | 0 <= x < |head| ensures EntryFits(head[x]) { assert all[x] == head[x]; }
    } else {
      forall x | 0 <= x < |tail| ensures EntryFits(tail[x]) { assert all[|head| + x] == tail[x]; }
      FlattenFits(blocks[1..], i - 1);
    }
  }

  lemma WrittenIndexFits(c: Codec, blocks: seq<Run>, bloom: Bloom.Filter, count: nat)
    requires NoEmpty(blocks) && RunFits(Flatten(blocks)) && |TableFile(c, blocks, bloom, count)| < U64
    ensures IndexFits(IndexFor(c, blocks))
  {
    hide Stored, DataBytes, BlockBytes, EncodeIndex, EncodeFooter, Bloom.Encode;
    var index := IndexFor(c, blocks);
    forall i | 0 <= i < |index| ensures |index[i].key| < U32 && index[i].handle.off < U64 && index[i].handle.size < U64 {
      FlattenFits(blocks, i);
      DataSnoc(c, blocks, i);
      DataPrefix(c, blocks, i + 1);
      assert |DataBytes(c, blocks)| <= |TableFile(c, blocks, bloom, count)|;
    }
  }

  /** A written table opens, with the index of its blocks and the filter of its keys. */
  lemma TableOpens(c: Codec, hash: Bloom.Hash, es: Run, blockSize: nat, empty: Bloom.Filter)
    requires TableFits(c, hash, es, blockSize, empty)
    ensures var file := Written(c, hash, es, blockSize, empty);
            Open(file) == Some(TableReader(file, IndexFor(c, Split(es, blockSize, [], 0)), Bloom.WithKeys(hash, empty, Keys(es))))
  {
    hide TableFile, Open, Split, RunFits, IndexFor, Bloom.WithKeys;
    var blocks := Split(es, blockSize, [], 0);
    SplitFlattens(es, blockSize, [], 0);
    assert [] + es == es;
    var bloom := Bloom.WithKeys(hash, empty, Keys(es));
    Bloom.AddAllShape(hash, empty, Keys(es));
    WrittenIndexFits(c, blocks, bloom, |es|);
    OpenBack(c, blocks, bloom, |es|);
  }

  /** The index search of an opened table is over a sorted index. */
  lemma OpenedSorted(c: Codec, hash: Bloom.Hash, es: Run, blockSize: nat, empty: Bloom.Filter)
    requires Sorted(es) && TableFits(c, hash, es, blockSize, empty)
    ensures var r := Open(Written(c, hash, es, blockSize, empty)); r.Some? && IndexSorted(r.value.index)
  {
    hide Sorted, RunFits, Open, TableFile, Split, IndexFor, IndexSorted, Bloom.WithKeys;
    SplitFlattens(es, blockSize, [], 0);
    assert [] + es == es;
    TableOpens(c, hash, es, blockSize, empty);
    BlockIndexSorted(c, Split(es, blockSize, [], 0));
  }

  /** A written table's footer counts its entries. */
  lemma FooterCounts(c: Codec, hash: Bloom.Hash, es: Run, blockSize: nat, empty: Bloom.Filter)
    requires TableFits(c, hash, es, blockSize, empty)
    ensures var file := Written(c, hash, es, blockSize, empty);
            |file| >= FOOTER && var f := DecodeFooter(file[|file| - FOOTER..]); f.Some? && f.value.count == |es|
  {
    hide Split, RunFits, IndexFor, Bloom.WithKeys, DecodeFooter, EncodeFooter, DataBytes, EncodeIndex, Bloom.Encode;
    var blocks, bloom := Split(es, blockSize, [], 0), Bloom.WithKeys(hash, empty, Keys(es));
    var data, index, filter := DataBytes(c, blocks), EncodeIndex(IndexFor(c, blocks)), Bloom.Encode(bloom);
    var i, b := Handle(|data|, |index|), Handle(|data| + |index|, |filter|);
    LastPart(data + index + filter, EncodeFooter(i, b, |es|));
    FooterBack(i, b, |es|);
  }

  /**
   A key with a probe that no key of the table has is missed without looking at any block, so also in
   a table whose blocks cannot be read.
   */
  lemma OwnProbeMissed(c: Codec, hash: Bloom.Hash, es: Run, blockSize: nat, n: nat, nHash: nat, key: Key, i: nat)
    requires n > 0 && TableFits(c, hash, es, blockSize, Bloom.Filter(seq(n, _ => 0), nHash)) && i < nHash
    requires !Bloom.Probed(hash, nHash, n * 8, Keys(es), Bloom.Position(hash, key, i, n * 8))
    ensures var r := Open(Written(c, hash, es, blockSize, Bloom.Filter(seq(n, _ => 0), nHash)));
            r.Some? && Lookup(c, hash, r.value, key) == Miss
  {
    hide TableFits, Written, Open, Split, IndexFor, Bloom.WithKeys, Bloom.Admits, Bloom.Probed, Bloom.Position;
    TableOpens(c, hash, es, blockSize, Bloom.Filter(seq(n, _ => 0), nHash));
    Bloom.AdmitsExactly(hash, n, nHash, Keys(es), key);
  }

  /** The filter never hides a key of the table. */
  lemma FilterAdmits(hash: Bloom.Hash, es: Run, empty: Bloom.Filter, key: Key)
    requires Find(es, key).Some? && empty.bits != []
    ensures Bloom.Admits(hash, Bloom.WithKeys(hash, empty, Keys(es)), key)
  {
    hide Bloom.Admits, Bloom.WithKeys;
    var i := FindSome(es, key);
    Bloom.NoFalseNegatives(hash, empty, Keys(es), i);
  }

  lemma TableFileStarts(c: Codec, blocks: seq<Run>, bloom: Bloom.Filter, count: nat) returns (rest: ByteString)
    ensures TableFile(c, blocks, bloom, count) == DataBytes(c, blocks) + rest
  {
    hide DataBytes, EncodeIndex, EncodeFooter, IndexFor, Bloom.Encode;
    var data, index, filter := DataBytes(c, blocks), EncodeIndex(IndexFor(c, blocks)), Bloom.Encode(bloom);
    var foot := EncodeFooter(Handle(|data|, |index|), Handle(|data| + |index|, |filter|), count);
    rest := index + filter + foot;
    assert data + index + filter + foot == data + (index + filter + foot);
  }

  /**
   A lookup in a written table agrees with its entries, tombstones apart from empty values, for
   every compressor, hash, block size and filter size.
   */
  lemma TableGet(c: Codec, hash: Bloom.Hash, es: Run, blockSize: nat, empty: Bloom.Filter, key: Key)
    requires CodecOk(c) && Sorted(es) && TableFits(c, hash, es, blockSize, empty) && empty.bits != []
    requires BlocksReadable(c, Split(es, blockSize, [], 0))
    ensures var r := Open(Written(c, hash, es, blockSize, empty));
            r.Some? && Lookup(c, hash, r.value, key) == AnswerOf(Find(es, key))
  {
    hide CodecOk, Sorted, RunFits, BlocksReadable, Open, TableFile, Split, DataBytes, BlockBytes, Scan, ReadBlock, Bloom.Admits,
      Bloom.WithKeys, FirstBlock, Less, EntryAt;
    var blocks := Split(es, blockSize, [], 0);
    SplitFlattens(es, blockSize, [], 0);
    assert [] + es == es;
    TableOpens(c, hash, es, blockSize, empty);
    var bloom := Bloom.WithKeys(hash, empty, Keys(es));
    var index := IndexFor(c, blocks);
    if Bloom.Admits(hash, bloom, key) {
      var i := FirstBlock(index, key, 0);
      FirstBlockFacts(index, key, 0);
      forall j | 0 <= j < |blocks| ensures index[j].key == LastKey(blocks[j]) { IndexKey(c, blocks, j); }
      BlockDecides(blocks, key, i);
      if i < |blocks| {
        var rest := TableFileStarts(c, blocks, bloom, |es|);
        BlockReadBack(c, blocks, i, rest);
        ReadableAt(c, blocks, i);
        BlockSorted(blocks, i);
        FlattenFits(blocks, i);
        ScanFinds(blocks[i], key);
      }
    } else if Find(es, key).Some? {
      FilterAdmits(hash, es, empty, key);
      assert false;
    }
  }

  lemma ReadableAt(c: Codec, blocks: seq<Run>, i: nat)
    requires BlocksReadable(c, blocks) && i < |blocks|
    ensures Readable(c, BlockBytes(blocks[i]))
  {
  }

  lemma IndexKey(c: Codec, blocks: seq<Run>, i: nat)
    requires i < |blocks|
    ensures IndexFor(c, blocks)[i].key == LastKey(blocks[i])
  {
    hide Stored, DataBytes, BlockBytes;
  }

  lemma OwnBlock(blocks: seq<Run>, i: nat, key: Key)
    requires NoEmpty(blocks) && Sorted(Flatten(blocks)) && i < |blocks| && Find(blocks[i], key).Some?
    ensures !Less(LastKey(blocks[i]), key) && forall x :: 0 <= x < i ==> Less(LastKey(blocks[x]), key)
  {
    hide Less, Flatten;
    KeysOrdered();
    BlockSorted(blocks, i);
    var y := FindSome(blocks[i], key);
    if y < |blocks[i]| - 1 { assert Less(blocks[i][y].key, blocks[i][|blocks[i]| - 1].key); }
    forall x | 0 <= x < i ensures Less(LastKey(blocks[x]), key) {
      BlocksSorted(blocks, x, i);
      assert blocks[i][y] in blocks[i];
    }
  }

  /**
   The reader decompresses into a buffer of fixed size. The keys of a compressed block that is
   larger than it cannot be read: every lookup of one fails.
   */
  lemma LargeBlockLost(c: Codec, hash: Bloom.Hash, es: Run, blockSize: nat, empty: Bloom.Filter, i: nat, key: Key)
    requires CodecOk(c) && Sorted(es) && TableFits(c, hash, es, blockSize, empty) && empty.bits != []
    requires var blocks := Split(es, blockSize, [], 0);
             i < |blocks| && !Readable(c, BlockBytes(blocks[i])) && Find(blocks[i], key).Some?
    ensures var r := Open(Written(c, hash, es, blockSize, empty)); r.Some? && Lookup(c, hash, r.value, key) == Damaged
  {
    hide CodecOk, Sorted, RunFits, Open, TableFile, Split, DataBytes, BlockBytes, Scan, ReadBlock, Bloom.Admits, Bloom.WithKeys,
      FirstBlock, Less, EntryAt, Readable, Find;
    var blocks := Split(es, blockSize, [], 0);
    SplitFlattens(es, blockSize, [], 0);
    assert [] + es == es;
    TableOpens(c, hash, es, blockSize, empty);
    var index := IndexFor(c, blocks);
    forall x | 0 <= x < |blocks| ensures index[x].key == LastKey(blocks[x]) { IndexKey(c, blocks, x); }
    OwnBlock(blocks, i, key);
    FirstBlockIs(index, key, 0, i);
    BlockDecides(blocks, key, i);
    FilterAdmits(hash, es, empty, key);
    var rest := TableFileStarts(c, blocks, Bloom.WithKeys(hash, empty, Keys(es)), |es|);
    BlockReadBack(c, blocks, i, rest);
  }

  // ---- which tables can be read whole

  lemma BlockSize(es: Run, e: KV)
    ensures |BlockBytes(es + [e])| == |BlockBytes(es)| + Cost(e)
  {
    hide EncodeKV;
    assert (es + [e])[..|es|] == es;
  }

  /** A block ends with the entry that takes it to its size. */
  lemma {:induction false} BlocksBounded(es: Run, blockSize: nat, cur: Run, limit: nat, i: nat)
    requires blockSize <= limit && forall e :: e in es ==> blockSize + Cost(e) <= limit
    requires (cur == [] || |BlockBytes(cur)| < blockSize) && i < |Split(es, blockSize, cur, |BlockBytes(cur)|)|
    ensures |BlockBytes(Split(es, blockSize, cur, |BlockBytes(cur)|)[i])| <= limit
    decreases |es|
  {
    hide Cost, BlockBytes;
    if es != [] {
      BlockSize(cur, es[0]);
      assert es[0] in es;
      var cur' := cur + [es[0]];
      NoBytes();
      if |BlockBytes(cur')| >= blockSize {
        if i > 0 { BlocksBounded(es[1..], blockSize, [], limit, i - 1); }
      } else {
        BlocksBounded(es[1..], blockSize, cur', limit, i);
      }
    }
  }

  lemma NoBytes()
    ensures |BlockBytes([])| == 0
  {
  }

  /** If no entry takes a block beyond the reader's buffer, every block can be read, whatever the compressor does. */
  lemma SmallEntriesReadable(c: Codec, es: Run, blockSize: nat)
    requires forall e :: e in es ==> blockSize + Cost(e) <= DECOMPRESS_LIMIT
    ensures BlocksReadable(c, Split(es, blockSize, [], 0))
  {
    hide Cost, BlockBytes, Shrinks;
    NoBytes();
    var blocks := Split(es, blockSize, [], 0);
    if es != [] {
      assert es[0] in es;
      forall i | 0 <= i < |blocks| ensures Readable(c, BlockBytes(blocks[i])) {
        BlocksBounded(es, blockSize, [], DECOMPRESS_LIMIT, i);
      }
    }
  }

  /** What can be read of the blocks one after another: those before the first that cannot. */
  function Leading(c: Codec, blocks: seq<Run>): Run {
    if blocks == [] || !Readable(c, BlockBytes(blocks[0])) then [] else blocks[0] + Leading(c, blocks[1..])
  }

  /** The entries that can be read in order begin the table, and are all of it exactly if every block can be read. */
  lemma {:induction false} LeadingIs(c: Codec, blocks: seq<Run>)
    requires NoEmpty(blocks)
    ensures Leading(c, blocks) <= Flatten(blocks)
    ensures Leading(c, blocks) == Flatten(blocks) <==> BlocksReadable(c, blocks)
  {
    hide Readable, BlockBytes;
    if blocks != [] {
      var rest := blocks[1..];
      LeadingIs(c, rest);
      if Readable(c, BlockBytes(blocks[0])) {
        assert BlocksReadable(c, blocks) <==> BlocksReadable(c, rest) by {
          assert forall i :: 1 <= i < |blocks| ==> blocks[i] == rest[i - 1];
        }
        if Leading(c, blocks) == Flatten(blocks) {
          assert Leading(c, rest) == Leading(c, blocks)[|blocks[0]|..] == Flatten(rest);
        }
      }
    }
  }
}
