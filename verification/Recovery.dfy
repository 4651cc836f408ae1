/**
 Recovery of the log: read what can be read, and if anything was wrong rewrite the file with
 exactly that (internal/wal/recovery.go).
 */
module Recovery {
  import opened Bytes
  import opened WalFormat
  import opened WalRoundTrip
  import opened WalDamage
  import opened WalFiles
  import opened Batches

  /** The fields of a recovery result, with the source's markers -1 and 1. */
  datatype Result = Result(batches: seq<Batch>, corruptedAt: int, truncatedAt: int, recordsRead: nat, recordsLost: nat)

  function ResultOf(batches: seq<Batch>, damaged: bool): Result {
    var mark := if damaged then 1 else -1;
    Result(batches, mark, mark, |batches|, if damaged then 1 else 0)
  }

  /** The batches read from p on, and whether damage stopped the reading. */
  function ReadBatches(crc: Crc, f: ByteString, p: nat): (seq<Batch>, bool)
    requires p <= |f|
    decreases |f| - p
  {
    var (o, p') := ReadAt(crc, f, p, false, []);
    if o.Eof? then ([], false)
    else if !o.Record? then ([], true)
    else
      var b := DecodeBatch(o.data);
      if b.None? then ([], true)
      else
        var (rest, damaged) := ReadBatches(crc, f, p');
        ([b.value] + rest, damaged)
  }

  function EncodeAll(bs: seq<Batch>): (r: seq<ByteString>)
    ensures |r| == |bs|
  {
    seq(|bs|, i requires 0 <= i < |bs| => EncodeBatch(bs[i]))
  }

  /** A fresh log of the batches. */
  function LogOf(crc: Crc, bs: seq<Batch>): ByteString {
    EmitAll(crc, [], EncodeAll(bs))
  }

  /** What recovery returns, and the file it leaves; leftover is an earlier temporary file's content. */
  function Recovered(crc: Crc, f: ByteString, leftover: ByteString): (Result, ByteString) {
    var (bs, damaged) := ReadBatches(crc, f, 0);
    (ResultOf(bs, damaged), if damaged then leftover + LogOf(crc, bs) else f)
  }

  /** Batches that come back from their encoding. */
  ghost predicate Reencodes(bs: seq<Batch>) {
    forall i :: 0 <= i < |bs| ==> DecodeBatch(EncodeBatch(bs[i])) == Some(bs[i])
  }

  /** If the records decode, the batches are their decodings. */
  lemma {:induction false} ReadBatchesIs(crc: Crc, f: ByteString, p: nat, bs: seq<Batch>)
    requires p <= |f| && ReadAll(crc, f, p) == (EncodeAll(bs), Eof)
    requires Reencodes(bs)
    ensures ReadBatches(crc, f, p) == (bs, false)
    decreases |f| - p
  {
    hide ReadAt, DecodeBatch, EncodeBatch;
    var (o, p') := ReadAt(crc, f, p, false, []);
    if o.Record? {
      var rest := ReadAll(crc, f, p').0;
      assert EncodeAll(bs)[0] == o.data && EncodeAll(bs)[1..] == rest;
      assert EncodeAll(bs[1..]) == rest;
      ReadBatchesIs(crc, f, p', bs[1..]);
      assert bs == [bs[0]] + bs[1..];
    }
  }

  lemma {:induction false} ReadBatchesReencode(crc: Crc, f: ByteString, p: nat)
    requires p <= |f|
    ensures Reencodes(ReadBatches(crc, f, p).0)
    decreases |f| - p
  {
    hide ReadAt, DecodeBatch, EncodeBatch;
    var (o, p') := ReadAt(crc, f, p, false, []);
    if o.Record? && DecodeBatch(o.data).Some? {
      var b := DecodeBatch(o.data).value;
      DecodedReencodes(o.data, b);
      ReadBatchesReencode(crc, f, p');
      var rest := ReadBatches(crc, f, p').0;
      forall i | 0 <= i < |[b] + rest| ensures DecodeBatch(EncodeBatch(([b] + rest)[i])) == Some(([b] + rest)[i]) {
        if i > 0 { assert ([b] + rest)[i] == rest[i - 1]; }
      }
    }
  }

  /** A fresh log of batches that survive encoding reads back whole and undamaged. */
  lemma LogReadsBack(crc: Crc, bs: seq<Batch>)
    requires Reencodes(bs)
    ensures ReadBatches(crc, LogOf(crc, bs), 0) == (bs, false)
  {
    hide ReadAll, EmitAll, EncodeAll, ReadBatches, DecodeBatch, EncodeBatch;
    RoundTrip(crc, EncodeAll(bs));
    ReadBatchesIs(crc, LogOf(crc, bs), 0, bs);
  }

  /** bs are the batches of the records before the first that is none, and damage is that one or what stopped the reader. */
  ghost predicate DecodedUpTo(recs: seq<ByteString>, last: Outcome, bs: seq<Batch>, damaged: bool) {
    && |bs| <= |recs| && (forall i :: 0 <= i < |bs| ==> DecodeBatch(recs[i]) == Some(bs[i]))
    && if |bs| < |recs| then damaged && DecodeBatch(recs[|bs|]).None? else damaged == !last.Eof?
  }

  lemma {:induction false} ReadBatchesDecode(crc: Crc, f: ByteString, p: nat)
    requires p <= |f|
    ensures var (recs, last) := ReadAll(crc, f, p);
            var (bs, damaged) := ReadBatches(crc, f, p);
            DecodedUpTo(recs, last, bs, damaged)
    decreases |f| - p
  {
    hide ReadAt, DecodeBatch;
    var (o, p') := ReadAt(crc, f, p, false, []);
    if o.Record? {
      ReadBatchesDecode(crc, f, p');
      var (rest, last) := ReadAll(crc, f, p');
      var (more, damaged) := ReadBatches(crc, f, p');
      if DecodeBatch(o.data).Some? {
        var b := DecodeBatch(o.data).value;
        forall i | 0 <= i < |[b] + more| ensures DecodeBatch(([o.data] + rest)[i]) == Some(([b] + more)[i]) {
          if i > 0 { assert ([o.data] + rest)[i] == rest[i - 1] && ([b] + more)[i] == more[i - 1]; }
        }
        if |more| < |rest| { assert ([o.data] + rest)[|more| + 1] == rest[|more|]; }
      }
    }
  }

  /**
   On every file, recovery returns the batches of the records the reader returns, up to the first
   that does not decode, and it reports damage unless all decode and the file ended with the last.
   */
  lemma RecoveredAreDecoded(crc: Crc, f: ByteString, leftover: ByteString)
    ensures var (recs, last) := ReadAll(crc, f, 0);
            var result := Recovered(crc, f, leftover).0;
            && DecodedUpTo(recs, last, result.batches, result.corruptedAt == 1) && result.recordsRead == |result.batches|
            && result.truncatedAt == result.corruptedAt && (result.recordsLost == 1 <==> result.corruptedAt == 1)
            && (result.corruptedAt != 1 ==> Recovered(crc, f, leftover).1 == f)
  {
    hide ReadAll, ReadBatches, DecodeBatch;
    ReadBatchesDecode(crc, f, 0);
  }

  /** The undamaged part decides what is recovered when all of it decodes. */
  lemma DecodedPrefix(all: seq<Batch>, m: nat, last: Outcome, bs: seq<Batch>, damaged: bool)
    requires Reencodes(all) && m <= |all| && DecodedUpTo(EncodeAll(all)[..m], last, bs, damaged)
    ensures bs == all[..m] && damaged == !last.Eof?
  {
    hide DecodeBatch, EncodeBatch;
    var recs := EncodeAll(all)[..m];
    assert forall i :: 0 <= i < m ==> recs[i] == EncodeBatch(all[i]) && DecodeBatch(recs[i]) == Some(all[i]);
  }

  /**
   A log in which the payload of a fragment of batch m is changed, to one of the same length with
   another sum, is recovered as the batches before it, and the rewritten log holds exactly those.
   */
  lemma DamagedRecovery(crc: Crc, all: seq<Batch>, m: nat, x: Piece, f: ByteString)
    requires Reencodes(all) && m < |all| && WrittenAs(crc, LogOf(crc, all[..m]), EncodeBatch(all[m]), true, x)
    requires DamagedAt(crc, LogOf(crc, all), f, x)
    ensures Recovered(crc, f, []) == (ResultOf(all[..m], true), LogOf(crc, all[..m]))
  {
    hide ReadAll, ReadBatches, DecodeBatch, EncodeBatch, EmitAll, WrittenAs, DamagedAt, DecodedUpTo, Reencodes;
    var recs := EncodeAll(all);
    assert recs[..m] == EncodeAll(all[..m]) && recs[m] == EncodeBatch(all[m]);
    DamagedLog(crc, recs, m, x, f);
    ReadBatchesDecode(crc, f, 0);
    var (bs, damaged) := ReadBatches(crc, f, 0);
    DecodedPrefix(all, m, Corrupt, bs, damaged);
    assert [] + LogOf(crc, all[..m]) == LogOf(crc, all[..m]);
  }

  /**
   Recovery is idempotent on every file content, however damaged: a second recovery returns the
   same batches, finds no damage and leaves the file alone.
   */
  lemma RecoveryIdempotent(crc: Crc, f: ByteString)
    ensures var (result, f') := Recovered(crc, f, []);
            Recovered(crc, f', []) == (ResultOf(result.batches, false), f')
  {
    hide ReadBatches, LogOf, DecodeBatch, EncodeBatch;
    var (bs, damaged) := ReadBatches(crc, f, 0);
    if damaged {
      ReadBatchesReencode(crc, f, 0);
      LogReadsBack(crc, bs);
      assert [] + LogOf(crc, bs) == LogOf(crc, bs);
    }
  }

  /** A log that comes first in a file is read first, whatever follows it. */
  lemma {:induction false} LogFirst(crc: Crc, f: ByteString, s: ByteString, bs: seq<Batch>)
    requires Reencodes(bs) && EmitAll(crc, s, EncodeAll(bs)) <= f
    ensures |s| <= |f| && ReadBatches(crc, f, |s|) == Prepend(bs, ReadBatches(crc, f, |EmitAll(crc, s, EncodeAll(bs))|))
    decreases |bs|
  {
    hide ReadAt, DecodeBatch, EncodeBatch, Emit;
    var recs := EncodeAll(bs);
    EmitAllExtends(crc, s, recs);
    if bs == [] {
      assert recs == [];
      PrependNothing(ReadBatches(crc, f, |s|));
    } else {
      var s' := Emit(crc, s, recs[0], true);
      assert recs[1..] == EncodeAll(bs[1..]);
      EmitAllExtends(crc, s', recs[1..]);
      ReadEmitted(crc, f, s, recs[0], true, []);
      assert [] + recs[0] == recs[0];
      LogFirst(crc, f, s', bs[1..]);
      var end := ReadBatches(crc, f, |EmitAll(crc, s, recs)|);
      assert [bs[0]] + (bs[1..] + end.0) == bs + end.0;
    }
  }

  /**
   The temporary file is opened for appending, so one left over from an interrupted recovery comes
   first in the rewritten log. Whatever batches the leftover begins with, the next recovery returns
   them before all others; it disagrees with the one that rewrote the log unless they are also what
   that one began with.
   */
  lemma LeftoverComesFirst(crc: Crc, f: ByteString, left: seq<Batch>, leftover: ByteString)
    requires ReadBatches(crc, f, 0).1 && Reencodes(left) && LogOf(crc, left) <= leftover
    ensures var (first, f') := Recovered(crc, f, leftover);
            var second := Recovered(crc, f', []).0;
            && |LogOf(crc, left)| <= |f'|
            && second.batches == left + ReadBatches(crc, f', |LogOf(crc, left)|).0
            && (second.batches == first.batches ==> left <= first.batches)
  {
    hide ReadBatches, DecodeBatch, EncodeBatch, EmitAll;
    var f' := Recovered(crc, f, leftover).1;
    LogFirst(crc, f', [], left);
  }

  /** m batches of the log are wholly in its first n bytes, and no more. */
  ghost predicate BatchesIn(crc: Crc, all: seq<Batch>, n: nat, m: nat) {
    && m <= |all| && |LogOf(crc, all[..m])| <= n <= |LogOf(crc, all)|
    && (m < |all| ==> n < |LogOf(crc, all[..m + 1])|)
  }

  lemma LogSnoc(crc: Crc, all: seq<Batch>, m: nat)
    requires m < |all|
    ensures LogOf(crc, all[..m + 1]) == Emit(crc, LogOf(crc, all[..m]), EncodeBatch(all[m]), true)
    ensures LogOf(crc, all[..m + 1]) <= LogOf(crc, all)
  {
    hide Emit, EncodeBatch;
    var a, b := EncodeAll(all[..m]), EncodeAll(all[m + 1..]);
    var r: ByteString := EncodeBatch(all[m]);
    var one: seq<ByteString> := [r];
    assert EncodeAll(all[..m + 1]) == a + [r];
    EmitAllSplit(crc, [], a, one);
    assert one[1..] == [];
    assert EmitAll(crc, Emit(crc, LogOf(crc, all[..m]), r, true), []) == Emit(crc, LogOf(crc, all[..m]), r, true);
    assert EncodeAll(all) == a + [r] + b;
    EmitAllSplit(crc, [], a + [r], b);
    EmitAllExtends(crc, LogOf(crc, all[..m + 1]), b);
  }

  lemma LogWhole(crc: Crc, all: seq<Batch>, n: nat, m: nat)
    requires BatchesIn(crc, all, n, m)
    ensures LogOf(crc, all[..m]) <= LogOf(crc, all)[..n]
    ensures m < |all| ==> LogOf(crc, all)[..n] < Emit(crc, LogOf(crc, all[..m]), EncodeBatch(all[m]), true)
    ensures m == |all| ==> LogOf(crc, all)[..n] == LogOf(crc, all[..m])
  {
    hide LogOf, Emit, EncodeBatch;
    if m < |all| {
      LogSnoc(crc, all, m);
      EmitExtends(crc, LogOf(crc, all[..m]), EncodeBatch(all[m]), true);
    } else {
      assert all[..m] == all;
    }
  }

  /** The leftover ends between two of its records. */
  predicate EndsBetween(crc: Crc, left: seq<Batch>, n: nat) {
    n <= |Padded(LogOf(crc, left))|
  }

  /** Behind blocks that end between records, the new log is read on. */
  lemma BetweenRecords(crc: Crc, pre: ByteString, s: ByteString, bs: seq<Batch>)
    requires Reencodes(bs) && |pre| % BLOCK == 0 && s <= pre <= Padded(s)
    ensures var f := pre + LogOf(crc, bs); |s| <= |f| && ReadBatches(crc, f, |s|) == (bs, false)
  {
    hide DecodeBatch, EncodeBatch, EmitAll;
    var f := pre + LogOf(crc, bs);
    EmitAllShift(crc, pre, [], EncodeAll(bs));
    assert pre + [] == pre;
    LogFirst(crc, f, pre, bs);
    NothingLeft(crc, f);
    assert bs + [] == bs;
    if pre != s {
      BoundaryBehind(s, pre);
      SkipsPadding(crc, f, s);
    }
  }

  lemma BoundaryBehind(s: ByteString, pre: ByteString)
    requires s < pre <= Padded(s) && |pre| % BLOCK == 0
    ensures pre == Padded(s)
  {
  }

  lemma SkipsPadding(crc: Crc, f: ByteString, s: ByteString)
    requires Padded(s) <= f
    ensures ReadBatches(crc, f, |s|) == ReadBatches(crc, f, |Padded(s)|)
  {
    hide DecodeBatch, ReadAt;
    if |Padded(s)| < |f| {
      ReadSkipsPadding(crc, f, s, false, []);
    } else {
      TornPadding(crc, f, s, false, []);
      NothingLeft(crc, f);
    }
  }

  lemma NothingLeft(crc: Crc, f: ByteString)
    ensures ReadBatches(crc, f, |f|) == ([], false)
  {
  }

  /**
   Blocks are written whole, so an interrupted recovery leaves the first whole blocks of its log.
   If they end between two records, the next recovery returns the leftover's batches and then those
   of the log that was rewritten. If they end inside a record, it returns the whole batches of the
   leftover only: the record is not completed, and all that was rewritten behind it is lost.
   */
  lemma LeftoverOfWholeBlocks(crc: Crc, f: ByteString, all: seq<Batch>, n: nat, m: nat)
    requires ReadBatches(crc, f, 0).1 && Reencodes(all) && BatchesIn(crc, all, n, m) && n % BLOCK == 0
    ensures var (first, f') := Recovered(crc, f, LogOf(crc, all)[..n]);
            var second := Recovered(crc, f', []).0;
            second == if EndsBetween(crc, all[..m], n) then ResultOf(all[..m] + first.batches, false) else ResultOf(all[..m], true)
  {
    hide ReadBatches, DecodeBatch, EncodeBatch, LogOf, Emit, Padded;
    var bs, pre, s := ReadBatches(crc, f, 0).0, LogOf(crc, all)[..n], LogOf(crc, all[..m]);
    var f' := pre + LogOf(crc, bs);
    ReadBatchesReencode(crc, f, 0);
    LogWhole(crc, all, n, m);
    LogFirstOf(crc, f', all[..m]);
    if EndsBetween(crc, all[..m], n) {
      BetweenPrefix(crc, all, n, m);
      BetweenRecords(crc, pre, s, bs);
    } else {
      InsidePrefix(crc, all, n, m);
      InsideRecord(crc, pre, s, EncodeBatch(all[m]), bs);
      assert all[..m] + [] == all[..m];
    }
  }

  lemma LogFirstOf(crc: Crc, f: ByteString, bs: seq<Batch>)
    requires Reencodes(bs) && LogOf(crc, bs) <= f
    ensures ReadBatches(crc, f, 0) == Prepend(bs, ReadBatches(crc, f, |LogOf(crc, bs)|))
  {
    hide ReadBatches, DecodeBatch, EncodeBatch, EmitAll;
    LogFirst(crc, f, [], bs);
  }

  lemma BetweenPrefix(crc: Crc, all: seq<Batch>, n: nat, m: nat)
    requires BatchesIn(crc, all, n, m) && EndsBetween(crc, all[..m], n)
    ensures LogOf(crc, all)[..n] <= Padded(LogOf(crc, all[..m]))
  {
    hide LogOf, EncodeBatch, Padded;
    LogWhole(crc, all, n, m);
    if m < |all| { PaddedFirst(crc, LogOf(crc, all[..m]), EncodeBatch(all[m])); }
  }

  lemma InsidePrefix(crc: Crc, all: seq<Batch>, n: nat, m: nat)
    requires BatchesIn(crc, all, n, m) && !EndsBetween(crc, all[..m], n)
    ensures m < |all| && Padded(LogOf(crc, all[..m])) < LogOf(crc, all)[..n]
  {
    hide LogOf, EncodeBatch, Padded;
    LogWhole(crc, all, n, m);
    if m < |all| { PaddedFirst(crc, LogOf(crc, all[..m]), EncodeBatch(all[m])); }
  }

  lemma PaddedFirst(crc: Crc, s: ByteString, rec: ByteString)
    ensures Padded(s) <= Emit(crc, s, rec, true)
  {
    hide Padded, Room, FragLen;
    var n, s' := FragLen(s, rec), EmitOne(crc, s, rec, true);
    if n != |rec| { EmitExtends(crc, s', rec[n..], false); }
  }

  lemma InsideRecord(crc: Crc, pre: ByteString, s: ByteString, rec: ByteString, bs: seq<Batch>)
    requires Padded(s) < pre < Emit(crc, s, rec, true) && |pre| % BLOCK == 0
    ensures var f := pre + LogOf(crc, bs); |s| <= |f| && ReadBatches(crc, f, |s|) == ([], true)
  {
    hide ReadAt, DecodeBatch, Emit, EmitAll, Padded;
    CutRecord(crc, pre, EncodeAll(bs), s, rec, true, []);
  }

  // ---- an input on which a leftover makes recovered batches disappear

  function Small(): Batch {
    [Entry(1, [1], None)]
  }

  /** A batch of more than one block. */
  function Big(): Batch {
    [Entry(1, [], Some(seq(40000, i => 1)))]
  }

  lemma ExampleBatches()
    ensures |EncodeBatch(Small())| == 14 && |EncodeBatch(Big())| == 40013 && Reencodes([Small(), Big()])
  {
    hide PutLE, DecodeBatch;
    var a, b := Small(), Big();
    assert a[..0] == [] && b[..0] == [] && EncodeEntries([]) == [];
    BatchRoundTrip(a, []);
    BatchRoundTrip(b, []);
    assert EncodeBatch(a) + [] == EncodeBatch(a) && EncodeBatch(b) + [] == EncodeBatch(b);
    assert CanonicalBatch(a) == a && CanonicalBatch(b) == b;
  }

  lemma EmptyLog(crc: Crc)
    ensures LogOf(crc, []) == []
  {
  }

  /** The first block of either log ends inside the big batch. */
  lemma OneCut(crc: Crc)
    ensures BatchesIn(crc, [Big()], BLOCK, 0) && !EndsBetween(crc, [], BLOCK)
  {
    hide Emit, EncodeBatch, LogOf, Small, Big, Padded, Room;
    ExampleBatches();
    EmptyLog(crc);
    RoomAtStart();
    var one := [Big()];
    assert one[..0] == [] && one[..1] == one;
    LogSnoc(crc, one, 0);
    EmitAtLeast(crc, [], EncodeBatch(Big()), true);
  }

  lemma TwoLogs(crc: Crc, a: Batch, b: Batch)
    ensures LogOf(crc, [a]) == Emit(crc, [], EncodeBatch(a), true)
    ensures LogOf(crc, [a, b]) == Emit(crc, LogOf(crc, [a]), EncodeBatch(b), true)
  {
    hide Emit, EncodeBatch, LogOf;
    EmptyLog(crc);
    var two := [a, b];
    assert two[..0] == [] && two[..1] == [a] && two[..2] == two;
    LogSnoc(crc, two, 0);
    LogSnoc(crc, two, 1);
  }

  lemma TwoCut(crc: Crc)
    ensures BatchesIn(crc, [Small(), Big()], BLOCK, 1) && !EndsBetween(crc, [Small()], BLOCK)
  {
    hide Emit, EncodeBatch, LogOf, Small, Big, Padded, Room, Reencodes;
    var a, b := Small(), Big();
    ExampleBatches();
    TwoLogs(crc, a, b);
    SmallLength(crc, EncodeBatch(a));
    EmitAtLeast(crc, LogOf(crc, [a]), EncodeBatch(b), true);
    assert [a, b][..1] == [a] && [a, b][..2] == [a, b];
  }

  lemma SmallLength(crc: Crc, rec: ByteString)
    requires |rec| == 14
    ensures |Emit(crc, [], rec, true)| == 21 && Padded(Emit(crc, [], rec, true)) == Emit(crc, [], rec, true)
  {
    hide Fragment;
  }

  /** The first recovery returns a batch that the second one, after the leftover, does not. */
  lemma LeftoverLosesBatch(crc: Crc)
    ensures BLOCK <= |LogOf(crc, [Small(), Big()])| && BLOCK <= |LogOf(crc, [Big()])|
    ensures var (first, f') := Recovered(crc, LogOf(crc, [Small(), Big()])[..BLOCK], LogOf(crc, [Big()])[..BLOCK]);
            first.batches == [Small()] && Recovered(crc, f', []).0.batches == []
  {
    hide ReadBatches, LogOf, EncodeBatch, DecodeBatch, Padded, Emit, Small, Big, EndsBetween;
    ExampleBatches();
    OneCut(crc);
    TwoCut(crc);
    var one, two := [Big()], [Small(), Big()];
    assert two[..1] == [Small()] && one[..0] == [] && Reencodes(one) by { assert two[1] == one[0]; }
    var f := LogOf(crc, two)[..BLOCK];
    LogWhole(crc, two, BLOCK, 1);
    InsidePrefix(crc, two, BLOCK, 1);
    InsideRecord(crc, f, LogOf(crc, [Small()]), EncodeBatch(two[1]), []);
    EmptyLog(crc);
    assert f + [] == f;
    assert Reencodes([Small()]) by { assert [Small()][0] == two[0]; }
    LogFirstOf(crc, f, [Small()]);
    assert [Small()] + [] == [Small()];
    LeftoverOfWholeBlocks(crc, f, one, BLOCK, 0);
  }

  // ---- the procedure

  /** Reads batches until the end or the first damage. */
  method ReadLog(crc: Crc, f: ByteString) returns (bs: seq<Batch>, damaged: bool)
    ensures (bs, damaged) == ReadBatches(crc, f, 0)
  {
    hide ReadAt, DecodeBatch, ReadBatches, Prepend, Reader.Valid, Reader.At;
    var reader := new Reader(f);
    bs, damaged := [], false;
    ghost var total := ReadBatches(crc, f, 0);
    PrependNothing(total);
    while true
      invariant reader.Valid() && reader.file == f && fresh(reader) && fresh(reader.blockBuf)
      invariant total == Prepend(bs, ReadBatches(crc, f, reader.At()))
      decreases |f| - reader.At()
    {
      ReadBatchesStep(crc, f, reader.At(), bs);
      var o := reader.ReadRecord(crc);
      if o.Eof? { return; }
      if !o.Record? { return bs, true; }
      var b := Decode(o.data);
      if b.None? { return bs, true; }
      bs := bs + [b.value];
    }
  }

  function Prepend(bs: seq<Batch>, r: (seq<Batch>, bool)): (seq<Batch>, bool) {
    (bs + r.0, r.1)
  }

  lemma PrependNothing(r: (seq<Batch>, bool))
    ensures Prepend([], r) == r
  {
    assert [] + r.0 == r.0;
  }

  lemma ReadBatchesStep(crc: Crc, f: ByteString, p: nat, bs: seq<Batch>)
    requires p <= |f|
    ensures var (o, p') := ReadAt(crc, f, p, false, []);
            var r := Prepend(bs, ReadBatches(crc, f, p));
            if o.Eof? then r == (bs, false)
            else if !o.Record? || DecodeBatch(o.data).None? then r == (bs, true)
            else r == Prepend(bs + [DecodeBatch(o.data).value], ReadBatches(crc, f, p'))
  {
    hide ReadAt, DecodeBatch;
    var (o, p') := ReadAt(crc, f, p, false, []);
    assert bs + [] == bs;
    if o.Record? && DecodeBatch(o.data).Some? {
      var b, rest := DecodeBatch(o.data).value, ReadBatches(crc, f, p').0;
      assert bs + ([b] + rest) == bs + [b] + rest;
    }
  }

  lemma SingleTail(r: ByteString)
    ensures [r][1..] == []
  {
  }

  /** Writes the batches to a new log, and syncs it once at the end. */
  method WriteLog(crc: Crc, bs: seq<Batch>) returns (f: ByteString)
    ensures f == LogOf(crc, bs)
  {
    hide Emit, EncodeBatch;
    var w := new Writer();
    var i := 0;
    ghost var all := EncodeAll(bs);
    assert all[..0] == [];
    while i < |bs|
      invariant 0 <= i <= |bs| && w.Valid() && !w.closed && fresh(w) && fresh(w.blockBuf) && w.synced == 0
      invariant w.Recent() == EmitAll(crc, [], all[..i])
    {
      var buf := Encode(bs[i]);
      assert all[..i + 1] == all[..i] + [all[i]];
      EmitAllSplit(crc, [], all[..i], [all[i]]);
      assert EmitAll(crc, EmitAll(crc, [], all[..i]), [all[i]]) == Emit(crc, EmitAll(crc, [], all[..i]), all[i], true) by {
        SingleTail(all[i]);
      }
      var ok := w.Append(crc, buf[..]);
      i := i + 1;
    }
    assert all[..i] == all;
    assert w.file[0..] == w.file;
    var ok := w.Sync();
    f := w.file;
    w.Close();
  }

  /** Recover: a missing log is an empty result. */
  method Recover(crc: Crc, f: Option<ByteString>, leftover: ByteString) returns (res: Result, f': Option<ByteString>)
    ensures f.None? ==> res == ResultOf([], false) && f'.None?
    ensures f.Some? ==> f'.Some? && (res, f'.value) == Recovered(crc, f.value, leftover)
  {
    hide ReadBatches, LogOf;
    if f.None? { return ResultOf([], false), None; }
    var bs, damaged := ReadLog(crc, f.value);
    res := Result(bs, -1, -1, |bs|, 0);
    f' := f;
    if damaged {
      var log := WriteLog(crc, bs);
      f' := Some(leftover + log);
      res := res.(corruptedAt := 1, recordsLost := 1, truncatedAt := 1);
    }
  }
}
