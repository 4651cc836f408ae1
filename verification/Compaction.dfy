/**
 One compaction: merging the input tables, dropping versions no snapshot can read, and splitting
 what is left into new tables (internal/lsm/compaction.go, Execute).
 */
module Compaction {
  import opened Bytes
  import opened KeyOrder
  import opened SortedLists
  import opened MergeIterator

  /** A table file: its number, its size on disk, its recorded key range and its entries. */
  datatype Table = Table(num: nat, size: nat, smallest: Key, largest: Key, entries: Run)

  /** The recorded range is exact: the first and the last key. */
  predicate TableOk(t: Table) {
    && t.entries != [] && Sorted(t.entries)
    && t.smallest == t.entries[0].key && t.largest == t.entries[|t.entries| - 1].key
  }

  function Runs(ts: seq<Table>): (r: seq<Run>)
    ensures |r| == |ts|
  {
    seq(|ts|, i requires 0 <= i < |ts| => ts[i].entries)
  }

  // ---- version pruning

  /** lastUserKey and seenOlderThanMinActive. */
  datatype PruneState = PruneState(lastUser: ByteString, seen: bool)

  const PRUNE_START := PruneState([], false)

  /** What the merge loop remembers after the entry, and whether it writes it. */
  function PruneStep(st: PruneState, e: KV, minActive: nat, drop: bool): (PruneState, bool) {
    var (u, ts) := DecodeKey(e.key);
    var seen := u == st.lastUser && st.seen;
    if ts < minActive then
      if seen then (PruneState(u, true), false)
      else (PruneState(u, true), !(e.val.None? && drop))
    else (PruneState(u, seen), true)
  }

  /** The entries from i on that are written; thr(i) is the oldest active snapshot read at entry i. */
  function Prune(es: Run, i: nat, st: PruneState, thr: nat -> nat, drop: bool): Run
    decreases |es| - i
  {
    if i >= |es| then []
    else
      var (st', keep) := PruneStep(st, es[i], thr(i), drop);
      var rest := Prune(es, i + 1, st', thr, drop);
      if keep then [es[i]] + rest else rest
  }

  // ---- splitting into files

  /** The rough size estimate of an entry. */
  function Cost(e: KV): nat {
    |e.key| + (if e.val.Some? then |e.val.value| else 0) + 8
  }

  /** Cuts a run into files: one is finished as soon as its estimate reaches the target. */
  function Split(es: Run, target: nat, cur: Run, size: nat): seq<Run>
    decreases |es|
  {
    if es == [] then (if cur == [] then [] else [cur])
    else
      var cur' := cur + [es[0]];
      var size' := size + Cost(es[0]);
      if size' >= target then [cur'] + Split(es[1..], target, [], 0)
      else Split(es[1..], target, cur', size')
  }

  function Flatten(ls: seq<Run>): Run {
    if ls == [] then [] else ls[0] + Flatten(ls[1..])
  }

  /** Splitting loses nothing and reorders nothing, and no file is empty. */
  lemma {:induction false} SplitFlattens(es: Run, target: nat, cur: Run, size: nat)
    ensures Flatten(Split(es, target, cur, size)) == cur + es
    ensures forall i :: 0 <= i < |Split(es, target, cur, size)| ==> Split(es, target, cur, size)[i] != []
    decreases |es|
  {
    if es == [] {
      assert cur + es == cur;
      if cur != [] { assert [cur][1..] == []; assert Flatten([cur]) == cur + Flatten([cur][1..]); }
    } else {
      var cur', size' := cur + [es[0]], size + Cost(es[0]);
      assert cur' + es[1..] == cur + es;
      if size' >= target {
        SplitFlattens(es[1..], target, [], 0);
        var rest := Split(es[1..], target, [], 0);
        assert ([cur'] + rest)[1..] == rest;
        assert [] + es[1..] == es[1..];
      } else {
        SplitFlattens(es[1..], target, cur', size');
      }
    }
  }

  function Total(es: Run): nat {
    if es == [] then 0 else Total(es[..|es| - 1]) + Cost(es[|es| - 1])
  }

  /** A file is full at its last entry and not before it. */
  predicate Full(file: Run, target: nat) {
    file != [] && Total(file) >= target && (|file| > 1 ==> Total(file[..|file| - 1]) < target)
  }

  /** Every file but the last is cut exactly where its estimate reaches the target, and the last does not go beyond. */
  lemma {:induction false} SplitSizes(es: Run, target: nat, cur: Run, size: nat)
    requires size == Total(cur) && (cur != [] ==> size < target)
    ensures var ls := Split(es, target, cur, size);
            && (forall i :: 0 <= i < |ls| - 1 ==> Full(ls[i], target))
            && (ls != [] ==> Full(ls[|ls| - 1], target) || Total(ls[|ls| - 1]) < target)
    decreases |es|
  {
    if es != [] {
      var cur', size' := cur + [es[0]], size + Cost(es[0]);
      assert cur'[..|cur'| - 1] == cur;
      if size' >= target {
        SplitSizes(es[1..], target, [], 0);
      } else {
        SplitSizes(es[1..], target, cur', size');
      }
    }
  }

  lemma {:induction false} FlattenMembers(ls: seq<Run>, i: nat, e: KV)
    requires i < |ls| && e in ls[i]
    ensures e in Flatten(ls)
  {
    if i > 0 { FlattenMembers(ls[1..], i - 1, e); }
  }

  /** The table a finished file is recorded as. */
  function TableFor(es: Run, num: nat, sizeOf: Run -> nat): Table
    requires es != []
  {
    Table(num, sizeOf(es), es[0].key, es[|es| - 1].key, es)
  }

  /** Finished files are numbered one after another. */
  function TablesFor(ls: seq<Run>, num: nat, sizeOf: Run -> nat): (ts: seq<Table>)
    requires forall i :: 0 <= i < |ls| ==> ls[i] != []
    ensures |ts| == |ls|
    ensures forall i :: 0 <= i < |ls| ==> ts[i] == TableFor(ls[i], num + i, sizeOf)
  {
    seq(|ls|, i requires 0 <= i < |ls| => TableFor(ls[i], num + i, sizeOf))
  }

  /** The entries a compaction writes. */
  function Output(inputs: seq<Table>, thr: nat -> nat, drop: bool): Run {
    Prune(Merge(Runs(inputs)), 0, PRUNE_START, thr, drop)
  }

  /** The tables a compaction adds. */
  function Added(inputs: seq<Table>, thr: nat -> nat, drop: bool, target: nat, num: nat, sizeOf: Run -> nat): seq<Table> {
    var files := Split(Output(inputs, thr, drop), target, [], 0);
    SplitFlattens(Output(inputs, thr, drop), target, [], 0);
    TablesFor(files, num, sizeOf)
  }

  ghost predicate NoEmpty(ls: seq<Run>) {
    forall i :: 0 <= i < |ls| ==> ls[i] != []
  }

  lemma TablesForSnoc(ls: seq<Run>, es: Run, num: nat, sizeOf: Run -> nat)
    requires NoEmpty(ls) && es != []
    ensures NoEmpty(ls + [es])
    ensures TablesFor(ls + [es], num, sizeOf) == TablesFor(ls, num, sizeOf) + [TableFor(es, num + |ls|, sizeOf)]
  {
  }

  lemma PruneUnfold(es: Run, i: nat, st: PruneState, thr: nat -> nat, drop: bool)
    requires i < |es|
    ensures var (st', keep) := PruneStep(st, es[i], thr(i), drop);
            Prune(es, i, st, thr, drop) == (if keep then [es[i]] else []) + Prune(es, i + 1, st', thr, drop)
  {
    hide PruneStep;
    var (st', keep) := PruneStep(st, es[i], thr(i), drop);
    assert [] + Prune(es, i + 1, st', thr, drop) == Prune(es, i + 1, st', thr, drop);
  }

  /** Writing one more entry either goes on with the file or finishes it. */
  lemma SplitUnfold(files: seq<Run>, e: KV, rest: Run, target: nat, cur: Run, size: nat)
    ensures files + Split([e] + rest, target, cur, size)
            == if size + Cost(e) >= target then files + [cur + [e]] + Split(rest, target, [], 0)
               else files + Split(rest, target, cur + [e], size + Cost(e))
  {
    hide Cost;
    assert ([e] + rest)[1..] == rest;
    assert files + ([cur + [e]] + Split(rest, target, [], 0)) == files + [cur + [e]] + Split(rest, target, [], 0);
  }

  function Begun(writer: Option<Run>): Run {
    if writer.Some? then writer.value else []
  }

  /** The loop's variables: the finished files are recorded, and the open one, if any, is under way. */
  ghost predicate Writing(files: seq<Run>, added: seq<Table>, writer: Option<Run>, smallest: Key, lastKey: Key, size: nat,
                          nextNum: nat, num: nat, sizeOf: Run -> nat) {
    && NoEmpty(files) && nextNum == num + |files| + (if writer.Some? then 1 else 0) && added == TablesFor(files, num, sizeOf)
    && (if writer.None? then size == 0
        else writer.value != [] && smallest == writer.value[0].key && lastKey == writer.value[|writer.value| - 1].key)
  }

  lemma WriteEntry(files: seq<Run>, added: seq<Table>, writer: Option<Run>, smallest: Key, lastKey: Key, size: nat, nextNum: nat,
                   num: nat, sizeOf: Run -> nat, e: KV)
    requires Writing(files, added, writer, smallest, lastKey, size, nextNum, num, sizeOf)
    ensures Writing(files, added, Some(Begun(writer) + [e]), if writer.None? then e.key else smallest, e.key, size + Cost(e),
                    if writer.None? then nextNum + 1 else nextNum, num, sizeOf)
  {
    hide TablesFor, Cost;
  }

  lemma FinishFile(files: seq<Run>, added: seq<Table>, cur: Run, smallest: Key, lastKey: Key, size: nat, nextNum: nat, num: nat,
                   sizeOf: Run -> nat)
    requires Writing(files, added, Some(cur), smallest, lastKey, size, nextNum, num, sizeOf)
    ensures nextNum > 0
    ensures Writing(files + [cur], added + [Table(nextNum - 1, sizeOf(cur), smallest, lastKey, cur)], None, smallest, lastKey, 0,
                    nextNum, num, sizeOf)
  {
    hide TablesFor, NoEmpty;
    TablesForSnoc(files, cur, num, sizeOf);
  }

  /** The loop of Execute: walks the merge iterator, prunes, writes and cuts files. */
  method Execute(inputs: seq<Table>, thr: nat -> nat, drop: bool, target: nat, num: nat, sizeOf: Run -> nat)
    returns (added: seq<Table>)
    requires AllSorted(Runs(inputs))
    ensures added == Added(inputs, thr, drop, target, num, sizeOf)
  {
    hide Merge, Less, AllSorted, PruneStep, Cost, Split, Prune, Output, TablesFor, Runs, Writing, NoEmpty;
    var it := new MergeIter(Runs(inputs));
    it.SeekToFirst();
    ghost var all := Merge(Runs(inputs));
    ghost var files: seq<Run> := [];
    added := [];
    var nextNum := num;
    var writer: Option<Run> := None;
    var smallest: Key, lastKey: Key := [], [];
    var size: nat := 0;
    var st := PRUNE_START;
    var i: nat := 0;
    ExecuteStart(inputs, thr, drop, target, num, sizeOf);
    assert all[0..] == all;
    while it.valid
      invariant it.Positioned() && i <= |all| && it.Remaining() == all[i..]
      invariant Writing(files, added, writer, smallest, lastKey, size, nextNum, num, sizeOf)
      invariant Split(Output(inputs, thr, drop), target, [], 0) == files + Split(Prune(all, i, st, thr, drop), target, Begun(writer), size)
      decreases |all| - i
    {
      var key := it.currentKey;
      var e := KV(key, it.currentVal);
      RemainingHead(all, i, e);
      PruneUnfold(all, i, st, thr, drop);
      var (st', keep) := PruneStep(st, e, thr(i), drop);
      st := st';
      if keep {
        SplitUnfold(files, e, Prune(all, i + 1, st, thr, drop), target, Begun(writer), size);
        WriteEntry(files, added, writer, smallest, lastKey, size, nextNum, num, sizeOf, e);
        if writer.None? {
          nextNum := nextNum + 1;
          writer := Some([]);
          smallest := key;
        }
        writer := Some(writer.value + [e]);
        size := size + Cost(e);
        lastKey := key;
        if size >= target {
          FinishFile(files, added, writer.value, smallest, lastKey, size, nextNum, num, sizeOf);
          added := added + [Table(nextNum - 1, sizeOf(writer.value), smallest, lastKey, writer.value)];
          files := files + [writer.value];
          writer := None;
          size := 0;
        }
      } else {
        assert [] + Prune(all, i + 1, st, thr, drop) == Prune(all, i + 1, st, thr, drop);
      }
      it.Next();
      i := i + 1;
    }
    SplitEnd(all, i, st, thr, drop, target, files, Begun(writer), size);
    WritingOpen(files, added, writer, smallest, lastKey, size, nextNum, num, sizeOf);
    if writer.Some? {
      FinishFile(files, added, writer.value, smallest, lastKey, size, nextNum, num, sizeOf);
      added := added + [Table(nextNum - 1, sizeOf(writer.value), smallest, lastKey, writer.value)];
      files := files + [writer.value];
      WritingOpen(files, added, None, smallest, lastKey, 0, nextNum, num, sizeOf);
    }
  }

  lemma WritingOpen(files: seq<Run>, added: seq<Table>, writer: Option<Run>, smallest: Key, lastKey: Key, size: nat, nextNum: nat,
                    num: nat, sizeOf: Run -> nat)
    requires Writing(files, added, writer, smallest, lastKey, size, nextNum, num, sizeOf)
    ensures NoEmpty(files) && added == TablesFor(files, num, sizeOf) && (writer.Some? <==> Begun(writer) != [])
  {
    hide TablesFor;
  }

  lemma RemainingHead(all: Run, i: nat, e: KV)
    requires i <= |all| && all[i..] != [] && all[i..][0] == e
    ensures i < |all| && all[i] == e && all[i..][1..] == all[i + 1..]
  {
  }

  lemma ExecuteStart(inputs: seq<Table>, thr: nat -> nat, drop: bool, target: nat, num: nat, sizeOf: Run -> nat)
    ensures Split(Output(inputs, thr, drop), target, [], 0)
            == [] + Split(Prune(Merge(Runs(inputs)), 0, PRUNE_START, thr, drop), target, [], 0)
    ensures forall lo, hi :: Writing([], [], None, lo, hi, 0, num, num, sizeOf)
  {
    hide Prune, Split, Merge;
  }

  lemma SplitEnd(all: Run, i: nat, st: PruneState, thr: nat -> nat, drop: bool, target: nat, files: seq<Run>, cur: Run,
                 size: nat)
    requires i >= |all|
    ensures files + Split(Prune(all, i, st, thr, drop), target, cur, size) == if cur == [] then files else files + [cur]
  {
  }
}
