/**
 Where compaction does change what is read: small trees on which each condition of the read
 theorems fails, with the job the picker would choose.
 */
module PruningLimits {
  import opened Bytes
  import opened KeyOrder
  import opened SortedLists
  import opened MergeIterator
  import opened Compaction
  import opened Levels
  import opened CompactionJob
  import opened TreeEdit
  import opened TreeReads
  import opened SnapshotReads
  import opened LsmTree
  import opened TreeRuns

  const U: ByteString := [7]
  const V: ByteString := [1]

  function Version(t: nat, val: Option<ByteString>): KV
    requires t < U64
  {
    KV(EncodeKey(U, t), val)
  }

  lemma VersionParts(t: nat, val: Option<ByteString>)
    requires t < U64
    ensures User(Version(t, val)) == U && Time(Version(t, val)) == t && |Version(t, val).key| >= 8
  {
    hide EncodeKey, DecodeKey;
    DecodeEncode(U, t);
  }

  lemma VersionOrder(t: nat, s: nat)
    requires t < U64 && s < U64
    ensures Less(EncodeKey(U, t), EncodeKey(U, s)) <==> t > s
    ensures EncodeKey(U, t) == EncodeKey(U, s) <==> t == s
  {
    hide EncodeKey, Less, DecodeKey, Compare;
    EncodedOrder(U, t, U, s);
    CompareReflexive(U);
    DecodeEncode(U, t);
    DecodeEncode(U, s);
  }

  lemma FindVersions(es: Run, t: nat)
    requires t < U64 && 1 <= |es| <= 2 && es[|es| - 1] == Version(3, Some(V)) && (|es| == 2 ==> es[0] == Version(5, None))
    ensures Find(es, EncodeKey(U, t))
            == if |es| == 2 && t == 5 then Some(None) else if t == 3 then Some(Some(V)) else None
  {
    hide EncodeKey;
    VersionOrder(5, t);
    VersionOrder(3, t);
    FindNone(es, EncodeKey(U, t));
  }

  /** If a later threshold may be lower, a dropped tombstone can leave an older version behind it. */
  lemma FallingThresholdResurrects()
    ensures var es := [Version(5, None), Version(3, Some(V))];
            var thr := (i: nat) => if i == 0 then 6 else 2;
            && Sorted(es) && Encoded(es) && (forall i :: thr(i) <= 6)
            && SnapRead(RunLookup(es), U, 6) == None
            && SnapRead(RunLookup(Pruned(es, thr, true)), U, 6) == Some(V)
  {
    hide EncodeKey, DecodeKey, Less;
    var es := [Version(5, None), Version(3, Some(V))];
    var thr := (i: nat) => if i == 0 then 6 else 2;
    VersionParts(5, None);
    VersionParts(3, Some(V));
    VersionOrder(5, 3);
    var st1 := PruneState(U, true);
    assert PruneStep(PRUNE_START, es[0], 6, true) == (st1, false);
    assert PruneStep(st1, es[1], 2, true) == (st1, true);
    assert Prune(es, 2, st1, thr, true) == [];
    assert Prune(es, 1, st1, thr, true) == [es[1]];
    assert Pruned(es, thr, true) == [es[1]];
    FindVersions(es, 6);
    FindVersions(es, 5);
    assert RunLookup(es)(EncodeKey(U, 6)) == None;
    assert RunLookup(es)(EncodeKey(U, 5)) == Some(None);
    var h := RunLookup([es[1]]);
    forall t | 3 <= t <= 6 ensures h(EncodeKey(U, t)) == if t == 3 then Some(Some(V)) else None {
      FindVersions([es[1]], t);
    }
    ReadFalls(h, U, 6, 3);
  }

  // ---- trees that flushes of one entry each lead to

  /** Files are as large as the entries in them, as they are if the blocks do not compress. */
  function EntryBytes(es: Run): nat {
    if es == [] then 0 else Cost(es[0]) + EntryBytes(es[1..])
  }

  function One(num: nat, e: KV): Table {
    Table(num, Cost(e), e.key, e.key, [e])
  }

  function Ones(es: Run): (r: seq<Table>)
    ensures |r| == |es|
  {
    seq(|es|, i requires 0 <= i < |es| => One(i + 1, es[i]))
  }

  function FirstLevelTree(fs: seq<Table>): (r: seq<seq<Table>>)
    ensures |r| == MAX_LEVELS
  {
    [fs, [], [], [], [], [], []]
  }

  function Flushes(es: Run): (r: seq<TreeStep>)
    ensures |r| == |es|
  {
    seq(|es|, i requires 0 <= i < |es| => FlushStep([es[i]], Cost(es[i])))
  }

  /** Flushing the entries one by one gives one first-level file for each. */
  lemma {:induction false} FlushesRun(es: Run)
    ensures IsTreeRun(EMPTY_TREE, Flushes(es))
    ensures RunTree(EMPTY_TREE, Flushes(es)) == TreeState(FirstLevelTree(Ones(es)), |es| + 1)
    decreases |es|
  {
    hide Less, Cost;
    if es == [] {
      assert Ones(es) == [];
    } else {
      var n := |es| - 1;
      var front, last := es[..n], es[n];
      FlushesRun(front);
      var step := FlushStep([last], Cost(last));
      assert Flushes(es) == Flushes(front) + [step];
      RunSnoc(EMPTY_TREE, Flushes(front), step);
      assert Ones(es) == Ones(front) + [One(n + 1, last)];
    }
  }

  lemma {:induction false} OnesRuns(es: Run, k: Key)
    ensures FirstHit(Runs(Ones(es)), k) == Find(es, k)
  {
    var runs := Runs(Ones(es));
    assert runs == seq(|es|, i requires 0 <= i < |es| => [es[i]]);
    SinglesHit(es, k);
  }

  lemma {:induction false} SinglesHit(es: Run, k: Key)
    ensures FirstHit(seq(|es|, i requires 0 <= i < |es| => [es[i]]), k) == Find(es, k)
  {
    if es != [] {
      var runs := seq(|es|, i requires 0 <= i < |es| => [es[i]]);
      assert runs[1..] == seq(|es[1..]|, i requires 0 <= i < |es[1..]| => [es[1..][i]]);
      SinglesHit(es[1..], k);
      OneFind(es[0], k);
    }
  }

  /** Merging files of one entry each, in order, gives back the run. */
  lemma OnesMerge(es: Run)
    requires Sorted(es)
    ensures Merge(Runs(Ones(es))) == es
  {
    hide Less, Merge, Sorted, Runs;
    var m := Merge(Runs(Ones(es)));
    OnesSorted(es);
    MergeSorted(Runs(Ones(es)));
    forall k ensures Find(m, k) == Find(es, k) {
      MergeLookup(Runs(Ones(es)), k);
      OnesRuns(es, k);
    }
    SortedUnique(m, es);
  }

  lemma OnesSorted(es: Run)
    ensures AllSorted(Runs(Ones(es)))
  {
  }

  lemma FirstLevelScores(fs: seq<Table>, l: nat)
    requires |fs| == 5 && l < MAX_LEVELS - 1
    ensures Score(l, FirstLevelTree(fs)[l]) == if l == 0 then 1.25 else 0.0
  {
    if l > 0 {
      TargetPositive(l);
      assert SizeSum(FirstLevelTree(fs)[l]) == 0;
    }
  }

  /** Five files in the first level and none elsewhere: the picker takes them all. */
  lemma FirstLevelPicked(fs: seq<Table>, lo: Key, hi: Key)
    requires |fs| == 5 && IsHull(fs, lo, hi)
    ensures Picked(FirstLevelTree(fs), Job(0, fs, []))
  {
    hide Less, Score, IsHull;
    var levels := FirstLevelTree(fs);
    forall l | 0 <= l < MAX_LEVELS - 1 ensures Score(l, levels[l]) == if l == 0 then 1.25 else 0.0 { FirstLevelScores(fs, l); }
    assert Overlapping([], lo, hi) == [];
  }

  // ---- a tombstone and an older version in neighbouring files of one level

  /** A value that fills a file of the first target size up to one more key; it stands for one that does not compress. */
  type LargeValue = v: ByteString | |v| == BASE_LEVEL_SIZE - 18 witness seq(BASE_LEVEL_SIZE - 18, i => 0)

  function LargeEntry(large: LargeValue): KV {
    KV(EncodeKey([1], 7), Some(large))
  }

  /** A large value of a smaller user key, then a tombstone and an older version of U, then others. */
  function Entries(large: LargeValue): (es: Run)
    ensures |es| == 5
  {
    [LargeEntry(large), Version(5, None), Version(3, Some(V)), KV(EncodeKey([8], 7), Some(V)), KV(EncodeKey([9], 7), Some(V))]
  }

  lemma ByteOrder(a: Byte, t: nat, b: Byte, s: nat)
    requires t < U64 && s < U64
    ensures Less(EncodeKey([a], t), EncodeKey([b], s)) <==> a < b || (a == b && t > s)
  {
    hide EncodeKey, Less;
    EncodedOrder([a], t, [b], s);
  }

  lemma EntriesSorted(large: LargeValue)
    ensures Sorted(Entries(large))
  {
    hide EncodeKey, Less;
    var parts: seq<(Byte, nat)> := [(1, 7), (7, 5), (7, 3), (8, 7), (9, 7)];
    forall i, j | 0 <= i < j < 5 ensures Less(Entries(large)[i].key, Entries(large)[j].key) {
      ByteOrder(parts[i].0, parts[i].1, parts[j].0, parts[j].1);
      assert Entries(large)[i].key == EncodeKey([parts[i].0], parts[i].1) && Entries(large)[j].key == EncodeKey([parts[j].0], parts[j].1);
    }
  }

  lemma EntryCosts(large: LargeValue)
    ensures Cost(LargeEntry(large)) == BASE_LEVEL_SIZE - 1 && Cost(Version(5, None)) == 17
    ensures Cost(Entries(large)[2]) == Cost(Entries(large)[3]) == Cost(Entries(large)[4]) == 18
  {
    hide EncodeKey;
  }

  function FileA(large: LargeValue): Run { Entries(large)[..2] }
  function FileB(large: LargeValue): Run { Entries(large)[2..] }

  /** What stays below the target is one file. */
  lemma {:induction false} SplitShort(es: Run, target: nat, cur: Run, size: nat)
    requires size + EntryBytes(es) < target && cur + es != []
    ensures Split(es, target, cur, size) == [cur + es]
    decreases |es|
  {
    hide Cost;
    if es == [] {
      assert cur + es == cur;
    } else {
      assert cur + [es[0]] + es[1..] == cur + es;
      SplitShort(es[1..], target, cur + [es[0]], size + Cost(es[0]));
    }
  }

  lemma FileBBytes(large: LargeValue)
    ensures EntryBytes(FileB(large)) == 54
  {
    hide EncodeKey, Cost;
    EntryCosts(large);
    var b := FileB(large);
    assert b[1..][1..][1..] == [];
    assert EntryBytes(b[1..][1..]) == 18;
    assert EntryBytes(b[1..]) == 36;
  }

  /** A file of the target size ends between the tombstone and the older version. */
  lemma EntriesSplit(large: LargeValue)
    ensures Split(Entries(large), BASE_LEVEL_SIZE, [], 0) == [FileA(large), FileB(large)]
  {
    hide EncodeKey, Cost;
    EntryCosts(large);
    FileBBytes(large);
    var es, a, b := Entries(large), FileA(large), FileB(large);
    assert es == [es[0]] + es[1..] && es[1..] == [es[1]] + b;
    SplitUnfold([], es[0], es[1..], BASE_LEVEL_SIZE, [], 0);
    SplitUnfold([], es[1], b, BASE_LEVEL_SIZE, [es[0]], BASE_LEVEL_SIZE - 1);
    SplitShort(b, BASE_LEVEL_SIZE, [], 0);
    assert [] + [es[0]] == [es[0]] && [es[0]] + [es[1]] == a && [] + b == b;
    assert forall fs: seq<Run> :: [] + fs == fs;
  }

  function TableA(large: LargeValue): Table {
    TableFor(FileA(large), 6, EntryBytes)
  }

  function TableB(large: LargeValue): Table {
    TableFor(FileB(large), 7, EntryBytes)
  }

  function FirstJob(large: LargeValue): Job {
    Job(0, Ones(Entries(large)), [])
  }

  function FirstCompaction(large: LargeValue): TreeStep {
    CompactStep(FirstJob(large), (i: nat) => 0, true, BASE_LEVEL_SIZE, EntryBytes)
  }

  lemma FirstOuts(large: LargeValue)
    ensures Added(Ones(Entries(large)) + [], (i: nat) => 0, true, BASE_LEVEL_SIZE, 6, EntryBytes) == [TableA(large), TableB(large)]
  {
    hide EncodeKey, Merge, Prune, Split, EntryBytes, Runs, Ones, Sorted;
    var es := Entries(large);
    var thr := (i: nat) => 0;
    EntriesSorted(large);
    OnesMerge(es);
    assert Ones(es) + [] == Ones(es);
    PruneNothing(es, 0, PRUNE_START, thr, true);
    assert es[0..] == es;
    EntriesSplit(large);
    assert Output(Ones(es) + [], thr, true) == es;
  }

  lemma FirstHull(large: LargeValue)
    ensures IsHull(Ones(Entries(large)), Entries(large)[0].key, Entries(large)[4].key)
  {
    hide EncodeKey, Cost, Less, Entries;
    EntriesSorted(large);
    KeysOrdered();
    var fs := Ones(Entries(large));
    assert fs[0] in fs && fs[4] in fs;
    forall f | f in fs ensures !Less(f.smallest, Entries(large)[0].key) && !Less(Entries(large)[4].key, f.largest) {
      var i := IndexOf(fs, f);
    }
  }

  /** The tree after the flushes and the compaction the picker asks for. */
  function SplitTree(large: LargeValue): (r: seq<seq<Table>>)
    ensures |r| == MAX_LEVELS
  {
    [[], [TableA(large), TableB(large)], [], [], [], [], []]
  }

  function SplitSteps(large: LargeValue): seq<TreeStep> {
    Flushes(Entries(large)) + [FirstCompaction(large)]
  }

  lemma FirstCompacted(large: LargeValue)
    requires LayoutOk(FirstLevelTree(Ones(Entries(large)))) && NumsOk(FirstLevelTree(Ones(Entries(large))))
    ensures JobOk(FirstLevelTree(Ones(Entries(large))), FirstJob(large))
    ensures Compacted(FirstLevelTree(Ones(Entries(large))), FirstJob(large), [TableA(large), TableB(large)]) == SplitTree(large)
  {
    hide Entries, TableA, TableB, LayoutOk, NumsOk, Added, Compacted, AllSorted, Ones, IsHull, Score, SortBy, LevelOk, EntryBytes,
      Output, Runs, IsKeyOf;
    var levels, job, outs := FirstLevelTree(Ones(Entries(large))), FirstJob(large), [TableA(large), TableB(large)];
    FirstHull(large);
    OnesCount(large);
    FirstLevelPicked(Ones(Entries(large)), Entries(large)[0].key, Entries(large)[4].key);
    PickedJob(levels, job);
    InputsSorted(levels, job);
    FirstOuts(large);
    AddedFacts(job.in0 + job.in1, (i: nat) => 0, true, BASE_LEVEL_SIZE, 6, EntryBytes);
    CompactedAt(levels, job, outs, 1);
    assert Kept(levels[1], DelsOf(job), 1) == [];
    assert [] + outs == outs;
    SortedLevelStays(outs);
    forall l | 0 <= l < MAX_LEVELS && l != 1 ensures Compacted(levels, job, outs)[l] == [] { OtherLevels(levels, job, outs, l); }
  }

  lemma OnesCount(large: LargeValue)
    ensures |Ones(Entries(large))| == 5
  {
  }

  /** Five flushes and the compaction the picker then asks for lead to the tree. */
  lemma SplitTreeReached(large: LargeValue)
    ensures IsTreeRun(EMPTY_TREE, SplitSteps(large)) && RunTree(EMPTY_TREE, SplitSteps(large)) == TreeState(SplitTree(large), 8)
    ensures Picked(FirstLevelTree(Ones(Entries(large))), FirstJob(large))
    ensures LayoutOk(SplitTree(large)) && NumsOk(SplitTree(large))
  {
    hide Entries, TableA, TableB, LayoutOk, NumsOk, Added, Compacted, IsHull, Score, EntryBytes, Ones, Flushes, IsTreeRun, RunTree,
      NumIdentifies, NumsBelow, JobOk;
    FlushesRun(Entries(large));
    var s := RunTree(EMPTY_TREE, Flushes(Entries(large)));
    LayoutInvariant(Flushes(Entries(large)));
    FirstCompacted(large);
    FirstOuts(large);
    FirstHull(large);
    OnesCount(large);
    FirstLevelPicked(Ones(Entries(large)), Entries(large)[0].key, Entries(large)[4].key);
    RunSnoc(EMPTY_TREE, Flushes(Entries(large)), FirstCompaction(large));
    LayoutInvariant(SplitSteps(large));
  }

  function SplitJob(large: LargeValue): Job {
    Job(1, [TableA(large)], [])
  }

  lemma TableSizes(large: LargeValue)
    ensures TableA(large).size == BASE_LEVEL_SIZE + 16 && TableB(large).size == 54
  {
    hide EncodeKey, Cost;
    EntryCosts(large);
    FileBBytes(large);
    var a := FileA(large);
    assert a[1..][1..] == [];
    assert EntryBytes(a[1..]) == 17;
  }

  lemma SplitScores(large: LargeValue, l: nat)
    requires l < MAX_LEVELS - 1
    ensures if l == 1 then Score(l, SplitTree(large)[l]) > 1.0 else Score(l, SplitTree(large)[l]) == 0.0
  {
    hide TableA, TableB;
    TableSizes(large);
    var fs := SplitTree(large)[l];
    if l == 1 {
      assert fs[..1] == [fs[0]] && fs[..1][..0] == [];
      assert SizeSum(fs[..1]) == TableA(large).size;
      assert SizeSum(fs) == TableA(large).size + TableB(large).size;
      assert TargetSize(1) == BASE_LEVEL_SIZE;
    } else if l > 1 {
      TargetPositive(l);
      assert SizeSum(fs) == 0;
    }
  }

  lemma SplitPicked(large: LargeValue)
    ensures Picked(SplitTree(large), SplitJob(large))
  {
    hide TableA, TableB, Score, Less, SizeSum, TargetSize;
    KeysOrdered();
    TableSizes(large);
    var levels, job := SplitTree(large), SplitJob(large);
    forall l | 0 <= l < MAX_LEVELS - 1
      ensures if l == 1 then Score(l, levels[l]) > 1.0 else Score(l, levels[l]) == 0.0 { SplitScores(large, l); }
    var f := levels[1][0];
    assert f in job.in0;
    assert IsHull(job.in0, f.smallest, f.largest);
    assert Overlapping([], f.smallest, f.largest) == [];
  }

  lemma {:induction false} MergeOne(es: Run)
    requires Sorted(es)
    ensures Merge([es]) == es
  {
    hide Less, Merge, Sorted;
    MergeSorted([es]);
    forall k ensures Find(Merge([es]), k) == Find(es, k) {
      MergeLookup([es], k);
      assert [es][1..] == [];
      assert FirstHit([], k) == None;
    }
    SortedUnique(Merge([es]), es);
  }

  lemma FileASorted(large: LargeValue)
    ensures Sorted(FileA(large))
  {
    hide EncodeKey, Less;
    EntriesSorted(large);
    SortedSlice(Entries(large), 0, 2);
  }

  lemma SplitMerged(large: LargeValue)
    ensures Merged(SplitJob(large)) == FileA(large)
  {
    hide EncodeKey, Merge, FileA, EntryBytes, Sorted;
    var job := SplitJob(large);
    assert Runs(job.in0 + job.in1) == [FileA(large)];
    FileASorted(large);
    MergeOne(FileA(large));
  }

  lemma FindInB(large: LargeValue, t: nat)
    requires t < U64
    ensures Find(FileB(large), EncodeKey(U, t)) == if t == 3 then Some(Some(V)) else None
  {
    hide EncodeKey, DecodeKey;
    var b := FileB(large);
    assert b[1..] == [b[1], b[2]] && b[0] == Version(3, Some(V));
    VersionOrder(3, t);
    DecodeEncode(U, t);
    DecodeEncode([8], 7);
    DecodeEncode([9], 7);
    FindNone(b, EncodeKey(U, t));
  }

  lemma FindInA(large: LargeValue, t: nat)
    requires t < U64
    ensures Find(FileA(large), EncodeKey(U, t)) == if t == 5 then Some(None) else None
    ensures Find([LargeEntry(large)], EncodeKey(U, t)) == None
  {
    hide EncodeKey, DecodeKey;
    var a := FileA(large);
    VersionOrder(5, t);
    DecodeEncode(U, t);
    DecodeEncode([1], 7);
    FindNone(a, EncodeKey(U, t));
    OneFind(LargeEntry(large), EncodeKey(U, t));
    assert a[1..] == [Version(5, None)];
    OneFind(Version(5, None), EncodeKey(U, t));
  }

  /** What lies outside the job: the older version. */
  lemma SplitOutside(large: LargeValue, t: nat)
    requires t < U64
    ensures Upper(SplitTree(large), SplitJob(large), EncodeKey(U, t)) == if t == 3 then Some(Some(V)) else None
  {
    hide EncodeKey, FileA, FileB, EntryBytes;
    var levels, job := SplitTree(large), SplitJob(large);
    var k := EncodeKey(U, t);
    var dels := DelsOf(job);
    var fs := levels[1];
    assert dels == [(1, 6)];
    assert fs[1..] == [fs[1]] && fs[1..][1..] == [];
    assert Kept(fs[1..][1..], dels, 1) == [];
    assert Kept(fs[1..], dels, 1) == [fs[1]];
    assert Kept(fs, dels, 1) == [fs[1]];
    assert FindAbove(levels, 0, k) == None;
    assert FindAbove(levels, 1, k) == NewestFind([], k);
    FindInB(large, t);
    assert [fs[1]][1..] == [];
    assert TablesFind([fs[1]], k) == Or(Find(fs[1].entries, k), TablesFind([fs[1]][1..], k));
  }

  lemma SplitBelow(large: LargeValue, k: Key)
    ensures Lower(SplitTree(large), SplitJob(large), k) == None
  {
    hide TableA, TableB;
    var levels, job := SplitTree(large), SplitJob(large);
    assert Kept(levels[2], DelsOf(job), 2) == [];
    EmptyFind(levels, 3, k);
  }

  lemma FileATimes(large: LargeValue)
    ensures User(FileA(large)[0]) != U && Time(FileA(large)[0]) == 7 && User(FileA(large)[1]) == U && Time(FileA(large)[1]) == 5
    ensures Encoded(FileA(large))
  {
    hide EncodeKey, DecodeKey;
    VersionParts(5, None);
    DecodeEncode([1], 7);
  }

  lemma AboveInA(large: LargeValue, thr: nat -> nat)
    requires forall i :: thr(i) == 6
    ensures Above(FileA(large), thr) == [LargeEntry(large)]
  {
    hide EncodeKey, User, Time;
    FileATimes(large);
    var a := FileA(large);
    assert a[..1] == [LargeEntry(large)] && a[..1][..0] == [];
    assert Above([], thr) == [];
    assert Above(a[..1], thr) == [LargeEntry(large)];
  }

  lemma SplitResurfaces(large: LargeValue, thr: nat -> nat)
    requires forall i :: thr(i) == 6
    ensures SplitJob(large).level == 1 && Merged(SplitJob(large)) == FileA(large) && Encoded(FileA(large))
    ensures var es := FileA(large);
            var up, low := UpperLookup(SplitTree(large), SplitJob(large)), LowerLookup(SplitTree(large), SplitJob(large));
            && TombstoneDropped(es, 1, thr, true) && Decides(up, es, low, 1, 6) && User(es[1]) == U && Time(es[1]) == 5
            && SnapRead(Layered(up, RunLookup(Above(es, thr)), low), U, 5) == Some(V)
  {
    hide EncodeKey, DecodeKey, Upper, Lower, Merged, LargeEntry, Above, User, Time, SplitTree, SplitJob, Encoded;
    var levels, job := SplitTree(large), SplitJob(large);
    SplitJobLevel(large);
    var es := Merged(job);
    SplitMerged(large);
    FileATimes(large);
    AboveInA(large, thr);
    var up, low := UpperLookup(levels, job), LowerLookup(levels, job);
    forall t | 0 <= t <= 6 ensures up(EncodeKey(U, t)) == if t == 3 then Some(Some(V)) else None { SplitOutside(large, t); }
    forall k ensures low(k) == None { SplitBelow(large, k); }
    var g := Layered(up, RunLookup(es), low);
    FindInA(large, 6);
    assert g(EncodeKey(U, 6)) == Or(up(EncodeKey(U, 6)), Or(RunLookup(es)(EncodeKey(U, 6)), low(EncodeKey(U, 6))));
    assert NoVersionIn(g, U, 5, 6);
    var left := Layered(up, RunLookup([LargeEntry(large)]), low);
    forall t | 3 <= t <= 5 ensures left(EncodeKey(U, t)) == if t == 3 then Some(Some(V)) else None { FindInA(large, t); }
    ReadFalls(left, U, 5, 3);
    assert es[1] == Version(5, None);
  }

  lemma SplitJobLevel(large: LargeValue)
    ensures SplitJob(large).level == 1
  {
  }

  lemma SplitOccupied(large: LargeValue)
    ensures MaxOccupied(SplitTree(large), MAX_LEVELS) == 1
  {
    hide TableA, TableB;
    assert MaxOccupied(SplitTree(large), 2) == 1;
    assert MaxOccupied(SplitTree(large), 4) == MaxOccupied(SplitTree(large), 2);
    assert MaxOccupied(SplitTree(large), 6) == MaxOccupied(SplitTree(large), 4);
  }

  /**
   Files are cut by full key, so one level can hold a tombstone and an older version of the same
   user key in different files. Flushes and the picker's own compactions lead there; compacting the
   first file drops the tombstone, and the deleted value is visible again to every later snapshot.
   */
  lemma SplitVersionsResurface(large: LargeValue, thr: nat -> nat, target: nat, num: nat, sizeOf: Run -> nat)
    requires forall i :: thr(i) == 6
    ensures IsTreeRun(EMPTY_TREE, SplitSteps(large))
    ensures var levels, job := RunTree(EMPTY_TREE, SplitSteps(large)).levels, SplitJob(large);
            && |levels| == MAX_LEVELS && Picked(levels, job)
            && var drop := job.level + 1 >= MaxOccupied(levels, MAX_LEVELS);
               var levels' := Compacted(levels, job, Added(job.in0 + job.in1, thr, drop, target, num, sizeOf));
               SnapRead(TreeLookup(levels), U, 6) == None && SnapRead(TreeLookup(levels'), U, 6) == Some(V)
  {
    hide EncodeKey, LayoutOk, NumsOk, Added, Compacted, Merged, SnapRead, TreeFind, Time, User, Encoded, TombstoneDropped, Decides,
      Layered, NewestFind, TablesFind, Score, Overlapping, IsHull, SplitTree, IsTreeRun, RunTree, SplitSteps, MaxOccupied, FileA,
      SplitJob, Above, Sorted;
    var levels, job := SplitTree(large), SplitJob(large);
    SplitTreeReached(large);
    SplitPicked(large);
    SplitOccupied(large);
    SplitResurfaces(large, thr);
    FileASorted(large);
    TreeReadsAfter(levels, Compacted(levels, job, Added(job.in0 + job.in1, thr, true, target, num, sizeOf)), job, thr, true, target,
                num, sizeOf, U, 6);
    TreeReadsBefore(levels, job, U, 6);
    PrunedReadDropped(UpperLookup(levels, job), FileA(large), LowerLookup(levels, job), thr, true, 1, 6);
  }

  // ---- one full key twice in the first level

  /** Five flushes of one full key, the first with another value. */
  function Duplicates(): (es: Run)
    ensures |es| == 5
  {
    [KV([], Some([1])), KV([], Some([2])), KV([], Some([2])), KV([], Some([2])), KV([], Some([2]))]
  }

  lemma DuplicatesPicked()
    ensures Picked(FirstLevelTree(Ones(Duplicates())), Job(0, Ones(Duplicates()), []))
  {
    hide Less, Score, Cost;
    KeysOrdered();
    var fs := Ones(Duplicates());
    assert fs[0] in fs;
    assert IsHull(fs, [], []);
    FirstLevelPicked(fs, [], []);
  }

  lemma DuplicatesRead()
    ensures NewestFind(Ones(Duplicates()), []) == Some(Some([2])) && TablesFind(Ones(Duplicates()), []) == Some(Some([1]))
  {
    var fs := Ones(Duplicates());
    OneFind(fs[0].entries[0], []);
    OneFind(fs[4].entries[0], []);
    assert fs[0].entries == [KV([], Some([1]))] && fs[4].entries == [KV([], Some([2]))];
  }

  /** Five flushes of one full key: reads give the newest value, and after compaction the oldest. */
  lemma OldestDuplicateWins(thr: nat -> nat, drop: bool, target: nat, num: nat, sizeOf: Run -> nat)
    requires forall i :: thr(i) == 0
    ensures IsTreeRun(EMPTY_TREE, Flushes(Duplicates()))
    ensures var levels := RunTree(EMPTY_TREE, Flushes(Duplicates())).levels;
            var job := Job(0, Ones(Duplicates()), []);
            && |levels| == MAX_LEVELS && Picked(levels, job)
            && TreeFind(levels, []) == Some(Some([2]))
            && TreeFind(Compacted(levels, job, Added(job.in0 + job.in1, thr, drop, target, num, sizeOf)), []) == Some(Some([1]))
  {
    hide LayoutOk, NumsOk, Added, Compacted, TreeFind, Score, Overlapping, IsHull, IsTreeRun, RunTree, Flushes, Ones, NumIdentifies,
      NumsBelow;
    FlushesRun(Duplicates());
    LayoutInvariant(Flushes(Duplicates()));
    DuplicatesPicked();
    DuplicatesRead();
    FirstLevelRead(FirstLevelTree(Ones(Duplicates())), Job(0, Ones(Duplicates()), []), thr, drop, target, num, sizeOf, []);
  }
}
