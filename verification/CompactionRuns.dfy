/**
 The compaction loop against snapshot reads: what a snapshot sees of a user key after all its
 rounds, each with its own job, its own thresholds and its own choice about tombstones
 (internal/lsm/lsm.go, doCompaction, with compaction.go).
 */
module CompactionRuns {
  import opened Bytes
  import opened KeyOrder
  import opened SortedLists
  import opened Compaction
  import opened Levels
  import opened CompactionJob
  import opened TreeEdit
  import opened TreeReads
  import opened SnapshotReads
  import opened LsmTree
  import opened TreeRuns

  // ---- keys that carry a timestamp

  /** No key of the tree is too short to carry one. */
  ghost predicate TreeEncoded(levels: seq<seq<Table>>) {
    forall k: Key :: |k| < 8 ==> TreeFind(levels, k).None?
  }

  lemma {:induction false} NewestFindNone(fs: seq<Table>, k: Key)
    requires NewestFind(fs, k).None?
    ensures TablesFind(fs, k).None?
  {
    NewestMembers(fs, k);
    TablesFindNone(fs, k);
  }

  lemma {:induction false} NewestMembers(fs: seq<Table>, k: Key)
    requires NewestFind(fs, k).None?
    ensures forall f :: f in fs ==> Find(f.entries, k).None?
  {
    if fs != [] {
      NewestMembers(fs[..|fs| - 1], k);
      assert forall f :: f in fs ==> f == fs[|fs| - 1] || f in fs[..|fs| - 1];
    }
  }

  /** A key the tree does not hold is in none of the parts a compaction sees. */
  lemma AbsentParts(levels: seq<seq<Table>>, job: Job, k: Key)
    requires LayoutOk(levels) && JobOk(levels, job) && NumsOk(levels) && TreeFind(levels, k).None?
    ensures |levels| == MAX_LEVELS && job.level < MAX_LEVELS - 1 && Find(Merged(job), k).None?
    ensures UpperLookup(levels, job)(k).None? && LowerLookup(levels, job)(k).None?
  {
    hide LayoutOk, JobOk, NumsOk, TablesFind, NewestFind, Upper, Lower, Merged, Find, FindFrom;
    JobLevel(levels, job);
    if job.level == 0 {
      TreeSplit(levels, 1, k);
      assert FindAbove(levels, 1, k) == NewestFind(levels[0], k) by { NothingAbove(levels, k); }
      NewestFindNone(levels[0], k);
    }
    TreeLayers(levels, job, k);
    assert TreeFind(levels, k) == Or(Upper(levels, job, k), Or(Find(Merged(job), k), Lower(levels, job, k)));
  }

  /** What a compaction merges carries timestamps if the tree does. */
  lemma MergedEncoded(levels: seq<seq<Table>>, job: Job)
    requires LayoutOk(levels) && JobOk(levels, job) && NumsOk(levels) && TreeEncoded(levels)
    ensures Encoded(Merged(job)) && Sorted(Merged(job))
  {
    hide LayoutOk, JobOk, NumsOk, TreeFind, Merge, AllSorted, Find, Sorted, Upper, Lower;
    InputsSorted(levels, job);
    MergeSorted(Runs(job.in0 + job.in1));
    var es := Merged(job);
    forall i | 0 <= i < |es| ensures |es[i].key| >= 8 {
      FindAt(es, i);
      if |es[i].key| < 8 {
        AbsentParts(levels, job, es[i].key);
        assert false;
      }
    }
  }

  lemma EncodedAfter(levels: seq<seq<Table>>, job: Job, thr: nat -> nat, drop: bool, target: nat, num: nat, sizeOf: Run -> nat)
    requires LayoutOk(levels) && JobOk(levels, job) && NumsOk(levels) && TreeEncoded(levels)
    ensures |levels| == MAX_LEVELS && job.level < MAX_LEVELS - 1
    ensures TreeEncoded(Compacted(levels, job, Added(job.in0 + job.in1, thr, drop, target, num, sizeOf)))
  {
    hide LayoutOk, JobOk, NumsOk, TreeFind, Merged, Find, Sorted, Upper, Lower, Added, Compacted, Prune, KeepAt, Encoded;
    JobLevel(levels, job);
    MergedEncoded(levels, job);
    var levels' := Compacted(levels, job, Added(job.in0 + job.in1, thr, drop, target, num, sizeOf));
    forall k: Key | |k| < 8 ensures TreeFind(levels', k).None? {
      AbsentParts(levels, job, k);
      PruneKeeps(Merged(job), thr, drop, k);
      TreeLayersAfter(levels, job, thr, drop, target, num, sizeOf, k);
    }
  }

  // ---- what the rounds keep

  /** Files of the first level that hold the same version of u, not newer than t, hold the same value for it. */
  ghost predicate FirstAgrees(levels: seq<seq<Table>>, u: ByteString, t: nat)
    requires |levels| == MAX_LEVELS && t < U64
  {
    forall s :: 0 <= s <= t ==> NewestFind(levels[0], EncodeKey(u, s)) == TablesFind(levels[0], EncodeKey(u, s))
  }

  ghost predicate RoundOk(levels: seq<seq<Table>>, u: ByteString, t: nat)
    requires t < U64
  {
    LayoutOk(levels) && NumsOk(levels) && TreeEncoded(levels) && FirstAgrees(levels, u, t)
  }

  lemma AgreesAfter(levels: seq<seq<Table>>, job: Job, outs: seq<Table>, u: ByteString, t: nat)
    requires LayoutOk(levels) && JobOk(levels, job) && NumsOk(levels) && t < U64 && FirstAgrees(levels, u, t)
    ensures job.level < MAX_LEVELS - 1
    ensures FirstAgrees(Compacted(levels, job, outs), u, t)
  {
    hide LayoutOk, JobOk, NumsOk, Compacted, EncodeKey;
    JobLevel(levels, job);
    OtherLevels(levels, job, outs, 0);
  }

  /** No tombstone that a round drops lets an older version of u through to snapshot t. */
  ghost predicate NothingResurfaces(levels: seq<seq<Table>>, step: TreeStep, u: ByteString, t: nat)
    requires |levels| == MAX_LEVELS && step.CompactStep? && step.job.level < MAX_LEVELS - 1 && t < U64
  {
    !exists i: nat :: Resurfaces(levels, step.job, step.thr, step.drop, u, t, i)
  }

  /** One round: a snapshot at or above its thresholds sees what it saw, exactly if nothing resurfaces. */
  lemma RoundReads(s: TreeState, step: TreeStep, u: ByteString, t: nat)
    requires StateOk(s) && t < U64 && RoundOk(s.levels, u, t) && CanStep(s, step) && step.CompactStep?
    requires forall i :: step.thr(i) <= t
    ensures StateOk(StepTree(s, step)) && RoundOk(StepTree(s, step).levels, u, t)
    ensures SnapRead(TreeLookup(StepTree(s, step).levels), u, t) == SnapRead(TreeLookup(s.levels), u, t)
            <==> NothingResurfaces(s.levels, step, u, t)
  {
    hide LayoutOk, JobOk, NumsOk, NumIdentifies, NumsBelow, Added, Compacted, TreeEncoded, FirstAgrees, SnapRead, TreeLookup,
      Merged, MergedLookup, Resurfaces, Encoded, Sorted;
    var CompactStep(job, thr, drop, target, sizeOf) := step;
    var outs := Added(job.in0 + job.in1, thr, drop, target, s.next, sizeOf);
    StepKeepsOk(s, step);
    MergedEncoded(s.levels, job);
    EncodedAfter(s.levels, job, thr, drop, target, s.next, sizeOf);
    AgreesAfter(s.levels, job, outs, u, t);
    SnapshotReadsKept(s.levels, job, thr, drop, target, s.next, sizeOf, u, t);
    AgreesFor(s.levels, job, u, t);
  }

  lemma AgreesFor(levels: seq<seq<Table>>, job: Job, u: ByteString, t: nat)
    requires |levels| == MAX_LEVELS && t < U64 && FirstAgrees(levels, u, t)
    ensures FirstLevelAgrees(levels, job, u, t)
  {
    hide EncodeKey, NewestFind, TablesFind;
  }

  /** In no round does anything resurface. */
  ghost predicate RunKeepsTombs(s: TreeState, steps: seq<TreeStep>, u: ByteString, t: nat)
    requires IsTreeRun(s, steps) && t < U64
    decreases |steps|
  {
    steps == []
    || (steps[0].CompactStep? && NothingResurfaces(s.levels, steps[0], u, t)
        && RunKeepsTombs(StepTree(s, steps[0]), steps[1..], u, t))
  }

  ghost predicate Thresholds(steps: seq<TreeStep>, t: nat) {
    forall n :: 0 <= n < |steps| ==> steps[n].CompactStep? && forall i :: steps[n].thr(i) <= t
  }

  lemma {:induction false} CompactionsKeepSnapshots(s: TreeState, steps: seq<TreeStep>, u: ByteString, t: nat)
    requires StateOk(s) && t < U64 && RoundOk(s.levels, u, t) && IsTreeRun(s, steps) && Thresholds(steps, t)
    requires RunKeepsTombs(s, steps, u, t)
    ensures SnapRead(TreeLookup(RunTree(s, steps).levels), u, t) == SnapRead(TreeLookup(s.levels), u, t)
    decreases |steps|
  {
    hide StateOk, RoundOk, CanStep, StepTree, NothingResurfaces, SnapRead, TreeLookup;
    if steps != [] {
      RoundReads(s, steps[0], u, t);
      CompactionsKeepSnapshots(StepTree(s, steps[0]), steps[1..], u, t);
    }
  }

  // ---- the loop

  /** Before every round some file lies deeper than where it writes. */
  ghost predicate DeeperFiles(s: TreeState, steps: seq<TreeStep>) {
    forall n :: 0 <= n < |steps| ==>
      IsTreeRun(s, steps[..n]) && steps[n].CompactStep? && !Bottom(RunTree(s, steps[..n]).levels, steps[n].job)
  }

  lemma {:induction false} LoopRound(s: TreeState, steps: seq<TreeStep>, minActive: nat -> nat -> nat, target: nat, sizeOf: Run -> nat,
                                     n: nat)
    requires IsLoopRun(s, steps, minActive, target, sizeOf) && n < |steps|
    ensures IsTreeRun(s, steps[..n]) && steps[n].CompactStep? && steps[n].thr == minActive(n)
    ensures steps[n].drop == Bottom(RunTree(s, steps[..n]).levels, steps[n].job)
    decreases |steps|
  {
    hide IsTreeRun, RunTree, Bottom, Picked, CanStep;
    var m := |steps| - 1;
    if n < m {
      LoopRound(s, steps[..m], minActive, target, sizeOf, n);
      assert steps[..m][..n] == steps[..n];
    }
  }

  lemma LoopThresholds(s: TreeState, steps: seq<TreeStep>, minActive: nat -> nat -> nat, target: nat, sizeOf: Run -> nat, t: nat)
    requires IsLoopRun(s, steps, minActive, target, sizeOf) && forall n, i :: minActive(n)(i) <= t
    ensures Thresholds(steps, t)
  {
    hide IsLoopRun, IsTreeRun, RunTree, Bottom;
    forall n | 0 <= n < |steps| ensures steps[n].CompactStep? && forall i :: steps[n].thr(i) <= t {
      LoopRound(s, steps, minActive, target, sizeOf, n);
    }
  }

  lemma {:induction false} KeptTombs(s: TreeState, steps: seq<TreeStep>, u: ByteString, t: nat)
    requires IsTreeRun(s, steps) && t < U64 && forall n :: 0 <= n < |steps| ==> steps[n].CompactStep? && !steps[n].drop
    ensures RunKeepsTombs(s, steps, u, t)
    decreases |steps|
  {
    hide StepTree, JobOk, Decides, SnapRead, Merged;
    if steps != [] {
      KeptTombs(StepTree(s, steps[0]), steps[1..], u, t);
    }
  }

  /**
   Snapshots and the whole loop. A snapshot at or above all thresholds of all rounds sees of a user
   key after the loop what it saw before, if in no round a dropped tombstone lets an older version
   resurface; and in a loop before whose every round some file lay deeper than where it writes, no
   tombstone is dropped at all.
   */
  lemma LoopKeepsSnapshots(s: TreeState, steps: seq<TreeStep>, minActive: nat -> nat -> nat, target: nat, sizeOf: Run -> nat,
                           u: ByteString, t: nat)
    requires StateOk(s) && t < U64 && RoundOk(s.levels, u, t) && IsTreeRun(s, steps)
    requires IsLoopRun(s, steps, minActive, target, sizeOf) && forall n, i :: minActive(n)(i) <= t
    ensures DeeperFiles(s, steps) ==> RunKeepsTombs(s, steps, u, t)
    ensures RunKeepsTombs(s, steps, u, t) ==>
              SnapRead(TreeLookup(RunTree(s, steps).levels), u, t) == SnapRead(TreeLookup(s.levels), u, t)
  {
    hide StateOk, RoundOk, IsTreeRun, RunTree, IsLoopRun, Bottom, RunKeepsTombs, SnapRead, TreeLookup, Thresholds;
    LoopThresholds(s, steps, minActive, target, sizeOf, t);
    if DeeperFiles(s, steps) {
      forall n | 0 <= n < |steps| ensures steps[n].CompactStep? && !steps[n].drop {
        LoopRound(s, steps, minActive, target, sizeOf, n);
      }
      KeptTombs(s, steps, u, t);
    }
    if RunKeepsTombs(s, steps, u, t) { CompactionsKeepSnapshots(s, steps, u, t); }
  }
}
