/**
 Whole runs of the tree: any sequence of flushes and compactions. The layout invariant holds after
 every run, and the manifest written along the way replays to exactly the levels the run reached
 (internal/lsm/lsm.go, compaction.go and manifest.go together).
 */
module TreeRuns {
  import opened Bytes
  import opened KeyOrder
  import opened SortedLists
  import opened Compaction
  import opened Levels
  import opened CompactionJob
  import opened TreeEdit
  import opened TreeReads
  import opened LsmTree
  import opened ManifestFormat
  import opened Manifest

  ghost predicate StateOk(s: TreeState) {
    LayoutOk(s.levels) && NumsOk(s.levels) && NumIdentifies(s.levels) && NumsBelow(s.levels, s.next)
  }

  lemma StepKeepsOk(s: TreeState, step: TreeStep)
    requires StateOk(s) && CanStep(s, step)
    ensures StateOk(StepTree(s, step))
  {
    hide LayoutOk, NumsOk, NumIdentifies, NumsBelow, Flushed, FlushTable, Sorted, JobOk, Added, Compacted;
    match step
    case FlushStep(mem, size) => FlushStateOk(s, mem, size);
    case CompactStep(job, thr, drop, target, sizeOf) =>
      NumsAfter(s.levels, job, thr, drop, target, s.next, sizeOf, Outs(s, step), Compacted(s.levels, job, Outs(s, step)));
  }

  lemma FlushStateOk(s: TreeState, mem: Run, size: nat)
    requires StateOk(s) && |s.levels| == MAX_LEVELS && Sorted(mem)
    ensures StateOk(TreeState(Flushed(s.levels, FlushTable(mem, s.next, size)), s.next + 1))
  {
    hide LayoutOk, NumsOk, Flushed, FlushTable, Sorted, FlushedOk;
    var t := FlushTable(mem, s.next, size);
    FlushTableOk(mem, s.next, size);
    FlushMembers(s.levels, t);
    FlushLayout(s.levels, t);
  }

  lemma EmptyStateOk()
    ensures StateOk(EMPTY_TREE)
  {
    hide TreeFind;
    EmptyTreeOk(EMPTY_TREE.levels);
  }

  lemma {:induction false} RunKeepsOk(s: TreeState, steps: seq<TreeStep>)
    requires StateOk(s) && IsTreeRun(s, steps)
    ensures StateOk(RunTree(s, steps))
    decreases |steps|
  {
    hide StateOk, StepTree, CanStep;
    if steps != [] {
      StepKeepsOk(s, steps[0]);
      RunKeepsOk(StepTree(s, steps[0]), steps[1..]);
    }
  }

  /**
   After any run of flushes and compactions every level below the first is sorted, its files have
   exact and pairwise disjoint ranges, and every file number stands for one file.
   */
  lemma LayoutInvariant(steps: seq<TreeStep>)
    requires IsTreeRun(EMPTY_TREE, steps)
    ensures StateOk(RunTree(EMPTY_TREE, steps))
  {
    hide StateOk, IsTreeRun, RunTree;
    EmptyStateOk();
    RunKeepsOk(EMPTY_TREE, steps);
  }

  // ---- metadata

  function Meta(l: nat, t: Table): FileMeta {
    FileMeta(l, t.num, t.size, |t.entries|, t.smallest, t.largest)
  }

  function Metas(l: nat, fs: seq<Table>): (r: seq<FileMeta>)
    ensures |r| == |fs|
  {
    seq(|fs|, i requires 0 <= i < |fs| => Meta(l, fs[i]))
  }

  function MetaLevels(levels: seq<seq<Table>>): (r: Version)
    ensures |r| == |levels|
  {
    seq(|levels|, l requires 0 <= l < |levels| => Metas(l, levels[l]))
  }

  function MetaAdds(adds: seq<(nat, Table)>): (r: seq<FileMeta>)
    ensures |r| == |adds|
  {
    seq(|adds|, i requires 0 <= i < |adds| => Meta(adds[i].0, adds[i].1))
  }

  lemma {:induction false} WithoutMetas(l: nat, fs: seq<Table>, n: nat)
    ensures Metas(l, Without(fs, n, Num)) == Without(Metas(l, fs), n, MetaNum)
  {
    if fs != [] {
      WithoutMetas(l, fs[1..], n);
      assert Metas(l, fs)[1..] == Metas(l, fs[1..]);
    }
  }

  lemma {:induction false} InsertMetas(l: nat, x: Table, fs: seq<Table>)
    ensures Metas(l, Insert(x, fs, Smallest)) == Insert(Meta(l, x), Metas(l, fs), MetaSmallest)
  {
    hide Less;
    if fs != [] && Less(x.smallest, fs[|fs| - 1].smallest) {
      InsertMetas(l, x, fs[..|fs| - 1]);
      assert Metas(l, fs)[..|fs| - 1] == Metas(l, fs[..|fs| - 1]);
    }
  }

  lemma {:induction false} SortMetas(l: nat, fs: seq<Table>)
    ensures Metas(l, SortBy(fs, Smallest)) == SortBy(Metas(l, fs), MetaSmallest)
  {
    if fs != [] {
      var front := fs[..|fs| - 1];
      SortMetas(l, front);
      InsertMetas(l, fs[|fs| - 1], SortBy(front, Smallest));
      assert Metas(l, fs)[..|fs| - 1] == Metas(l, front);
    }
  }

  lemma {:induction false} DeleteMetas(levels: seq<seq<Table>>, dels: seq<(nat, nat)>)
    requires forall d :: d in dels ==> d.0 < |levels|
    ensures MetaLevels(DeleteAll(levels, dels, Num)) == DeleteAll(MetaLevels(levels), dels, MetaNum)
    decreases |dels|
  {
    if dels != [] {
      var (l, n) := dels[0];
      WithoutMetas(l, levels[l], n);
      var levels' := levels[l := Without(levels[l], n, Num)];
      assert MetaLevels(levels') == MetaLevels(levels)[l := Without(MetaLevels(levels)[l], n, MetaNum)];
      DeleteMetas(levels', dels[1..]);
    }
  }

  lemma {:induction false} AddMetas(levels: seq<seq<Table>>, adds: seq<(nat, Table)>)
    requires forall a :: a in adds ==> a.0 < |levels|
    ensures forall p :: p in Placed(MetaAdds(adds)) ==> p.0 < |levels|
    ensures MetaLevels(AddAll(levels, adds)) == AddAll(MetaLevels(levels), Placed(MetaAdds(adds)))
    decreases |adds|
  {
    forall p | p in Placed(MetaAdds(adds)) ensures p.0 < |levels| {
      var i := IndexOf(Placed(MetaAdds(adds)), p);
      assert adds[i] in adds;
    }
    if adds != [] {
      var (l, x) := adds[0];
      var levels' := levels[l := levels[l] + [x]];
      assert Metas(l, levels[l] + [x]) == Metas(l, levels[l]) + [Meta(l, x)];
      assert MetaLevels(levels') == MetaLevels(levels)[l := MetaLevels(levels)[l] + [Meta(l, x)]];
      AddMetas(levels', adds[1..]);
      assert Placed(MetaAdds(adds))[1..] == Placed(MetaAdds(adds[1..]));
    }
  }

  /** Editing the files is editing their metadata. */
  lemma EditMetas(levels: seq<seq<Table>>, dels: seq<(nat, nat)>, adds: seq<(nat, Table)>)
    requires forall d :: d in dels ==> d.0 < |levels|
    requires forall a :: a in adds ==> a.0 < |levels|
    ensures forall p :: p in Placed(MetaAdds(adds)) ==> p.0 < |levels|
    ensures MetaLevels(ApplyEdit(levels, dels, adds, Num, Smallest))
            == ApplyEdit(MetaLevels(levels), dels, Placed(MetaAdds(adds)), MetaNum, MetaSmallest)
  {
    hide SortBy, Metas;
    DeleteMetas(levels, dels);
    var deleted := DeleteAll(levels, dels, Num);
    AddMetas(deleted, adds);
    var edited := AddAll(deleted, adds);
    forall l | 0 <= l < |levels| ensures Metas(l, SortBy(edited[l], Smallest)) == SortBy(Metas(l, edited[l]), MetaSmallest) {
      SortMetas(l, edited[l]);
    }
  }

  // ---- the edits of a run

  ghost function EditOf(s: TreeState, step: TreeStep): VersionEdit {
    match step
    case FlushStep(mem, size) => VersionEdit([], [Meta(0, FlushTable(mem, s.next, size))], 0)
    case CompactStep(job, _, _, _, _) => VersionEdit(DelsOf(job), Metas(job.level + 1, Outs(s, step)), 0)
  }

  lemma CompactEdit(s: TreeState, step: TreeStep)
    requires CanStep(s, step) && step.CompactStep?
    ensures InRange(EditOf(s, step))
    ensures MetaLevels(StepTree(s, step).levels) == Applied(MetaLevels(s.levels), EditOf(s, step))
  {
    hide JobOk, Added, SortBy, DeleteAll, AddAll;
    var job := step.job;
    var outs := Outs(s, step);
    var dels, adds := DelsOf(job), AddsOf(job, outs);
    assert forall i :: 0 <= i < |dels| ==> dels[i].0 < MAX_LEVELS;
    assert MetaAdds(adds) == Metas(job.level + 1, outs);
    EditMetas(s.levels, dels, adds);
  }

  lemma AddOne(levels: seq<seq<Table>>, t: Table)
    requires |levels| == MAX_LEVELS
    ensures AddAll(levels, [(0, t)]) == levels[0 := levels[0] + [t]]
  {
    var adds: seq<(nat, Table)> := [(0, t)];
    assert adds[1..] == [];
    assert AddAll(levels[0 := levels[0] + [t]], []) == levels[0 := levels[0] + [t]];
  }

  lemma FlushEdit(s: TreeState, step: TreeStep)
    requires CanStep(s, step) && step.FlushStep? && LayoutOk(s.levels)
    ensures InRange(EditOf(s, step))
    ensures MetaLevels(StepTree(s, step).levels) == Applied(MetaLevels(s.levels), EditOf(s, step))
  {
    hide SortBy, LevelOk, FlushedOk, FlushTable, Sorted;
    var t := FlushTable(step.mem, s.next, step.size);
    var adds := [(0, t)];
    EditMetas(s.levels, [], adds);
    assert MetaAdds(adds) == [Meta(0, t)];
    assert DeleteAll(s.levels, [], Num) == s.levels;
    AddOne(s.levels, t);
    var r := ApplyEdit(s.levels, [], adds, Num, Smallest);
    forall l | 0 <= l < MAX_LEVELS ensures r[l] == Flushed(s.levels, t)[l] {
      if l > 0 { SortedLevelStays(s.levels[l]); }
    }
    assert r == Flushed(s.levels, t);
  }

  ghost function RunEdits(s: TreeState, steps: seq<TreeStep>): (es: seq<VersionEdit>)
    requires IsTreeRun(s, steps)
    ensures |es| == |steps|
    decreases |steps|
  {
    if steps == [] then [] else [EditOf(s, steps[0])] + RunEdits(StepTree(s, steps[0]), steps[1..])
  }

  lemma StepEdit(s: TreeState, step: TreeStep)
    requires CanStep(s, step) && StateOk(s)
    ensures InRange(EditOf(s, step))
    ensures EditOf(s, step).next == 0
    ensures MetaLevels(StepTree(s, step).levels) == Applied(MetaLevels(s.levels), EditOf(s, step))
  {
    hide Applied, InRange, StepTree, LayoutOk, NumsOk, NumIdentifies, NumsBelow, MetaLevels;
    if step.FlushStep? { FlushEdit(s, step); } else { CompactEdit(s, step); }
  }

  lemma {:induction false} RunEditsApply(s: TreeState, m: State, steps: seq<TreeStep>)
    requires StateOk(s) && IsTreeRun(s, steps) && |s.levels| == MAX_LEVELS && m.levels == MetaLevels(s.levels)
    requires forall i :: 0 <= i < |steps| ==> EditFits(RunEdits(s, steps)[i])
    ensures AllOk(RunEdits(s, steps)) && Steps(m, RunEdits(s, steps)).levels == MetaLevels(RunTree(s, steps).levels)
    ensures Steps(m, RunEdits(s, steps)).next == m.next
    decreases |steps|
  {
    hide StateOk, StepTree, CanStep, EditOf, EditFits, InRange, Applied, MetaLevels;
    if steps != [] {
      var s' := StepTree(s, steps[0]);
      var es, rest := RunEdits(s, steps), RunEdits(s', steps[1..]);
      assert es[0] == EditOf(s, steps[0]) && es[1..] == rest;
      StepEdit(s, steps[0]);
      StepKeepsOk(s, steps[0]);
      StateCount(s');
      forall i | 0 <= i < |rest| ensures EditFits(rest[i]) { assert rest[i] == es[i + 1]; }
      RunEditsApply(s', Step(m, es[0]), steps[1..]);
      forall i | 0 <= i < |es| ensures InRange(es[i]) { if i > 0 { assert es[i] == rest[i - 1]; } }
    }
  }

  lemma StateCount(s: TreeState)
    requires StateOk(s)
    ensures |s.levels| == MAX_LEVELS
  {
  }

  /**
   The manifest written during any run replays to the metadata of exactly the files the run ended
   with, level by level and in order; the file counter comes back as one.
   */
  lemma ReplayRebuildsTree(steps: seq<TreeStep>)
    requires IsTreeRun(EMPTY_TREE, steps)
    requires forall i :: 0 <= i < |steps| ==> EditFits(RunEdits(EMPTY_TREE, steps)[i])
    ensures var file := FileOf(RunEdits(EMPTY_TREE, steps));
            Replay(file, 0, START) == Some(State(MetaLevels(RunTree(EMPTY_TREE, steps).levels), 1))
  {
    hide Replay, FileOf, Steps, RunTree, RunEdits, IsTreeRun, StateOk, AllOk, EditFits, MetaLevels;
    EmptyStateOk();
    EmptyMetas();
    RunEditsApply(EMPTY_TREE, START, steps);
    ReplayWhole(RunEdits(EMPTY_TREE, steps));
  }

  predicate InLevels(levels: seq<seq<Table>>, num: nat) {
    exists l, i :: 0 <= l < |levels| && 0 <= i < |levels[l]| && levels[l][i].num == num
  }

  predicate Listed(v: Version, num: nat) {
    exists l, i :: 0 <= l < |v| && 0 <= i < |v[l]| && v[l][i].num == num
  }

  lemma ListedAre(levels: seq<seq<Table>>, num: nat)
    ensures Listed(MetaLevels(levels), num) <==> InLevels(levels, num)
  {
    var v: Version := MetaLevels(levels);
    if InLevels(levels, num) {
      var l, i :| 0 <= l < |levels| && 0 <= i < |levels[l]| && levels[l][i].num == num;
      assert v[l][i].num == num;
    }
    if Listed(v, num) {
      var l, i :| 0 <= l < |v| && 0 <= i < |v[l]| && v[l][i].num == num;
      assert levels[l][i].num == num;
    }
  }

  /**
   After a restart the k-th file number handed out is k again, so it is the number of a file the
   manifest lists exactly if file k of the run is still in the tree.
   */
  lemma NumbersComeAgain(steps: seq<TreeStep>, k: nat)
    requires IsTreeRun(EMPTY_TREE, steps) && k >= 1
    requires forall i :: 0 <= i < |steps| ==> EditFits(RunEdits(EMPTY_TREE, steps)[i])
    ensures var m := Replay(FileOf(RunEdits(EMPTY_TREE, steps)), 0, START);
            m.Some? && (Listed(m.value.levels, m.value.next + (k - 1)) <==> InLevels(RunTree(EMPTY_TREE, steps).levels, k))
  {
    hide Replay, FileOf, RunTree, RunEdits, IsTreeRun, EditFits, Listed, InLevels, MetaLevels;
    ReplayRebuildsTree(steps);
    ListedAre(RunTree(EMPTY_TREE, steps).levels, k);
  }

  /** The k-th call of NextFileNumber on the manifest of a run, opened again. */
  method NumberAfterReopen(ghost steps: seq<TreeStep>, file: ByteString, k: nat) returns (num: nat)
    requires IsTreeRun(EMPTY_TREE, steps) && k >= 1
    requires forall i :: 0 <= i < |steps| ==> EditFits(RunEdits(EMPTY_TREE, steps)[i])
    requires file == FileOf(RunEdits(EMPTY_TREE, steps))
    ensures num == k && Replay(file, 0, START).Some?
    ensures Listed(Replay(file, 0, START).value.levels, num) <==> InLevels(RunTree(EMPTY_TREE, steps).levels, k)
  {
    hide Replay, FileOf, RunTree, RunEdits, IsTreeRun, EditFits, Listed, InLevels, MetaLevels, AllOk, Steps;
    RunEditsOk(steps);
    NumbersComeAgain(steps, k);
    ReplayRebuildsTree(steps);
    ReplayWhole(RunEdits(EMPTY_TREE, steps));
    var m := new ManifestFile.Reopen(file, RunEdits(EMPTY_TREE, steps));
    var i := 0;
    num := 0;
    while i < k
      invariant 0 <= i <= k && m.Valid() && fresh(m) && m.nextFileNum == i + 1 && num == i
    {
      num := m.NextFileNumber();
      i := i + 1;
    }
  }

  lemma RunEditsOk(steps: seq<TreeStep>)
    requires IsTreeRun(EMPTY_TREE, steps)
    requires forall i :: 0 <= i < |steps| ==> EditFits(RunEdits(EMPTY_TREE, steps)[i])
    ensures AllOk(RunEdits(EMPTY_TREE, steps))
  {
    hide IsTreeRun, RunTree, RunEdits, StateOk, AllOk, EditFits, Steps;
    EmptyStateOk();
    EmptyMetas();
    RunEditsApply(EMPTY_TREE, START, steps);
  }

  lemma EmptyMetas()
    ensures MetaLevels(EMPTY_TREE.levels) == EMPTY_VERSION
  {
  }

  /** One flush is enough: the first number after the restart is that of the flushed file. */
  lemma FirstNumberAgain(mem: Run, size: nat)
    requires Sorted(mem)
    ensures IsTreeRun(EMPTY_TREE, [FlushStep(mem, size)])
    ensures InLevels(RunTree(EMPTY_TREE, [FlushStep(mem, size)]).levels, 1)
  {
    hide Sorted;
    var step := FlushStep(mem, size);
    assert [step][1..] == [];
    assert IsTreeRun(StepTree(EMPTY_TREE, step), [step][1..]);
    assert RunTree(EMPTY_TREE, [step]) == StepTree(EMPTY_TREE, step);
    assert StepTree(EMPTY_TREE, step).levels[0][0].num == 1;
  }
}
