/**
 Compaction comes to an end: every picked job moves entries down, and there are only so many
 levels (internal/lsm/lsm.go, doCompaction).
 */
module TreeWeight {
  import opened KeyOrder
  import opened SortedLists
  import opened Compaction
  import opened Levels
  import opened CompactionJob
  import opened TreeEdit
  import opened TreeReads

  function Entries(fs: seq<Table>): nat {
    if fs == [] then 0 else |fs[0].entries| + Entries(fs[1..])
  }

  /** Each entry counts once for every level it can still sink. */
  function Weight(levels: seq<seq<Table>>, l: nat): nat
    requires |levels| == MAX_LEVELS
    decreases MAX_LEVELS - l
  {
    if l >= MAX_LEVELS - 1 then 0 else (MAX_LEVELS - 1 - l) * Entries(levels[l]) + Weight(levels, l + 1)
  }

  lemma {:induction false} EntriesConcat(a: seq<Table>, b: seq<Table>)
    ensures Entries(a + b) == Entries(a) + Entries(b)
  {
    if a == [] {
      assert a + b == b;
    } else {
      EntriesConcat(a[1..], b);
      assert (a + b)[1..] == a[1..] + b;
    }
  }

  lemma SingleEntries(x: Table)
    ensures Entries([x]) == |x.entries|
  {
    assert [x][1..] == [];
  }

  lemma EntriesSnoc(fs: seq<Table>)
    requires fs != []
    ensures Entries(fs) == Entries(fs[..|fs| - 1]) + |fs[|fs| - 1].entries|
  {
    hide Entries;
    var front, last := fs[..|fs| - 1], fs[|fs| - 1];
    assert fs == front + [last];
    EntriesConcat(front, [last]);
    SingleEntries(last);
  }

  lemma {:induction false} InsertEntries(x: Table, fs: seq<Table>)
    ensures Entries(Insert(x, fs, Smallest)) == |x.entries| + Entries(fs)
  {
    hide Less;
    if fs == [] || !Less(x.smallest, fs[|fs| - 1].smallest) {
      EntriesConcat(fs, [x]);
      assert [x][1..] == [];
      assert fs == [] ==> fs + [x] == [x];
    } else {
      var front, last := fs[..|fs| - 1], fs[|fs| - 1];
      InsertEntries(x, front);
      EntriesConcat(Insert(x, front, Smallest), [last]);
      EntriesSnoc(fs);
      assert [last][1..] == [];
    }
  }

  lemma {:induction false} SortEntries(fs: seq<Table>)
    ensures Entries(SortBy(fs, Smallest)) == Entries(fs)
  {
    if fs != [] {
      var front, last := fs[..|fs| - 1], fs[|fs| - 1];
      SortEntries(front);
      InsertEntries(last, SortBy(front, Smallest));
      EntriesSnoc(fs);
    }
  }

  lemma {:induction false} KeptConcat(a: seq<Table>, b: seq<Table>, dels: seq<(nat, nat)>, l: nat)
    ensures Kept(a + b, dels, l) == Kept(a, dels, l) + Kept(b, dels, l)
  {
    if a == [] {
      assert a + b == b;
    } else {
      KeptConcat(a[1..], b, dels, l);
      assert (a + b)[1..] == a[1..] + b;
      var x, y, z := [a[0]], Kept(a[1..], dels, l), Kept(b, dels, l);
      assert x + (y + z) == x + y + z;
    }
  }

  /** Taking out the overlapping tables splits the entries of a level in two. */
  lemma {:induction false} OverlapEntries(fs: seq<Table>, dels: seq<(nat, nat)>, l: nat, lo: Key, hi: Key)
    requires forall f :: f in fs ==> ((l, f.num) in dels <==> Overlaps(f, lo, hi))
    ensures Entries(Kept(fs, dels, l)) + Entries(Overlapping(fs, lo, hi)) == Entries(fs)
  {
    hide Overlaps;
    if fs != [] {
      var front, last := fs[..|fs| - 1], fs[|fs| - 1];
      assert fs == front + [last] && last in fs;
      OverlapEntries(front, dels, l, lo, hi);
      EntriesSnoc(fs);
      KeptConcat(front, [last], dels, l);
      assert [last][1..] == [];
      assert Kept([last], dels, l) == if Overlaps(last, lo, hi) then [] else [last];
      EntriesConcat(Kept(front, dels, l), Kept([last], dels, l));
      EntriesConcat(Overlapping(front, lo, hi), [last]);
      assert Entries([last]) == |last.entries|;
    }
  }

  lemma {:induction false} OneEntries(fs: seq<Table>, dels: seq<(nat, nat)>, l: nat, x: Table)
    requires DistinctNums(fs) && x in fs
    requires forall f :: f in fs ==> ((l, f.num) in dels <==> f == x)
    ensures Entries(Kept(fs, dels, l)) + |x.entries| == Entries(fs)
  {
    if fs[0] == x {
      var rest := fs[1..];
      assert forall i :: 0 <= i < |rest| ==> rest[i] == fs[i + 1] && rest[i].num != x.num;
      KeptRest(fs[1..], dels, l);
    } else {
      assert fs == [fs[0]] + fs[1..];
      OneEntries(fs[1..], dels, l, x);
      assert ([fs[0]] + Kept(fs[1..], dels, l))[1..] == Kept(fs[1..], dels, l);
    }
  }

  lemma {:induction false} KeptRest(fs: seq<Table>, dels: seq<(nat, nat)>, l: nat)
    requires forall f :: f in fs ==> (l, f.num) !in dels
    ensures Kept(fs, dels, l) == fs
  {
    if fs != [] { KeptRest(fs[1..], dels, l); }
  }

  // ---- what a compaction writes is no more than it reads

  lemma {:induction false} PruneNoLonger(es: Run, i: nat, st: PruneState, thr: nat -> nat, drop: bool)
    requires i <= |es|
    ensures |Prune(es, i, st, thr, drop)| <= |es| - i
    decreases |es| - i
  {
    hide PruneStep;
    if i < |es| {
      var (st', keep) := PruneStep(st, es[i], thr(i), drop);
      PruneNoLonger(es, i + 1, st', thr, drop);
    }
  }

  lemma {:induction false} MergeNoLonger(ls: seq<Run>)
    ensures |Merge(ls)| <= TotalSize(ls)
    decreases TotalSize(ls)
  {
    hide Less;
    var b := Best(ls, |ls|);
    if b.Some? {
      var k := ls[b.value][0].key;
      DropKeyShrinks(ls, k, b.value);
      MergeNoLonger(DropKey(ls, k));
    }
  }

  lemma {:induction false} RunsSize(fs: seq<Table>)
    ensures TotalSize(Runs(fs)) == Entries(fs)
  {
    if fs != [] {
      RunsSize(fs[1..]);
      assert Runs(fs)[1..] == Runs(fs[1..]);
    }
  }

  lemma {:induction false} CutEntries(ls: seq<Run>, num: nat, sizeOf: Run -> nat)
    requires NoEmpty(ls)
    ensures Entries(TablesFor(ls, num, sizeOf)) == |Flatten(ls)|
    decreases |ls|
  {
    if ls != [] {
      CutEntries(ls[1..], num + 1, sizeOf);
      assert TablesFor(ls, num, sizeOf)[1..] == TablesFor(ls[1..], num + 1, sizeOf);
    }
  }

  lemma AddedEntries(inputs: seq<Table>, thr: nat -> nat, drop: bool, target: nat, num: nat, sizeOf: Run -> nat)
    ensures Entries(Added(inputs, thr, drop, target, num, sizeOf)) <= Entries(inputs)
  {
    hide Split, Prune, Merge, TablesFor, Runs;
    var o := Output(inputs, thr, drop);
    SplitFlattens(o, target, [], 0);
    assert [] + o == o;
    CutEntries(Split(o, target, [], 0), num, sizeOf);
    PruneNoLonger(Merge(Runs(inputs)), 0, PRUNE_START, thr, drop);
    MergeNoLonger(Runs(inputs));
    RunsSize(inputs);
  }

  // ---- the weight of the tree

  lemma {:induction false} WeightSame(levels: seq<seq<Table>>, levels': seq<seq<Table>>, l: nat)
    requires |levels| == |levels'| == MAX_LEVELS && forall m :: l <= m < MAX_LEVELS - 1 ==> levels'[m] == levels[m]
    ensures Weight(levels', l) == Weight(levels, l)
    decreases MAX_LEVELS - l
  {
    if l < MAX_LEVELS - 1 { WeightSame(levels, levels', l + 1); }
  }

  /** Moving entries from level j down by one takes at least their number off. */
  lemma {:induction false} WeightMoves(levels: seq<seq<Table>>, levels': seq<seq<Table>>, l: nat, j: nat, moved: nat)
    requires |levels| == |levels'| == MAX_LEVELS && l <= j < MAX_LEVELS - 1
    requires forall m :: l <= m < MAX_LEVELS && m != j && m != j + 1 ==> levels'[m] == levels[m]
    requires Entries(levels'[j]) + moved == Entries(levels[j])
    requires Entries(levels'[j + 1]) <= Entries(levels[j + 1]) + moved
    ensures Weight(levels', l) + moved <= Weight(levels, l)
    decreases j - l
  {
    hide Entries;
    if l < j {
      WeightMoves(levels, levels', l + 1, j, moved);
    } else {
      WeightMovesAt(levels, levels', j, moved);
    }
  }

  lemma WeightMovesAt(levels: seq<seq<Table>>, levels': seq<seq<Table>>, j: nat, moved: nat)
    requires |levels| == |levels'| == MAX_LEVELS && j < MAX_LEVELS - 1
    requires forall m :: j + 2 <= m < MAX_LEVELS ==> levels'[m] == levels[m]
    requires Entries(levels'[j]) + moved == Entries(levels[j])
    requires Entries(levels'[j + 1]) <= Entries(levels[j + 1]) + moved
    ensures Weight(levels', j) + moved <= Weight(levels, j)
  {
    hide Entries, Weight;
    WeightNext(levels, j);
    WeightNext(levels', j);
    WeightNext(levels, j + 1);
    WeightNext(levels', j + 1);
    WeightSame(levels, levels', j + 2);
    MovesCost(MAX_LEVELS - 1 - j, Entries(levels'[j]), Entries(levels'[j + 1]), Entries(levels[j + 1]), moved);
  }

  lemma WeightNext(levels: seq<seq<Table>>, l: nat)
    requires |levels| == MAX_LEVELS && l < MAX_LEVELS
    ensures Weight(levels, l) == (MAX_LEVELS - 1 - l) * Entries(levels[l]) + Weight(levels, l + 1)
  {
    hide Entries;
  }

  lemma MovesCost(c: nat, a: nat, x: nat, y: nat, moved: nat)
    requires c >= 1 && x <= y + moved
    ensures c * a + (c - 1) * x + moved <= c * (a + moved) + (c - 1) * y
  {
    Distribute(c, a, moved);
    MulMonotone(c - 1, x, y + moved);
    Distribute(c - 1, y, moved);
    assert c * moved == (c - 1) * moved + moved;
  }

  lemma Distribute(c: nat, a: nat, b: nat)
    ensures c * (a + b) == c * a + c * b
  {
  }

  lemma MulMonotone(c: nat, a: nat, b: nat)
    requires a <= b
    ensures c * a <= c * b
  {
  }

  lemma SourceEntries(levels: seq<seq<Table>>, job: Job)
    requires LayoutOk(levels) && JobOk(levels, job) && NumsOk(levels)
    ensures Entries(if job.level == 0 then [] else Kept(levels[job.level], DelsOf(job), job.level)) + Entries(job.in0)
            == Entries(levels[job.level])
  {
    hide LayoutOk, IsHull, Overlapping, Tag, DistinctNums, Kept;
    var l := job.level;
    if l > 0 {
      var fs, x := levels[l], job.in0[0];
      KeptMembers(fs, DelsOf(job), l);
      forall f | f in fs ensures (l, f.num) in DelsOf(job) <==> f == x {
        KeptAre(levels, job, l, f);
      }
      OneEntries(fs, DelsOf(job), l, x);
      assert job.in0 == [x] && [x][1..] == [];
    }
  }

  lemma NextEntries(levels: seq<seq<Table>>, job: Job)
    requires LayoutOk(levels) && JobOk(levels, job) && NumsOk(levels)
    ensures Entries(Kept(levels[job.level + 1], DelsOf(job), job.level + 1)) + Entries(job.in1)
            == Entries(levels[job.level + 1])
  {
    hide LayoutOk, IsHull, Overlapping, Tag, DistinctNums, Kept, Overlaps, Entries;
    var l := job.level + 1;
    var fs := levels[l];
    var lo, hi :| IsHull(job.in0, lo, hi) && job.in1 == Overlapping(fs, lo, hi);
    OverlappingMembers(fs, lo, hi);
    KeptMembers(fs, DelsOf(job), l);
    forall f | f in fs ensures (l, f.num) in DelsOf(job) <==> Overlaps(f, lo, hi) {
      KeptAre(levels, job, l, f);
    }
    OverlapEntries(fs, DelsOf(job), l, lo, hi);
  }

  /** Every compaction takes at least the entries of its source tables off the weight. */
  lemma CompactionSinks(levels: seq<seq<Table>>, job: Job, thr: nat -> nat, drop: bool, target: nat, num: nat,
                        sizeOf: Run -> nat)
    requires LayoutOk(levels) && JobOk(levels, job) && NumsOk(levels)
    ensures |levels| == MAX_LEVELS && job.level < MAX_LEVELS - 1
    ensures var levels' := Compacted(levels, job, Added(job.in0 + job.in1, thr, drop, target, num, sizeOf));
            Weight(levels', 0) + Entries(job.in0) <= Weight(levels, 0)
  {
    hide LayoutOk, JobOk, NumsOk, Kept, Entries, Compacted, Added, SortBy, Weight;
    JobLevel(levels, job);
    var l := job.level;
    var outs := Added(job.in0 + job.in1, thr, drop, target, num, sizeOf);
    var levels' := Compacted(levels, job, outs);
    AddedEntries(job.in0 + job.in1, thr, drop, target, num, sizeOf);
    EntriesConcat(job.in0, job.in1);
    SourceEntries(levels, job);
    NextEntries(levels, job);
    var kept := Kept(levels[l + 1], DelsOf(job), l + 1);
    CompactedAt(levels, job, outs, l + 1);
    SortEntries(kept + outs);
    EntriesConcat(kept, outs);
    forall m | 0 <= m < MAX_LEVELS && m != l + 1
      ensures levels'[m] == if m == l then (if m == 0 then [] else Kept(levels[m], DelsOf(job), m)) else levels[m]
    {
      OtherLevels(levels, job, outs, m);
    }
    WeightMoves(levels, levels', 0, l, Entries(job.in0));
  }

  lemma {:induction false} SomeEntry(fs: seq<Table>, i: nat)
    requires i < |fs| && fs[i].entries != []
    ensures Entries(fs) > 0
  {
    if i > 0 { SomeEntry(fs[1..], i - 1); }
  }

  /**
   A picked compaction strictly decreases the weight, or leaves it and empties a first level that
   held files without a single entry: the compaction loop terminates from every state.
   */
  lemma CompactionDecreases(levels: seq<seq<Table>>, job: Job, thr: nat -> nat, drop: bool, target: nat, num: nat,
                            sizeOf: Run -> nat)
    requires LayoutOk(levels) && JobOk(levels, job) && NumsOk(levels)
    ensures |levels| == MAX_LEVELS && job.level < MAX_LEVELS - 1
    ensures var levels' := Compacted(levels, job, Added(job.in0 + job.in1, thr, drop, target, num, sizeOf));
            || Weight(levels', 0) < Weight(levels, 0)
            || (Weight(levels', 0) == Weight(levels, 0) && levels'[0] == [] && levels[0] != [])
  {
    hide NumsOk, Kept, Entries, Compacted, Added, Weight, IsHull, Overlapping, FlushedOk;
    JobLevel(levels, job);
    CompactionSinks(levels, job, thr, drop, target, num, sizeOf);
    if job.level == 0 {
      OtherLevels(levels, job, Added(job.in0 + job.in1, thr, drop, target, num, sizeOf), 0);
    } else {
      var i := IndexOf(levels[job.level], job.in0[0]);
      assert TableOk(levels[job.level][i]);
      SomeEntry(job.in0, 0);
    }
  }
}
