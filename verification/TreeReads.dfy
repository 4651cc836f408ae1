/**
 Point reads of the tree, and what a compaction does to them: the lookup order of LSMTree.Get
 (internal/lsm/lsm.go) against the edit of a compaction.
 */
module TreeReads {
  import opened Bytes
  import opened KeyOrder
  import opened SortedLists
  import opened Compaction
  import opened Levels
  import opened CompactionJob
  import opened TreeEdit

  /** What a lookup yields: nothing, a tombstone (Some(None)) or a value. */
  type Hit = Option<Option<ByteString>>

  function Or(a: Hit, b: Hit): Hit {
    if a.Some? then a else b
  }

  /** The first level is read newest file first. */
  function NewestFind(fs: seq<Table>, k: Key): Hit {
    if fs == [] then None
    else Or(Find(fs[|fs| - 1].entries, k), NewestFind(fs[..|fs| - 1], k))
  }

  function LevelFind(levels: seq<seq<Table>>, l: nat, k: Key): Hit
    requires l < |levels|
  {
    if l == 0 then NewestFind(levels[0], k) else TablesFind(levels[l], k)
  }

  /** A lookup in the levels from l on. */
  function FindFrom(levels: seq<seq<Table>>, l: nat, k: Key): Hit
    decreases |levels| - l
  {
    if l >= |levels| then None else Or(LevelFind(levels, l, k), FindFrom(levels, l + 1, k))
  }

  /** A lookup in the levels before l. */
  function FindAbove(levels: seq<seq<Table>>, l: nat, k: Key): Hit
    requires l <= |levels|
  {
    if l == 0 then None else Or(FindAbove(levels, l - 1, k), LevelFind(levels, l - 1, k))
  }

  function TreeFind(levels: seq<seq<Table>>, k: Key): Hit {
    FindFrom(levels, 0, k)
  }

  lemma {:induction false} TreeSplit(levels: seq<seq<Table>>, l: nat, k: Key)
    requires l <= |levels|
    ensures TreeFind(levels, k) == Or(FindAbove(levels, l, k), FindFrom(levels, l, k))
  {
    hide LevelFind;
    if l > 0 { TreeSplit(levels, l - 1, k); }
  }

  lemma {:induction false} FromSame(levels: seq<seq<Table>>, levels': seq<seq<Table>>, l: nat, k: Key)
    requires |levels'| == |levels| && forall m :: l <= m < |levels| ==> levels'[m] == levels[m]
    ensures FindFrom(levels', l, k) == FindFrom(levels, l, k)
    decreases |levels| - l
  {
    if l < |levels| { FromSame(levels, levels', l + 1, k); }
  }

  lemma {:induction false} AboveSame(levels: seq<seq<Table>>, levels': seq<seq<Table>>, l: nat, k: Key)
    requires l <= |levels| == |levels'| && forall m :: 0 <= m < l ==> levels'[m] == levels[m]
    ensures FindAbove(levels', l, k) == FindAbove(levels, l, k)
  {
    if l > 0 { AboveSame(levels, levels', l - 1, k); }
  }

  lemma {:induction false} EmptyFind(levels: seq<seq<Table>>, l: nat, k: Key)
    requires forall m :: l <= m < |levels| ==> levels[m] == []
    ensures FindFrom(levels, l, k) == None
    decreases |levels| - l
  {
    if l < |levels| { EmptyFind(levels, l + 1, k); }
  }

  /** Newest first and oldest first miss the same keys. */
  lemma {:induction false} NewestNone(fs: seq<Table>, k: Key)
    ensures NewestFind(fs, k).None? <==> TablesFind(fs, k).None?
  {
    if fs != [] {
      NewestNone(fs[..|fs| - 1], k);
      assert fs == fs[..|fs| - 1] + [fs[|fs| - 1]];
      TablesFindConcat(fs[..|fs| - 1], [fs[|fs| - 1]], k);
      assert [fs[|fs| - 1]][1..] == [];
    }
  }

  /** In a level two tables do not share a key, so parts of it can be asked in any order. */
  lemma LevelParts(fs: seq<Table>, a: seq<Table>, b: seq<Table>, k: Key)
    requires LevelOk(fs) && LevelOk(a) && LevelOk(b)
    requires forall f :: f in fs <==> f in a || f in b
    requires forall f :: f in a ==> f !in b
    ensures TablesFind(fs, k) == Or(TablesFind(a, k), TablesFind(b, k))
    ensures TablesFind(a, k).None? || TablesFind(b, k).None?
  {
    hide LevelOk, TablesFind;
    TablesFindNone(fs, k);
    TablesFindNone(a, k);
    TablesFindNone(b, k);
    if TablesFind(a, k).Some? {
      var i := TablesFindSome(a, k);
      assert a[i] in a;
      var j := IndexOf(fs, a[i]);
      LevelFindAt(fs, k, j);
      if TablesFind(b, k).Some? {
        var x := TablesFindSome(b, k);
        assert b[x] in b;
        OneHolder(fs, a[i], b[x], k);
        assert false;
      }
    } else if TablesFind(b, k).Some? {
      var i := TablesFindSome(b, k);
      assert b[i] in b;
      var j := IndexOf(fs, b[i]);
      LevelFindAt(fs, k, j);
    }
  }

  lemma OneHolder(fs: seq<Table>, f: Table, g: Table, k: Key)
    requires LevelOk(fs) && f in fs && g in fs && Find(f.entries, k).Some? && Find(g.entries, k).Some?
    ensures f == g
  {
    hide Less, TableOk, LevelOk;
    KeysOrdered();
    if f != g {
      LevelPair(fs, f, g);
      RangeHolds(f, k);
      RangeHolds(g, k);
      assert false;
    }
  }

  // ---- before and after a compaction

  /** What is found above the compaction's inputs. */
  function Upper(levels: seq<seq<Table>>, job: Job, k: Key): Hit
    requires |levels| == MAX_LEVELS && job.level < MAX_LEVELS - 1
  {
    Or(FindAbove(levels, job.level, k),
       if job.level == 0 then None else TablesFind(Kept(levels[job.level], DelsOf(job), job.level), k))
  }

  /** What is found below them. */
  function Lower(levels: seq<seq<Table>>, job: Job, k: Key): Hit
    requires |levels| == MAX_LEVELS && job.level < MAX_LEVELS - 1
  {
    Or(TablesFind(Kept(levels[job.level + 1], DelsOf(job), job.level + 1), k), FindFrom(levels, job.level + 2, k))
  }

  /** The inputs of the source level and what it keeps of them. */
  lemma SourceParts(levels: seq<seq<Table>>, job: Job, k: Key)
    requires LayoutOk(levels) && JobOk(levels, job) && NumsOk(levels) && job.level > 0
    ensures var kept := Kept(levels[job.level], DelsOf(job), job.level);
            && TablesFind(levels[job.level], k) == Or(TablesFind(kept, k), TablesFind(job.in0, k))
            && LevelOk(kept)
  {
    hide LevelOk, Kept, NumsOk, TablesFind, IsHull, Overlapping, FlushedOk, Overlaps;
    var fs := levels[job.level];
    var kept := Kept(fs, DelsOf(job), job.level);
    KeptLevel(fs, DelsOf(job), job.level);
    forall f ensures f in kept <==> f in fs && f !in job.in0 { KeptAre(levels, job, job.level, f); }
    forall f | f in job.in0 ensures f in fs { }
    OneTable(fs, job.in0);
    LevelParts(fs, kept, job.in0, k);
  }

  lemma OneTable(fs: seq<Table>, one: seq<Table>)
    requires LevelOk(fs) && |one| == 1 && one[0] in fs
    ensures LevelOk(one)
  {
    hide Left, TableOk;
    var i := IndexOf(fs, one[0]);
  }

  lemma NextParts(levels: seq<seq<Table>>, job: Job, k: Key)
    requires LayoutOk(levels) && JobOk(levels, job) && NumsOk(levels)
    ensures var kept := Kept(levels[job.level + 1], DelsOf(job), job.level + 1);
            TablesFind(levels[job.level + 1], k) == Or(TablesFind(job.in1, k), TablesFind(kept, k))
  {
    hide LevelOk, Kept, NumsOk, TablesFind, IsHull, Overlapping, FlushedOk, Overlaps, JobOk, LayoutOk;
    JobLevel(levels, job);
    NextLevel(levels, job);
    JobNext(levels, job);
    var fs := levels[job.level + 1];
    var kept := Kept(fs, DelsOf(job), job.level + 1);
    KeptLevel(fs, DelsOf(job), job.level + 1);
    forall f ensures f in kept <==> f in fs && f !in job.in1 { KeptAre(levels, job, job.level + 1, f); }
    InputLevel(levels, job);
    LevelParts(fs, job.in1, kept, k);
  }

  lemma InputLevel(levels: seq<seq<Table>>, job: Job)
    requires JobOk(levels, job) && LevelOk(levels[job.level + 1])
    ensures LevelOk(job.in1)
  {
    hide LevelOk, IsHull, Overlapping;
    var lo, hi :| IsHull(job.in0, lo, hi) && job.in1 == Overlapping(levels[job.level + 1], lo, hi);
    OverlappingLevel(levels[job.level + 1], lo, hi);
  }

  /** A read before the compaction, as three lookups one after another. */
  lemma ReadBefore(levels: seq<seq<Table>>, job: Job, k: Key)
    requires LayoutOk(levels) && JobOk(levels, job) && NumsOk(levels)
    ensures job.level < MAX_LEVELS - 1 && |levels| == MAX_LEVELS
    ensures TreeFind(levels, k)
            == Or(Upper(levels, job, k),
                  Or(if job.level == 0 then Or(NewestFind(job.in0, k), TablesFind(job.in1, k))
                     else TablesFind(job.in0 + job.in1, k),
                     Lower(levels, job, k)))
  {
    hide LayoutOk, JobOk, NumsOk, Kept, TablesFind, NewestFind, TreeFind;
    JobLevel(levels, job);
    var l := job.level;
    TreeSplit(levels, l, k);
    NextParts(levels, job, k);
    TablesFindConcat(job.in0, job.in1, k);
    assert FindFrom(levels, l, k) == Or(LevelFind(levels, l, k), Or(LevelFind(levels, l + 1, k), FindFrom(levels, l + 2, k)));
    if l > 0 {
      SourceParts(levels, job, k);
    } else {
      WholeFirst(levels, job);
    }
  }

  lemma WholeFirst(levels: seq<seq<Table>>, job: Job)
    requires JobOk(levels, job) && job.level == 0
    ensures job.in0 == levels[0]
  {
  }

  /** Level by level what is left alone, and what the source level becomes. */
  lemma OtherLevels(levels: seq<seq<Table>>, job: Job, outs: seq<Table>, l: nat)
    requires LayoutOk(levels) && JobOk(levels, job) && NumsOk(levels) && l < MAX_LEVELS && l != job.level + 1
    ensures var levels' := Compacted(levels, job, outs);
            levels'[l] == if l == job.level then (if l == 0 then [] else Kept(levels[l], DelsOf(job), l)) else levels[l]
  {
    hide LevelOk, FlushedOk, Kept, NumsOk, SortBy, Compacted, IsHull, Overlapping;
    CompactedAt(levels, job, outs, l);
    var kept := Kept(levels[l], DelsOf(job), l);
    if l > 0 {
      KeptLevel(levels[l], DelsOf(job), l);
      SortedLevelStays(kept);
    }
    if l != job.level {
      KeptAll(levels, job, l);
    } else if l == 0 && kept != [] {
      assert kept[0] in kept;
      KeptAre(levels, job, 0, kept[0]);
      assert false;
    }
  }

  lemma KeptAll(levels: seq<seq<Table>>, job: Job, l: nat)
    requires l < |levels| && l != job.level && l != job.level + 1
    ensures Kept(levels[l], DelsOf(job), l) == levels[l]
  {
    hide Tag;
    forall n: nat ensures (l, n) !in DelsOf(job) {
      TagMembers(job.level, job.in0, l, n);
      TagMembers(job.level + 1, job.in1, l, n);
    }
    KeptUntouched(levels[l], DelsOf(job), l);
  }

  lemma {:induction false} KeptUntouched(fs: seq<Table>, dels: seq<(nat, nat)>, l: nat)
    requires forall n: nat :: (l, n) !in dels
    ensures Kept(fs, dels, l) == fs
  {
    if fs != [] { KeptUntouched(fs[1..], dels, l); }
  }

  /** A read after the compaction: what it wrote stands where its inputs stood. */
  lemma ReadAfter(levels: seq<seq<Table>>, job: Job, outs: seq<Table>, k: Key)
    requires LayoutOk(levels) && JobOk(levels, job) && NumsOk(levels) && LevelOk(outs)
    requires forall t :: t in outs ==> IsKeyOf(job.in0 + job.in1, t.smallest) && IsKeyOf(job.in0 + job.in1, t.largest)
    ensures job.level < MAX_LEVELS - 1 && |levels| == MAX_LEVELS
    ensures TreeFind(Compacted(levels, job, outs), k)
            == Or(Upper(levels, job, k), Or(TablesFind(outs, k), Lower(levels, job, k)))
  {
    hide LayoutOk, JobOk, NumsOk, Kept, TablesFind, LevelOk, IsKeyOf, Compacted, NewestFind, FindAbove, TreeFind;
    JobLevel(levels, job);
    var l := job.level;
    var levels' := Compacted(levels, job, outs);
    TreeSplit(levels', l, k);
    forall m | 0 <= m < MAX_LEVELS && m != l + 1
      ensures levels'[m] == if m == l then (if m == 0 then [] else Kept(levels[m], DelsOf(job), m)) else levels[m]
    {
      OtherLevels(levels, job, outs, m);
    }
    AboveSame(levels, levels', l, k);
    FromSame(levels, levels', l + 2, k);
    NextLevelAfter(levels, job, outs);
    assert FindFrom(levels', l, k) == Or(LevelFind(levels', l, k), Or(LevelFind(levels', l + 1, k), FindFrom(levels', l + 2, k)));
    if l == 0 { NothingNewest(k); }
  }

  lemma NothingNewest(k: Key)
    ensures NewestFind([], k) == None
  {
  }

  // ---- with no snapshot to prune for, reads do not change

  lemma {:induction false} PruneNothing(es: Run, i: nat, st: PruneState, thr: nat -> nat, drop: bool)
    requires i <= |es| && forall j :: thr(j) == 0
    ensures Prune(es, i, st, thr, drop) == es[i..]
    decreases |es| - i
  {
    hide DecodeKey;
    if i < |es| {
      var (st', keep) := PruneStep(st, es[i], thr(i), drop);
      PruneNothing(es, i + 1, st', thr, drop);
    }
  }

  /** Reads agree on a key exactly if the newest and the oldest first-level file with it agree. */
  lemma ReadKept(levels: seq<seq<Table>>, job: Job, outs: seq<Table>, k: Key)
    requires LayoutOk(levels) && JobOk(levels, job) && NumsOk(levels) && LevelOk(outs)
    requires forall t :: t in outs ==> IsKeyOf(job.in0 + job.in1, t.smallest) && IsKeyOf(job.in0 + job.in1, t.largest)
    requires TablesFind(outs, k) == TablesFind(job.in0 + job.in1, k)
    ensures |levels| == MAX_LEVELS && job.level < MAX_LEVELS - 1
    ensures TreeFind(Compacted(levels, job, outs), k) == TreeFind(levels, k)
            <==> (job.level == 0 ==> NewestFind(levels[0], k) == TablesFind(levels[0], k))
  {
    hide LayoutOk, JobOk, NumsOk, Kept, TablesFind, LevelOk, IsKeyOf, Compacted, NewestFind, TreeFind, Lower, FindAbove;
    ReadBefore(levels, job, k);
    ReadAfter(levels, job, outs, k);
    TablesFindConcat(job.in0, job.in1, k);
    if job.level == 0 {
      WholeFirst(levels, job);
      NewestNone(levels[0], k);
      NothingAbove(levels, k);
    }
  }

  lemma NothingAbove(levels: seq<seq<Table>>, k: Key)
    ensures FindAbove(levels, 0, k) == None
  {
  }

  /** With no snapshots to keep versions for, a compaction writes every key with its first value. */
  lemma UnprunedOutput(inputs: seq<Table>, thr: nat -> nat, drop: bool, k: Key)
    requires AllSorted(Runs(inputs)) && forall j :: thr(j) == 0
    ensures Find(Output(inputs, thr, drop), k) == TablesFind(inputs, k)
  {
    hide Merge, AllSorted, Prune, Find, TablesFind;
    var m := Merge(Runs(inputs));
    PruneNothing(m, 0, PRUNE_START, thr, drop);
    assert m[0..] == m;
    MergeLookup(Runs(inputs), k);
    RunsHit(inputs, k);
  }

  /** A compaction without a snapshot threshold, and the read of one key. */
  lemma UnprunedRead(levels: seq<seq<Table>>, job: Job, thr: nat -> nat, drop: bool, target: nat, num: nat,
                     sizeOf: Run -> nat, k: Key)
    requires LayoutOk(levels) && JobOk(levels, job) && NumsOk(levels) && forall j :: thr(j) == 0
    ensures |levels| == MAX_LEVELS && job.level < MAX_LEVELS - 1
    ensures var levels' := Compacted(levels, job, Added(job.in0 + job.in1, thr, drop, target, num, sizeOf));
            TreeFind(levels', k) == TreeFind(levels, k)
            <==> (job.level == 0 ==> NewestFind(levels[0], k) == TablesFind(levels[0], k))
  {
    hide LayoutOk, JobOk, NumsOk, TablesFind, LevelOk, IsKeyOf, Compacted, NewestFind, TreeFind, Added, AllSorted, Output;
    JobLevel(levels, job);
    InputsSorted(levels, job);
    AddedFacts(job.in0 + job.in1, thr, drop, target, num, sizeOf);
    UnprunedOutput(job.in0 + job.in1, thr, drop, k);
    ReadKept(levels, job, Added(job.in0 + job.in1, thr, drop, target, num, sizeOf), k);
  }

  /** What a compaction of the first level makes of a key it holds: the newest value is read before, the oldest after. */
  lemma FirstLevelRead(levels: seq<seq<Table>>, job: Job, thr: nat -> nat, drop: bool, target: nat, num: nat,
                       sizeOf: Run -> nat, k: Key)
    requires LayoutOk(levels) && JobOk(levels, job) && NumsOk(levels) && job.level == 0 && forall j :: thr(j) == 0
    requires |levels| == MAX_LEVELS && NewestFind(levels[0], k).Some?
    ensures TreeFind(levels, k) == NewestFind(levels[0], k)
    ensures TreeFind(Compacted(levels, job, Added(job.in0 + job.in1, thr, drop, target, num, sizeOf)), k) == TablesFind(levels[0], k)
  {
    hide LayoutOk, JobOk, NumsOk, TablesFind, LevelOk, IsKeyOf, Compacted, NewestFind, TreeFind, Added, AllSorted, Output, Lower,
      FindAbove;
    JobLevel(levels, job);
    InputsSorted(levels, job);
    AddedFacts(job.in0 + job.in1, thr, drop, target, num, sizeOf);
    UnprunedOutput(job.in0 + job.in1, thr, drop, k);
    ReadBefore(levels, job, k);
    ReadAfter(levels, job, Added(job.in0 + job.in1, thr, drop, target, num, sizeOf), k);
    TablesFindConcat(job.in0, job.in1, k);
    WholeFirst(levels, job);
    NewestNone(levels[0], k);
    NothingAbove(levels, k);
  }

  /**
   Without a snapshot threshold a compaction changes no read at all, except that it keeps the
   oldest and not the newest value of a full key the first level holds twice: reads are kept
   exactly when those two agree everywhere. A table stands for its entries here, as it does if its
   blocks can be read.
   */
  lemma CompactionKeepsReads(levels: seq<seq<Table>>, job: Job, thr: nat -> nat, drop: bool, target: nat, num: nat,
                             sizeOf: Run -> nat)
    requires LayoutOk(levels) && JobOk(levels, job) && NumsOk(levels) && forall j :: thr(j) == 0
    ensures |levels| == MAX_LEVELS && job.level < MAX_LEVELS - 1
    ensures var levels' := Compacted(levels, job, Added(job.in0 + job.in1, thr, drop, target, num, sizeOf));
            (forall k :: TreeFind(levels', k) == TreeFind(levels, k))
            <==> (job.level == 0 ==> forall k :: NewestFind(levels[0], k) == TablesFind(levels[0], k))
  {
    hide LayoutOk, JobOk, NumsOk, TablesFind, Compacted, NewestFind, TreeFind, Added;
    JobLevel(levels, job);
    var levels' := Compacted(levels, job, Added(job.in0 + job.in1, thr, drop, target, num, sizeOf));
    if job.level != 0 || forall k :: NewestFind(levels[0], k) == TablesFind(levels[0], k) {
      forall k ensures TreeFind(levels', k) == TreeFind(levels, k) {
        UnprunedRead(levels, job, thr, drop, target, num, sizeOf, k);
      }
    } else {
      var k :| NewestFind(levels[0], k) != TablesFind(levels[0], k);
      UnprunedRead(levels, job, thr, drop, target, num, sizeOf, k);
    }
  }
}
