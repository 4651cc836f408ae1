/**
 The tree after a compaction: the tables taken are gone, the new ones stand in their places, and
 every level is still in order.
 */
module TreeEdit {
  import opened KeyOrder
  import opened SortedLists
  import opened Compaction
  import opened Levels
  import opened CompactionJob

  // ---- what a compaction writes

  lemma {:induction false} PruneMembers(es: Run, i: nat, st: PruneState, thr: nat -> nat, drop: bool)
    requires i <= |es|
    ensures forall e :: e in Prune(es, i, st, thr, drop) ==> e in es[i..]
    decreases |es| - i
  {
    if i < |es| {
      hide PruneStep;
      var (st', keep) := PruneStep(st, es[i], thr(i), drop);
      PruneMembers(es, i + 1, st', thr, drop);
      assert es[i..] == [es[i]] + es[i + 1..];
    }
  }

  /** Pruning keeps the order. */
  lemma {:induction false} PruneSorted(es: Run, i: nat, st: PruneState, thr: nat -> nat, drop: bool)
    requires Sorted(es) && i <= |es|
    ensures Sorted(Prune(es, i, st, thr, drop))
    decreases |es| - i
  {
    hide PruneStep, Less;
    if i < |es| {
      var (st', keep) := PruneStep(st, es[i], thr(i), drop);
      PruneSorted(es, i + 1, st', thr, drop);
      PruneMembers(es, i + 1, st', thr, drop);
      var rest := Prune(es, i + 1, st', thr, drop);
      forall e | e in rest ensures Less(es[i].key, e.key) {
        assert e in es[i + 1..];
      }
    }
  }

  lemma {:induction false} RunsHit(fs: seq<Table>, k: Key)
    ensures FirstHit(Runs(fs), k) == TablesFind(fs, k)
  {
    if fs != [] {
      RunsHit(fs[1..], k);
      assert Runs(fs)[1..] == Runs(fs[1..]);
    }
  }

  /** Everything written is sorted and comes from the inputs. */
  lemma OutputFacts(inputs: seq<Table>, thr: nat -> nat, drop: bool)
    requires AllSorted(Runs(inputs))
    ensures Sorted(Output(inputs, thr, drop))
    ensures forall e :: e in Output(inputs, thr, drop) ==> IsKeyOf(inputs, e.key)
  {
    hide Less, Sorted, AllSorted, Merge, Prune;
    var m := Merge(Runs(inputs));
    MergeSorted(Runs(inputs));
    PruneSorted(m, 0, PRUNE_START, thr, drop);
    PruneMembers(m, 0, PRUNE_START, thr, drop);
    forall e | e in Output(inputs, thr, drop) ensures IsKeyOf(inputs, e.key) {
      assert e in m[0..];
      var i := IndexOf(m, e);
      FindAt(m, i);
      MergeLookup(Runs(inputs), e.key);
      RunsHit(inputs, e.key);
      var j := TablesFindSome(inputs, e.key);
      assert inputs[j] in inputs;
    }
  }

  lemma CutParts(ls: seq<Run>)
    requires ls != [] && Sorted(Flatten(ls))
    ensures Sorted(ls[0]) && Sorted(Flatten(ls[1..]))
  {
    hide Less;
    var all, n := Flatten(ls), |ls[0]|;
    assert all[n..] == Flatten(ls[1..]) && all[0..n] == ls[0];
    SortedSlice(all, n, |all|);
    SortedSlice(all, 0, n);
  }

  lemma CutLeft(ls: seq<Run>, j: nat)
    requires NoEmpty(ls) && Sorted(Flatten(ls)) && 1 <= j < |ls|
    ensures Less(ls[0][|ls[0]| - 1].key, ls[j][0].key)
  {
    hide Less;
    var all, n := Flatten(ls), |ls[0]|;
    var tail := Flatten(ls[1..]);
    assert all == ls[0] + tail;
    FlattenMembers(ls[1..], j - 1, ls[j][0]);
    var x := IndexOf(tail, ls[j][0]);
    assert all[n - 1] == ls[0][n - 1] && all[n + x] == tail[x];
  }

  /** Files cut from one sorted run form a level. */
  lemma {:induction false} CutLevel(ls: seq<Run>, num: nat, sizeOf: Run -> nat)
    requires NoEmpty(ls) && Sorted(Flatten(ls))
    ensures LevelOk(TablesFor(ls, num, sizeOf))
    decreases |ls|
  {
    hide Less, TablesFor, Sorted, LevelOk;
    var ts := TablesFor(ls, num, sizeOf);
    if ls == [] {
      assert ts == [];
      EmptyLevel();
    } else {
      var rest := TablesFor(ls[1..], num + 1, sizeOf);
      CutParts(ls);
      CutLevel(ls[1..], num + 1, sizeOf);
      forall j | 0 <= j < |rest| ensures Left(ts[0], rest[j]) { CutLeft(ls, j + 1); }
      LevelCons(ts[0], rest);
      assert ts == [ts[0]] + rest;
    }
  }

  lemma EmptyLevel()
    ensures LevelOk([])
  {
  }

  lemma SortedSlice(es: Run, i: nat, j: nat)
    requires Sorted(es) && i <= j <= |es|
    ensures Sorted(es[i..j])
  {
    hide Less;
  }

  lemma LevelCons(x: Table, fs: seq<Table>)
    requires LevelOk(fs) && TableOk(x) && forall i :: 0 <= i < |fs| ==> Left(x, fs[i])
    ensures LevelOk([x] + fs)
  {
    hide Left, TableOk;
  }

  lemma {:induction false} CutFind(ls: seq<Run>, num: nat, sizeOf: Run -> nat, k: Key)
    requires NoEmpty(ls)
    ensures TablesFind(TablesFor(ls, num, sizeOf), k) == Find(Flatten(ls), k)
    decreases |ls|
  {
    if ls != [] {
      assert TablesFor(ls, num, sizeOf)[1..] == TablesFor(ls[1..], num + 1, sizeOf);
      CutFind(ls[1..], num + 1, sizeOf, k);
      FindConcat(ls[0], Flatten(ls[1..]), k);
    }
  }

  /** The tables a compaction adds: a level of their own that holds exactly what it writes. */
  lemma AddedFacts(inputs: seq<Table>, thr: nat -> nat, drop: bool, target: nat, num: nat, sizeOf: Run -> nat)
    requires AllSorted(Runs(inputs))
    ensures var outs := Added(inputs, thr, drop, target, num, sizeOf);
            && LevelOk(outs)
            && (forall k :: TablesFind(outs, k) == Find(Output(inputs, thr, drop), k))
            && (forall t :: t in outs ==> IsKeyOf(inputs, t.smallest) && IsKeyOf(inputs, t.largest))
  {
    hide Less, Sorted, AllSorted, Output, Split, TableOk, LevelOk, IsKeyOf;
    var o := Output(inputs, thr, drop);
    var ls := Split(o, target, [], 0);
    OutputFacts(inputs, thr, drop);
    SplitFlattens(o, target, [], 0);
    assert [] + o == o;
    CutLevel(ls, num, sizeOf);
    forall k ensures TablesFind(TablesFor(ls, num, sizeOf), k) == Find(o, k) {
      CutFind(ls, num, sizeOf, k);
    }
    var outs := TablesFor(ls, num, sizeOf);
    forall t | t in outs ensures IsKeyOf(inputs, t.smallest) && IsKeyOf(inputs, t.largest) {
      var i := IndexOf(outs, t);
      FlattenMembers(ls, i, ls[i][0]);
      FlattenMembers(ls, i, ls[i][|ls[i]| - 1]);
    }
  }

  // ---- the edit

  function Tag(l: nat, fs: seq<Table>): (r: seq<(nat, nat)>)
    ensures |r| == |fs|
  {
    seq(|fs|, i requires 0 <= i < |fs| => (l, fs[i].num))
  }

  function DelsOf(job: Job): seq<(nat, nat)> {
    Tag(job.level, job.in0) + Tag(job.level + 1, job.in1)
  }

  function AddsOf(job: Job, outs: seq<Table>): (r: seq<(nat, Table)>)
    ensures |r| == |outs|
  {
    var next: nat := job.level + 1;
    seq(|outs|, i requires 0 <= i < |outs| => (next, outs[i]))
  }

  /** The levels after the edit of a compaction. */
  function Compacted(levels: seq<seq<Table>>, job: Job, outs: seq<Table>): (r: seq<seq<Table>>)
    requires |levels| == MAX_LEVELS && job.level < MAX_LEVELS - 1
    ensures |r| == MAX_LEVELS
  {
    ApplyEdit(levels, DelsOf(job), AddsOf(job, outs), Num, Smallest)
  }

  /** The tables of level l that no deletion names. */
  function Kept(fs: seq<Table>, dels: seq<(nat, nat)>, l: nat): seq<Table> {
    if fs == [] then []
    else if (l, fs[0].num) in dels then Kept(fs[1..], dels, l)
    else [fs[0]] + Kept(fs[1..], dels, l)
  }

  lemma {:induction false} KeptWithout(fs: seq<Table>, dels: seq<(nat, nat)>, l: nat, n: nat)
    requires dels != [] && dels[0] == (l, n)
    ensures Kept(Without(fs, n, Num), dels[1..], l) == Kept(fs, dels, l)
  {
    assert dels == [dels[0]] + dels[1..];
    if fs != [] {
      KeptWithout(fs[1..], dels, l, n);
      if fs[0].num != n {
        var w := Without(fs[1..], n, Num);
        assert ([fs[0]] + w)[1..] == w;
      }
    }
  }

  lemma {:induction false} KeptSkip(fs: seq<Table>, dels: seq<(nat, nat)>, l: nat)
    requires dels != [] && dels[0].0 != l
    ensures Kept(fs, dels[1..], l) == Kept(fs, dels, l)
  {
    assert dels == [dels[0]] + dels[1..];
    if fs != [] { KeptSkip(fs[1..], dels, l); }
  }

  lemma {:induction false} KeptNone(fs: seq<Table>, l: nat)
    ensures Kept(fs, [], l) == fs
  {
    if fs != [] { KeptNone(fs[1..], l); }
  }

  lemma {:induction false} DeleteAllAt(levels: seq<seq<Table>>, dels: seq<(nat, nat)>, l: nat)
    requires l < |levels| && forall d :: d in dels ==> d.0 < |levels|
    ensures DeleteAll(levels, dels, Num)[l] == Kept(levels[l], dels, l)
    decreases |dels|
  {
    if dels == [] {
      KeptNone(levels[l], l);
    } else {
      var (m, n) := dels[0];
      DeleteAllAt(levels[m := Without(levels[m], n, Num)], dels[1..], l);
      if m == l { KeptWithout(levels[l], dels, l, n); } else { KeptSkip(levels[l], dels, l); }
    }
  }

  lemma {:induction false} AddAllAt(levels: seq<seq<Table>>, adds: seq<(nat, Table)>, outs: seq<Table>, m: nat, l: nat)
    requires l < |levels| && m < |levels| && |adds| == |outs|
    requires forall i :: 0 <= i < |adds| ==> adds[i] == (m, outs[i])
    ensures forall a :: a in adds ==> a.0 < |levels|
    ensures AddAll(levels, adds)[l] == levels[l] + (if l == m then outs else [])
    decreases |adds|
  {
    if adds == [] {
      assert levels[l] + [] == levels[l] && outs == [];
    } else {
      AddAllAt(levels[m := levels[m] + [outs[0]]], adds[1..], outs[1..], m, l);
      assert outs == [outs[0]] + outs[1..];
      assert levels[m] + [outs[0]] + outs[1..] == levels[m] + outs;
    }
  }

  /** Level by level what the edit does. */
  lemma CompactedAt(levels: seq<seq<Table>>, job: Job, outs: seq<Table>, l: nat)
    requires |levels| == MAX_LEVELS && job.level < MAX_LEVELS - 1 && l < MAX_LEVELS
    ensures var kept := Kept(levels[l], DelsOf(job), l);
            Compacted(levels, job, outs)[l]
            == if l == 0 then kept else if l == job.level + 1 then SortBy(kept + outs, Smallest)
               else SortBy(kept, Smallest)
  {
    hide SortBy;
    var dels, adds := DelsOf(job), AddsOf(job, outs);
    DeleteAllAt(levels, dels, l);
    AddAllAt(DeleteAll(levels, dels, Num), adds, outs, job.level + 1, l);
    assert Kept(levels[l], dels, l) + [] == Kept(levels[l], dels, l);
  }

  ghost predicate DistinctNums(fs: seq<Table>) {
    forall i, j :: 0 <= i < j < |fs| ==> fs[i].num != fs[j].num
  }

  ghost predicate NumsOk(levels: seq<seq<Table>>) {
    forall l :: 0 <= l < |levels| ==> DistinctNums(levels[l])
  }

  lemma {:induction false} KeptMembers(fs: seq<Table>, dels: seq<(nat, nat)>, l: nat)
    ensures forall f :: f in Kept(fs, dels, l) <==> f in fs && (l, f.num) !in dels
  {
    if fs != [] {
      KeptMembers(fs[1..], dels, l);
      assert fs == [fs[0]] + fs[1..];
    }
  }

  lemma {:induction false} KeptLevel(fs: seq<Table>, dels: seq<(nat, nat)>, l: nat)
    requires LevelOk(fs)
    ensures LevelOk(Kept(fs, dels, l))
  {
    hide Left, TableOk;
    if fs != [] {
      var rest := Kept(fs[1..], dels, l);
      KeptLevel(fs[1..], dels, l);
      KeptMembers(fs[1..], dels, l);
      if (l, fs[0].num) !in dels {
        forall i | 0 <= i < |rest| ensures Left(fs[0], rest[i]) {
          assert rest[i] in fs[1..];
          var j := IndexOf(fs[1..], rest[i]);
          assert Left(fs[0], fs[j + 1]);
        }
        LevelCons(fs[0], rest);
      }
    }
  }

  lemma {:induction false} KeptFlushed(fs: seq<Table>, dels: seq<(nat, nat)>, l: nat)
    requires forall i :: 0 <= i < |fs| ==> FlushedOk(fs[i])
    ensures forall i :: 0 <= i < |Kept(fs, dels, l)| ==> FlushedOk(Kept(fs, dels, l)[i])
  {
    hide FlushedOk;
    if fs != [] { KeptFlushed(fs[1..], dels, l); }
  }

  lemma TagMembers(l: nat, fs: seq<Table>, m: nat, n: nat)
    ensures (m, n) in Tag(l, fs) <==> m == l && exists f :: f in fs && f.num == n
  {
    var t := Tag(l, fs);
    if (m, n) in t {
      var i := IndexOf(t, (m, n));
      assert fs[i] in fs && fs[i].num == n;
    }
    if m == l && exists f :: f in fs && f.num == n {
      var f :| f in fs && f.num == n;
      var i := IndexOf(fs, f);
      assert t[i] == (m, n);
    }
  }

  lemma SameNum(fs: seq<Table>, f: Table, g: Table)
    requires DistinctNums(fs) && f in fs && g in fs && f.num == g.num
    ensures f == g
  {
    var i := IndexOf(fs, f);
    var j := IndexOf(fs, g);
  }

  /** Deletion by number takes away exactly the inputs. */
  lemma KeptAre(levels: seq<seq<Table>>, job: Job, l: nat, g: Table)
    requires JobOk(levels, job) && NumsOk(levels) && l < MAX_LEVELS
    ensures g in Kept(levels[l], DelsOf(job), l) <==>
            g in levels[l] && !(l == job.level && g in job.in0) && !(l == job.level + 1 && g in job.in1)
  {
    hide Kept, Tag, DistinctNums;
    KeptMembers(levels[l], DelsOf(job), l);
    TagMembers(job.level, job.in0, l, g.num);
    TagMembers(job.level + 1, job.in1, l, g.num);
    assert g in levels[l] && l == job.level ==> forall f :: f in job.in0 && f.num == g.num ==> f == g by {
      if g in levels[l] && l == job.level {
        forall f | f in job.in0 && f.num == g.num ensures f == g { SameNum(levels[l], f, g); }
      }
    }
    assert g in levels[l] && l == job.level + 1 ==> forall f :: f in job.in1 && f.num == g.num ==> f == g by {
      if g in levels[l] && l == job.level + 1 {
        JobNext(levels, job);
        forall f | f in job.in1 && f.num == g.num ensures f == g { SameNum(levels[l], f, g); }
      }
    }
  }

  lemma JobNext(levels: seq<seq<Table>>, job: Job)
    requires JobOk(levels, job)
    ensures forall f :: f in job.in1 ==> f in levels[job.level + 1]
  {
    hide Overlapping, IsHull;
    var lo, hi :| IsHull(job.in0, lo, hi) && job.in1 == Overlapping(levels[job.level + 1], lo, hi);
    OverlappingMembers(levels[job.level + 1], lo, hi);
  }

  /** The inputs are sorted runs. */
  lemma InputsSorted(levels: seq<seq<Table>>, job: Job)
    requires LayoutOk(levels) && JobOk(levels, job)
    ensures AllSorted(Runs(job.in0 + job.in1))
  {
    hide Less, Overlapping, IsHull, LayoutOk, LevelOk;
    NextLevel(levels, job);
    JobNext(levels, job);
    var all := job.in0 + job.in1;
    forall i | 0 <= i < |all| ensures Sorted(Runs(all)[i]) {
      if i < |job.in0| {
        assert all[i] in job.in0;
      } else {
        assert all[i] in job.in1;
        var j := IndexOf(levels[job.level + 1], all[i]);
        LevelTable(levels[job.level + 1], j);
      }
    }
  }

  /** Every new table lies apart from what the next level keeps. */
  lemma NewTablesApart(levels: seq<seq<Table>>, job: Job, outs: seq<Table>, f: Table, g: Table)
    requires LayoutOk(levels) && JobOk(levels, job) && NumsOk(levels)
    requires forall t :: t in outs ==> IsKeyOf(job.in0 + job.in1, t.smallest) && IsKeyOf(job.in0 + job.in1, t.largest)
    requires f in Kept(levels[job.level + 1], DelsOf(job), job.level + 1) && g in outs
    ensures Apart(f, g)
  {
    hide LayoutOk, JobOk, NumsOk, IsKeyOf, Kept, Less;
    JobLevel(levels, job);
    KeptAre(levels, job, job.level + 1, f);
    UntouchedMissesKeys(levels, job, f);
  }

  /** The next level after the edit: still a level, and a lookup in it prefers the new tables. */
  lemma NextLevelAfter(levels: seq<seq<Table>>, job: Job, outs: seq<Table>)
    requires LayoutOk(levels) && JobOk(levels, job) && NumsOk(levels) && LevelOk(outs)
    requires forall t :: t in outs ==> IsKeyOf(job.in0 + job.in1, t.smallest) && IsKeyOf(job.in0 + job.in1, t.largest)
    ensures var next := Compacted(levels, job, outs)[job.level + 1];
            var kept := Kept(levels[job.level + 1], DelsOf(job), job.level + 1);
            && LevelOk(next) && LevelOk(kept)
            && (forall f :: f in next <==> f in kept || f in outs)
            && forall k :: TablesFind(next, k) == if TablesFind(outs, k).Some? then TablesFind(outs, k)
                                                  else TablesFind(kept, k)
  {
    hide LevelOk, JobOk, NumsOk, IsKeyOf, Kept, Compacted, SortBy, Apart, FlushedOk;
    assert job.level < MAX_LEVELS - 1 by { JobLevel(levels, job); }
    CompactedAt(levels, job, outs, job.level + 1);
    var kept := Kept(levels[job.level + 1], DelsOf(job), job.level + 1);
    KeptLevel(levels[job.level + 1], DelsOf(job), job.level + 1);
    forall f, g | f in kept && g in outs ensures Apart(f, g) {
      NewTablesApart(levels, job, outs, f, g);
    }
    SortExtended(kept, outs);
  }

  lemma JobLevel(levels: seq<seq<Table>>, job: Job)
    requires JobOk(levels, job)
    ensures |levels| == MAX_LEVELS && job.level < MAX_LEVELS - 1
  {
  }

  /** The layout invariant survives every compaction, whatever it prunes and however it splits. */
  lemma CompactionKeepsLayout(levels: seq<seq<Table>>, job: Job, thr: nat -> nat, drop: bool, target: nat, num: nat,
                              sizeOf: Run -> nat)
    requires LayoutOk(levels) && JobOk(levels, job) && NumsOk(levels)
    ensures LayoutOk(Compacted(levels, job, Added(job.in0 + job.in1, thr, drop, target, num, sizeOf)))
  {
    hide JobOk, NumsOk, IsKeyOf, Kept, Compacted, SortBy, LevelOk, FlushedOk, Added, AllSorted, Runs, Output;
    var outs := Added(job.in0 + job.in1, thr, drop, target, num, sizeOf);
    JobLevel(levels, job);
    InputsSorted(levels, job);
    AddedFacts(job.in0 + job.in1, thr, drop, target, num, sizeOf);
    NextLevelAfter(levels, job, outs);
    var levels' := Compacted(levels, job, outs);
    CompactedAt(levels, job, outs, 0);
    KeptFlushed(levels[0], DelsOf(job), 0);
    forall l | 1 <= l < MAX_LEVELS ensures LevelOk(levels'[l]) {
      if l != job.level + 1 {
        CompactedAt(levels, job, outs, l);
        KeptLevel(levels[l], DelsOf(job), l);
        SortedLevelStays(Kept(levels[l], DelsOf(job), l));
      }
    }
  }
}
