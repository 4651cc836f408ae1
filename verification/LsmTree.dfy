/**
 The tree as the store drives it: flushing a memtable, point reads through the open readers, and
 the compaction loop (internal/lsm/lsm.go).
 */
module LsmTree {
  import opened Bytes
  import opened KeyOrder
  import opened SortedLists
  import opened Compaction
  import opened Levels
  import opened CompactionJob
  import opened TreeEdit
  import opened TreeReads
  import opened TreeWeight

  /** A file number stands for one table of the tree. */
  ghost predicate NumIdentifies(levels: seq<seq<Table>>) {
    forall l, m, f, g :: 0 <= l < |levels| && 0 <= m < |levels| && f in levels[l] && g in levels[m] && f.num == g.num
                         ==> l == m && f == g
  }

  ghost predicate NumsBelow(levels: seq<seq<Table>>, n: nat) {
    forall l, f :: 0 <= l < |levels| && f in levels[l] ==> f.num < n
  }

  /** Every table has its reader open. */
  ghost predicate ReadersOk(levels: seq<seq<Table>>, readers: map<nat, Run>) {
    forall l, f :: 0 <= l < |levels| && f in levels[l] ==> f.num in readers && readers[f.num] == f.entries
  }

  ghost predicate KeysBelow(readers: map<nat, Run>, n: nat) {
    forall k :: k in readers ==> k < n
  }

  ghost predicate TreeOk(levels: seq<seq<Table>>, readers: map<nat, Run>, next: nat) {
    && LayoutOk(levels) && NumsOk(levels) && NumIdentifies(levels) && NumsBelow(levels, next)
    && ReadersOk(levels, readers) && KeysBelow(readers, next)
  }

  // ---- the level search

  predicate Covers(f: Table, k: Key) {
    !Less(k, f.smallest) && !Less(f.largest, k)
  }

  /** The binary search of Get: finds the file covering the key whenever there is one. */
  method SearchLevel(fs: seq<Table>, k: Key) returns (target: Option<nat>)
    requires LevelOk(fs)
    ensures target.Some? ==> target.value < |fs| && Covers(fs[target.value], k)
    ensures target.None? ==> forall i :: 0 <= i < |fs| ==> !Covers(fs[i], k)
  {
    hide Less, TableOk;
    KeysOrdered();
    var left, right := 0, |fs| - 1;
    target := None;
    while left <= right
      invariant 0 <= left <= |fs| && -1 <= right < |fs|
      invariant forall i :: 0 <= i < left ==> Less(fs[i].largest, k)
      invariant forall i :: right < i < |fs| ==> Less(k, fs[i].smallest)
      decreases right - left
    {
      var mid := left + (right - left) / 2;
      var f := fs[mid];
      RangeOrdered(f);
      if !Less(k, f.smallest) && !Less(f.largest, k) {
        return Some(mid);
      } else if Less(k, f.smallest) {
        forall i | mid < i < |fs| ensures Less(k, fs[i].smallest) { assert Left(fs[mid], fs[i]); }
        right := mid - 1;
      } else {
        forall i | 0 <= i < mid ensures Less(fs[i].largest, k) { assert Left(fs[i], fs[mid]); }
        left := mid + 1;
      }
    }
  }

  /** Asking the covering file alone is asking the whole level. */
  lemma CoveringFileDecides(fs: seq<Table>, k: Key, target: Option<nat>)
    requires LevelOk(fs)
    requires target.Some? ==> target.value < |fs| && Covers(fs[target.value], k)
    requires target.None? ==> forall i :: 0 <= i < |fs| ==> !Covers(fs[i], k)
    ensures TablesFind(fs, k) == if target.Some? then Find(fs[target.value].entries, k) else None
  {
    hide Less, TableOk, TablesFind, Find;
    KeysOrdered();
    TablesFindNone(fs, k);
    if TablesFind(fs, k).Some? {
      var i := TablesFindSome(fs, k);
      RangeHolds(fs[i], k);
      if i != target.value { assert false; }
    } else if target.Some? {
      assert fs[target.value] in fs;
    }
  }

  // ---- flushing

  function FlushTable(mem: Run, num: nat, size: nat): Table {
    if mem == [] then Table(num, size, [], [], []) else Table(num, size, mem[0].key, mem[|mem| - 1].key, mem)
  }

  function Flushed(levels: seq<seq<Table>>, t: Table): (r: seq<seq<Table>>)
    requires |levels| == MAX_LEVELS
    ensures |r| == MAX_LEVELS
  {
    levels[0 := levels[0] + [t]]
  }

  /** A flush puts the memtable on top: its keys read as in the memtable, all others as before. */
  lemma FlushReads(levels: seq<seq<Table>>, t: Table, k: Key)
    requires |levels| == MAX_LEVELS
    ensures TreeFind(Flushed(levels, t), k) == Or(Find(t.entries, k), TreeFind(levels, k))
  {
    hide Find;
    var levels' := Flushed(levels, t);
    var fs := levels'[0];
    assert fs[..|fs| - 1] == levels[0];
    FromSame(levels, levels', 1, k);
  }

  lemma FlushTableOk(mem: Run, num: nat, size: nat)
    requires Sorted(mem)
    ensures FlushedOk(FlushTable(mem, num, size)) && FlushTable(mem, num, size).num == num
    ensures FlushTable(mem, num, size).entries == mem
  {
    hide Less;
  }

  lemma FlushMembers(levels: seq<seq<Table>>, t: Table)
    requires |levels| == MAX_LEVELS
    ensures forall l, f :: 0 <= l < MAX_LEVELS ==> (f in Flushed(levels, t)[l] <==> f in levels[l] || (l == 0 && f == t))
  {
  }

  lemma FlushLayout(levels: seq<seq<Table>>, t: Table)
    requires LayoutOk(levels) && NumsOk(levels) && NumsBelow(levels, t.num) && FlushedOk(t)
    ensures LayoutOk(Flushed(levels, t)) && NumsOk(Flushed(levels, t))
  {
    hide LevelOk, FlushedOk;
    var levels' := Flushed(levels, t);
    var fs: seq<Table> := levels'[0];
    forall i, j | 0 <= i < j < |fs| ensures fs[i].num != fs[j].num {
      assert levels'[0][i] == levels[0][i] && levels[0][i] in levels[0];
      assert DistinctNums(levels[0]);
    }
    forall l | 0 <= l < MAX_LEVELS ensures DistinctNums(levels'[l]) {
      if l > 0 { assert DistinctNums(levels[l]); }
    }
  }

  lemma FlushKeepsOk(levels: seq<seq<Table>>, readers: map<nat, Run>, next: nat, mem: Run, size: nat)
    requires TreeOk(levels, readers, next) && Sorted(mem)
    ensures TreeOk(Flushed(levels, FlushTable(mem, next, size)), readers[next := mem], next + 1)
  {
    hide LevelOk, Less, Sorted, LayoutOk, NumsOk, Flushed, FlushTable, FlushedOk;
    LevelCount(levels);
    FlushTableOk(mem, next, size);
    FlushMembers(levels, FlushTable(mem, next, size));
    FlushLayout(levels, FlushTable(mem, next, size));
  }

  lemma LevelCount(levels: seq<seq<Table>>)
    requires LayoutOk(levels)
    ensures |levels| == MAX_LEVELS
  {
  }

  // ---- compaction

  lemma MembersAfter(levels: seq<seq<Table>>, job: Job, outs: seq<Table>, l: nat, f: Table)
    requires LayoutOk(levels) && JobOk(levels, job) && NumsOk(levels) && LevelOk(outs) && l < MAX_LEVELS
    requires forall t :: t in outs ==> IsKeyOf(job.in0 + job.in1, t.smallest) && IsKeyOf(job.in0 + job.in1, t.largest)
    ensures |levels| == MAX_LEVELS && job.level < MAX_LEVELS - 1
    ensures f in Compacted(levels, job, outs)[l] <==>
            || (f in levels[l] && !(l == job.level && f in job.in0) && !(l == job.level + 1 && f in job.in1))
            || (l == job.level + 1 && f in outs)
  {
    hide LayoutOk, JobOk, NumsOk, LevelOk, IsKeyOf, Compacted, Kept;
    JobLevel(levels, job);
    KeptAre(levels, job, l, f);
    if l == job.level + 1 {
      NextLevelAfter(levels, job, outs);
    } else {
      OtherLevels(levels, job, outs, l);
      if l == job.level == 0 { WholeFirst(levels, job); }
    }
  }

  lemma CutNums(ls: seq<Run>, num: nat, sizeOf: Run -> nat, f: Table)
    requires NoEmpty(ls) && f in TablesFor(ls, num, sizeOf)
    ensures num <= f.num < num + |ls| && f == TablesFor(ls, num, sizeOf)[f.num - num]
  {
    var i := IndexOf(TablesFor(ls, num, sizeOf), f);
  }

  lemma CutDistinct(ls: seq<Run>, num: nat, sizeOf: Run -> nat)
    requires NoEmpty(ls)
    ensures var outs := TablesFor(ls, num, sizeOf);
            && (forall f :: f in outs ==> num <= f.num < num + |outs|)
            && (forall f, g :: f in outs && g in outs && f.num == g.num ==> f == g)
  {
    hide TablesFor;
    var outs := TablesFor(ls, num, sizeOf);
    forall f | f in outs ensures num <= f.num < num + |outs| && f == outs[f.num - num] {
      CutNums(ls, num, sizeOf, f);
    }
  }

  lemma AddedNums(inputs: seq<Table>, thr: nat -> nat, drop: bool, target: nat, num: nat, sizeOf: Run -> nat)
    ensures var outs := Added(inputs, thr, drop, target, num, sizeOf);
            && (forall f :: f in outs ==> num <= f.num < num + |outs|)
            && (forall f, g :: f in outs && g in outs && f.num == g.num ==> f == g)
  {
    hide Output, Split, TablesFor;
    var ls := Split(Output(inputs, thr, drop), target, [], 0);
    SplitFlattens(Output(inputs, thr, drop), target, [], 0);
    CutDistinct(ls, num, sizeOf);
  }

  /** Different places in a level hold different tables. */
  lemma LevelDistinct(fs: seq<Table>)
    requires LevelOk(fs) && forall f, g :: f in fs && g in fs && f.num == g.num ==> f == g
    ensures DistinctNums(fs)
  {
    hide Less, TableOk;
    KeysOrdered();
    forall i, j | 0 <= i < j < |fs| ensures fs[i].num != fs[j].num {
      assert Left(fs[i], fs[j]);
      RangeOrdered(fs[i]);
    }
  }

  ghost predicate ComesFrom(fs: seq<Table>, a: seq<Table>, b: seq<Table>) {
    forall f :: f in fs ==> f in a || f in b
  }

  lemma IdentifiesAfter(levels: seq<seq<Table>>, levels': seq<seq<Table>>, outs: seq<Table>, next: nat, num: nat)
    requires NumIdentifies(levels) && NumsBelow(levels, num) && |levels'| == |levels|
    requires forall l :: 0 <= l < |levels| ==> ComesFrom(levels'[l], levels[l], if l == next then outs else [])
    requires forall f :: f in outs ==> num <= f.num < num + |outs|
    requires forall f, g :: f in outs && g in outs && f.num == g.num ==> f == g
    ensures NumIdentifies(levels') && NumsBelow(levels', num + |outs|)
  {
    hide NumIdentifies, NumsBelow, ComesFrom;
    forall l, f | 0 <= l < |levels'| && f in levels'[l]
      ensures if f in levels[l] then f.num < num else l == next && f in outs && num <= f.num < num + |outs|
    {
      FromAt(levels'[l], levels[l], if l == next then outs else [], f);
      if f in levels[l] { BelowAt(levels, num, l, f); }
    }
    forall l, m, f, g | 0 <= l < |levels'| && 0 <= m < |levels'| && f in levels'[l] && g in levels'[m] && f.num == g.num
      ensures l == m && f == g
    {
      if f in levels[l] && g in levels[m] { SameNumber(levels, l, m, f, g); }
    }
    Collected(levels', num + |outs|);
  }

  lemma FromAt(fs: seq<Table>, a: seq<Table>, b: seq<Table>, f: Table)
    requires ComesFrom(fs, a, b) && f in fs
    ensures f in a || f in b
  {
  }

  lemma BelowAt(levels: seq<seq<Table>>, num: nat, l: nat, f: Table)
    requires NumsBelow(levels, num) && l < |levels| && f in levels[l]
    ensures f.num < num
  {
  }

  lemma SameNumber(levels: seq<seq<Table>>, l: nat, m: nat, f: Table, g: Table)
    requires NumIdentifies(levels) && l < |levels| && m < |levels| && f in levels[l] && g in levels[m] && f.num == g.num
    ensures l == m && f == g
  {
  }

  lemma Collected(levels: seq<seq<Table>>, num: nat)
    requires forall l, m, f, g :: 0 <= l < |levels| && 0 <= m < |levels| && f in levels[l] && g in levels[m] && f.num == g.num
                                 ==> l == m && f == g
    requires forall l, f :: 0 <= l < |levels| && f in levels[l] ==> f.num < num
    ensures NumIdentifies(levels) && NumsBelow(levels, num)
  {
  }

  /** The numbers stay unique through a compaction. */
  lemma NumsAfter(levels: seq<seq<Table>>, job: Job, thr: nat -> nat, drop: bool, target: nat, num: nat, sizeOf: Run -> nat,
                  outs: seq<Table>, levels': seq<seq<Table>>)
    requires LayoutOk(levels) && JobOk(levels, job) && NumsOk(levels) && NumIdentifies(levels) && NumsBelow(levels, num)
    requires outs == Added(job.in0 + job.in1, thr, drop, target, num, sizeOf)
    requires |levels| == MAX_LEVELS && job.level < MAX_LEVELS - 1 && levels' == Compacted(levels, job, outs)
    ensures NumIdentifies(levels') && NumsBelow(levels', num + |outs|) && NumsOk(levels')
    ensures LayoutOk(levels')
  {
    hide JobOk, LevelOk, IsKeyOf, Compacted, Added, AllSorted, DistinctNums, FlushedOk, NumIdentifies, NumsBelow, Runs, Output;
    InputsSorted(levels, job);
    AddedFacts(job.in0 + job.in1, thr, drop, target, num, sizeOf);
    AddedNums(job.in0 + job.in1, thr, drop, target, num, sizeOf);
    forall l | 0 <= l < |levels| ensures ComesFrom(levels'[l], levels[l], if l == job.level + 1 then outs else []) {
      forall f | f in levels'[l] ensures f in levels[l] || (l == job.level + 1 && f in outs) {
        MembersAfter(levels, job, outs, l, f);
      }
    }
    IdentifiesAfter(levels, levels', outs, job.level + 1, num);
    CompactionKeepsLayout(levels, job, thr, drop, target, num, sizeOf);
    forall l | 0 <= l < MAX_LEVELS ensures DistinctNums(levels'[l]) {
      if l > 0 {
        OneLevelNums(levels', l);
        assert LevelOk(levels'[l]);
        LevelDistinct(levels'[l]);
      } else {
        OtherLevels(levels, job, outs, 0);
        NothingDistinct();
      }
    }
  }

  lemma OneLevelNums(levels: seq<seq<Table>>, l: nat)
    requires NumIdentifies(levels) && l < |levels|
    ensures forall f, g :: f in levels[l] && g in levels[l] && f.num == g.num ==> f == g
  {
  }

  lemma NothingDistinct()
    ensures DistinctNums([])
  {
  }

  // ---- the readers

  predicate Named(fs: seq<Table>, n: nat) {
    exists i :: 0 <= i < |fs| && fs[i].num == n
  }

  /** What swapping readers does: those of the inputs are closed, those missing for files are opened. */
  ghost predicate Swapped(readers: map<nat, Run>, inputs: seq<Table>, files: seq<Table>, readers': map<nat, Run>) {
    && (forall n :: n in readers && !Named(inputs, n) ==> n in readers' && readers'[n] == readers[n])
    && (forall n :: n in readers' ==> (n in readers && !Named(inputs, n)) || Named(files, n))
    && (forall f :: f in files ==> f.num in readers'
                                   && (f.num !in readers || Named(inputs, f.num) ==> readers'[f.num] == f.entries))
  }

  method CloseReaders(readers: map<nat, Run>, inputs: seq<Table>) returns (r: map<nat, Run>)
    ensures forall n :: n in r <==> n in readers && !Named(inputs, n)
    ensures forall n :: n in r ==> r[n] == readers[n]
  {
    r := readers;
    var i := 0;
    while i < |inputs|
      invariant 0 <= i <= |inputs|
      invariant forall n :: n in r <==> n in readers && forall j :: 0 <= j < i ==> inputs[j].num != n
      invariant forall n :: n in r ==> r[n] == readers[n]
    {
      if inputs[i].num in r { r := r - {inputs[i].num}; }
      i := i + 1;
    }
  }

  method OpenReaders(readers: map<nat, Run>, files: seq<Table>) returns (r: map<nat, Run>)
    requires DistinctNums(files)
    ensures forall n :: n in readers ==> n in r && r[n] == readers[n]
    ensures forall n :: n in r ==> n in readers || Named(files, n)
    ensures forall f :: f in files ==> f.num in r && (f.num !in readers ==> r[f.num] == f.entries)
  {
    r := readers;
    var i := 0;
    while i < |files|
      invariant 0 <= i <= |files|
      invariant forall n :: n in readers ==> n in r && r[n] == readers[n]
      invariant forall n :: n in r ==> n in readers || exists j :: 0 <= j < i && files[j].num == n
      invariant forall j :: 0 <= j < i ==> files[j].num in r && (files[j].num !in readers ==> r[files[j].num] == files[j].entries)
    {
      if files[i].num !in r { r := r[files[i].num := files[i].entries]; }
      i := i + 1;
    }
  }

  method SwapReaders(readers: map<nat, Run>, inputs: seq<Table>, files: seq<Table>) returns (r: map<nat, Run>)
    requires DistinctNums(files)
    ensures Swapped(readers, inputs, files, r)
  {
    var open := CloseReaders(readers, inputs);
    r := OpenReaders(open, files);
  }

  /** After the swap every table of the new version has its own reader. */
  lemma ReadersAfter(levels: seq<seq<Table>>, job: Job, outs: seq<Table>, levels': seq<seq<Table>>, readers: map<nat, Run>,
                     readers': map<nat, Run>, num: nat)
    requires |levels| == MAX_LEVELS && |levels'| == MAX_LEVELS && job.level < MAX_LEVELS - 1
    requires NumIdentifies(levels) && ReadersOk(levels, readers) && KeysBelow(readers, num)
    requires forall f :: f in job.in0 ==> f in levels[job.level]
    requires forall f :: f in job.in1 ==> f in levels[job.level + 1]
    requires forall f :: f in outs ==> num <= f.num < num + |outs|
    requires forall l :: 0 <= l < MAX_LEVELS ==> ComesFrom(levels'[l], LeftAlone(levels, job, l), if l == job.level + 1 then outs else [])
    requires NumsBelow(levels', num + |outs|)
    requires Swapped(readers, job.in0 + job.in1, levels'[job.level + 1], readers')
    ensures ReadersOk(levels', readers') && KeysBelow(readers', num + |outs|)
  {
    hide NumIdentifies, Named;
    forall l, f | 0 <= l < |levels'| && f in levels'[l] ensures f.num in readers' && readers'[f.num] == f.entries {
      assert ComesFrom(levels'[l], LeftAlone(levels, job, l), if l == job.level + 1 then outs else []);
      if f in LeftAlone(levels, job, l) {
        LeftAloneMembers(levels, job, l, f);
        NotNamed(levels, job, l, f);
      }
    }
    forall n | n in readers' ensures n < num + |outs| {
      if n !in readers { NamedMember(levels'[job.level + 1], n); }
    }
  }

  lemma NamedMember(fs: seq<Table>, n: nat)
    requires Named(fs, n)
    ensures exists f :: f in fs && f.num == n
  {
    var i :| 0 <= i < |fs| && fs[i].num == n;
    assert fs[i] in fs;
  }

  /** The tables of a level that the job does not read. */
  function LeftAlone(levels: seq<seq<Table>>, job: Job, l: nat): seq<Table>
    requires l < |levels|
  {
    Minus(levels[l], if l == job.level then job.in0 else if l == job.level + 1 then job.in1 else [])
  }

  function Minus(fs: seq<Table>, gs: seq<Table>): seq<Table> {
    if fs == [] then [] else (if fs[0] in gs then [] else [fs[0]]) + Minus(fs[1..], gs)
  }

  lemma {:induction false} MinusMembers(fs: seq<Table>, gs: seq<Table>, f: Table)
    ensures f in Minus(fs, gs) <==> f in fs && f !in gs
  {
    if fs != [] {
      MinusMembers(fs[1..], gs, f);
      assert fs == [fs[0]] + fs[1..];
    }
  }

  lemma LeftAloneMembers(levels: seq<seq<Table>>, job: Job, l: nat, f: Table)
    requires l < |levels|
    ensures f in LeftAlone(levels, job, l) <==>
            f in levels[l] && !(l == job.level && f in job.in0) && !(l == job.level + 1 && f in job.in1)
  {
    hide Minus;
    MinusMembers(levels[l], if l == job.level then job.in0 else if l == job.level + 1 then job.in1 else [], f);
  }

  lemma NotNamed(levels: seq<seq<Table>>, job: Job, l: nat, f: Table)
    requires |levels| == MAX_LEVELS && job.level < MAX_LEVELS - 1 && l < MAX_LEVELS && NumIdentifies(levels)
    requires forall f :: f in job.in0 ==> f in levels[job.level]
    requires forall f :: f in job.in1 ==> f in levels[job.level + 1]
    requires f in levels[l] && !(l == job.level && f in job.in0) && !(l == job.level + 1 && f in job.in1)
    ensures !Named(job.in0 + job.in1, f.num)
  {
    var ins := job.in0 + job.in1;
    forall i | 0 <= i < |ins| ensures ins[i].num != f.num {
      if i < |job.in0| { assert ins[i] in job.in0; } else { assert ins[i] in job.in1; }
    }
  }

  /** A compaction leaves a valid tree. */
  lemma CompactionKeepsOk(levels: seq<seq<Table>>, readers: map<nat, Run>, job: Job, thr: nat -> nat, drop: bool, target: nat,
                          num: nat, sizeOf: Run -> nat, outs: seq<Table>, levels': seq<seq<Table>>, readers': map<nat, Run>)
    requires TreeOk(levels, readers, num) && JobOk(levels, job)
    requires outs == Added(job.in0 + job.in1, thr, drop, target, num, sizeOf)
    requires |levels| == MAX_LEVELS && job.level < MAX_LEVELS - 1 && levels' == Compacted(levels, job, outs)
    requires Swapped(readers, job.in0 + job.in1, levels'[job.level + 1], readers')
    ensures TreeOk(levels', readers', num + |outs|)
  {
    hide LayoutOk, NumsOk, JobOk, NumIdentifies, NumsBelow, ReadersOk, KeysBelow, Compacted, Added, Swapped, LevelOk,
      IsKeyOf, AllSorted, Output, LeftAlone, ComesFrom;
    NumsAfter(levels, job, thr, drop, target, num, sizeOf, outs, levels');
    JobNext(levels, job);
    JobSource(levels, job);
    AddedNums(job.in0 + job.in1, thr, drop, target, num, sizeOf);
    InputsSorted(levels, job);
    AddedFacts(job.in0 + job.in1, thr, drop, target, num, sizeOf);
    forall l | 0 <= l < MAX_LEVELS
      ensures ComesFrom(levels'[l], LeftAlone(levels, job, l), if l == job.level + 1 then outs else [])
    {
      LevelComesFrom(levels, job, outs, l);
    }
    ReadersAfter(levels, job, outs, levels', readers, readers', num);
  }

  lemma LevelComesFrom(levels: seq<seq<Table>>, job: Job, outs: seq<Table>, l: nat)
    requires LayoutOk(levels) && JobOk(levels, job) && NumsOk(levels) && LevelOk(outs) && l < MAX_LEVELS
    requires forall t :: t in outs ==> IsKeyOf(job.in0 + job.in1, t.smallest) && IsKeyOf(job.in0 + job.in1, t.largest)
    ensures |levels| == MAX_LEVELS && job.level < MAX_LEVELS - 1
    ensures ComesFrom(Compacted(levels, job, outs)[l], LeftAlone(levels, job, l), if l == job.level + 1 then outs else [])
  {
    hide LayoutOk, NumsOk, JobOk, Compacted, LevelOk, IsKeyOf, LeftAlone;
    JobLevel(levels, job);
    forall f | f in Compacted(levels, job, outs)[l]
      ensures f in LeftAlone(levels, job, l) || f in (if l == job.level + 1 then outs else [])
    {
      MembersAfter(levels, job, outs, l, f);
      LeftAloneMembers(levels, job, l, f);
    }
  }

  lemma JobSource(levels: seq<seq<Table>>, job: Job)
    requires JobOk(levels, job)
    ensures forall f :: f in job.in0 ==> f in levels[job.level]
  {
    hide Overlapping, IsHull;
  }

  // ---- runs of the tree

  datatype TreeStep =
    | FlushStep(mem: Run, size: nat)
    | CompactStep(job: Job, thr: nat -> nat, drop: bool, target: nat, sizeOf: Run -> nat)

  /** The levels and the number the next file gets. */
  datatype TreeState = TreeState(levels: seq<seq<Table>>, next: nat)

  const EMPTY_TREE := TreeState([[], [], [], [], [], [], []], 1)

  ghost predicate CanStep(s: TreeState, step: TreeStep) {
    && |s.levels| == MAX_LEVELS
    && match step
       case FlushStep(mem, _) => Sorted(mem)
       case CompactStep(job, _, _, _, _) => job.level < MAX_LEVELS - 1 && JobOk(s.levels, job)
  }

  function Outs(s: TreeState, step: TreeStep): seq<Table>
    requires step.CompactStep?
  {
    Added(step.job.in0 + step.job.in1, step.thr, step.drop, step.target, s.next, step.sizeOf)
  }

  ghost function StepTree(s: TreeState, step: TreeStep): TreeState
    requires CanStep(s, step)
  {
    match step
    case FlushStep(mem, size) => TreeState(Flushed(s.levels, FlushTable(mem, s.next, size)), s.next + 1)
    case CompactStep(job, _, _, _, _) =>
      TreeState(Compacted(s.levels, job, Outs(s, step)), s.next + |Outs(s, step)|)
  }

  ghost predicate IsTreeRun(s: TreeState, steps: seq<TreeStep>)
    decreases |steps|
  {
    steps == [] || (CanStep(s, steps[0]) && IsTreeRun(StepTree(s, steps[0]), steps[1..]))
  }

  ghost function RunTree(s: TreeState, steps: seq<TreeStep>): TreeState
    requires IsTreeRun(s, steps)
    decreases |steps|
  {
    if steps == [] then s else RunTree(StepTree(s, steps[0]), steps[1..])
  }

  /** A run goes on with any step that is possible where it ends. */
  lemma {:induction false} RunSnoc(s: TreeState, steps: seq<TreeStep>, step: TreeStep)
    requires IsTreeRun(s, steps) && CanStep(RunTree(s, steps), step)
    ensures IsTreeRun(s, steps + [step]) && RunTree(s, steps + [step]) == StepTree(RunTree(s, steps), step)
    decreases |steps|
  {
    hide CanStep, StepTree;
    if steps == [] {
      assert steps + [step] == [step] && [step][1..] == [];
      assert IsTreeRun(StepTree(s, step), [step][1..]);
    } else {
      RunSnoc(StepTree(s, steps[0]), steps[1..], step);
      assert (steps + [step])[1..] == steps[1..] + [step];
    }
  }

  /** No file lies deeper than where the job writes. */
  ghost predicate Bottom(levels: seq<seq<Table>>, job: Job) {
    forall l :: job.level + 1 < l < |levels| ==> levels[l] == []
  }

  /**
   A run of the compaction loop: the picker's job every time, against the snapshots of its round, and
   with tombstones dropped exactly where no file lies deeper than the output.
   */
  ghost predicate IsLoopRun(s: TreeState, steps: seq<TreeStep>, minActive: nat -> nat -> nat, target: nat, sizeOf: Run -> nat)
    decreases |steps|
  {
    if steps == [] then true
    else
      var n: nat := |steps| - 1;
      && IsLoopRun(s, steps[..n], minActive, target, sizeOf) && IsTreeRun(s, steps[..n])
      && var (t, step) := (RunTree(s, steps[..n]), steps[n]);
      && CanStep(t, step) && step.CompactStep? && Picked(t.levels, step.job)
      && step.thr == minActive(n) && step.drop == Bottom(t.levels, step.job)
      && step.target == target && step.sizeOf == sizeOf
  }

  lemma LoopSnoc(s: TreeState, steps: seq<TreeStep>, minActive: nat -> nat -> nat, target: nat, sizeOf: Run -> nat, job: Job)
    requires IsTreeRun(s, steps) && IsLoopRun(s, steps, minActive, target, sizeOf)
    requires var t := RunTree(s, steps); |t.levels| == MAX_LEVELS && job.level < MAX_LEVELS - 1 && Picked(t.levels, job)
    ensures var t := RunTree(s, steps);
            var step := CompactStep(job, minActive(|steps|), Bottom(t.levels, job), target, sizeOf);
            && CanStep(t, step) && IsTreeRun(s, steps + [step]) && IsLoopRun(s, steps + [step], minActive, target, sizeOf)
            && RunTree(s, steps + [step]) == StepTree(t, step)
  {
    hide IsTreeRun, RunTree, Picked, StepTree, JobOk;
    var t := RunTree(s, steps);
    var step := CompactStep(job, minActive(|steps|), Bottom(t.levels, job), target, sizeOf);
    PickedJob(t.levels, job);
    RunSnoc(s, steps, step);
    assert (steps + [step])[..|steps|] == steps;
  }

  // ---- the tree

  /** No first-level key has a newer and an older value. */
  ghost predicate NewestIsOldest(fs: seq<Table>) {
    forall k :: NewestFind(fs, k) == TablesFind(fs, k)
  }

  ghost predicate SameReads(levels: seq<seq<Table>>, levels': seq<seq<Table>>) {
    forall k :: TreeFind(levels', k) == TreeFind(levels, k)
  }

  /** One round of the loop, with nothing to prune for: reads stay, and so does what keeps them. */
  lemma RoundKeepsReads(levels: seq<seq<Table>>, job: Job, thr: nat -> nat, drop: bool, target: nat, num: nat,
                        sizeOf: Run -> nat)
    requires LayoutOk(levels) && JobOk(levels, job) && NumsOk(levels)
    requires NewestIsOldest(levels[0]) && forall j :: thr(j) == 0
    ensures job.level < MAX_LEVELS - 1
    ensures var levels' := Compacted(levels, job, Added(job.in0 + job.in1, thr, drop, target, num, sizeOf));
            SameReads(levels, levels') && NewestIsOldest(levels'[0])
  {
    hide LayoutOk, JobOk, NumsOk, Compacted, Added, TreeFind, Kept, NewestFind, TablesFind;
    JobLevel(levels, job);
    CompactionKeepsReads(levels, job, thr, drop, target, num, sizeOf);
    OtherLevels(levels, job, Added(job.in0 + job.in1, thr, drop, target, num, sizeOf), 0);
    NothingAgrees();
  }

  lemma NothingAgrees()
    ensures NewestIsOldest([])
  {
  }

  class Tree {
    var levels: seq<seq<Table>>
    var readers: map<nat, Run>
    var nextNum: nat

    ghost predicate Valid()
      reads this
    {
      TreeOk(levels, readers, nextNum)
    }

    constructor ()
      ensures Valid() && forall k :: TreeFind(levels, k) == None
    {
      hide TreeOk, TreeFind;
      levels := [[], [], [], [], [], [], []];
      readers := map[];
      nextNum := 1;
      new;
      EmptyTreeOk(levels);
    }

    /** Writes a memtable as the newest file of the first level. */
    method Flush(mem: Run, sizeOf: Run -> nat)
      requires Valid() && Sorted(mem)
      modifies this
      ensures Valid() && nextNum == old(nextNum) + 1 && |old(levels)| == MAX_LEVELS
      ensures levels == Flushed(old(levels), FlushTable(mem, old(nextNum), sizeOf(mem)))
      ensures forall k :: TreeFind(levels, k) == Or(Find(mem, k), old(TreeFind(levels, k)))
    {
      hide TreeOk, Sorted, Flushed, TreeFind, Find, FlushTable;
      TreeCount(levels, readers, nextNum);
      var fileNum := nextNum;
      nextNum := nextNum + 1;
      var smallest, largest := [], [];
      var written: Run := [];
      var i := 0;
      while i < |mem|
        invariant 0 <= i <= |mem| && written == mem[..i]
        invariant smallest == (if i == 0 then [] else mem[0].key) && largest == (if i == 0 then [] else mem[i - 1].key)
      {
        if i == 0 { smallest := mem[i].key; }
        largest := mem[i].key;
        written := written + [mem[i]];
        i := i + 1;
      }
      assert written == mem;
      FlushTableIs(mem, fileNum, sizeOf(mem));
      FlushKeepsOk(levels, readers, fileNum, mem, sizeOf(mem));
      FlushedIs(levels, Table(fileNum, sizeOf(mem), smallest, largest, written));
      forall k ensures TreeFind(Flushed(levels, FlushTable(mem, fileNum, sizeOf(mem))), k) == Or(Find(mem, k), TreeFind(levels, k)) {
        FlushReads(levels, FlushTable(mem, fileNum, sizeOf(mem)), k);
      }
      readers := readers[fileNum := written];
      levels := levels[0 := levels[0] + [Table(fileNum, sizeOf(mem), smallest, largest, written)]];
    }

    /** A point read: the first level newest first, then one file of every other level. */
    method Get(k: Key) returns (hit: Hit)
      requires Valid()
      ensures hit == TreeFind(levels, k)
    {
      hide LevelOk, FlushedOk, Less, TablesFind, Find, NumsOk, NumIdentifies, NumsBelow, KeysBelow, TreeFind;
      TreeSplit(levels, 1, k);
      ghost var first := levels[0];
      assert FindAbove(levels, 1, k) == NewestFind(first, k) by { NothingAbove(levels, k); }
      var i := |levels[0]|;
      assert first[..i] == first;
      while i > 0
        invariant 0 <= i <= |first| && first == levels[0]
        invariant NewestFind(first, k) == NewestFind(first[..i], k)
      {
        i := i - 1;
        var f := levels[0][i];
        assert f in levels[0] && first[..i + 1][..i] == first[..i];
        if f.num in readers {
          var found := Find(readers[f.num], k);
          if found.Some? { return found; }
        }
      }
      var level := 1;
      while level < MAX_LEVELS
        invariant 1 <= level <= MAX_LEVELS
        invariant TreeFind(levels, k) == FindFrom(levels, level, k)
      {
        var files := levels[level];
        var target := SearchLevel(files, k);
        CoveringFileDecides(files, k, target);
        if target.Some? {
          var f := files[target.value];
          assert f in levels[level];
          if f.num in readers {
            var found := Find(readers[f.num], k);
            if found.Some? { return found; }
          }
        }
        level := level + 1;
      }
      return None;
    }

    /** One job: merge, edit the version, close the inputs' readers and open the new ones. */
    method Compact(job: Job, thr: nat -> nat, drop: bool, target: nat, sizeOf: Run -> nat)
      requires Valid() && JobOk(levels, job)
      modifies this
      ensures Valid() && |old(levels)| == MAX_LEVELS && job.level < MAX_LEVELS - 1
      ensures var outs := Added(job.in0 + job.in1, thr, drop, target, old(nextNum), sizeOf);
              levels == Compacted(old(levels), job, outs) && nextNum == old(nextNum) + |outs|
    {
      hide TreeOk, Swapped, Added, Compacted, JobOk, LayoutOk, NumsOk, NumIdentifies, NumsBelow, DistinctNums, Runs, AllSorted;
      TreeParts(levels, readers, nextNum);
      JobLevel(levels, job);
      InputsSorted(levels, job);
      var inputs := job.in0 + job.in1;
      var outs := Execute(inputs, thr, drop, target, nextNum, sizeOf);
      var levels' := Compacted(levels, job, outs);
      NumsAfter(levels, job, thr, drop, target, nextNum, sizeOf, outs, levels');
      NumsAt(levels', job.level + 1);
      var readers' := SwapReaders(readers, inputs, levels'[job.level + 1]);
      CompactionKeepsOk(levels, readers, job, thr, drop, target, nextNum, sizeOf, outs, levels', readers');
      levels, readers, nextNum := levels', readers', nextNum + |outs|;
    }

    /**
     The compaction loop. In round n entry i is pruned against minActive(n)(i). Its rounds are a run
     of the tree; it ends with every score at most one, keeps the tree valid, and, with nothing to
     prune for, changes no read.
     */
    method DoCompaction(minActive: nat -> nat -> nat, target: nat, sizeOf: Run -> nat) returns (ghost steps: seq<TreeStep>)
      requires Valid()
      modifies this
      ensures var s := TreeState(old(levels), old(nextNum));
              && IsTreeRun(s, steps) && IsLoopRun(s, steps, minActive, target, sizeOf)
              && RunTree(s, steps) == TreeState(levels, nextNum)
      ensures Valid() && |levels| == MAX_LEVELS && |old(levels)| == MAX_LEVELS
      ensures forall l :: 0 <= l < MAX_LEVELS - 1 ==> Score(l, levels[l]) <= 1.0
      ensures NewestIsOldest(old(levels)[0]) && (forall n, i :: minActive(n)(i) == 0) ==> SameReads(old(levels), levels)
    {
      hide TreeOk, Score, NewestIsOldest, SameReads, Swapped, Added, Compacted, JobOk, LayoutOk, NumsOk, NumIdentifies,
        NumsBelow, Weight, DistinctNums, Runs, AllSorted, Picked, IsTreeRun, RunTree, IsLoopRun, Bottom, MaxOccupied;
      TreeCount(levels, readers, nextNum);
      ghost var start, begun := levels, TreeState(levels, nextNum);
      steps := [];
      NoRounds(begun, minActive, target, sizeOf);
      ghost var unpruned := NewestIsOldest(start[0]) && forall n, i :: minActive(n)(i) == 0;
      SameReadsRefl(levels);
      var round: nat := 0;
      while true
        invariant Valid() && |levels| == MAX_LEVELS
        invariant |steps| == round && IsTreeRun(begun, steps) && IsLoopRun(begun, steps, minActive, target, sizeOf)
        invariant RunTree(begun, steps) == TreeState(levels, nextNum)
        invariant unpruned ==> SameReads(start, levels) && NewestIsOldest(levels[0])
        decreases Weight(levels, 0), |levels[0]|
      {
        var picked := PickCompaction(levels);
        if picked.None? { break; }
        var job := picked.value;
        PickedJob(levels, job);
        var maxOccupied := MaxOccupiedLevel(levels);
        ghost var was, num := levels, nextNum;
        var thr := minActive(round);
        var drop := job.level + 1 >= maxOccupied;
        TreeParts(levels, readers, nextNum);
        BottomIs(levels, job, maxOccupied);
        JobLevel(levels, job);
        LoopSnoc(begun, steps, minActive, target, sizeOf, job);
        Compact(job, thr, drop, target, sizeOf);
        steps := steps + [CompactStep(job, thr, drop, target, sizeOf)];
        CompactionDecreases(was, job, thr, drop, target, num, sizeOf);
        if unpruned {
          RoundKeepsReads(was, job, thr, drop, target, num, sizeOf);
          SameReadsTrans(start, was, levels);
        }
        round := round + 1;
      }
    }
  }

  lemma NoRounds(s: TreeState, minActive: nat -> nat -> nat, target: nat, sizeOf: Run -> nat)
    ensures IsTreeRun(s, []) && IsLoopRun(s, [], minActive, target, sizeOf) && RunTree(s, []) == s
  {
  }

  lemma BottomIs(levels: seq<seq<Table>>, job: Job, top: nat)
    requires |levels| == MAX_LEVELS && top < MAX_LEVELS
    requires (top == 0 || levels[top] != []) && forall l :: top < l < MAX_LEVELS ==> levels[l] == []
    ensures Bottom(levels, job) <==> job.level + 1 >= top
  {
  }

  lemma EmptyTreeOk(levels: seq<seq<Table>>)
    requires levels == [[], [], [], [], [], [], []]
    ensures TreeOk(levels, map[], 1) && forall k :: TreeFind(levels, k) == None
  {
    hide Less, TableOk, FindFrom;
    forall l | 0 <= l < |levels| ensures levels[l] == [] && DistinctNums(levels[l]) && LevelOk(levels[l]) { }
    forall k ensures TreeFind(levels, k) == None { EmptyFind(levels, 0, k); }
  }

  lemma PickedJob(levels: seq<seq<Table>>, job: Job)
    requires Picked(levels, job)
    ensures JobOk(levels, job)
  {
  }

  lemma TreeCount(levels: seq<seq<Table>>, readers: map<nat, Run>, next: nat)
    requires TreeOk(levels, readers, next)
    ensures |levels| == MAX_LEVELS
  {
  }

  lemma TreeParts(levels: seq<seq<Table>>, readers: map<nat, Run>, next: nat)
    requires TreeOk(levels, readers, next)
    ensures LayoutOk(levels) && NumsOk(levels) && NumIdentifies(levels) && NumsBelow(levels, next)
  {
  }

  lemma NumsAt(levels: seq<seq<Table>>, l: nat)
    requires NumsOk(levels) && l < |levels|
    ensures DistinctNums(levels[l])
  {
  }

  lemma FlushTableIs(mem: Run, num: nat, size: nat)
    ensures FlushTable(mem, num, size)
            == Table(num, size, if mem == [] then [] else mem[0].key, if mem == [] then [] else mem[|mem| - 1].key, mem)
    ensures FlushTable(mem, num, size).entries == mem
  {
  }

  lemma FlushedIs(levels: seq<seq<Table>>, t: Table)
    requires |levels| == MAX_LEVELS
    ensures Flushed(levels, t) == levels[0 := levels[0] + [t]]
  {
  }

  lemma SameReadsRefl(levels: seq<seq<Table>>)
    ensures SameReads(levels, levels)
  {
  }

  lemma SameReadsTrans(a: seq<seq<Table>>, b: seq<seq<Table>>, d: seq<seq<Table>>)
    requires SameReads(a, b) && SameReads(b, d)
    ensures SameReads(a, d)
  {
    hide TreeFind;
    forall k ensures TreeFind(d, k) == TreeFind(a, k) {
      assert TreeFind(b, k) == TreeFind(a, k);
    }
  }

  /** The deepest of the first n levels with a file, or the first. */
  function MaxOccupied(levels: seq<seq<Table>>, n: nat): nat
    requires n <= |levels|
  {
    if n == 0 then 0 else if levels[n - 1] != [] then n - 1 else MaxOccupied(levels, n - 1)
  }

  /** The loop of doCompaction that finds the deepest level with a file. */
  method MaxOccupiedLevel(levels: seq<seq<Table>>) returns (top: nat)
    requires |levels| == MAX_LEVELS
    ensures top == MaxOccupied(levels, MAX_LEVELS)
    ensures top < MAX_LEVELS && (top == 0 || levels[top] != []) && forall l :: top < l < MAX_LEVELS ==> levels[l] == []
  {
    top := 0;
    var i := 0;
    while i < MAX_LEVELS
      invariant 0 <= i <= MAX_LEVELS && top < MAX_LEVELS && top == MaxOccupied(levels, i)
      invariant (top == 0 || levels[top] != []) && forall l :: top < l < i ==> levels[l] == []
    {
      if |levels[i]| > 0 { top := i; }
      i := i + 1;
    }
  }
}
