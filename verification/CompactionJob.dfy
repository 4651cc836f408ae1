/**
 Which tables a compaction takes and what the tree looks like after it: the layout invariant is
 kept, whatever is pruned (internal/lsm/compaction.go, PickCompaction and Execute's edit).
 */
module CompactionJob {
  import opened Bytes
  import opened KeyOrder
  import opened SortedLists
  import opened Compaction
  import opened Levels

  /** A compaction of tables of one level into the next. */
  datatype Job = Job(level: nat, in0: seq<Table>, in1: seq<Table>)

  // ---- picking

  /** GetOverlappingFiles. */
  function Overlapping(fs: seq<Table>, lo: Key, hi: Key): seq<Table> {
    if fs == [] then []
    else
      var rest := Overlapping(fs[..|fs| - 1], lo, hi);
      var f := fs[|fs| - 1];
      if Overlaps(f, lo, hi) then rest + [f] else rest
  }

  predicate Overlaps(f: Table, lo: Key, hi: Key) {
    !Less(f.largest, lo) && !Less(hi, f.smallest)
  }

  /** A file overlaps a range exactly if some key lies in both. */
  lemma OverlapsMeans(f: Table, lo: Key, hi: Key)
    requires !Less(f.largest, f.smallest) && !Less(hi, lo)
    ensures Overlaps(f, lo, hi) <==> exists k: Key :: !Less(k, lo) && !Less(hi, k) && !Less(k, f.smallest) && !Less(f.largest, k)
  {
    hide Less;
    KeysOrdered();
    if Overlaps(f, lo, hi) {
      var k := if Less(lo, f.smallest) then f.smallest else lo;
      assert !Less(k, lo) && !Less(hi, k) && !Less(k, f.smallest) && !Less(f.largest, k);
    }
  }

  lemma {:induction false} OverlappingMembers(fs: seq<Table>, lo: Key, hi: Key)
    ensures forall f :: f in Overlapping(fs, lo, hi) <==> f in fs && Overlaps(f, lo, hi)
  {
    hide Overlaps;
    if fs != [] {
      OverlappingMembers(fs[..|fs| - 1], lo, hi);
      assert fs == fs[..|fs| - 1] + [fs[|fs| - 1]];
    }
  }

  lemma {:induction false} OverlappingLevel(fs: seq<Table>, lo: Key, hi: Key)
    requires LevelOk(fs)
    ensures LevelOk(Overlapping(fs, lo, hi))
  {
    hide Overlaps, Left, TableOk;
    if fs != [] {
      var front, f := fs[..|fs| - 1], fs[|fs| - 1];
      OverlappingLevel(front, lo, hi);
      OverlappingMembers(front, lo, hi);
      if Overlaps(f, lo, hi) {
        forall g | g in Overlapping(front, lo, hi) ensures Left(g, f) {
          var i := IndexOf(front, g);
          assert Left(fs[i], fs[|fs| - 1]);
        }
        LevelSnoc(Overlapping(front, lo, hi), f);
      }
    }
  }

  /** lo and hi bound the ranges of the tables and are reached. */
  ghost predicate IsHull(fs: seq<Table>, lo: Key, hi: Key) {
    && (forall f :: f in fs ==> !Less(f.smallest, lo) && !Less(hi, f.largest))
    && (exists f :: f in fs && f.smallest == lo)
    && (exists f :: f in fs && f.largest == hi)
  }

  const L0_TRIGGER: real := 4.0
  const BASE_LEVEL_SIZE: nat := 10 * 1024 * 1024

  /** The size a level may have before it is compacted; the first level has none. */
  function TargetSize(level: nat): nat {
    if level == 0 then 0 else if level == 1 then BASE_LEVEL_SIZE else 10 * TargetSize(level - 1)
  }

  lemma {:induction false} TargetPositive(level: nat)
    requires level >= 1
    ensures TargetSize(level) > 0
  {
    if level > 1 { TargetPositive(level - 1); }
  }

  function SizeSum(fs: seq<Table>): nat {
    if fs == [] then 0 else SizeSum(fs[..|fs| - 1]) + fs[|fs| - 1].size
  }

  /** CompactionScore, in exact arithmetic. */
  function Score(level: nat, fs: seq<Table>): real {
    if level == 0 then |fs| as real / L0_TRIGGER
    else TargetPositive(level); SizeSum(fs) as real / TargetSize(level) as real
  }

  const MIB: nat := 1024 * 1024

  /** Ten megabytes for the level after the first and ten times as much for each deeper one. */
  lemma TargetSizes()
    ensures TargetSize(1) == 10 * MIB && TargetSize(2) == 100 * MIB && TargetSize(3) == 1_000 * MIB
    ensures TargetSize(4) == 10_000 * MIB && TargetSize(5) == 100_000 * MIB && TargetSize(6) == 1_000_000 * MIB
  {
    assert TargetSize(2) == 10 * TargetSize(1) && TargetSize(3) == 10 * TargetSize(2) && TargetSize(4) == 10 * TargetSize(3);
    assert TargetSize(5) == 10 * TargetSize(4) && TargetSize(6) == 10 * TargetSize(5);
  }

  /** A level is due when the first has more than four files, or another more bytes than its size. */
  lemma DueWhen(level: nat, fs: seq<Table>)
    ensures Score(level, fs) > 1.0 <==> if level == 0 then |fs| > 4 else SizeSum(fs) > TargetSize(level)
  {
    if level >= 1 {
      TargetPositive(level);
      Quotient(SizeSum(fs) as real, TargetSize(level) as real);
    }
  }

  lemma Quotient(a: real, b: real)
    requires b > 0.0
    ensures a / b > 1.0 <==> a > b
  {
    assert a / b * b == a;
  }

  lemma ScoreNeedsFiles(level: nat, fs: seq<Table>)
    requires Score(level, fs) > 1.0
    ensures fs != []
  {
    if level >= 1 { TargetPositive(level); }
  }

  /** What every job has: the inputs of its level, and all of the next level they overlap. */
  ghost predicate JobOk(levels: seq<seq<Table>>, job: Job) {
    && |levels| == MAX_LEVELS && job.level < MAX_LEVELS - 1 && job.in0 != []
    && (if job.level == 0 then job.in0 == levels[0] else |job.in0| == 1 && job.in0[0] in levels[job.level])
    && exists lo, hi :: IsHull(job.in0, lo, hi) && job.in1 == Overlapping(levels[job.level + 1], lo, hi)
  }

  /** The picker's choice: the first level of highest score, above one, and there the largest file. */
  ghost predicate Picked(levels: seq<seq<Table>>, job: Job) {
    && JobOk(levels, job)
    && Score(job.level, levels[job.level]) > 1.0
    && (forall l :: 0 <= l < MAX_LEVELS - 1 ==> Score(l, levels[l]) <= Score(job.level, levels[job.level]))
    && (forall l :: 0 <= l < job.level ==> Score(l, levels[l]) < Score(job.level, levels[job.level]))
    && (job.level > 0 ==> forall f :: f in levels[job.level] ==> f.size <= job.in0[0].size)
  }

  method BestLevel(levels: seq<seq<Table>>) returns (best: nat, bestScore: real)
    requires |levels| == MAX_LEVELS
    ensures best < MAX_LEVELS - 1 && bestScore == Score(best, levels[best])
    ensures forall l :: 0 <= l < MAX_LEVELS - 1 ==> Score(l, levels[l]) <= bestScore
    ensures forall l :: 0 <= l < best ==> Score(l, levels[l]) < bestScore
  {
    hide Score;
    var bestLevel := -1;
    bestScore := -1.0;
    var level := 0;
    ScoreNotNegative(0, levels[0]);
    while level < MAX_LEVELS - 1
      invariant 0 <= level <= MAX_LEVELS - 1 && -1 <= bestLevel < level
      invariant if level == 0 then bestScore == -1.0 else bestLevel >= 0 && bestScore == Score(bestLevel, levels[bestLevel])
      invariant forall l :: 0 <= l < level ==> Score(l, levels[l]) <= bestScore
      invariant forall l :: 0 <= l < bestLevel ==> Score(l, levels[l]) < bestScore
    {
      var score := Score(level, levels[level]);
      if score > bestScore {
        bestLevel, bestScore := level, score;
      }
      level := level + 1;
    }
    best := bestLevel;
  }

  lemma ScoreNotNegative(level: nat, fs: seq<Table>)
    ensures Score(level, fs) >= 0.0
  {
    if level >= 1 { TargetPositive(level); }
  }

  method Hull(fs: seq<Table>) returns (lo: Key, hi: Key)
    requires fs != []
    ensures IsHull(fs, lo, hi)
  {
    hide Less;
    KeysOrdered();
    lo, hi := fs[0].smallest, fs[0].largest;
    var i := 1;
    while i < |fs|
      invariant 1 <= i <= |fs|
      invariant forall j :: 0 <= j < i ==> !Less(fs[j].smallest, lo) && !Less(hi, fs[j].largest)
      invariant exists j :: 0 <= j < i && fs[j].smallest == lo
      invariant exists j :: 0 <= j < i && fs[j].largest == hi
    {
      if Less(fs[i].smallest, lo) { lo := fs[i].smallest; }
      if Less(hi, fs[i].largest) { hi := fs[i].largest; }
      i := i + 1;
    }
    var a :| 0 <= a < |fs| && fs[a].smallest == lo;
    var b :| 0 <= b < |fs| && fs[b].largest == hi;
    assert fs[a] in fs && fs[b] in fs;
  }

  method LargestFile(fs: seq<Table>) returns (f: Table)
    requires fs != []
    ensures f in fs && forall g :: g in fs ==> g.size <= f.size
  {
    f := fs[0];
    var i := 1;
    while i < |fs|
      invariant 1 <= i <= |fs| && f in fs && forall j :: 0 <= j < i ==> fs[j].size <= f.size
    {
      if fs[i].size > f.size { f := fs[i]; }
      i := i + 1;
    }
  }

  method GetOverlapping(fs: seq<Table>, lo: Key, hi: Key) returns (r: seq<Table>)
    ensures r == Overlapping(fs, lo, hi)
  {
    r := [];
    var i := 0;
    while i < |fs|
      invariant 0 <= i <= |fs| && r == Overlapping(fs[..i], lo, hi)
    {
      assert fs[..i + 1][..i] == fs[..i];
      if Overlaps(fs[i], lo, hi) { r := r + [fs[i]]; }
      i := i + 1;
    }
    assert fs[..|fs|] == fs;
  }

  /** PickCompaction: a job exactly when some level's score is above one. */
  method PickCompaction(levels: seq<seq<Table>>) returns (job: Option<Job>)
    requires |levels| == MAX_LEVELS
    ensures job.Some? ==> Picked(levels, job.value)
    ensures job.None? <==> forall l :: 0 <= l < MAX_LEVELS - 1 ==> Score(l, levels[l]) <= 1.0
  {
    hide Score, Overlapping, IsHull;
    var best, score := BestLevel(levels);
    if score <= 1.0 {
      return None;
    }
    ScoreNeedsFiles(best, levels[best]);
    var in0 := levels[0];
    if best != 0 {
      var f := LargestFile(levels[best]);
      in0 := [f];
    }
    var lo, hi := Hull(in0);
    var in1 := GetOverlapping(levels[best + 1], lo, hi);
    return Some(Job(best, in0, in1));
  }

  // ---- the tables a compaction reads lie apart from those of the next level it leaves alone

  ghost predicate IsKeyOf(fs: seq<Table>, k: Key) {
    exists f :: f in fs && Find(f.entries, k).Some?
  }

  lemma NextLevel(levels: seq<seq<Table>>, job: Job)
    requires LayoutOk(levels) && JobOk(levels, job)
    ensures LevelOk(levels[job.level + 1])
    ensures forall f :: f in job.in0 ==> FlushedOk(f)
  {
    hide LevelOk, FlushedOk, IsHull, Overlapping;
    var src := levels[job.level];
    forall f | f in job.in0 ensures FlushedOk(f) {
      var i := IndexOf(src, f);
      if job.level > 0 { LevelTable(src, i); }
    }
  }

  lemma LevelTable(fs: seq<Table>, i: nat)
    requires LevelOk(fs) && i < |fs|
    ensures FlushedOk(fs[i])
  {
    hide TableOk, Left;
  }

  /** A key of a source table lies in the hull. */
  lemma KeyInHull(fs: seq<Table>, lo: Key, hi: Key, f: Table, k: Key)
    requires IsHull(fs, lo, hi) && f in fs && FlushedOk(f) && Find(f.entries, k).Some?
    ensures !Less(k, lo) && !Less(hi, k)
  {
    hide Less, TableOk;
    KeysOrdered();
    assert TableOk(f);
    RangeHolds(f, k);
  }

  /** A file of the next level that is not taken lies to one side of every key that is. */
  lemma UntouchedMissesKeys(levels: seq<seq<Table>>, job: Job, g: Table)
    requires LayoutOk(levels) && JobOk(levels, job) && g in levels[job.level + 1] && g !in job.in1
    ensures (forall k :: IsKeyOf(job.in0 + job.in1, k) ==> Less(g.largest, k))
            || (forall k :: IsKeyOf(job.in0 + job.in1, k) ==> Less(k, g.smallest))
  {
    hide Less, LayoutOk, FlushedOk, LevelOk, Overlapping, Left, TableOk, IsHull;
    KeysOrdered();
    NextLevel(levels, job);
    var fs := levels[job.level + 1];
    var lo, hi :| IsHull(job.in0, lo, hi) && job.in1 == Overlapping(fs, lo, hi);
    OverlappingMembers(fs, lo, hi);
    if Less(g.largest, lo) {
      forall k | IsKeyOf(job.in0 + job.in1, k) ensures Less(g.largest, k) {
        var f :| f in job.in0 + job.in1 && Find(f.entries, k).Some?;
        if f in job.in0 {
          KeyInHull(job.in0, lo, hi, f, k);
        } else {
          KeyBeyond(fs, g, f, lo, hi, k);
        }
      }
    } else {
      assert Less(hi, g.smallest);
      forall k | IsKeyOf(job.in0 + job.in1, k) ensures Less(k, g.smallest) {
        var f :| f in job.in0 + job.in1 && Find(f.entries, k).Some?;
        if f in job.in0 {
          KeyInHull(job.in0, lo, hi, f, k);
        } else {
          KeyBefore(fs, g, f, lo, hi, k);
        }
      }
    }
  }

  lemma LevelPair(fs: seq<Table>, f: Table, g: Table)
    requires LevelOk(fs) && f in fs && g in fs && f != g
    ensures Apart(f, g) && TableOk(f) && TableOk(g)
  {
    hide Left, TableOk;
    var i := IndexOf(fs, f);
    var j := IndexOf(fs, g);
    assert Left(fs[i], fs[j]) || Left(fs[j], fs[i]);
  }

  lemma KeyBeyond(fs: seq<Table>, g: Table, f: Table, lo: Key, hi: Key, k: Key)
    requires LevelOk(fs) && f in fs && g in fs && Less(g.largest, lo)
    requires Overlaps(f, lo, hi) && Find(f.entries, k).Some?
    ensures Less(g.largest, k)
  {
    hide Less, TableOk, LevelOk;
    KeysOrdered();
    LevelPair(fs, f, g);
    RangeHolds(f, k);
    RangeOrdered(g);
  }

  lemma KeyBefore(fs: seq<Table>, g: Table, f: Table, lo: Key, hi: Key, k: Key)
    requires LevelOk(fs) && f in fs && g in fs && Less(hi, g.smallest)
    requires Overlaps(f, lo, hi) && Find(f.entries, k).Some?
    ensures Less(k, g.smallest)
  {
    hide Less, TableOk, LevelOk;
    KeysOrdered();
    LevelPair(fs, f, g);
    RangeHolds(f, k);
    RangeOrdered(g);
  }
}
