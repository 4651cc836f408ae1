/**
 The engine's read view: active table, immutable table and tree together always read as the last
 write of each key (db.go, internal/memtable/manager.go, internal/lsm/lsm.go).
 */
module Engine {
  import opened Bytes
  import opened KeyOrder
  import opened SortedLists
  import opened Compaction
  import opened Levels
  import opened CompactionJob
  import opened TreeEdit
  import opened TreeReads
  import SL = SkipList
  import opened Memtables
  import opened LsmTree
  import opened TreeRuns

  /** flushed: the immutable table is already in the tree but not yet dropped. */
  datatype EngineState = EngineState(tables: Tables, flushed: bool, tree: TreeState)

  datatype EngineStep =
    | WriteStep(key: Key, val: Option<ByteString>)
    | SwapStep
    | FlushStep(size: nat)
    | DropStep
    | CompactStep(job: Job, drop: bool, target: nat, sizeOf: Run -> nat)

  const ENGINE_START := EngineState(Tables([], None), false, EMPTY_TREE)

  /** Compaction as the database configures it: no snapshot source, so nothing is pruned. */
  function UnprunedStep(step: EngineStep): TreeStep
    requires step.CompactStep?
  {
    TreeStep.CompactStep(step.job, (i: nat) => 0, step.drop, step.target, step.sizeOf)
  }

  ghost predicate CanStepEngine(s: EngineState, step: EngineStep) {
    match step
    case WriteStep(_, _) => true
    case SwapStep => s.tables.immutable.None?
    case FlushStep(_) => s.tables.immutable.Some? && !s.flushed
    case DropStep => s.tables.immutable.Some? && s.flushed
    case CompactStep(_, _, _, _) => CanStep(s.tree, UnprunedStep(step))
  }

  ghost function StepEngine(s: EngineState, step: EngineStep): EngineState
    requires CanStepEngine(s, step) && |s.tree.levels| == MAX_LEVELS
  {
    match step
    case WriteStep(k, v) => s.(tables := Write(s.tables, k, v))
    case SwapStep => EngineState(Swap(s.tables), false, s.tree)
    case FlushStep(size) =>
      var t := FlushTable(s.tables.immutable.value, s.tree.next, size);
      EngineState(s.tables, true, TreeState(Flushed(s.tree.levels, t), s.tree.next + 1))
    case DropStep => EngineState(s.tables.(immutable := None), false, s.tree)
    case CompactStep(_, _, _, _) => s.(tree := StepTree(s.tree, UnprunedStep(step)))
  }

  /** DB.Get before tombstones are turned into absence. */
  function EngineHit(s: EngineState, k: Key): Hit {
    Or(TablesHit(s.tables, k), TreeFind(s.tree.levels, k))
  }

  type Writes = map<Key, Option<ByteString>>

  function Last(w: Writes, k: Key): Hit {
    if k in w then Some(w[k]) else None
  }

  function AfterWrite(w: Writes, step: EngineStep): Writes {
    if step.WriteStep? then w[step.key := step.val] else w
  }

  /** The last write of every key in a list of steps. */
  function LastWrites(w: Writes, steps: seq<EngineStep>): Writes
    decreases |steps|
  {
    if steps == [] then w else LastWrites(AfterWrite(w, steps[0]), steps[1..])
  }

  ghost predicate TablesSorted(t: Tables) {
    Sorted(t.active) && (t.immutable.Some? ==> Sorted(t.immutable.value))
  }

  /** A flushed immutable table is what the tree shows of its keys, except those written again since. */
  ghost predicate FlushSeen(s: EngineState) {
    s.flushed ==> s.tables.immutable.Some?
                  && forall k :: Find(s.tables.active, k).None? && Find(s.tables.immutable.value, k).Some? ==>
                                   TreeFind(s.tree.levels, k) == Find(s.tables.immutable.value, k)
  }

  // ---- which compactions of the first level change what is read

  /** The key is in a table that still has to be flushed, so the tree is not asked for it. */
  predicate Covered(s: EngineState, k: Key) {
    Find(s.tables.active, k).Some? || (!s.flushed && s.tables.immutable.Some? && Find(s.tables.immutable.value, k).Some?)
  }

  /** A compaction of the first level finds no two values of any key the tree is asked for. */
  ghost predicate Harmless(s: EngineState, step: EngineStep)
    requires |s.tree.levels| == MAX_LEVELS
  {
    step.CompactStep? && step.job.level == 0 ==>
      forall k :: !Covered(s, k) ==> NewestFind(s.tree.levels[0], k) == TablesFind(s.tree.levels[0], k)
  }

  /** The state in which a flushed immutable table has been dropped. */
  function Settled(s: EngineState): EngineState {
    if s.flushed then EngineState(s.tables.(immutable := None), false, s.tree) else s
  }

  /** Every read gives the last write of its key, now and when the flushed table is dropped. */
  ghost predicate ReadsRight(s: EngineState, w: Writes) {
    forall k :: EngineHit(s, k) == Last(w, k) == EngineHit(Settled(s), k)
  }

  ghost predicate EngineOk(s: EngineState, w: Writes) {
    && TablesSorted(s.tables) && StateOk(s.tree) && FlushSeen(s)
    && forall k :: EngineHit(s, k) == Last(w, k)
  }

  lemma WriteKeeps(s: EngineState, w: Writes, key: Key, val: Option<ByteString>)
    requires EngineOk(s, w) && |s.tree.levels| == MAX_LEVELS
    ensures EngineOk(StepEngine(s, WriteStep(key, val)), w[key := val])
  {
    hide StateOk, Find, TreeFind, SL.PutRun, Sorted;
    var s' := StepEngine(s, WriteStep(key, val));
    PutKeepsSorted(s.tables.active, key, val);
    forall k
      ensures EngineHit(s', k) == Last(w[key := val], k)
      ensures Find(s'.tables.active, k).None? ==> Find(s.tables.active, k).None?
    {
      SL.PutFind(s.tables.active, key, val, k);
      assert EngineHit(s, k) == Last(w, k);
    }
  }

  lemma {:induction false} PlaceOf(es: Run, k: Key) returns (p: nat)
    requires Sorted(es)
    ensures SL.Splits(es, k, p)
  {
    hide Less;
    KeysOrdered();
    if es == [] || !Less(es[0].key, k) {
      p := 0;
      forall i | 0 <= i < |es| ensures !Less(es[i].key, k) {
        if i > 0 { assert Less(es[0].key, es[i].key); }
      }
    } else {
      var q := PlaceOf(es[1..], k);
      p := q + 1;
      assert forall i :: 1 <= i < |es| ==> es[i] == es[1..][i - 1];
    }
  }

  lemma PutKeepsSorted(es: Run, k: Key, v: Option<ByteString>)
    requires Sorted(es)
    ensures Sorted(SL.PutRun(es, k, v))
  {
    hide Sorted, SL.PutRun, SL.Splits;
    var p := PlaceOf(es, k);
    SL.PutSorted(es, k, v, p);
  }

  lemma SwapKeeps(s: EngineState, w: Writes)
    requires EngineOk(s, w) && |s.tree.levels| == MAX_LEVELS && s.tables.immutable.None?
    ensures EngineOk(StepEngine(s, SwapStep), w)
  {
    hide StateOk, TreeFind;
    var s' := StepEngine(s, SwapStep);
    forall k ensures EngineHit(s', k) == Last(w, k) {
      assert EngineHit(s, k) == Last(w, k);
    }
  }

  /** The flushed table now also stands in the tree, under itself. */
  lemma FlushKeeps(s: EngineState, w: Writes, size: nat)
    requires EngineOk(s, w) && |s.tree.levels| == MAX_LEVELS && s.tables.immutable.Some? && !s.flushed
    ensures EngineOk(StepEngine(s, EngineStep.FlushStep(size)), w)
  {
    hide StateOk, TreeFind, Find, Flushed, FlushTable, Sorted;
    var mem := s.tables.immutable.value;
    var t := FlushTable(mem, s.tree.next, size);
    var s' := StepEngine(s, EngineStep.FlushStep(size));
    FlushTableIs(mem, s.tree.next, size);
    FlushStateOk(s.tree, mem, size);
    forall k ensures EngineHit(s', k) == Last(w, k) && TreeFind(s'.tree.levels, k) == Or(Find(mem, k), TreeFind(s.tree.levels, k)) {
      FlushReads(s.tree.levels, t, k);
      assert EngineHit(s, k) == Last(w, k);
    }
  }

  lemma DropKeeps(s: EngineState, w: Writes)
    requires EngineOk(s, w) && |s.tree.levels| == MAX_LEVELS && s.tables.immutable.Some? && s.flushed
    ensures EngineOk(StepEngine(s, DropStep), w)
  {
    hide StateOk, TreeFind, Find;
    var s' := StepEngine(s, DropStep);
    forall k ensures EngineHit(s', k) == Last(w, k) {
      assert EngineHit(s, k) == Last(w, k);
    }
  }

  lemma CompactRead(s: EngineState, step: EngineStep, k: Key)
    requires StateOk(s.tree) && step.CompactStep? && CanStepEngine(s, step)
    ensures |s.tree.levels| == MAX_LEVELS
    ensures TreeFind(StepEngine(s, step).tree.levels, k) == TreeFind(s.tree.levels, k)
            <==> (step.job.level == 0 ==> NewestFind(s.tree.levels[0], k) == TablesFind(s.tree.levels[0], k))
  {
    hide TreeFind, Compacted, Added, NewestFind, TablesFind, JobOk, LayoutOk, NumsOk, NumIdentifies, NumsBelow;
    UnprunedRead(s.tree.levels, step.job, (i: nat) => 0, step.drop, step.target, s.tree.next, step.sizeOf, k);
  }

  lemma CompactKeeps(s: EngineState, w: Writes, step: EngineStep)
    requires EngineOk(s, w) && |s.tree.levels| == MAX_LEVELS && step.CompactStep? && CanStepEngine(s, step)
    requires Harmless(s, step)
    ensures EngineOk(StepEngine(s, step), w)
  {
    hide StateOk, TreeFind, Find, NewestFind, TablesFind, CanStep, StepTree;
    var s' := StepEngine(s, step);
    StepKeepsOk(s.tree, UnprunedStep(step));
    forall k
      ensures EngineHit(s', k) == Last(w, k) && (!Covered(s, k) ==> TreeFind(s'.tree.levels, k) == TreeFind(s.tree.levels, k))
    {
      assert EngineHit(s, k) == Last(w, k);
      CompactRead(s, step, k);
    }
  }

  lemma SettledRight(s: EngineState, w: Writes)
    requires EngineOk(s, w)
    ensures ReadsRight(s, w)
  {
    hide StateOk, TreeFind, Find;
    forall k ensures EngineHit(s, k) == Last(w, k) == EngineHit(Settled(s), k) { }
  }

  /** A compaction of the first level that is not harmless makes some read wrong, at the latest when the flushed table goes. */
  lemma HarmfulWrong(s: EngineState, w: Writes, step: EngineStep)
    requires EngineOk(s, w) && |s.tree.levels| == MAX_LEVELS && CanStepEngine(s, step) && !Harmless(s, step)
    ensures !ReadsRight(StepEngine(s, step), w)
  {
    hide StateOk, TreeFind, Find, NewestFind, TablesFind, CanStep, StepTree;
    var s' := StepEngine(s, step);
    var k :| !Covered(s, k) && NewestFind(s.tree.levels[0], k) != TablesFind(s.tree.levels[0], k);
    CompactRead(s, step, k);
    SettledRight(s, w);
    assert EngineHit(Settled(s), k) == TreeFind(s.tree.levels, k);
    assert EngineHit(Settled(s'), k) == TreeFind(s'.tree.levels, k);
  }

  lemma EngineStepKeeps(s: EngineState, w: Writes, step: EngineStep)
    requires EngineOk(s, w) && |s.tree.levels| == MAX_LEVELS && CanStepEngine(s, step) && Harmless(s, step)
    ensures EngineOk(StepEngine(s, step), AfterWrite(w, step))
  {
    hide EngineOk;
    match step
    case WriteStep(key, val) => WriteKeeps(s, w, key, val);
    case SwapStep => SwapKeeps(s, w);
    case FlushStep(size) => FlushKeeps(s, w, size);
    case DropStep => DropKeeps(s, w);
    case CompactStep(_, _, _, _) => CompactKeeps(s, w, step);
  }

  ghost predicate IsEngineRun(s: EngineState, steps: seq<EngineStep>)
    decreases |steps|
  {
    |s.tree.levels| == MAX_LEVELS
    && (steps == [] || (CanStepEngine(s, steps[0]) && IsEngineRun(StepEngine(s, steps[0]), steps[1..])))
  }

  ghost function RunEngine(s: EngineState, steps: seq<EngineStep>): EngineState
    requires IsEngineRun(s, steps)
    decreases |steps|
  {
    if steps == [] then s else RunEngine(StepEngine(s, steps[0]), steps[1..])
  }

  /** Every compaction of the first level is harmless where it is taken. */
  ghost predicate AllHarmless(s: EngineState, steps: seq<EngineStep>)
    requires IsEngineRun(s, steps)
    decreases |steps|
  {
    steps == [] || (Harmless(s, steps[0]) && AllHarmless(StepEngine(s, steps[0]), steps[1..]))
  }

  /** Reads are right in every state of the run. */
  ghost predicate AlwaysRight(s: EngineState, w: Writes, steps: seq<EngineStep>)
    requires IsEngineRun(s, steps)
    decreases |steps|
  {
    ReadsRight(s, w)
    && (steps == [] || AlwaysRight(StepEngine(s, steps[0]), AfterWrite(w, steps[0]), steps[1..]))
  }

  lemma {:induction false} RunKeeps(s: EngineState, w: Writes, steps: seq<EngineStep>)
    requires EngineOk(s, w) && IsEngineRun(s, steps) && AllHarmless(s, steps)
    ensures EngineOk(RunEngine(s, steps), LastWrites(w, steps))
    decreases |steps|
  {
    hide EngineOk, StepEngine, CanStepEngine, AfterWrite, Harmless;
    if steps != [] {
      EngineStepKeeps(s, w, steps[0]);
      RunKeeps(StepEngine(s, steps[0]), AfterWrite(w, steps[0]), steps[1..]);
    }
  }

  lemma {:induction false} RunRight(s: EngineState, w: Writes, steps: seq<EngineStep>)
    requires EngineOk(s, w) && IsEngineRun(s, steps)
    ensures AlwaysRight(s, w, steps) <==> AllHarmless(s, steps)
    decreases |steps|
  {
    hide EngineOk, StepEngine, CanStepEngine, AfterWrite, Harmless, ReadsRight;
    SettledRight(s, w);
    if steps != [] {
      var s', w' := StepEngine(s, steps[0]), AfterWrite(w, steps[0]);
      if Harmless(s, steps[0]) {
        EngineStepKeeps(s, w, steps[0]);
        RunRight(s', w', steps[1..]);
      } else {
        OnlyCompactionHarms(s, steps[0]);
        HarmfulWrong(s, w, steps[0]);
      }
    }
  }

  lemma OnlyCompactionHarms(s: EngineState, step: EngineStep)
    requires |s.tree.levels| == MAX_LEVELS && !Harmless(s, step)
    ensures forall w :: AfterWrite(w, step) == w
  {
  }

  lemma StartOk()
    ensures EngineOk(ENGINE_START, map[])
  {
    hide TreeFind, StateOk;
    EmptyStateOk();
    EmptyTreeOk(EMPTY_TREE.levels);
  }

  /**
   Over any run of writes, deletions, swaps, flushes, drops of the flushed table and compactions,
   reads give the last write of their key in every state, now and once the flushed table is dropped,
   exactly if no compaction of the first level met two values of a key the tree is asked for.
   Everything else that moves data between the active table, the immutable table and the levels
   changes no read. A table stands for its entries here, as it does if its blocks can be read.
   */
  lemma EngineView(steps: seq<EngineStep>)
    requires IsEngineRun(ENGINE_START, steps)
    ensures AlwaysRight(ENGINE_START, map[], steps) <==> AllHarmless(ENGINE_START, steps)
  {
    hide EngineOk, IsEngineRun, AlwaysRight, AllHarmless;
    StartOk();
    RunRight(ENGINE_START, map[], steps);
  }

  /** What a read gives at the end of such a run. */
  lemma EngineReads(steps: seq<EngineStep>, k: Key)
    requires IsEngineRun(ENGINE_START, steps) && AllHarmless(ENGINE_START, steps)
    ensures EngineHit(RunEngine(ENGINE_START, steps), k) == Last(LastWrites(map[], steps), k)
  {
    hide TreeFind, StateOk, IsEngineRun, RunEngine, FlushSeen, TablesSorted, AllHarmless;
    StartOk();
    RunKeeps(ENGINE_START, map[], steps);
  }

  /** What a lookup means to a client: a tombstone is absence. */
  function Visible(hit: Hit): Option<ByteString> {
    if hit.Some? then hit.value else None
  }

  /** DB.Get over the two components. */
  method Get(manager: Manager, tree: Tree, k: Key) returns (r: Option<ByteString>)
    requires manager.Valid() && tree.Valid()
    ensures r == Visible(Or(TablesHit(manager.View(), k), TreeFind(tree.levels, k)))
  {
    hide TreeOk, TreeFind, TablesHit, SL.ListOk, SL.Entries;
    var hit := manager.Get(k);
    if hit.Some? { return hit.value; }
    hit := tree.Get(k);
    if hit.Some? { return hit.value; }
    return None;
  }
}
