/**
 Version pruning against snapshot reads: which version of a user key a snapshot sees, and what
 the pruning of a compaction does to it (internal/lsm/compaction.go, the body of the merge loop).
 */
module SnapshotReads {
  import opened Bytes
  import opened KeyOrder
  import opened SortedLists
  import opened Compaction
  import opened Levels
  import opened CompactionJob
  import opened TreeEdit
  import opened TreeReads

  type Lookup = Key -> Hit

  /** The newest version of u at or below t, a tombstone read as absent. */
  function SnapRead(get: Lookup, u: ByteString, t: nat): Option<ByteString>
    requires t < U64
    decreases t
  {
    var hit := get(EncodeKey(u, t));
    if hit.Some? then hit.value else if t == 0 then None else SnapRead(get, u, t - 1)
  }

  /** Lookups that agree down to a version both have read the same. */
  lemma {:induction false} ReadsAgreeTo(g: Lookup, h: Lookup, u: ByteString, t: nat, d: nat)
    requires d <= t < U64
    requires forall s :: d <= s <= t ==> g(EncodeKey(u, s)) == h(EncodeKey(u, s))
    requires d == 0 || g(EncodeKey(u, d)).Some?
    ensures SnapRead(g, u, t) == SnapRead(h, u, t)
  {
    hide EncodeKey;
    if t > d { ReadsAgreeTo(g, h, u, t - 1, d); }
  }

  ghost predicate NoVersionIn(get: Lookup, u: ByteString, lo: nat, t: nat)
    requires t < U64
  {
    forall s :: lo < s <= t ==> get(EncodeKey(u, s)).None?
  }

  lemma {:induction false} ReadFalls(get: Lookup, u: ByteString, t: nat, d: nat)
    requires d <= t < U64 && NoVersionIn(get, u, d, t)
    ensures SnapRead(get, u, t) == SnapRead(get, u, d)
  {
    hide EncodeKey;
    if t > d { ReadFalls(get, u, t - 1, d); }
  }

  /** If a lookup has a version above d, what it has at or below d does not matter. */
  lemma {:induction false} ReadsAgreeAbove(g: Lookup, h: Lookup, u: ByteString, t: nat, d: nat)
    requires d <= t < U64 && !NoVersionIn(g, u, d, t)
    requires forall s :: d < s <= t ==> g(EncodeKey(u, s)) == h(EncodeKey(u, s))
    ensures SnapRead(g, u, t) == SnapRead(h, u, t)
  {
    hide EncodeKey;
    var s :| d < s <= t && g(EncodeKey(u, s)).Some?;
    ReadsAgreeTo(g, h, u, t, s);
  }

  // ---- which entries pruning keeps

  function User(e: KV): ByteString { DecodeKey(e.key).0 }
  function Time(e: KV): (t: nat)
    ensures t < U64
  {
    DecodeKey(e.key).1
  }

  ghost predicate Encoded(es: Run) {
    forall i :: 0 <= i < |es| ==> |es[i].key| >= 8
  }

  /** An entry of u before i was older than the oldest snapshot read there. */
  ghost predicate SeenBefore(es: Run, i: nat, u: ByteString, thr: nat -> nat) {
    exists j :: 0 <= j < i && j < |es| && User(es[j]) == u && Time(es[j]) < thr(j)
  }

  /** The first version of its user key that no active snapshot needs to look past. */
  ghost predicate FirstOld(es: Run, i: nat, thr: nat -> nat) {
    i < |es| && Time(es[i]) < thr(i) && !SeenBefore(es, i, User(es[i]), thr)
  }

  ghost predicate KeepAt(es: Run, i: nat, thr: nat -> nat, drop: bool)
    requires i < |es|
  {
    Time(es[i]) < thr(i) ==> !SeenBefore(es, i, User(es[i]), thr) && !(es[i].val.None? && drop)
  }

  /** A sorted run keeps the versions of a user key together, newest first. */
  lemma VersionsTogether(es: Run, i: nat, j: nat)
    requires Sorted(es) && Encoded(es) && i < j < |es| && User(es[i]) == User(es[j])
    ensures Time(es[i]) > Time(es[j])
    ensures forall m :: i <= m <= j ==> User(es[m]) == User(es[i])
  {
    hide DecodeKey, EncodeKey, Less;
    forall m | i <= m <= j ensures User(es[m]) == User(es[i]) {
      if i < m < j {
        PairOrder(es[i].key, es[m].key);
        PairOrder(es[m].key, es[j].key);
        CompareFlips(User(es[i]), User(es[m]));
      }
    }
    PairOrder(es[i].key, es[j].key);
    CompareReflexive(User(es[i]));
  }

  lemma PairOrder(a: Key, b: Key)
    requires |a| >= 8 && |b| >= 8
    ensures var (u, s) := DecodeKey(a); var (v, r) := DecodeKey(b);
            Less(a, b) <==> Compare(u, v) < 0 || (u == v && s > r)
  {
    hide DecodeKey, EncodeKey, Less, Compare;
    EncodeDecode(a);
    EncodeDecode(b);
    var (u, s) := DecodeKey(a);
    var (v, r) := DecodeKey(b);
    EncodedOrder(u, s, v, r);
  }

  /** What the loop remembers at entry i: the user key before it and whether that one was seen old. */
  ghost predicate StateAt(es: Run, i: nat, st: PruneState, thr: nat -> nat) {
    && i <= |es|
    && (i == 0 ==> !st.seen)
    && (i > 0 ==> st.lastUser == User(es[i - 1]) && (st.seen <==> SeenBefore(es, i, st.lastUser, thr)))
  }

  lemma SeenHere(es: Run, i: nat, st: PruneState, thr: nat -> nat)
    requires Sorted(es) && Encoded(es) && i < |es| && StateAt(es, i, st, thr)
    ensures SeenBefore(es, i, User(es[i]), thr) <==> User(es[i]) == st.lastUser && st.seen
  {
    hide User, Time, Less, Encoded, Sorted;
    if SeenBefore(es, i, User(es[i]), thr) {
      var j :| 0 <= j < i && j < |es| && User(es[j]) == User(es[i]) && Time(es[j]) < thr(j);
      VersionsTogether(es, j, i);
      assert User(es[i - 1]) == User(es[i]);
    }
  }

  lemma StateStep(es: Run, i: nat, st: PruneState, thr: nat -> nat, drop: bool)
    requires Sorted(es) && Encoded(es) && i < |es| && StateAt(es, i, st, thr)
    ensures var (st', keep) := PruneStep(st, es[i], thr(i), drop);
            StateAt(es, i + 1, st', thr) && (keep <==> KeepAt(es, i, thr, drop))
  {
    hide Less, Encoded, Sorted, DecodeKey;
    SeenHere(es, i, st, thr);
    SeenNext(es, i, User(es[i]), thr);
  }

  lemma SeenNext(es: Run, i: nat, u: ByteString, thr: nat -> nat)
    requires i < |es|
    ensures SeenBefore(es, i + 1, u, thr) <==> SeenBefore(es, i, u, thr) || (User(es[i]) == u && Time(es[i]) < thr(i))
  {
    hide User, Time;
  }

  lemma {:induction false} PruneKeepsFrom(es: Run, i: nat, st: PruneState, thr: nat -> nat, drop: bool, j: nat)
    requires Sorted(es) && Encoded(es) && StateAt(es, i, st, thr) && i <= j < |es|
    ensures Find(Prune(es, i, st, thr, drop), es[j].key) == if KeepAt(es, j, thr, drop) then Some(es[j].val) else None
    decreases |es| - i
  {
    hide Less, Encoded, StateAt, KeepAt, PruneStep;
    KeysOrdered();
    var (st', keep) := PruneStep(st, es[i], thr(i), drop);
    StateStep(es, i, st, thr, drop);
    var rest := Prune(es, i + 1, st', thr, drop);
    assert ([es[i]] + rest)[1..] == rest;
    if i < j {
      PruneKeepsFrom(es, i + 1, st', thr, drop, j);
    } else {
      PruneMembers(es, i + 1, st', thr, drop);
      FindNone(rest, es[i].key);
      forall m | 0 <= m < |rest| ensures rest[m].key != es[i].key {
        assert rest[m] in es[i + 1..];
      }
    }
  }

  /** Pruning decides entry by entry, by what came before it under the same user key. */
  lemma PruneKeeps(es: Run, thr: nat -> nat, drop: bool, k: Key)
    requires Sorted(es) && Encoded(es)
    ensures Find(es, k).None? ==> Find(Prune(es, 0, PRUNE_START, thr, drop), k).None?
    ensures forall j :: 0 <= j < |es| && es[j].key == k ==>
              Find(Prune(es, 0, PRUNE_START, thr, drop), k) == if KeepAt(es, j, thr, drop) then Some(es[j].val) else None
  {
    hide Less, Encoded, KeepAt, Prune;
    var out := Prune(es, 0, PRUNE_START, thr, drop);
    PruneMembers(es, 0, PRUNE_START, thr, drop);
    FindNone(es, k);
    FindNone(out, k);
    forall j | 0 <= j < |es| && es[j].key == k
      ensures Find(out, k) == if KeepAt(es, j, thr, drop) then Some(es[j].val) else None
    {
      PruneKeepsFrom(es, 0, PRUNE_START, thr, drop, j);
    }
    if Find(out, k).Some? {
      var m := FindSome(out, k);
      assert out[m] in es[0..];
      var j := IndexOf(es, out[m]);
    }
  }

  // ---- pruning a run that lies between two others

  function RunLookup(es: Run): Lookup { k => Find(es, k) }

  function Layered(up: Lookup, mid: Lookup, low: Lookup): Lookup { k => Or(up(k), Or(mid(k), low(k))) }

  function Pruned(es: Run, thr: nat -> nat, drop: bool): Run {
    Prune(es, 0, PRUNE_START, thr, drop)
  }

  /** The entries that are not below the threshold read at them: what pruning never touches. */
  function Above(es: Run, thr: nat -> nat): Run {
    if es == [] then []
    else
      var n: nat := |es| - 1;
      Above(es[..n], thr) + if Time(es[n]) >= thr(n) then [es[n]] else []
  }

  lemma {:induction false} AboveFind(es: Run, thr: nat -> nat, k: Key)
    requires Sorted(es)
    ensures Find(es, k).None? ==> Find(Above(es, thr), k).None?
    ensures forall j :: 0 <= j < |es| && es[j].key == k ==>
              Find(Above(es, thr), k) == if Time(es[j]) >= thr(j) then Some(es[j].val) else None
  {
    hide Less, Time;
    if es != [] {
      var n: nat := |es| - 1;
      var front, last := es[..n], es[n];
      assert es == front + [last];
      AboveFind(front, thr, k);
      FindConcat(front, [last], k);
      FindConcat(Above(front, thr), if Time(last) >= thr(n) then [last] else [], k);
      OneFind(last, k);
      if last.key == k {
        LastIsNew(es);
        FindNone(front, k);
      }
    }
  }

  lemma OneFind(e: KV, k: Key)
    ensures Find([e], k) == (if e.key == k then Some(e.val) else None) && Find([], k) == None
  {
  }

  lemma LastIsNew(es: Run)
    requires Sorted(es) && es != []
    ensures Find(es[..|es| - 1], es[|es| - 1].key).None?
  {
    hide Less;
    KeysOrdered();
    FindNone(es[..|es| - 1], es[|es| - 1].key);
  }

  /** The tombstone at i is dropped although it is the version some snapshots see. */
  ghost predicate TombstoneDropped(es: Run, i: nat, thr: nat -> nat, drop: bool) {
    FirstOld(es, i, thr) && es[i].val.None? && drop
  }

  lemma FindVersion(es: Run, u: ByteString, s: nat) returns (j: nat)
    requires s < U64 && Find(es, EncodeKey(u, s)).Some?
    ensures j < |es| && es[j].key == EncodeKey(u, s) && User(es[j]) == u && Time(es[j]) == s
  {
    hide EncodeKey, DecodeKey;
    j := FindSome(es, EncodeKey(u, s));
    DecodeEncode(u, s);
  }

  lemma {:induction false} FirstOldExists(es: Run, thr: nat -> nat, j: nat) returns (i: nat)
    requires j < |es| && Time(es[j]) < thr(j)
    ensures i <= j && User(es[i]) == User(es[j]) && FirstOld(es, i, thr)
  {
    hide User, Time;
    if SeenBefore(es, j, User(es[j]), thr) {
      var m :| 0 <= m < j && m < |es| && User(es[m]) == User(es[j]) && Time(es[m]) < thr(m);
      i := FirstOldExists(es, thr, m);
    } else {
      i := j;
    }
  }

  /** Versions newer than the first old one are all kept. */
  lemma NewerKept(es: Run, thr: nat -> nat, drop: bool, i: nat, u: ByteString, s: nat)
    requires Sorted(es) && Encoded(es) && FirstOld(es, i, thr) && User(es[i]) == u && Time(es[i]) < s < U64
    ensures Find(Pruned(es, thr, drop), EncodeKey(u, s)) == Find(es, EncodeKey(u, s))
  {
    hide EncodeKey, User, Time, Prune, Sorted, Encoded, Find;
    var k := EncodeKey(u, s);
    PruneKeeps(es, thr, drop, k);
    if Find(es, k).Some? {
      var j := FindVersion(es, u, s);
      FindAt(es, j);
      if i < j { VersionsTogether(es, i, j); }
      assert j < i;
    }
  }

  lemma FirstOldFate(es: Run, thr: nat -> nat, drop: bool, i: nat)
    requires Sorted(es) && Encoded(es) && FirstOld(es, i, thr)
    ensures Find(es, es[i].key) == Some(es[i].val)
    ensures Find(Pruned(es, thr, drop), es[i].key) == if es[i].val.None? && drop then None else Some(es[i].val)
  {
    hide User, Time, Prune, Sorted, Encoded, Find;
    PruneKeeps(es, thr, drop, es[i].key);
    FindAt(es, i);
  }

  /** Once a tombstone is dropped, only what is above its own threshold is left of the versions below it. */
  lemma OlderDropped(es: Run, thr: nat -> nat, drop: bool, i: nat, u: ByteString, s: nat)
    requires Sorted(es) && Encoded(es) && TombstoneDropped(es, i, thr, drop) && User(es[i]) == u && s <= Time(es[i])
    ensures Find(Pruned(es, thr, drop), EncodeKey(u, s)) == Find(Above(es, thr), EncodeKey(u, s))
  {
    hide EncodeKey, User, Time, Prune, Sorted, Encoded, Find, Above;
    var k := EncodeKey(u, s);
    PruneKeeps(es, thr, drop, k);
    AboveFind(es, thr, k);
    if Find(es, k).Some? {
      var j := FindVersion(es, u, s);
      if j < i { VersionsTogether(es, j, i); assert false; }
      if i < j { assert SeenBefore(es, j, User(es[j]), thr); }
    }
  }

  lemma KeyOf(es: Run, i: nat)
    requires i < |es| && Encoded(es)
    ensures es[i].key == EncodeKey(User(es[i]), Time(es[i]))
  {
    hide DecodeKey, EncodeKey;
    EncodeDecode(es[i].key);
  }

  /** Without an old version nothing of u is pruned. */
  lemma NoOldKept(es: Run, thr: nat -> nat, drop: bool, u: ByteString, s: nat)
    requires Sorted(es) && Encoded(es) && s < U64
    requires forall i :: 0 <= i < |es| && User(es[i]) == u ==> !FirstOld(es, i, thr)
    ensures Find(Pruned(es, thr, drop), EncodeKey(u, s)) == Find(es, EncodeKey(u, s))
  {
    hide EncodeKey, User, Time, Prune, Sorted, Encoded, Find;
    var k := EncodeKey(u, s);
    PruneKeeps(es, thr, drop, k);
    if Find(es, k).Some? {
      var j := FindVersion(es, u, s);
      FindAt(es, j);
      if Time(es[j]) < thr(j) {
        var i := FirstOldExists(es, thr, j);
        assert false;
      }
    }
  }

  /** Snapshots at or above every threshold see the same as before, if no tombstone of u was dropped. */
  lemma PrunedReadSame(up: Lookup, es: Run, low: Lookup, thr: nat -> nat, drop: bool, u: ByteString, t: nat)
    requires Sorted(es) && Encoded(es) && t < U64 && forall i :: 0 <= i < |es| ==> thr(i) <= t
    requires forall i :: 0 <= i < |es| && User(es[i]) == u ==> !TombstoneDropped(es, i, thr, drop)
    ensures SnapRead(Layered(up, RunLookup(Pruned(es, thr, drop)), low), u, t)
            == SnapRead(Layered(up, RunLookup(es), low), u, t)
  {
    hide EncodeKey, User, Time, Pruned, Sorted, Encoded, Find, FirstOld;
    var out := Pruned(es, thr, drop);
    var g, h := Layered(up, RunLookup(es), low), Layered(up, RunLookup(out), low);
    if i :| 0 <= i < |es| && User(es[i]) == u && FirstOld(es, i, thr) {
      var d := Time(es[i]);
      FirstOldOld(es, thr, i);
      FirstOldFate(es, thr, drop, i);
      KeyOf(es, i);
      assert RunLookup(es)(EncodeKey(u, d)) == Some(es[i].val);
      assert g(EncodeKey(u, d)) == Or(up(EncodeKey(u, d)), Or(RunLookup(es)(EncodeKey(u, d)), low(EncodeKey(u, d))));
      forall s | d <= s <= t ensures g(EncodeKey(u, s)) == h(EncodeKey(u, s)) {
        if s > d { NewerKept(es, thr, drop, i, u, s); }
      }
      ReadsAgreeTo(g, h, u, t, d);
    } else {
      forall s | 0 <= s <= t ensures g(EncodeKey(u, s)) == h(EncodeKey(u, s)) {
        NoOldKept(es, thr, drop, u, s);
      }
      ReadsAgreeTo(g, h, u, t, 0);
    }
  }

  lemma FirstOldOld(es: Run, thr: nat -> nat, i: nat)
    requires FirstOld(es, i, thr)
    ensures i < |es| && Time(es[i]) < thr(i)
  {
  }

  /** The tombstone at i is what a snapshot at t sees of its user key. */
  ghost predicate Decides(up: Lookup, es: Run, low: Lookup, i: nat, t: nat)
    requires i < |es| && t < U64
  {
    NoVersionIn(Layered(up, RunLookup(es), low), User(es[i]), Time(es[i]), t) && up(es[i].key).None?
  }

  /**
   Dropping a tombstone changes exactly the snapshots that saw it, and those now see what lies
   outside the compaction or above the threshold read at it.
   */
  lemma PrunedReadDropped(up: Lookup, es: Run, low: Lookup, thr: nat -> nat, drop: bool, i: nat, t: nat)
    requires Sorted(es) && Encoded(es) && t < U64 && forall i :: 0 <= i < |es| ==> thr(i) <= t
    requires TombstoneDropped(es, i, thr, drop)
    ensures var g := Layered(up, RunLookup(es), low);
            var h := Layered(up, RunLookup(Pruned(es, thr, drop)), low);
            var u := User(es[i]);
            var left := Layered(up, RunLookup(Above(es, thr)), low);
            if Decides(up, es, low, i, t) then SnapRead(g, u, t) == None && SnapRead(h, u, t) == SnapRead(left, u, Time(es[i]))
            else SnapRead(h, u, t) == SnapRead(g, u, t)
  {
    hide EncodeKey, User, Time, Pruned, Sorted, Encoded, Find, FirstOld, Above;
    var out := Pruned(es, thr, drop);
    var g, h := Layered(up, RunLookup(es), low), Layered(up, RunLookup(out), low);
    FirstOldOld(es, thr, i);
    var u, d := User(es[i]), Time(es[i]);
    FirstOldFate(es, thr, drop, i);
    KeyOf(es, i);
    forall s | d < s <= t ensures g(EncodeKey(u, s)) == h(EncodeKey(u, s)) {
      NewerKept(es, thr, drop, i, u, s);
    }
    if NoVersionIn(g, u, d, t) {
      ReadFalls(g, u, t, d);
      ReadFalls(h, u, t, d);
      var left := Layered(up, RunLookup(Above(es, thr)), low);
      forall s | 0 <= s <= d ensures h(EncodeKey(u, s)) == left(EncodeKey(u, s)) {
        OlderDropped(es, thr, drop, i, u, s);
      }
      ReadsAgreeTo(h, left, u, d, 0);
    } else {
      ReadsAgreeAbove(g, h, u, t, d);
    }
  }

  // ---- the whole tree

  function TreeLookup(levels: seq<seq<Table>>): Lookup { k => TreeFind(levels, k) }

  function UpperLookup(levels: seq<seq<Table>>, job: Job): Lookup
    requires |levels| == MAX_LEVELS && job.level < MAX_LEVELS - 1
  {
    k => Upper(levels, job, k)
  }

  function LowerLookup(levels: seq<seq<Table>>, job: Job): Lookup
    requires |levels| == MAX_LEVELS && job.level < MAX_LEVELS - 1
  {
    k => Lower(levels, job, k)
  }

  function Merged(job: Job): Run {
    Merge(Runs(job.in0 + job.in1))
  }

  /** The tree as the compaction sees it: where the first level holds a full key twice, the oldest value counts. */
  function MergedLookup(levels: seq<seq<Table>>, job: Job): Lookup
    requires |levels| == MAX_LEVELS && job.level < MAX_LEVELS - 1
  {
    Layered(UpperLookup(levels, job), RunLookup(Merged(job)), LowerLookup(levels, job))
  }

  /** Files of the first level that hold the same version of u, not newer than t, hold the same value for it. */
  ghost predicate FirstLevelAgrees(levels: seq<seq<Table>>, job: Job, u: ByteString, t: nat)
    requires |levels| == MAX_LEVELS && t < U64
  {
    job.level == 0 ==> forall s :: 0 <= s <= t ==> NewestFind(levels[0], EncodeKey(u, s)) == TablesFind(levels[0], EncodeKey(u, s))
  }

  lemma TreeLayers(levels: seq<seq<Table>>, job: Job, k: Key)
    requires LayoutOk(levels) && JobOk(levels, job) && NumsOk(levels) && |levels| == MAX_LEVELS
    requires job.level == 0 ==> NewestFind(levels[0], k) == TablesFind(levels[0], k)
    ensures job.level < MAX_LEVELS - 1
    ensures TreeFind(levels, k) == MergedLookup(levels, job)(k)
  {
    hide LayoutOk, JobOk, NumsOk, TablesFind, NewestFind, TreeFind, Upper, Lower, Merge, AllSorted, Find;
    JobLevel(levels, job);
    ReadBefore(levels, job, k);
    InputsSorted(levels, job);
    MergeLookup(Runs(job.in0 + job.in1), k);
    RunsHit(job.in0 + job.in1, k);
    TablesFindConcat(job.in0, job.in1, k);
    if job.level == 0 { WholeFirst(levels, job); }
  }

  lemma TreeLayersAfter(levels: seq<seq<Table>>, job: Job, thr: nat -> nat, drop: bool, target: nat, num: nat,
                        sizeOf: Run -> nat, k: Key)
    requires LayoutOk(levels) && JobOk(levels, job) && NumsOk(levels)
    ensures |levels| == MAX_LEVELS && job.level < MAX_LEVELS - 1
    ensures TreeFind(Compacted(levels, job, Added(job.in0 + job.in1, thr, drop, target, num, sizeOf)), k)
            == Layered(UpperLookup(levels, job), RunLookup(Pruned(Merged(job), thr, drop)), LowerLookup(levels, job))(k)
  {
    hide LayoutOk, JobOk, NumsOk, TablesFind, TreeFind, Upper, Lower, Merge, AllSorted, Added, IsKeyOf, LevelOk,
      Compacted, Prune, Find;
    InputsSorted(levels, job);
    AddedFacts(job.in0 + job.in1, thr, drop, target, num, sizeOf);
    ReadAfter(levels, job, Added(job.in0 + job.in1, thr, drop, target, num, sizeOf), k);
  }

  /**
   A dropped tombstone of u that snapshot t saw lets an older version through: one in a table the
   compaction did not read, or one in the inputs that is not below the threshold read at it.
   */
  ghost predicate Resurfaces(levels: seq<seq<Table>>, job: Job, thr: nat -> nat, drop: bool, u: ByteString, t: nat, i: nat)
    requires |levels| == MAX_LEVELS && job.level < MAX_LEVELS - 1 && t < U64
  {
    var es := Merged(job);
    var up, low := UpperLookup(levels, job), LowerLookup(levels, job);
    && i < |es| && User(es[i]) == u && TombstoneDropped(es, i, thr, drop) && Decides(up, es, low, i, t)
    && SnapRead(Layered(up, RunLookup(Above(es, thr)), low), u, Time(es[i])).Some?
  }

  lemma OneFirstOld(es: Run, i: nat, j: nat, thr: nat -> nat)
    requires FirstOld(es, i, thr) && FirstOld(es, j, thr) && User(es[i]) == User(es[j])
    ensures i == j
  {
  }

  /**
   Pruning and snapshots. For every snapshot at or above all thresholds a compaction read, in whatever
   order they came, it sees of a user key after the compaction what the compaction saw, exactly if no
   dropped tombstone lets an older version resurface. If the first level agrees on the versions of the
   key, that is also what the snapshot saw before.
   */
  lemma SnapshotReadsKept(levels: seq<seq<Table>>, job: Job, thr: nat -> nat, drop: bool, target: nat, num: nat,
                          sizeOf: Run -> nat, u: ByteString, t: nat)
    requires LayoutOk(levels) && JobOk(levels, job) && NumsOk(levels)
    requires Encoded(Merged(job)) && t < U64
    requires forall i :: 0 <= i < |Merged(job)| ==> thr(i) <= t
    ensures |levels| == MAX_LEVELS && job.level < MAX_LEVELS - 1
    ensures var levels' := Compacted(levels, job, Added(job.in0 + job.in1, thr, drop, target, num, sizeOf));
            && (SnapRead(TreeLookup(levels'), u, t) == SnapRead(MergedLookup(levels, job), u, t)
                <==> !exists i: nat :: Resurfaces(levels, job, thr, drop, u, t, i))
            && (FirstLevelAgrees(levels, job, u, t) ==>
                  SnapRead(MergedLookup(levels, job), u, t) == SnapRead(TreeLookup(levels), u, t))
  {
    hide LayoutOk, JobOk, NumsOk, Added, Compacted, Merge, FirstLevelAgrees, EncodeKey, TreeFind, User, Time, Encoded, Above,
      FirstOld, SnapRead, NoVersionIn, Pruned, Sorted, AllSorted, Upper, Lower;
    JobLevel(levels, job);
    var levels' := Compacted(levels, job, Added(job.in0 + job.in1, thr, drop, target, num, sizeOf));
    var es := Merged(job);
    var up, low := UpperLookup(levels, job), LowerLookup(levels, job);
    InputsSorted(levels, job);
    MergeSorted(Runs(job.in0 + job.in1));
    TreeReadsAfter(levels, levels', job, thr, drop, target, num, sizeOf, u, t);
    if FirstLevelAgrees(levels, job, u, t) { TreeReadsBefore(levels, job, u, t); }
    if i :| 0 <= i < |es| && User(es[i]) == u && TombstoneDropped(es, i, thr, drop) {
      PrunedReadDropped(up, es, low, thr, drop, i, t);
      forall j: nat | Resurfaces(levels, job, thr, drop, u, t, j) ensures j == i { OneFirstOld(es, i, j, thr); }
      assert Resurfaces(levels, job, thr, drop, u, t, i)
             <==> Decides(up, es, low, i, t) && SnapRead(Layered(up, RunLookup(Above(es, thr)), low), u, Time(es[i])).Some?;
    } else {
      PrunedReadSame(up, es, low, thr, drop, u, t);
    }
  }

  lemma TreeReadsBefore(levels: seq<seq<Table>>, job: Job, u: ByteString, t: nat)
    requires LayoutOk(levels) && JobOk(levels, job) && NumsOk(levels) && |levels| == MAX_LEVELS && t < U64
    requires FirstLevelAgrees(levels, job, u, t)
    ensures job.level < MAX_LEVELS - 1
    ensures SnapRead(TreeLookup(levels), u, t) == SnapRead(MergedLookup(levels, job), u, t)
  {
    hide LayoutOk, JobOk, NumsOk, MergedLookup, EncodeKey, TreeFind, SnapRead, NewestFind, TablesFind;
    JobLevel(levels, job);
    var g := MergedLookup(levels, job);
    forall s | 0 <= s <= t ensures TreeLookup(levels)(EncodeKey(u, s)) == g(EncodeKey(u, s)) {
      TreeLayers(levels, job, EncodeKey(u, s));
    }
    ReadsAgreeTo(TreeLookup(levels), g, u, t, 0);
  }

  lemma TreeReadsAfter(levels: seq<seq<Table>>, levels': seq<seq<Table>>, job: Job, thr: nat -> nat, drop: bool, target: nat,
                       num: nat, sizeOf: Run -> nat, u: ByteString, t: nat)
    requires LayoutOk(levels) && JobOk(levels, job) && NumsOk(levels) && t < U64
    requires levels' == Compacted(levels, job, Added(job.in0 + job.in1, thr, drop, target, num, sizeOf))
    ensures |levels| == MAX_LEVELS && job.level < MAX_LEVELS - 1
    ensures var up, low := UpperLookup(levels, job), LowerLookup(levels, job);
            SnapRead(TreeLookup(levels'), u, t) == SnapRead(Layered(up, RunLookup(Pruned(Merged(job), thr, drop)), low), u, t)
  {
    hide LayoutOk, JobOk, NumsOk, Added, Compacted, Merged, EncodeKey, TreeFind, SnapRead, Pruned, Upper, Lower, Layered;
    JobLevel(levels, job);
    var up, low := UpperLookup(levels, job), LowerLookup(levels, job);
    var h := Layered(up, RunLookup(Pruned(Merged(job), thr, drop)), low);
    forall s | 0 <= s <= t ensures TreeLookup(levels')(EncodeKey(u, s)) == h(EncodeKey(u, s)) {
      TreeLayersAfter(levels, job, thr, drop, target, num, sizeOf, EncodeKey(u, s));
    }
    ReadsAgreeTo(TreeLookup(levels'), h, u, t, 0);
  }

  /** Where no tombstone may be dropped, every threshold order is harmless. */
  lemma KeepingTombstonesIsSafe(levels: seq<seq<Table>>, job: Job, thr: nat -> nat, target: nat, num: nat,
                                sizeOf: Run -> nat, u: ByteString, t: nat)
    requires LayoutOk(levels) && JobOk(levels, job) && NumsOk(levels)
    requires Encoded(Merged(job)) && t < U64
    requires forall i :: 0 <= i < |Merged(job)| ==> thr(i) <= t
    ensures |levels| == MAX_LEVELS && job.level < MAX_LEVELS - 1
    ensures var levels' := Compacted(levels, job, Added(job.in0 + job.in1, thr, false, target, num, sizeOf));
            && SnapRead(TreeLookup(levels'), u, t) == SnapRead(MergedLookup(levels, job), u, t)
            && (FirstLevelAgrees(levels, job, u, t) ==> SnapRead(TreeLookup(levels'), u, t) == SnapRead(TreeLookup(levels), u, t))
  {
    hide LayoutOk, JobOk, NumsOk, Added, Compacted, Merged, FirstLevelAgrees, EncodeKey, TreeFind, Encoded, SnapRead,
      UpperLookup, LowerLookup, MergedLookup;
    SnapshotReadsKept(levels, job, thr, false, target, num, sizeOf, u, t);
  }
}
