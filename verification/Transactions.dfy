/**
 Transactions: snapshot timestamps, first-committer-wins conflict detection and the oldest active
 snapshot (internal/mvcc/txn.go). A timestamp drawn from the clock exceeds every one drawn before,
 which is what HybridClock proves of it.
 */
module Transactions {
  import opened Bytes
  import opened HybridClock

  type UserKeys = set<ByteString>

  /** A successful commit. */
  datatype Commit = Commit(snapshot: nat, stamp: nat, writes: UserKeys)

  /**
   now is the last timestamp drawn, pending the snapshots that Begin has drawn and not yet registered.
   Beside the manager's own maps: the snapshots handed out so far, the commits so far, and the last
   answer of MinActiveSnapshot.
   */
  datatype Txns = Txns(now: nat, pending: set<nat>, active: set<nat>, latest: map<ByteString, nat>, snapshots: set<nat>,
                       log: seq<Commit>, floor: nat)

  const TXNS_START := Txns(0, {}, {}, map[], {}, [], 0)

  /** Some key was committed by another transaction after the snapshot. */
  predicate Conflict(latest: map<ByteString, nat>, writes: UserKeys, snapshot: nat) {
    exists k :: k in writes && k in latest && latest[k] > snapshot
  }

  function SetAll(latest: map<ByteString, nat>, writes: UserKeys, ts: nat): map<ByteString, nat> {
    map k | k in latest.Keys + writes :: if k in writes then ts else latest[k]
  }

  /** The least of a timestamp and the active snapshots. */
  ghost predicate IsOldest(active: set<nat>, ts: nat, m: nat) {
    (m == ts || m in active) && m <= ts && forall a :: a in active ==> m <= a
  }

  /** Begin is two steps: it reads the clock before it takes the lock. */
  datatype TxnStep =
    | Draw(ts: nat)
    | Register(ts: nat)
    | CommitStep(snapshot: nat, writes: UserKeys, ts: nat)
    | Abort(snapshot: nat)
    | MinActive(ts: nat, result: nat)

  /** Timestamps are fresh, and a transaction's snapshot was drawn earlier. */
  ghost predicate CanStepTxns(s: Txns, step: TxnStep) {
    match step
    case Draw(ts) => ts > s.now
    case Register(ts) => ts in s.pending
    case CommitStep(snapshot, writes, ts) => snapshot in s.snapshots && ts > s.now
    case Abort(snapshot) => snapshot in s.snapshots
    case MinActive(ts, result) => ts > s.now && IsOldest(s.active, ts, result)
  }

  function StepTxns(s: Txns, step: TxnStep): Txns {
    match step
    case Draw(ts) => s.(now := ts, pending := s.pending + {ts})
    case Register(ts) =>
      s.(pending := s.pending - {ts}, active := s.active + {ts}, snapshots := s.snapshots + {ts})
    case CommitStep(snapshot, writes, ts) =>
      if Conflict(s.latest, writes, snapshot) then s.(active := s.active - {snapshot})
      else s.(now := ts, active := s.active - {snapshot}, latest := SetAll(s.latest, writes, ts),
              log := s.log + [Commit(snapshot, ts, writes)])
    case Abort(snapshot) => s.(active := s.active - {snapshot})
    case MinActive(ts, result) => s.(now := ts, floor := result)
  }

  ghost predicate IsTxnRun(s: Txns, steps: seq<TxnStep>)
    decreases |steps|
  {
    steps == [] || (CanStepTxns(s, steps[0]) && IsTxnRun(StepTxns(s, steps[0]), steps[1..]))
  }

  function RunTxns(s: Txns, steps: seq<TxnStep>): Txns
    decreases |steps|
  {
    if steps == [] then s else RunTxns(StepTxns(s, steps[0]), steps[1..])
  }

  /** The intervals from snapshot to commit share a point. */
  predicate Overlap(a: Commit, b: Commit) {
    a.snapshot <= b.stamp && b.snapshot <= a.stamp
  }

  ghost predicate Isolated(log: seq<Commit>) {
    forall i, j :: 0 <= i < j < |log| && Overlap(log[i], log[j]) ==> log[i].writes !! log[j].writes
  }

  /** The latest commit of a key is one that wrote it, and at least every other that did. */
  ghost predicate LatestOk(s: Txns) {
    && (forall i, k :: 0 <= i < |s.log| && k in s.log[i].writes ==> k in s.latest && s.log[i].stamp <= s.latest[k])
    && (forall k :: k in s.latest ==> exists i :: 0 <= i < |s.log| && k in s.log[i].writes && s.log[i].stamp == s.latest[k])
  }

  /** An earlier commit, after the snapshot, wrote one of the keys. */
  ghost predicate Clashes(log: seq<Commit>, writes: UserKeys, snapshot: nat) {
    exists i, k :: 0 <= i < |log| && log[i].stamp > snapshot && k in log[i].writes && k in writes
  }

  /** The manager's map of latest commits finds exactly the clashes with the commits so far. */
  lemma ConflictIsClash(s: Txns, writes: UserKeys, snapshot: nat)
    requires TxnsOk(s)
    ensures Conflict(s.latest, writes, snapshot) <==> Clashes(s.log, writes, snapshot)
  {
    if Conflict(s.latest, writes, snapshot) {
      var k :| k in writes && k in s.latest && s.latest[k] > snapshot;
      var i :| 0 <= i < |s.log| && k in s.log[i].writes && s.log[i].stamp == s.latest[k];
    }
    if Clashes(s.log, writes, snapshot) {
      var i, k :| 0 <= i < |s.log| && s.log[i].stamp > snapshot && k in s.log[i].writes && k in writes;
      assert k in s.latest && s.log[i].stamp <= s.latest[k];
    }
  }

  /** Commits come after their snapshots, and no commit shares its stamp with a snapshot. */
  ghost predicate StampsOk(s: Txns) {
    && (forall t :: t in s.snapshots + s.pending ==> t <= s.now) && s.active <= s.snapshots && s.floor <= s.now
    && (forall i :: 0 <= i < |s.log| ==>
          s.log[i].snapshot < s.log[i].stamp <= s.now && s.log[i].stamp !in s.snapshots + s.pending)
  }

  ghost predicate TxnsOk(s: Txns) {
    StampsOk(s) && LatestOk(s) && Isolated(s.log)
  }

  /** The commit that goes through shares no key with a commit its interval overlaps. */
  lemma NewCommitIsolated(s: Txns, snapshot: nat, writes: UserKeys, ts: nat, i: nat)
    requires StampsOk(s) && LatestOk(s) && snapshot in s.snapshots && !Conflict(s.latest, writes, snapshot) && i < |s.log|
    requires Overlap(s.log[i], Commit(snapshot, ts, writes))
    ensures s.log[i].writes !! writes
  {
    forall k | k in s.log[i].writes ensures k !in writes {
      if k in writes { assert false; }
    }
  }

  lemma CommitKeeps(s: Txns, snapshot: nat, writes: UserKeys, ts: nat)
    requires TxnsOk(s) && CanStepTxns(s, CommitStep(snapshot, writes, ts))
    ensures TxnsOk(StepTxns(s, CommitStep(snapshot, writes, ts)))
  {
    hide Overlap;
    var s' := StepTxns(s, CommitStep(snapshot, writes, ts));
    if !Conflict(s.latest, writes, snapshot) {
      forall i, j | 0 <= i < j < |s'.log| && Overlap(s'.log[i], s'.log[j]) ensures s'.log[i].writes !! s'.log[j].writes {
        if j == |s.log| { NewCommitIsolated(s, snapshot, writes, ts, i); }
      }
      assert StampsOk(s');
      CommitLatest(s, snapshot, writes, ts);
    }
  }

  lemma CommitLatest(s: Txns, snapshot: nat, writes: UserKeys, ts: nat)
    requires StampsOk(s) && LatestOk(s) && ts > s.now && !Conflict(s.latest, writes, snapshot)
    ensures LatestOk(StepTxns(s, CommitStep(snapshot, writes, ts)))
  {
    hide Conflict;
    var s' := StepTxns(s, CommitStep(snapshot, writes, ts));
    var n := |s.log|;
    forall k | k in s'.latest
      ensures exists i :: 0 <= i < |s'.log| && k in s'.log[i].writes && s'.log[i].stamp == s'.latest[k]
    {
      if k in writes {
        assert k in s'.log[n].writes && s'.log[n].stamp == s'.latest[k];
      } else {
        var i :| 0 <= i < n && k in s.log[i].writes && s.log[i].stamp == s.latest[k];
        assert s'.log[i] == s.log[i];
      }
    }
  }

  lemma StepKeeps(s: Txns, step: TxnStep)
    requires TxnsOk(s) && CanStepTxns(s, step)
    ensures TxnsOk(StepTxns(s, step))
  {
    hide Isolated, LatestOk, Overlap;
    if step.CommitStep? {
      CommitKeeps(s, step.snapshot, step.writes, step.ts);
    } else {
      LatestSame(s, StepTxns(s, step));
    }
  }

  lemma LatestSame(s: Txns, s': Txns)
    requires LatestOk(s) && s'.log == s.log && s'.latest == s.latest
    ensures LatestOk(s')
  {
  }

  lemma {:induction false} RunKeeps(s: Txns, steps: seq<TxnStep>)
    requires TxnsOk(s) && IsTxnRun(s, steps)
    ensures TxnsOk(RunTxns(s, steps))
    decreases |steps|
  {
    hide TxnsOk, StepTxns, CanStepTxns;
    if steps != [] {
      StepKeeps(s, steps[0]);
      RunKeeps(StepTxns(s, steps[0]), steps[1..]);
    }
  }

  /** Snapshot isolation: in every interleaving, commits whose intervals overlap write disjoint keys. */
  lemma SnapshotIsolation(steps: seq<TxnStep>, i: nat, j: nat)
    requires IsTxnRun(TXNS_START, steps)
    requires i < |RunTxns(TXNS_START, steps).log| && j < |RunTxns(TXNS_START, steps).log| && i != j
    ensures var log := RunTxns(TXNS_START, steps).log; Overlap(log[i], log[j]) ==> log[i].writes !! log[j].writes
  {
    hide IsTxnRun, RunTxns;
    RunKeeps(TXNS_START, steps);
    var log := RunTxns(TXNS_START, steps).log;
    if Overlap(log[i], log[j]) {
      if i < j { assert Overlap(log[i], log[j]); } else { assert Overlap(log[j], log[i]); }
    }
  }

  /**
   First committer wins, both ways: in every reachable state a commit goes through if and only if no
   earlier commit with a stamp above its snapshot wrote one of its keys.
   */
  lemma FirstCommitterWins(steps: seq<TxnStep>, snapshot: nat, writes: UserKeys, ts: nat)
    requires IsTxnRun(TXNS_START, steps) && CanStepTxns(RunTxns(TXNS_START, steps), CommitStep(snapshot, writes, ts))
    ensures var s := RunTxns(TXNS_START, steps);
            StepTxns(s, CommitStep(snapshot, writes, ts)).log
            == if Clashes(s.log, writes, snapshot) then s.log else s.log + [Commit(snapshot, ts, writes)]
  {
    hide IsTxnRun, RunTxns, Conflict, Clashes;
    RunKeeps(TXNS_START, steps);
    ConflictIsClash(RunTxns(TXNS_START, steps), writes, snapshot);
  }

  // ---- which snapshots are active

  lemma {:induction false} RunSnoc(s: Txns, steps: seq<TxnStep>, step: TxnStep)
    ensures RunTxns(s, steps + [step]) == StepTxns(RunTxns(s, steps), step)
    decreases |steps|
  {
    hide StepTxns;
    if steps == [] {
      assert steps + [step] == [step] && [step][1..] == [];
      assert RunTxns(StepTxns(s, step), []) == StepTxns(s, step);
    } else {
      RunSnoc(StepTxns(s, steps[0]), steps[1..], step);
      assert (steps + [step])[1..] == steps[1..] + [step];
    }
  }

  predicate Ends(step: TxnStep, t: nat) {
    (step.CommitStep? || step.Abort?) && step.snapshot == t
  }

  /** The snapshot was registered and its transaction has not ended since. */
  predicate Running(steps: seq<TxnStep>, t: nat) {
    steps != [] && var last := steps[|steps| - 1];
                   last == Register(t) || (!Ends(last, t) && Running(steps[..|steps| - 1], t))
  }

  /** Exactly the snapshots of running transactions are active. */
  lemma {:induction false} ActiveAreRunning(steps: seq<TxnStep>, t: nat)
    ensures t in RunTxns(TXNS_START, steps).active <==> Running(steps, t)
  {
    hide Conflict;
    if steps != [] {
      var front, last := steps[..|steps| - 1], steps[|steps| - 1];
      ActiveAreRunning(front, t);
      RunSnoc(TXNS_START, front, last);
      assert steps == front + [last];
    }
  }

  // ---- the oldest active snapshot

  /** m is at or below the last answer, every active snapshot and every one still to be registered. */
  ghost predicate Below(s: Txns, m: nat) {
    m <= s.floor && m <= s.now && (forall a :: a in s.active ==> m <= a) && forall p :: p in s.pending ==> m <= p
  }

  lemma {:induction false} BelowStays(s: Txns, steps: seq<TxnStep>, m: nat)
    requires IsTxnRun(s, steps) && Below(s, m)
    ensures Below(RunTxns(s, steps), m)
    decreases |steps|
  {
    hide Conflict, SetAll;
    if steps != [] { BelowStays(StepTxns(s, steps[0]), steps[1..], m); }
  }

  /** In every continuation m bounds all active snapshots and the last answer. */
  ghost predicate BoundsAll(s: Txns, m: nat) {
    forall more :: IsTxnRun(s, more) ==> m <= RunTxns(s, more).floor && forall a :: a in RunTxns(s, more).active ==> m <= a
  }

  /** What becomes of a snapshot that was drawn before an answer and is registered after it. */
  lemma LateRegister(s: Txns, p: nat)
    requires p in s.pending
    ensures IsTxnRun(s, [Register(p)]) && p in RunTxns(s, [Register(p)]).active
  {
    var step := Register(p);
    assert [step][1..] == [];
    assert IsTxnRun(StepTxns(s, step), []) && RunTxns(StepTxns(s, step), []) == StepTxns(s, step);
  }

  /**
   An answer of MinActiveSnapshot bounds every snapshot that is ever active afterwards and every later
   answer if and only if no snapshot drawn before it and not yet registered is below it.
   */
  lemma AnswerIsFloor(s: Txns, ts: nat, m: nat)
    requires CanStepTxns(s, MinActive(ts, m))
    ensures BoundsAll(StepTxns(s, MinActive(ts, m)), m) <==> forall p :: p in s.pending ==> m <= p
  {
    hide IsTxnRun, RunTxns;
    var s' := StepTxns(s, MinActive(ts, m));
    if forall p :: p in s.pending ==> m <= p {
      forall more | IsTxnRun(s', more) ensures Below(RunTxns(s', more), m) { BelowStays(s', more, m); }
    } else {
      var p :| p in s.pending && p < m;
      LateRegister(s', p);
    }
  }

  /**
   So where Begin is never interrupted between its two steps, the answers never go down and never
   exceed an active or later snapshot.
   */
  lemma MinActiveIsFloor(s: Txns, ts: nat, m: nat, more: seq<TxnStep>)
    requires CanStepTxns(s, MinActive(ts, m)) && s.pending == {} && IsTxnRun(StepTxns(s, MinActive(ts, m)), more)
    ensures var s' := RunTxns(StepTxns(s, MinActive(ts, m)), more);
            m <= s'.floor && forall a :: a in s'.active ==> m <= a
  {
    hide IsTxnRun, RunTxns;
    AnswerIsFloor(s, ts, m);
  }

  /** Begin draws 1, an answer of 2 is given, 1 is registered, and the next answer is 1. */
  function GapRun(): seq<TxnStep> {
    [Draw(1), MinActive(2, 2), Register(1), MinActive(3, 1)]
  }

  /**
   Begin draws its timestamp before it registers it. A run in which an answer falls in between has a
   snapshot below that answer active afterwards, and a later answer below it.
   */
  lemma BeginGap()
    ensures IsTxnRun(TXNS_START, GapRun())
    ensures RunTxns(TXNS_START, GapRun()[..2]).floor == 2 && RunTxns(TXNS_START, GapRun()).floor == 1
    ensures 1 in RunTxns(TXNS_START, GapRun()).active
  {
    var r := GapRun();
    var s1 := StepTxns(TXNS_START, r[0]);
    var s2 := StepTxns(s1, r[1]);
    var s3 := StepTxns(s2, r[2]);
    var s4 := StepTxns(s3, r[3]);
    assert s1.active == {} && s3.active == {1};
    assert r[1..] == [r[1], r[2], r[3]] && r[1..][1..] == [r[2], r[3]] && r[1..][1..][1..] == [r[3]];
    assert r[1..][1..][1..][1..] == [];
    assert IsTxnRun(s4, []) && RunTxns(s4, []) == s4;
    assert IsTxnRun(s3, [r[3]]) && RunTxns(s3, [r[3]]) == s4;
    assert IsTxnRun(s2, [r[2], r[3]]) && RunTxns(s2, [r[2], r[3]]) == s4;
    assert IsTxnRun(s1, r[1..]) && RunTxns(s1, r[1..]) == s4;
    assert r[..2][1..] == [r[1]] && r[..2][1..][1..] == [];
    assert RunTxns(s2, []) == s2 && RunTxns(s1, [r[1]]) == s2;
  }

  // ---- the manager object

  method FindConflict(latest: map<ByteString, nat>, writes: UserKeys, snapshot: nat) returns (found: bool)
    ensures found == Conflict(latest, writes, snapshot)
  {
    var rest := writes;
    while rest != {}
      invariant rest <= writes
      invariant forall k :: k in writes && k !in rest && k in latest ==> latest[k] <= snapshot
      decreases |rest|
    {
      var key :| key in rest;
      if key in latest && latest[key] > snapshot { return true; }
      rest := rest - {key};
    }
    return false;
  }

  lemma SetNone(latest: map<ByteString, nat>, ts: nat)
    ensures SetAll(latest, {}, ts) == latest
  {
  }

  lemma SetOne(latest: map<ByteString, nat>, done: UserKeys, key: ByteString, ts: nat)
    ensures SetAll(latest, done, ts)[key := ts] == SetAll(latest, done + {key}, ts)
  {
  }

  method RecordAll(latest: map<ByteString, nat>, writes: UserKeys, ts: nat) returns (r: map<ByteString, nat>)
    ensures r == SetAll(latest, writes, ts)
  {
    hide SetAll;
    r := latest;
    var rest := writes;
    SetNone(latest, ts);
    assert writes - rest == {};
    while rest != {}
      invariant rest <= writes && r == SetAll(latest, writes - rest, ts)
      decreases |rest|
    {
      var key :| key in rest;
      SetOne(latest, writes - rest, key, ts);
      assert writes - (rest - {key}) == writes - rest + {key};
      r := r[key := ts];
      rest := rest - {key};
    }
    assert writes - rest == writes;
  }

  class TxnManager {
    const clock: Clock
    var activeTxns: set<nat>
    var latestCommits: map<ByteString, nat>
    ghost var history: Txns

    /** The fields are those of a state the steps can reach; others may have moved the clock on. */
    ghost predicate Valid()
      reads this, clock
    {
      && history.active == activeTxns && history.latest == latestCommits && TxnsOk(history)
      && Within(clock.View()) && history.now <= Stamp(clock.View())
    }

    constructor (c: Clock)
      requires Within(c.View())
      ensures Valid() && clock == c && history == TXNS_START
    {
      hide Stamp, Within;
      clock := c;
      activeTxns, latestCommits := {}, map[];
      history := TXNS_START;
    }

    /** The first half of Begin, outside the lock: a fresh timestamp. */
    method DrawSnapshot(now: int) returns (snapshot: nat)
      modifies clock, this`history
      ensures clock.View() == Tick(old(clock.View()), now) && snapshot == Stamp(clock.View())
      ensures old(Valid()) && Within(clock.View()) ==> Valid() && Took(old(history), Draw(snapshot), history)
    {
      hide Stamp, TxnsOk, Within, Tick;
      ghost var counts := Valid() && Within(Tick(clock.View(), now));
      if counts { ReadAdvances(clock.View(), now); }
      snapshot := clock.Now(now);
      if counts {
        StepKeeps(history, Draw(snapshot));
        history := StepTxns(history, Draw(snapshot));
      }
    }

    /** The second half of Begin, under the lock. */
    method RegisterSnapshot(snapshot: nat)
      modifies this
      ensures activeTxns == old(activeTxns) + {snapshot} && latestCommits == old(latestCommits)
      ensures old(Valid()) && snapshot in old(history).pending ==>
                Valid() && Took(old(history), Register(snapshot), history)
    {
      hide Stamp, TxnsOk, Within;
      activeTxns := activeTxns + {snapshot};
      if old(Valid()) && snapshot in history.pending {
        StepKeeps(history, Register(snapshot));
        history := StepTxns(history, Register(snapshot));
      }
    }

    /** Begin where nothing comes between its halves: registers a fresh snapshot. */
    method Begin(now: int) returns (snapshot: nat)
      modifies this, clock
      ensures clock.View() == Tick(old(clock.View()), now) && snapshot == Stamp(clock.View())
      ensures activeTxns == old(activeTxns) + {snapshot} && latestCommits == old(latestCommits)
      ensures old(Valid()) && Within(clock.View()) ==>
                Valid() && history.pending == old(history).pending - {snapshot} && snapshot in history.snapshots
    {
      hide Stamp, TxnsOk, Within, Tick;
      snapshot := DrawSnapshot(now);
      RegisterSnapshot(snapshot);
    }

    /** The least active snapshot, or the present time. */
    method MinActiveSnapshot(now: int) returns (m: nat)
      modifies clock, this`history
      ensures clock.View() == Tick(old(clock.View()), now) && IsOldest(activeTxns, Stamp(clock.View()), m)
      ensures old(Valid()) && Within(clock.View()) ==>
                Valid() && Took(old(history), MinActive(Stamp(clock.View()), m), history)
    {
      hide Stamp, TxnsOk, Within, Tick;
      ghost var counts := Valid() && Within(Tick(clock.View(), now));
      if counts { ReadAdvances(clock.View(), now); }
      var ts := clock.Now(now);
      m := Oldest(activeTxns, ts);
      if counts {
        StepKeeps(history, MinActive(ts, m));
        history := StepTxns(history, MinActive(ts, m));
      }
    }

    /** Commits unless a key of the write set was committed after the snapshot. */
    method Commit(now: int, snapshot: nat, writeSet: UserKeys) returns (ts: nat, ok: bool)
      modifies this, clock
      ensures ok == !Conflict(old(latestCommits), writeSet, snapshot) && activeTxns == old(activeTxns) - {snapshot}
      ensures old(Valid()) ==> ok == !Clashes(old(history).log, writeSet, snapshot)
      ensures ok ==> ts == Stamp(clock.View()) && clock.View() == Tick(old(clock.View()), now)
                     && latestCommits == SetAll(old(latestCommits), writeSet, ts)
      ensures !ok ==> ts == 0 && clock.View() == old(clock.View()) && latestCommits == old(latestCommits)
      ensures old(Valid()) && snapshot in old(history).snapshots && Within(Tick(old(clock.View()), now)) ==>
                Valid() && Took(old(history), CommitStep(snapshot, writeSet, Stamp(Tick(old(clock.View()), now))), history)
    {
      hide Stamp, Conflict, Clashes, SetAll, TxnsOk, Within, Tick;
      if Valid() { ConflictIsClash(history, writeSet, snapshot); }
      ghost var counts := Valid() && snapshot in history.snapshots && Within(Tick(clock.View(), now));
      ghost var step := CommitStep(snapshot, writeSet, Stamp(Tick(clock.View(), now)));
      if counts {
        ReadAdvances(clock.View(), now);
        StepKeeps(history, step);
      }
      var conflict := FindConflict(latestCommits, writeSet, snapshot);
      if counts { history := StepTxns(history, step); }
      if conflict {
        activeTxns := activeTxns - {snapshot};
        return 0, false;
      }
      ts := clock.Now(now);
      latestCommits := RecordAll(latestCommits, writeSet, ts);
      activeTxns := activeTxns - {snapshot};
      return ts, true;
    }

    method Abort(snapshot: nat)
      modifies this
      ensures activeTxns == old(activeTxns) - {snapshot} && latestCommits == old(latestCommits)
      ensures old(Valid()) && snapshot in old(history).snapshots ==>
                Valid() && Took(old(history), TxnStep.Abort(snapshot), history)
    {
      hide Stamp, TxnsOk, Within;
      activeTxns := activeTxns - {snapshot};
      if old(Valid()) && snapshot in history.snapshots {
        StepKeeps(history, TxnStep.Abort(snapshot));
        history := StepTxns(history, TxnStep.Abort(snapshot));
      }
    }
  }

  /** A step of the state machine was possible and was taken. */
  ghost predicate Took(s: Txns, step: TxnStep, s': Txns) {
    CanStepTxns(s, step) && s' == StepTxns(s, step)
  }

  lemma ReadAdvances(t: Time, now: int)
    requires Within(t) && Within(Tick(t, now))
    ensures Stamp(t) < Stamp(Tick(t, now))
  {
    hide Stamp, Within, Tick;
    StepAdvances(t, Read(now));
  }

  method Oldest(active: set<nat>, ts: nat) returns (m: nat)
    ensures IsOldest(active, ts, m)
  {
    m := ts;
    var rest := active;
    while rest != {}
      invariant rest <= active && (m == ts || m in active)
      invariant m <= ts && forall a :: a in active && a !in rest ==> m <= a
      decreases |rest|
    {
      var t :| t in rest;
      if t < m { m := t; }
      rest := rest - {t};
    }
  }
}
