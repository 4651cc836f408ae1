/**
 Log matching: in every run, with messages late, lost, repeated or out of order, two logs that
 have the same term at an index agree on everything up to it.
 */
module RaftLogs {
  import opened Bytes
  import opened RaftNode
  import opened RaftCluster
  import opened RaftElection

  /** The first k entries of a and b exist and are the same. */
  ghost predicate Agree(a: Log, b: Log, k: nat) {
    k <= |a| && k <= |b| && forall j :: 0 <= j < k ==> a[j] == b[j]
  }

  /** The entry at i, with all before it, is as the leader of its term had it. */
  ghost predicate CanonAt(logs: map<nat, Log>, log: Log, i: nat) {
    && i < |log|
    && log[i].term in logs
    && Agree(log, logs[log[i].term], i + 1)
  }

  ghost predicate Canon(logs: map<nat, Log>, log: Log) {
    && |log| >= 1 && log[0] == DUMMY
    && forall i :: 1 <= i < |log| ==> CanonAt(logs, log, i)
  }

  /** The request carries the part of the snapshot after its previous index. */
  ghost predicate CallOk(ac: AppendCall) {
    && ac.req.prevLogIndex < |ac.snapshot|
    && ac.req.prevLogTerm == ac.snapshot[ac.req.prevLogIndex].term
    && ac.req.entries == ac.snapshot[ac.req.prevLogIndex + 1..]
  }

  ghost predicate NodeLogsOk(s: Cluster) {
    forall id :: id in s.nodes ==> Canon(s.h.leaderLog, s.nodes[id].log)
  }

  ghost predicate LeaderLogsOk(s: Cluster) {
    forall t :: t in s.h.leaderLog ==> Canon(s.h.leaderLog, s.h.leaderLog[t])
  }

  ghost predicate CallsOk(s: Cluster) {
    forall ac :: ac in s.appendCalls ==> Canon(s.h.leaderLog, ac.snapshot) && CallOk(ac)
  }

  ghost predicate LogInv(s: Cluster) {
    NodeLogsOk(s) && LeaderLogsOk(s) && CallsOk(s)
  }

  lemma LogInvInit(c: Config)
    requires ValidConfig(c)
    ensures LogInv(InitCluster(c))
  {
    hide ValidConfig;
  }

  /** Two canonical logs with the same term at an index agree up to it. */
  lemma CanonMatch(logs: map<nat, Log>, a: Log, b: Log, k: nat)
    requires Canon(logs, a) && Canon(logs, b)
    requires k < |a| && k < |b| && a[k].term == b[k].term
    ensures Agree(a, b, k + 1)
  {
    if k > 0 {
      assert CanonAt(logs, a, k) && CanonAt(logs, b, k);
    }
  }

  /** The logs of leaders only grow. */
  ghost predicate Grows(logs: map<nat, Log>, logs': map<nat, Log>) {
    forall t :: t in logs ==> t in logs' && Agree(logs'[t], logs[t], |logs[t]|)
  }

  lemma CanonGrows(logs: map<nat, Log>, logs': map<nat, Log>, log: Log)
    requires Grows(logs, logs') && Canon(logs, log)
    ensures Canon(logs', log)
  {
    forall i | 1 <= i < |log| ensures CanonAt(logs', log, i) {
      assert CanonAt(logs, log, i);
    }
  }

  lemma GrowsTransitive(a: map<nat, Log>, b: map<nat, Log>, d: map<nat, Log>)
    requires Grows(a, b) && Grows(b, d)
    ensures Grows(a, d)
  {
    forall t | t in a ensures t in d && Agree(d[t], a[t], |a[t]|) {
      assert Agree(b[t], a[t], |a[t]|) && Agree(d[t], b[t], |b[t]|);
    }
  }

  /** A leader's log extended by its own new entry stays canonical. */
  lemma ProposeCanon(logs: map<nat, Log>, log: Log, e: Entry)
    requires Canon(logs, log) && e.term in logs && logs[e.term] == log
    ensures Grows(logs, logs[e.term := log + [e]])
    ensures Canon(logs[e.term := log + [e]], log + [e])
  {
    var logs' := logs[e.term := log + [e]];
    assert Grows(logs, logs');
    CanonGrows(logs, logs', log);
    forall i | 1 <= i < |log + [e]| ensures CanonAt(logs', log + [e], i) {
      if i < |log| { assert CanonAt(logs', log, i); }
    }
  }

  /** A step extends leader logs and never changes one. */
  lemma LeaderLogsGrow(c: Config, s: Cluster, step: Step)
    requires ValidConfig(c) && ElectionInv(c, s) && Enabled(s, step)
    ensures Grows(s.h.leaderLog, Next(s, step).h.leaderLog)
  {
    hide ValidConfig, ElectionInv, AfterVoteReply, HandleVote, HandleAppend, HandleAppendReply;
    match step
    case DeliverVoteReply(vr) => VoteReplyGrows(c, s, vr);
    case Propose(id, data) => LeaderFacts(c, s, id);
    case _ =>
  }

  /** Terms that have got a leader start with this log. */
  ghost predicate NewLogsAre(logs: map<nat, Log>, logs': map<nat, Log>, log: Log) {
    forall t :: t in logs' && t !in logs ==> logs'[t] == log
  }

  lemma VoteReplyGrows(c: Config, s: Cluster, vr: VoteReply)
    requires ValidConfig(c) && ElectionInv(c, s) && Enabled(s, DeliverVoteReply(vr))
    ensures Grows(s.h.leaderLog, AfterVoteReply(s, vr).h.leaderLog)
    ensures NewLogsAre(s.h.leaderLog, AfterVoteReply(s, vr).h.leaderLog, s.nodes[vr.candidate].log)
  {
    hide ValidConfig, ElectionInv, HandleVoteReply, Enough;
    var n := s.nodes[vr.candidate];
    if Counts(n, vr) {
      CountedReplyShape(s, vr);
      if Wins(n, vr) {
        WinnerIsFirst(c, s, vr);
        LeaderKeys(c, s);
      }
    } else if n.role == Candidate {
      UncountedReplyNoLeader(n, vr);
    }
  }

  lemma LeaderKeys(c: Config, s: Cluster)
    requires ElectionInv(c, s)
    ensures s.h.leaderOf.Keys == s.h.leaderLog.Keys
  {
    hide NodesOk, VotesOk, VoteMessagesOk, TallyOk, WonTerm, ElectorsOk, SendsOk, LeaderOk;
  }

  lemma VoteReplyKeepsLogs(n: NodeState, vr: VoteReply)
    ensures HandleVoteReply(n, vr.voter, vr.term, vr.resp).log == n.log
  {
  }

  lemma AppendReplyKeepsLog(n: NodeState, peer: Id, req: AppendRequest, resp: AppendResponse)
    requires |n.log| >= 1
    ensures HandleAppendReply(n, peer, req, resp).log == n.log
  {
  }

  lemma HandleVoteKeepsLog(n: NodeState, req: VoteRequest)
    requires |n.log| >= 1
    ensures HandleVote(n, req).0.log == n.log
  {
  }

  /** Accepting a request leaves the follower with exactly the log its sender had. */
  lemma AcceptedLogIsSnapshot(logs: map<nat, Log>, n: NodeState, ac: AppendCall)
    requires |n.log| >= 1 && Canon(logs, n.log) && Canon(logs, ac.snapshot) && CallOk(ac)
    ensures HandleAppend(n, ac.req).0.log == if Accepts(n, ac.req) then ac.snapshot else n.log
  {
    hide Canon;
    if Accepts(n, ac.req) {
      var k := ac.req.prevLogIndex;
      CanonMatch(logs, n.log, ac.snapshot, k);
      assert n.log[..k + 1] + ac.req.entries == ac.snapshot;
    }
  }

  lemma NodeLogsNext(c: Config, s: Cluster, step: Step)
    requires ElectionInv(c, s) && LogInv(s) && Enabled(s, step)
    requires !step.Propose?
    ensures forall id :: id in Next(s, step).nodes ==>
              id in s.nodes && (Next(s, step).nodes[id].log == s.nodes[id].log
                                || Canon(s.h.leaderLog, Next(s, step).nodes[id].log))
  {
    hide ElectionInv, LeaderLogsOk, HandleVote, HandleVoteReply, HandleAppend, HandleAppendReply, Canon, CallOk;
    match step
    case DeliverVote(vc) => HandleVoteKeepsLog(s.nodes[vc.to], vc.req);
    case DeliverVoteReply(vr) => VoteReplyKeepsLogs(s.nodes[vr.candidate], vr);
    case DeliverAppend(ac) => AcceptedLogIsSnapshot(s.h.leaderLog, s.nodes[ac.to], ac);
    case DeliverAppendReply(ar) =>
      AppendReplyKeepsLog(s.nodes[ar.call.req.leader], ar.call.to, ar.call.req, ar.resp);
    case _ =>
  }

  lemma CallsNext(s: Cluster, step: Step)
    requires LogInv(s) && Enabled(s, step)
    ensures forall ac :: ac in Next(s, step).appendCalls ==>
              ac in s.appendCalls || (Canon(s.h.leaderLog, ac.snapshot) && CallOk(ac))
  {
    hide LeaderLogsOk, HandleVote, HandleVoteReply, HandleAppend, HandleAppendReply, Canon;
  }

  lemma LeaderLogsNext(c: Config, s: Cluster, step: Step)
    requires ValidConfig(c) && ElectionInv(c, s) && LogInv(s) && Enabled(s, step) && !step.Propose?
    ensures forall t :: t in Next(s, step).h.leaderLog ==>
              Canon(s.h.leaderLog, Next(s, step).h.leaderLog[t])
  {
    hide ValidConfig, ElectionInv, HandleVote, HandleVoteReply, HandleAppend, HandleAppendReply, Canon;
    if step.DeliverVoteReply? {
      VoteReplyLeaderLogs(c, s, step.vr);
    }
  }

  lemma VoteReplyLeaderLogs(c: Config, s: Cluster, vr: VoteReply)
    requires ValidConfig(c) && ElectionInv(c, s) && Enabled(s, DeliverVoteReply(vr))
    ensures forall t :: t in AfterVoteReply(s, vr).h.leaderLog ==>
              (t in s.h.leaderLog && AfterVoteReply(s, vr).h.leaderLog[t] == s.h.leaderLog[t])
              || AfterVoteReply(s, vr).h.leaderLog[t] == s.nodes[vr.candidate].log
  {
    hide ValidConfig, ElectionInv, HandleVoteReply, Enough;
    VoteReplyKeepsLogs(s.nodes[vr.candidate], vr);
  }

  lemma LogInvGrows(s: Cluster, s': Cluster)
    requires Grows(s.h.leaderLog, s'.h.leaderLog)
    requires forall id :: id in s'.nodes ==> Canon(s.h.leaderLog, s'.nodes[id].log)
    requires forall t :: t in s'.h.leaderLog ==> Canon(s.h.leaderLog, s'.h.leaderLog[t])
    requires forall ac :: ac in s'.appendCalls ==> Canon(s.h.leaderLog, ac.snapshot) && CallOk(ac)
    ensures LogInv(s')
  {
    hide Grows, Canon, CallOk;
    forall log | Canon(s.h.leaderLog, log) ensures Canon(s'.h.leaderLog, log) {
      CanonGrows(s.h.leaderLog, s'.h.leaderLog, log);
    }
  }

  lemma ProposeKeepsLogInv(c: Config, s: Cluster, id: Id, data: ByteString)
    requires ElectionInv(c, s) && LogInv(s) && Enabled(s, Propose(id, data))
    ensures LogInv(AfterPropose(s, id, data))
  {
    hide ElectionInv, Canon, CallOk, Grows;
    LeaderFacts(c, s, id);
    var n, s' := s.nodes[id], AfterPropose(s, id, data);
    ProposeCanon(s.h.leaderLog, n.log, Entry(n.currentTerm, |n.log|, data));
    forall log | Canon(s.h.leaderLog, log) ensures Canon(s'.h.leaderLog, log) {
      CanonGrows(s.h.leaderLog, s'.h.leaderLog, log);
    }
  }

  lemma LogInvNext(c: Config, s: Cluster, step: Step)
    requires ValidConfig(c) && ElectionInv(c, s) && LogInv(s) && Enabled(s, step)
    ensures LogInv(Next(s, step))
  {
    hide ValidConfig, ElectionInv, Canon, CallOk, Grows, AfterTimeout, AfterVote, AfterVoteReply, AfterPropose,
      AfterSend, AfterAppend, AfterAppendReply;
    if step.Propose? {
      ProposeKeepsLogInv(c, s, step.id, step.data);
    } else {
      LeaderLogsGrow(c, s, step);
      NodeLogsNext(c, s, step);
      LeaderLogsNext(c, s, step);
      CallsNext(s, step);
      LogInvGrows(s, Next(s, step));
    }
  }

  lemma {:induction false} LogInvAt(c: Config, r: Run, i: nat)
    requires ValidConfig(c) && IsRun(c, r) && i < |r.states|
    ensures LogInv(r.states[i])
  {
    hide ValidConfig, LogInv, InitCluster, Enabled, Next, ElectionInv;
    if i == 0 {
      LogInvInit(c);
    } else {
      LogInvAt(c, r, i - 1);
      ElectionInvAt(c, r, i - 1);
      LogInvNext(c, r.states[i - 1], r.steps[i - 1]);
    }
  }

  lemma {:induction false} LeaderLogsGrowOver(c: Config, r: Run, i: nat, j: nat)
    requires ValidConfig(c) && IsRun(c, r) && i <= j < |r.states|
    ensures Grows(r.states[i].h.leaderLog, r.states[j].h.leaderLog)
  {
    hide ValidConfig, InitCluster, Enabled, Next, ElectionInv;
    if i < j {
      LeaderLogsGrowOver(c, r, i, j - 1);
      ElectionInvAt(c, r, j - 1);
      LeaderLogsGrow(c, r.states[j - 1], r.steps[j - 1]);
      GrowsTransitive(r.states[i].h.leaderLog, r.states[j - 1].h.leaderLog, r.states[j].h.leaderLog);
    }
  }

  /** A log that exists in a state: at a node, or in a request on its way. */
  ghost predicate LogIn(s: Cluster, log: Log) {
    || (exists id :: id in s.nodes && s.nodes[id].log == log)
    || (exists ac :: ac in s.appendCalls && ac.snapshot == log)
  }

  lemma LogInIsCanon(s: Cluster, log: Log)
    requires LogInv(s) && LogIn(s, log)
    ensures Canon(s.h.leaderLog, log)
  {
    hide Canon, CallOk;
  }

  /**
   In every run, two logs, of nodes or of requests on their way, seen at whatever moments, that
   have the same term at an index have the same entries up to and including it.
   */
  lemma LogMatching(c: Config, r: Run, i: nat, j: nat, a: Log, b: Log, k: nat)
    requires ValidConfig(c) && IsRun(c, r) && i <= j < |r.states|
    requires (LogIn(r.states[i], a) && LogIn(r.states[j], b)) || (LogIn(r.states[j], a) && LogIn(r.states[i], b))
    requires k < |a| && k < |b| && a[k].term == b[k].term
    ensures a[..k + 1] == b[..k + 1]
  {
    hide ValidConfig, IsRun, LogInv, LogIn, Grows;
    LogInvAt(c, r, i);
    LogInvAt(c, r, j);
    LeaderLogsGrowOver(c, r, i, j);
    var (x, y) := if LogIn(r.states[i], a) && LogIn(r.states[j], b) then (a, b) else (b, a);
    LogInIsCanon(r.states[i], x);
    LogInIsCanon(r.states[j], y);
    CanonGrows(r.states[i].h.leaderLog, r.states[j].h.leaderLog, x);
    CanonMatch(r.states[j].h.leaderLog, a, b, k);
  }

  /** In every run, a follower that answers success has exactly the log the sender had at the send. */
  lemma SuccessMeansSameLog(c: Config, r: Run, i: nat, ac: AppendCall)
    requires i < |r.states| && Enabled(r.states[i], DeliverAppend(ac))
    requires ValidConfig(c) && IsRun(c, r)
    ensures var n := r.states[i].nodes[ac.to];
            && HandleAppend(n, ac.req).1.success == Accepts(n, ac.req)
            && HandleAppend(n, ac.req).0.log == if Accepts(n, ac.req) then ac.snapshot else n.log
  {
    hide ValidConfig, IsRun, LeaderLogsOk;
    LogInvAt(c, r, i);
    AcceptedLogIsSnapshot(r.states[i].h.leaderLog, r.states[i].nodes[ac.to], ac);
  }
}
