/**
 Progress: from every reachable state a leader can bring a follower's log into line with its own,
 one refused request after another, and commit once enough have it (internal/raft/raft.go, the send
 goroutine of sendHeartbeats with AppendEntries and advanceCommitIndex).
 */
module RaftProgress {
  import opened Bytes
  import opened RaftNode
  import opened RaftCluster
  import opened RaftElection
  import opened RaftLogs

  // ---- what every run keeps

  /** A leader can build a request for every peer, and what a node has committed it has applied. */
  ghost predicate SenderOk(n: NodeState) {
    && n.commitIndex <= n.lastApplied
    && (n.role == Leader ==> forall p :: p in n.peers ==> CanSend(n, p))
  }

  /** What a node sent in the term it is still in was no longer than its log is now. */
  ghost predicate CallFits(nodes: map<Id, NodeState>, ac: AppendCall) {
    && ac.req.leader in nodes
    && (nodes[ac.req.leader].currentTerm == ac.req.term ==> |ac.snapshot| <= |nodes[ac.req.leader].log|)
  }

  ghost predicate SendInv(s: Cluster) {
    && (forall id :: id in s.nodes ==> SenderOk(s.nodes[id]))
    && (forall ac :: ac in s.appendCalls ==> CallFits(s.nodes, ac))
  }

  ghost predicate ProgressInv(c: Config, s: Cluster) {
    ElectionInv(c, s) && LogInv(s) && SendInv(s)
  }

  lemma SendInvInit(c: Config)
    requires ValidConfig(c)
    ensures SendInv(InitCluster(c))
  {
  }

  /** A node stays in its term with a log no shorter, or moves to a later term. */
  ghost predicate Moves(n: NodeState, n': NodeState) {
    n'.currentTerm > n.currentTerm || (n'.currentTerm == n.currentTerm && |n'.log| >= |n.log|)
  }

  /** One node moved and nothing was sent. */
  lemma MovedCalls(c: Config, s: Cluster, s': Cluster, id: Id)
    requires LeadersOk(c, s) && SendsOk(c, s) && SendInv(s) && OnlyNode(s, s', id) && s'.appendCalls == s.appendCalls
    requires id in s.nodes && SenderOk(s'.nodes[id])
    requires Moves(s.nodes[id], s'.nodes[id]) || (forall ac :: ac in s.appendCalls && ac.req.leader == id ==>
                                                    ac.req.term < s'.nodes[id].currentTerm)
    ensures SendInv(s')
  {
    hide SenderOk;
    forall ac | ac in s'.appendCalls ensures CallFits(s'.nodes, ac) {
      assert CallFits(s.nodes, ac) && WonTerm(c, s, ac.req.term);
    }
  }

  lemma TimeoutSends(c: Config, s: Cluster, id: Id)
    requires ElectionInv(c, s) && SendInv(s) && Enabled(s, ElectionTimeout(id))
    ensures SendInv(AfterTimeout(s, id))
  {
    hide NodesOk, VotesOk, VoteMessagesOk, TallyOk, LeadersOk, ElectorsOk, SendsOk, SendInv;
    SenderIs(s, id);
    MovedCalls(c, s, AfterTimeout(s, id), id);
  }

  lemma SenderIs(s: Cluster, id: Id)
    requires SendInv(s) && id in s.nodes
    ensures SenderOk(s.nodes[id])
  {
  }

  lemma VoteSends(c: Config, s: Cluster, vc: VoteCall)
    requires ElectionInv(c, s) && SendInv(s) && Enabled(s, DeliverVote(vc))
    ensures SendInv(AfterVote(s, vc))
  {
    hide NodesOk, VotesOk, VoteMessagesOk, TallyOk, LeadersOk, ElectorsOk, SendsOk, SendInv, Grants;
    SenderIs(s, vc.to);
    MovedCalls(c, s, AfterVote(s, vc), vc.to);
  }

  lemma NewLeaderSends(n: NodeState)
    requires |n.log| >= 1 && SenderOk(n)
    ensures SenderOk(BecomeLeader(n)) && Moves(n, BecomeLeader(n))
  {
  }

  lemma VoteReplyNode(n: NodeState, vr: VoteReply)
    requires |n.log| >= 1 && SenderOk(n)
    ensures var n' := HandleVoteReply(n, vr.voter, vr.term, vr.resp); SenderOk(n') && Moves(n, n')
  {
    hide BecomeLeader, Enough;
    if n.role == Candidate { NewLeaderSends(n.(awaiting := n.awaiting - {vr.voter}, votes := n.votes + 1)); }
  }

  lemma VoteReplySends(c: Config, s: Cluster, vr: VoteReply)
    requires ElectionInv(c, s) && SendInv(s) && Enabled(s, DeliverVoteReply(vr))
    ensures SendInv(AfterVoteReply(s, vr))
  {
    hide VotesOk, VoteMessagesOk, TallyOk, LeadersOk, ElectorsOk, SendsOk, SendInv, HandleVoteReply, SenderOk;
    SenderIs(s, vr.candidate);
    NodeFacts(c, s, vr.candidate);
    VoteReplyNode(s.nodes[vr.candidate], vr);
    MovedCalls(c, s, AfterVoteReply(s, vr), vr.candidate);
  }

  lemma ProposeSends(c: Config, s: Cluster, id: Id, data: ByteString)
    requires ElectionInv(c, s) && SendInv(s) && Enabled(s, Step.Propose(id, data))
    ensures SendInv(AfterPropose(s, id, data))
  {
    hide NodesOk, VotesOk, VoteMessagesOk, TallyOk, LeadersOk, ElectorsOk, SendsOk, SendInv;
    SenderIs(s, id);
    MovedCalls(c, s, AfterPropose(s, id, data), id);
  }

  lemma SendSends(c: Config, s: Cluster, id: Id, term: nat, peer: Id)
    requires ElectionInv(c, s) && SendInv(s) && Enabled(s, SendAppend(id, term, peer))
    ensures SendInv(AfterSend(s, id, term, peer))
  {
    hide VotesOk, VoteMessagesOk, TallyOk, LeadersOk, ElectorsOk, SendsOk, SenderOk;
    NodeFacts(c, s, id);
  }

  lemma AppendNode(n: NodeState, req: AppendRequest)
    requires |n.log| >= 1 && SenderOk(n)
    ensures var n' := HandleAppend(n, req).0;
            && SenderOk(n') && n'.currentTerm == (if req.term > n.currentTerm then req.term else n.currentTerm)
            && (req.term < n.currentTerm ==> n' == n)
  {
  }

  lemma AppendSends(c: Config, s: Cluster, ac: AppendCall)
    requires ElectionInv(c, s) && SendInv(s) && Enabled(s, DeliverAppend(ac))
    ensures SendInv(AfterAppend(s, ac))
  {
    hide VotesOk, VoteMessagesOk, TallyOk, ElectorsOk, SendInv, SenderOk, HandleAppend, WonTerm;
    SenderIs(s, ac.to);
    NodeFacts(c, s, ac.to);
    AppendNode(s.nodes[ac.to], ac.req);
    if ac.req.term >= s.nodes[ac.to].currentTerm {
      forall b | b in s.appendCalls && b.req.leader == ac.to ensures b.req.term < ac.req.term { OthersBefore(c, s, ac, b); }
    }
    MovedCalls(c, s, AfterAppend(s, ac), ac.to);
  }

  /** Who takes a request in its own term or later has not led that term. */
  lemma OthersBefore(c: Config, s: Cluster, ac: AppendCall, b: AppendCall)
    requires LeadersOk(c, s) && SendsOk(c, s) && ac in s.appendCalls && b in s.appendCalls && b.req.leader == ac.to
    requires ac.to in s.nodes && ac.req.term >= s.nodes[ac.to].currentTerm
    ensures b.req.term < ac.req.term
  {
    assert WonTerm(c, s, b.req.term);
  }

  lemma AckedNode(n: NodeState, ar: AppendReply)
    requires |n.log| >= 1 && SenderOk(n) && CallOk(ar.call)
    requires n.currentTerm == ar.call.req.term ==> |ar.call.snapshot| <= |n.log|
    ensures var n' := HandleAppendReply(n, ar.call.to, ar.call.req, ar.resp); SenderOk(n') && Moves(n, n')
  {
    hide Committable;
  }

  lemma ReplySends(c: Config, s: Cluster, ar: AppendReply)
    requires ElectionInv(c, s) && LogInv(s) && SendInv(s) && Enabled(s, DeliverAppendReply(ar))
    ensures SendInv(AfterAppendReply(s, ar))
  {
    hide VotesOk, VoteMessagesOk, TallyOk, LeadersOk, ElectorsOk, SenderOk, HandleAppendReply, NodeLogsOk, LeaderLogsOk, Canon;
    var id := ar.call.req.leader;
    SenderIs(s, id);
    NodeFacts(c, s, id);
    assert CallFits(s.nodes, ar.call) && CallOk(ar.call);
    AckedNode(s.nodes[id], ar);
    MovedCalls(c, s, AfterAppendReply(s, ar), id);
  }

  lemma SendInvNext(c: Config, s: Cluster, step: Step)
    requires ElectionInv(c, s) && LogInv(s) && SendInv(s) && Enabled(s, step)
    ensures SendInv(Next(s, step))
  {
    hide ElectionInv, LogInv, SendInv, AfterTimeout, AfterVote, AfterVoteReply, AfterPropose, AfterSend, AfterAppend, AfterAppendReply;
    match step
    case ElectionTimeout(id) => TimeoutSends(c, s, id);
    case DeliverVote(vc) => VoteSends(c, s, vc);
    case DeliverVoteReply(vr) => VoteReplySends(c, s, vr);
    case Propose(id, data) => ProposeSends(c, s, id, data);
    case Heartbeat(id) => HeartbeatSends(s, id);
    case SendAppend(id, term, peer) => SendSends(c, s, id, term, peer);
    case DeliverAppend(ac) => AppendSends(c, s, ac);
    case DeliverAppendReply(ar) => ReplySends(c, s, ar);
  }

  lemma HeartbeatSends(s: Cluster, id: Id)
    requires SendInv(s) && Enabled(s, Heartbeat(id))
    ensures SendInv(Next(s, Heartbeat(id)))
  {
  }

  lemma ProgressInvNext(c: Config, s: Cluster, step: Step)
    requires ValidConfig(c) && ProgressInv(c, s) && Enabled(s, step)
    ensures ProgressInv(c, Next(s, step))
  {
    hide ValidConfig, ElectionInv, LogInv, SendInv, Enabled, Next;
    ElectionInvNext(c, s, step);
    LogInvNext(c, s, step);
    SendInvNext(c, s, step);
  }

  /** In every run a leader can always build a request for every peer. */
  lemma {:induction false} ProgressInvAt(c: Config, r: Run, i: nat)
    requires ValidConfig(c) && IsRun(c, r) && i < |r.states|
    ensures ProgressInv(c, r.states[i])
  {
    hide ValidConfig, ElectionInv, LogInv, SendInv, InitCluster, Enabled, Next;
    if i == 0 {
      ElectionInvInit(c);
      LogInvInit(c);
      SendInvInit(c);
    } else {
      ProgressInvAt(c, r, i - 1);
      ProgressInvNext(c, r.states[i - 1], r.steps[i - 1]);
    }
  }

  /** In every run, whoever leads can read its log for a request to any peer. */
  lemma SendInRange(c: Config, r: Run, i: nat, id: Id, v: Id)
    requires ValidConfig(c) && IsRun(c, r) && i < |r.states|
    requires id in r.states[i].nodes && r.states[i].nodes[id].role == Leader && v in r.states[i].nodes[id].peers
    ensures CanSend(r.states[i].nodes[id], v)
  {
    hide ValidConfig, IsRun, ElectionInv, LogInv, CanSend;
    ProgressInvAt(c, r, i);
  }

  // ---- going on from a state

  ghost predicate Path(s: Cluster, steps: seq<Step>, s': Cluster)
    decreases |steps|
  {
    if steps == [] then s' == s else Enabled(s, steps[0]) && Path(Next(s, steps[0]), steps[1..], s')
  }

  lemma {:induction false} PathConcat(s: Cluster, a: seq<Step>, s1: Cluster, b: seq<Step>, s2: Cluster)
    requires Path(s, a, s1) && Path(s1, b, s2)
    ensures Path(s, a + b, s2)
    decreases |a|
  {
    hide Enabled, Next;
    if a == [] {
      assert a + b == b;
    } else {
      PathConcat(Next(s, a[0]), a[1..], s1, b, s2);
      assert (a + b)[1..] == a[1..] + b;
    }
  }

  lemma OneStep(s: Cluster, step: Step)
    requires Enabled(s, step)
    ensures Path(s, [step], Next(s, step))
  {
    hide Enabled, Next;
    assert Path(Next(s, step), [step][1..], Next(s, step));
  }

  /** The run r goes on with these steps to s. */
  ghost predicate Continues(c: Config, r: Run, r': Run, steps: seq<Step>, s: Cluster)
    requires ValidConfig(c)
  {
    IsRun(c, r') && r.states <= r'.states && r'.steps == r.steps + steps && r'.states[|r'.states| - 1] == s
  }

  lemma {:induction false} PathContinues(c: Config, r: Run, steps: seq<Step>, s: Cluster) returns (r': Run)
    requires ValidConfig(c) && IsRun(c, r) && Path(r.states[|r.states| - 1], steps, s)
    ensures Continues(c, r, r', steps, s)
    decreases |steps|
  {
    hide ValidConfig, InitCluster, Enabled, Next;
    if steps == [] {
      r' := r;
    } else {
      var s1 := Next(r.states[|r.states| - 1], steps[0]);
      var r1 := Run(r.states + [s1], r.steps + [steps[0]]);
      r' := PathContinues(c, r1, steps[1..], s);
      assert r.steps + [steps[0]] + steps[1..] == r.steps + steps;
    }
  }

  // ---- one request and its answer

  /** The request finds a follower in the leader's term or before it. */
  lemma AppendOutcome(logs: map<nat, Log>, n: NodeState, t: nat, v: Id, w: NodeState)
    requires Canon(logs, n.log) && Canon(logs, w.log) && CanSend(n, v) && w.currentTerm <= t
    ensures var req := MakeAppend(n, t, v);
            var (w', resp) := HandleAppend(w, req);
            && resp == AppendResponse(t, Matches(w, req)) && w'.currentTerm == t
            && w'.log == (if resp.success then n.log else w.log)
            && (resp.success ==> w'.commitIndex >= n.commitIndex || w'.commitIndex >= LastIndex(n.log))
            && (resp.success || Lookup(n.nextIndex, v) > 1)
  {
    hide Canon;
    assert n.log[0] == DUMMY == w.log[0] by { CanonStarts(logs, n.log); CanonStarts(logs, w.log); }
    AcceptedLogIsSnapshot(logs, w, AppendCall(v, MakeAppend(n, t, v), n.log));
  }

  lemma CanonStarts(logs: map<nat, Log>, log: Log)
    requires Canon(logs, log)
    ensures |log| >= 1 && log[0] == DUMMY
  {
  }

  /** The leader goes on as it was, but for what it knows of its peers and what it has committed. */
  ghost predicate StillLeads(n: NodeState, n': NodeState) {
    && n'.role == n.role == Leader && n'.currentTerm == n.currentTerm && n'.log == n.log && n'.id == n.id && n'.peers == n.peers
    && n'.commitIndex >= n.commitIndex
  }

  /** Nothing more can be committed by what the leader knows. */
  ghost predicate FullyAdvanced(n: NodeState) {
    forall i :: 0 <= i < |n.log| && Committable(n, i) ==> i <= n.commitIndex
  }

  lemma AdvancedFully(n: NodeState)
    requires |n.log| >= 1
    ensures var n' := AdvanceCommitIndex(n);
            && FullyAdvanced(n') && n'.matchIndex == n.matchIndex && n'.nextIndex == n.nextIndex && n'.commitIndex >= n.commitIndex
            && n'.role == n.role && n'.currentTerm == n.currentTerm && n'.log == n.log && n'.id == n.id && n'.peers == n.peers
  {
    hide Enough, CountMatching;
    var n' := AdvanceCommitIndex(n);
    forall i | 0 <= i < |n.log| && Committable(n', i) ensures i <= n'.commitIndex {
      assert Committable(n, i);
    }
  }

  lemma ReplyOutcome(n: NodeState, v: Id, success: bool)
    requires |n.log| >= 1 && n.role == Leader && CanSend(n, v) && (success || Lookup(n.nextIndex, v) > 1)
    ensures var t := n.currentTerm;
            var n' := HandleAppendReply(n, v, MakeAppend(n, t, v), AppendResponse(t, success));
            && StillLeads(n, n')
            && if success
               then FullyAdvanced(n') && n'.matchIndex == n.matchIndex[v := LastIndex(n.log)] && Lookup(n'.nextIndex, v) == |n.log|
               else n' == n.(nextIndex := n.nextIndex[v := Lookup(n.nextIndex, v) - 1])
  {
    hide AdvanceCommitIndex, FullyAdvanced;
    AdvancedFully(n.(matchIndex := n.matchIndex[v := LastIndex(n.log)], nextIndex := n.nextIndex[v := |n.log|]));
  }

  /** The leader id, with a heartbeat of its term under way, and a follower v not beyond that term. */
  ghost predicate CanReplicate(c: Config, s: Cluster, id: Id, v: Id) {
    && id in c.servers && v in c.servers && v != id && id in s.nodes && v in s.nodes
    && s.nodes[id].role == Leader && (id, s.nodes[id].currentTerm) in s.sends
    && s.nodes[v].currentTerm <= s.nodes[id].currentTerm
  }

  /** Between s and s' only id and v have changed, the leader still leads, and v is in its term. */
  ghost predicate Between(s: Cluster, s': Cluster, id: Id, v: Id) {
    && s'.sends == s.sends && s'.nodes.Keys == s.nodes.Keys && id in s.nodes && v in s.nodes
    && (forall x :: x in s.nodes && x != id && x != v ==> s'.nodes[x] == s.nodes[x])
    && StillLeads(s.nodes[id], s'.nodes[id]) && s'.nodes[v].currentTerm == s.nodes[id].currentTerm
  }

  /** v has the leader's log and its commits, and the leader knows it. */
  ghost predicate CaughtUp(s: Cluster, s': Cluster, id: Id, v: Id)
    requires id in s.nodes && id in s'.nodes && v in s'.nodes && |s.nodes[id].log| >= 1
  {
    var n, n', w := s.nodes[id], s'.nodes[id], s'.nodes[v];
    && w.log == n.log && (w.commitIndex >= n.commitIndex || w.commitIndex >= LastIndex(n.log))
    && n'.matchIndex == n.matchIndex[v := LastIndex(n.log)] && Lookup(n'.nextIndex, v) == |n.log| && FullyAdvanced(n')
  }

  /** A refused request: the next one will start one entry earlier. */
  ghost predicate BackedOff(s: Cluster, s': Cluster, id: Id, v: Id)
    requires id in s.nodes && id in s'.nodes && v in s'.nodes
  {
    var n := s.nodes[id];
    Lookup(n.nextIndex, v) > 1 && s'.nodes[id] == n.(nextIndex := n.nextIndex[v := Lookup(n.nextIndex, v) - 1])
  }

  predicate Replicates(step: Step, id: Id, t: nat, v: Id) {
    match step
    case SendAppend(i, u, p) => i == id && u == t && p == v
    case DeliverAppend(ac) => ac.to == v && ac.req.leader == id && ac.req.term == t
    case DeliverAppendReply(ar) => ar.call.to == v && ar.call.req.leader == id && ar.call.req.term == t
    case _ => false
  }

  lemma LeaderFactsAt(c: Config, s: Cluster, id: Id, v: Id)
    requires ValidConfig(c) && ProgressInv(c, s) && CanReplicate(c, s, id, v)
    ensures v in s.nodes[id].peers && CanSend(s.nodes[id], v) && s.nodes[id].id == id
    ensures Canon(s.h.leaderLog, s.nodes[id].log) && Canon(s.h.leaderLog, s.nodes[v].log)
    ensures |s.nodes[id].log| >= 1 && |s.nodes[v].log| >= 1
  {
    hide VotesOk, VoteMessagesOk, TallyOk, LeadersOk, ElectorsOk, SendsOk, LeaderLogsOk, CallsOk, Canon, CanSend;
    NodeFacts(c, s, id);
    NodeFacts(c, s, v);
    assert v in Members(c.peers[id]);
  }

  lemma Round(c: Config, s: Cluster, id: Id, v: Id) returns (steps: seq<Step>, s': Cluster)
    requires ValidConfig(c) && ProgressInv(c, s) && CanReplicate(c, s, id, v)
    ensures ProgressInv(c, s') && Path(s, steps, s') && |steps| == 3 && |s.nodes[id].log| >= 1
    ensures forall i :: 0 <= i < |steps| ==> Replicates(steps[i], id, s.nodes[id].currentTerm, v)
    ensures Between(s, s', id, v) && (CaughtUp(s, s', id, v) || BackedOff(s, s', id, v))
  {
    hide ValidConfig, ProgressInv, Path, CanSend, Canon, HandleAppend, HandleAppendReply, MakeAppend, Matches, FullyAdvanced,
      Between, CaughtUp, BackedOff;
    LeaderFactsAt(c, s, id, v);
    var n, w := s.nodes[id], s.nodes[v];
    var t := n.currentTerm;
    var req := MakeAppend(n, t, v);
    AppendOutcome(s.h.leaderLog, n, t, v, w);
    var (w', resp) := HandleAppend(w, req);
    ReplyOutcome(n, v, resp.success);
    var ac := AppendCall(v, req, n.log);
    var ar := AppendReply(ac, resp);
    MakeAppendNames(n, t, v);
    var s1 := TakeStep(c, s, SendAppend(id, t, v));
    var s2 := TakeStep(c, s1, DeliverAppend(ac));
    var s3 := TakeStep(c, s2, DeliverAppendReply(ar));
    PathConcat(s, [SendAppend(id, t, v)], s1, [DeliverAppend(ac)], s2);
    PathConcat(s, [SendAppend(id, t, v)] + [DeliverAppend(ac)], s2, [DeliverAppendReply(ar)], s3);
    steps, s' := [SendAppend(id, t, v)] + [DeliverAppend(ac)] + [DeliverAppendReply(ar)], s3;
    var n' := HandleAppendReply(n, v, req, resp);
    assert s3.nodes == s.nodes[v := w'][id := n'] && s3.sends == s.sends;
    RoundResult(s, s3, id, v, w', n', resp.success);
  }

  lemma RoundResult(s: Cluster, s': Cluster, id: Id, v: Id, w': NodeState, n': NodeState, success: bool)
    requires id in s.nodes && v in s.nodes && v != id && |s.nodes[id].log| >= 1
    requires s'.nodes == s.nodes[v := w'][id := n'] && s'.sends == s.sends && StillLeads(s.nodes[id], n')
    requires w'.currentTerm == s.nodes[id].currentTerm
    requires var n := s.nodes[id];
             if success
             then && w'.log == n.log && (w'.commitIndex >= n.commitIndex || w'.commitIndex >= LastIndex(n.log))
                  && FullyAdvanced(n') && n'.matchIndex == n.matchIndex[v := LastIndex(n.log)] && Lookup(n'.nextIndex, v) == |n.log|
             else Lookup(n.nextIndex, v) > 1 && n' == n.(nextIndex := n.nextIndex[v := Lookup(n.nextIndex, v) - 1])
    ensures Between(s, s', id, v) && (CaughtUp(s, s', id, v) || BackedOff(s, s', id, v))
  {
    hide FullyAdvanced;
  }

  lemma MakeAppendNames(n: NodeState, t: nat, v: Id)
    requires CanSend(n, v)
    ensures MakeAppend(n, t, v).term == t && MakeAppend(n, t, v).leader == n.id
  {
  }

  lemma TakeStep(c: Config, s: Cluster, step: Step) returns (s': Cluster)
    requires ValidConfig(c) && ProgressInv(c, s) && Enabled(s, step)
    ensures s' == Next(s, step) && ProgressInv(c, s') && Path(s, [step], s')
  {
    hide ValidConfig, ProgressInv, Enabled, Next, Path;
    s' := Next(s, step);
    ProgressInvNext(c, s, step);
    OneStep(s, step);
  }

  // ---- catching up

  lemma BetweenTrans(s: Cluster, s1: Cluster, s2: Cluster, id: Id, v: Id)
    requires Between(s, s1, id, v) && Between(s1, s2, id, v)
    ensures Between(s, s2, id, v)
  {
    forall x | x in s.nodes && x != id && x != v ensures s2.nodes[x] == s.nodes[x] {
      assert x in s1.nodes && s1.nodes[x] == s.nodes[x];
    }
  }

  lemma AgainReady(c: Config, s: Cluster, s1: Cluster, id: Id, v: Id)
    requires CanReplicate(c, s, id, v) && Between(s, s1, id, v) && BackedOff(s, s1, id, v)
    ensures CanReplicate(c, s1, id, v) && Lookup(s1.nodes[id].nextIndex, v) == Lookup(s.nodes[id].nextIndex, v) - 1
    ensures s1.nodes[id].log == s.nodes[id].log && s1.nodes[id].matchIndex == s.nodes[id].matchIndex
    ensures s1.nodes[id].commitIndex == s.nodes[id].commitIndex
  {
  }

  ghost predicate ReplicatesTo(step: Step, id: Id, t: nat, vs: set<Id>) {
    exists v :: v in vs && Replicates(step, id, t, v)
  }

  /** All steps are the leader's sends to members of vs and their deliveries. */
  ghost predicate AllReplicate(steps: seq<Step>, id: Id, t: nat, vs: set<Id>) {
    forall i :: 0 <= i < |steps| ==> ReplicatesTo(steps[i], id, t, vs)
  }

  lemma AllReplicateConcat(a: seq<Step>, b: seq<Step>, id: Id, t: nat, vs: set<Id>)
    requires AllReplicate(a, id, t, vs) && AllReplicate(b, id, t, vs)
    ensures AllReplicate(a + b, id, t, vs)
  {
    hide ReplicatesTo;
  }

  lemma {:induction false} CatchUp(c: Config, s: Cluster, id: Id, v: Id) returns (steps: seq<Step>, s': Cluster)
    requires ValidConfig(c) && ProgressInv(c, s) && CanReplicate(c, s, id, v)
    ensures ProgressInv(c, s') && Path(s, steps, s') && |steps| <= 3 * Lookup(s.nodes[id].nextIndex, v) && |s.nodes[id].log| >= 1
    ensures AllReplicate(steps, id, s.nodes[id].currentTerm, {v}) && Between(s, s', id, v) && CaughtUp(s, s', id, v)
    decreases Lookup(s.nodes[id].nextIndex, v)
  {
    hide ValidConfig, ProgressInv, Path, FullyAdvanced, Between, BackedOff, Replicates, AllReplicate;
    var first, s1 := Round(c, s, id, v);
    LeaderFactsAt(c, s, id, v);
    RoundReplicates(first, id, s.nodes[id].currentTerm, v);
    BetweenTerm(s, s1, id, v);
    if CaughtUp(s, s1, id, v) {
      steps, s' := first, s1;
    } else {
      AgainReady(c, s, s1, id, v);
      var rest, s2 := CatchUp(c, s1, id, v);
      steps, s' := first + rest, s2;
      PathConcat(s, first, s1, rest, s2);
      BetweenTrans(s, s1, s2, id, v);
      AllReplicateConcat(first, rest, id, s.nodes[id].currentTerm, {v});
    }
  }

  lemma RoundReplicates(steps: seq<Step>, id: Id, t: nat, v: Id)
    requires forall i :: 0 <= i < |steps| ==> Replicates(steps[i], id, t, v)
    ensures AllReplicate(steps, id, t, {v})
  {
    hide Replicates;
    forall i | 0 <= i < |steps| ensures ReplicatesTo(steps[i], id, t, {v}) {
      assert v in {v} && Replicates(steps[i], id, t, v);
    }
  }

  lemma BetweenTerm(s: Cluster, s': Cluster, id: Id, v: Id)
    requires Between(s, s', id, v)
    ensures id in s.nodes && id in s'.nodes && v in s'.nodes
    ensures s'.nodes[id].currentTerm == s.nodes[id].currentTerm && s'.nodes[id].log == s.nodes[id].log
  {
  }

  /** The heartbeat that starts the sends. */
  lemma Beat(c: Config, s: Cluster, id: Id) returns (s': Cluster)
    requires ValidConfig(c) && ProgressInv(c, s) && id in s.nodes && s.nodes[id].role == Leader
    ensures ProgressInv(c, s') && Path(s, [Heartbeat(id)], s') && s'.nodes == s.nodes
    ensures (id, s.nodes[id].currentTerm) in s'.sends
  {
    hide ValidConfig, ProgressInv, Path;
    s' := TakeStep(c, s, Heartbeat(id));
  }

  function LastState(r: Run): Cluster
    requires r.states != []
  {
    r.states[|r.states| - 1]
  }

  /**
   A follower catches up. Every run in which id leads goes on, by a heartbeat and then nothing but
   requests of id to v and their answers, to a state in which v has exactly the leader's log and
   its commits, and the leader, still leading with the same log, knows it. At most one request is
   needed for each entry of the log.
   */
  lemma FollowerCatchesUp(c: Config, r: Run, id: Id, v: Id) returns (r': Run, steps: seq<Step>)
    requires ValidConfig(c) && IsRun(c, r) && r.states != []
    requires v in c.servers && v != id && id in LastState(r).nodes && v in LastState(r).nodes
    requires LastState(r).nodes[id].role == Leader && LastState(r).nodes[v].currentTerm <= LastState(r).nodes[id].currentTerm
    ensures r'.states != [] && Continues(c, r, r', [Heartbeat(id)] + steps, LastState(r'))
    ensures AllReplicate(steps, id, LastState(r).nodes[id].currentTerm, {v}) && |steps| <= 3 * |LastState(r).nodes[id].log|
    ensures && id in LastState(r').nodes && v in LastState(r').nodes && |LastState(r).nodes[id].log| >= 1
            && StillLeads(LastState(r).nodes[id], LastState(r').nodes[id]) && CaughtUp(LastState(r), LastState(r'), id, v)
  {
    hide ValidConfig, ProgressInv, Path, FullyAdvanced, AllReplicate, IsRun, Continues;
    var s := LastState(r);
    LastInv(c, r);
    var s1 := Beat(c, s, id);
    ServerIs(c, s, id);
    LeaderFactsAt(c, s1, id, v);
    var more, s2 := CatchUp(c, s1, id, v);
    PathConcat(s, [Heartbeat(id)], s1, more, s2);
    steps := more;
    r' := PathContinues(c, r, [Heartbeat(id)] + more, s2);
    ContinuesTo(c, r, r', [Heartbeat(id)] + more, s2);
  }

  lemma ContinuesTo(c: Config, r: Run, r': Run, steps: seq<Step>, s: Cluster)
    requires ValidConfig(c) && IsRun(c, r) && Continues(c, r, r', steps, s)
    ensures r'.states != [] && LastState(r') == s
  {
    hide ValidConfig, Enabled, Next;
  }

  lemma LastInv(c: Config, r: Run)
    requires ValidConfig(c) && IsRun(c, r)
    ensures r.states != [] && ProgressInv(c, LastState(r))
  {
    hide ValidConfig, ProgressInv, Enabled, Next;
    ProgressInvAt(c, r, |r.states| - 1);
  }

  lemma ServerIs(c: Config, s: Cluster, id: Id)
    requires ProgressInv(c, s) && id in s.nodes
    ensures id in c.servers
  {
    hide VotesOk, VoteMessagesOk, TallyOk, LeadersOk, ElectorsOk, SendsOk, LogInv, SendInv;
  }

  // ---- committing

  lemma {:induction false} CountAtLeast(peers: seq<Id>, id: Id, m: map<Id, nat>, i: nat, q: set<Id>)
    requires q <= Members(peers) && id !in q && forall v :: v in q ==> Lookup(m, v) >= i
    ensures CountMatching(peers, id, m, i) >= |q|
  {
    if peers == [] {
      assert q == {};
    } else {
      var front, last := peers[..|peers| - 1], peers[|peers| - 1];
      forall v | v in q - {last} ensures v in Members(front) {
        assert v in peers;
      }
      CountAtLeast(front, id, m, i, q - {last});
      if last !in q { assert q - {last} == q; }
    }
  }

  /** Each of vs can be brought up to date. */
  ghost predicate AllCanReplicate(c: Config, s: Cluster, id: Id, vs: set<Id>) {
    forall v :: v in vs ==> CanReplicate(c, s, id, v)
  }

  /** All of vs have the leader's log and what it had committed, and the leader knows it. */
  ghost predicate AllCaughtUp(s: Cluster, s': Cluster, id: Id, vs: set<Id>)
    requires id in s.nodes && id in s'.nodes && |s.nodes[id].log| >= 1
  {
    forall v :: v in vs ==> v in s'.nodes && UpTo(s.nodes[id], s'.nodes[id], v, s'.nodes[v])
  }

  ghost predicate UpTo(n: NodeState, n': NodeState, v: Id, w: NodeState)
    requires |n.log| >= 1
  {
    && w.log == n.log && (w.commitIndex >= n.commitIndex || w.commitIndex >= LastIndex(n.log))
    && Lookup(n'.matchIndex, v) == LastIndex(n.log)
  }

  /** s' follows s with only id and members of vs changed, and the leader still leads. */
  ghost predicate Goes(s: Cluster, s': Cluster, id: Id, vs: set<Id>) {
    && s'.sends == s.sends && s'.nodes.Keys == s.nodes.Keys && id in s.nodes
    && (forall x :: x in s.nodes && x != id && x !in vs ==> s'.nodes[x] == s.nodes[x])
    && StillLeads(s.nodes[id], s'.nodes[id])
    && (forall x :: x in vs ==> x in s.nodes && s'.nodes[x].currentTerm == s.nodes[id].currentTerm)
  }

  lemma CatchUpNext(c: Config, s: Cluster, s1: Cluster, s2: Cluster, id: Id, vs: set<Id>, v: Id)
    requires id in s.nodes && |s.nodes[id].log| >= 1 && id !in vs && v != id && v !in vs
    requires Goes(s, s1, id, vs) && AllCaughtUp(s, s1, id, vs) && Between(s1, s2, id, v) && CaughtUp(s1, s2, id, v)
    ensures Goes(s, s2, id, vs + {v}) && AllCaughtUp(s, s2, id, vs + {v})
  {
    hide FullyAdvanced;
    forall x | x in vs + {v} ensures x in s2.nodes && UpTo(s.nodes[id], s2.nodes[id], x, s2.nodes[x]) {
      if x != v { assert UpTo(s.nodes[id], s1.nodes[id], x, s1.nodes[x]) && s2.nodes[x] == s1.nodes[x]; }
    }
    forall x | x in s.nodes && x != id && x !in vs + {v} ensures s2.nodes[x] == s.nodes[x] {
      assert s1.nodes[x] == s.nodes[x];
    }
    forall x | x in vs + {v} ensures x in s.nodes && s2.nodes[x].currentTerm == s.nodes[id].currentTerm {
      if x != v { assert s2.nodes[x] == s1.nodes[x]; }
    }
  }

  lemma StillReady(c: Config, s: Cluster, s1: Cluster, id: Id, vs: set<Id>, v: Id)
    requires CanReplicate(c, s, id, v) && Goes(s, s1, id, vs)
    ensures CanReplicate(c, s1, id, v) && s1.nodes[id].currentTerm == s.nodes[id].currentTerm
  {
    if v !in vs { assert s1.nodes[v] == s.nodes[v]; }
  }

  lemma {:induction false} CatchUpAll(c: Config, s: Cluster, id: Id, vs: set<Id>) returns (steps: seq<Step>, s': Cluster)
    requires ValidConfig(c) && ProgressInv(c, s) && AllCanReplicate(c, s, id, vs)
    requires id in s.nodes && |s.nodes[id].log| >= 1 && s.nodes[id].role == Leader
    ensures ProgressInv(c, s') && Path(s, steps, s') && AllReplicate(steps, id, s.nodes[id].currentTerm, vs)
    ensures Goes(s, s', id, vs) && AllCaughtUp(s, s', id, vs) && (vs != {} ==> FullyAdvanced(s'.nodes[id]))
    decreases |vs|
  {
    hide ValidConfig, ProgressInv, FullyAdvanced, AllReplicate, CanReplicate, Goes, AllCaughtUp, Between, CaughtUp, Path;
    if vs == {} {
      steps, s' := [], s;
      NoPath(s);
      NothingGoes(s, id);
    } else {
      var v :| v in vs;
      var rest := vs - {v};
      assert CanReplicate(c, s, id, v);
      Ready(c, s, id, v);
      assert forall x :: x in rest ==> CanReplicate(c, s, id, x);
      NotItself(c, s, id, vs);
      var first, s1 := CatchUpAll(c, s, id, rest);
      StillReady(c, s, s1, id, rest, v);
      var more, s2 := CatchUp(c, s1, id, v);
      CatchUpNext(c, s, s1, s2, id, rest, v);
      assert rest + {v} == vs;
      PathConcat(s, first, s1, more, s2);
      Wider(first, id, s.nodes[id].currentTerm, rest, vs);
      Wider(more, id, s.nodes[id].currentTerm, {v}, vs);
      AllReplicateConcat(first, more, id, s.nodes[id].currentTerm, vs);
      BetweenTerm(s1, s2, id, v);
      LastAdvanced(s1, s2, id, v);
      steps, s' := first + more, s2;
    }
  }

  lemma NothingGoes(s: Cluster, id: Id)
    requires id in s.nodes && |s.nodes[id].log| >= 1 && s.nodes[id].role == Leader
    ensures Goes(s, s, id, {}) && AllCaughtUp(s, s, id, {}) && AllReplicate([], id, s.nodes[id].currentTerm, {})
  {
  }

  lemma NoPath(s: Cluster)
    ensures Path(s, [], s)
  {
  }

  lemma Ready(c: Config, s: Cluster, id: Id, v: Id)
    requires CanReplicate(c, s, id, v)
    ensures id in s.nodes && v in s.nodes && v != id
  {
  }

  lemma NotItself(c: Config, s: Cluster, id: Id, vs: set<Id>)
    requires AllCanReplicate(c, s, id, vs)
    ensures id !in vs
  {
  }

  lemma Wider(steps: seq<Step>, id: Id, t: nat, vs: set<Id>, ws: set<Id>)
    requires AllReplicate(steps, id, t, vs) && vs <= ws
    ensures AllReplicate(steps, id, t, ws)
  {
    hide Replicates;
    forall i | 0 <= i < |steps| ensures ReplicatesTo(steps[i], id, t, ws) {
      assert ReplicatesTo(steps[i], id, t, vs);
    }
  }

  lemma LastAdvanced(s: Cluster, s': Cluster, id: Id, v: Id)
    requires id in s.nodes && id in s'.nodes && v in s'.nodes && |s.nodes[id].log| >= 1 && CaughtUp(s, s', id, v)
    ensures FullyAdvanced(s'.nodes[id])
  {
  }

  /** Once enough have the log and its last entry is of the leader's term, all of it is committed. */
  lemma AllCommitted(c: Config, s: Cluster, s': Cluster, id: Id, vs: set<Id>)
    requires id in s.nodes && id in s'.nodes && |s.nodes[id].log| >= 1 && |s'.nodes[id].log| >= 1
    requires LastTerm(s.nodes[id].log) == s.nodes[id].currentTerm && Enough(1 + |vs|, s.nodes[id].peers)
    requires AllCaughtUp(s, s', id, vs) && FullyAdvanced(s'.nodes[id]) && Goes(s, s', id, vs)
    requires ValidConfig(c) && ProgressInv(c, s) && AllCanReplicate(c, s, id, vs)
    ensures s'.nodes[id].commitIndex >= LastIndex(s'.nodes[id].log)
  {
    hide ValidConfig, ProgressInv, AllCanReplicate;
    var n, n' := s.nodes[id], s'.nodes[id];
    NotItself(c, s, id, vs);
    forall v | v in vs ensures v in Members(n'.peers) && Lookup(n'.matchIndex, v) >= LastIndex(n'.log) {
      InPeers(c, s, id, vs, v);
      assert UpTo(n, n', v, s'.nodes[v]);
    }
    CountAtLeast(n'.peers, id, n'.matchIndex, LastIndex(n'.log), vs);
    assert n'.id == id by { OwnName(c, s, id); }
    assert Committable(n', LastIndex(n'.log));
  }

  lemma InPeers(c: Config, s: Cluster, id: Id, vs: set<Id>, v: Id)
    requires ValidConfig(c) && ProgressInv(c, s) && AllCanReplicate(c, s, id, vs) && v in vs && id in s.nodes
    ensures v in s.nodes[id].peers
  {
    hide ValidConfig, ProgressInv;
    LeaderFactsAt(c, s, id, v);
  }

  lemma OwnName(c: Config, s: Cluster, id: Id)
    requires ProgressInv(c, s) && id in s.nodes
    ensures s.nodes[id].id == id
  {
    hide VotesOk, VoteMessagesOk, TallyOk, LeadersOk, ElectorsOk, SendsOk, LogInv, SendInv;
    NodeFacts(c, s, id);
  }

  /** All that n has in its log it has committed and applied. */
  ghost predicate Finished(n: NodeState) {
    |n.log| >= 1 && n.commitIndex >= LastIndex(n.log) && n.lastApplied >= LastIndex(n.log)
  }

  lemma TwoPasses(s: Cluster, s1: Cluster, s2: Cluster, id: Id, vs: set<Id>)
    requires id in s.nodes && |s.nodes[id].log| >= 1 && id !in vs
    requires Goes(s, s1, id, vs) && Goes(s1, s2, id, vs) && AllCaughtUp(s1, s2, id, vs) && SendInv(s2)
    requires s1.nodes[id].commitIndex >= LastIndex(s1.nodes[id].log)
    ensures s2.nodes.Keys == s.nodes.Keys && StillLeads(s.nodes[id], s2.nodes[id]) && Finished(s2.nodes[id])
    ensures forall v :: v in vs ==> v in s2.nodes && s2.nodes[v].log == s.nodes[id].log && Finished(s2.nodes[v])
  {
    hide CanSend;
    forall v | v in vs ensures v in s2.nodes && s2.nodes[v].log == s.nodes[id].log && Finished(s2.nodes[v]) {
      assert UpTo(s1.nodes[id], s2.nodes[id], v, s2.nodes[v]);
      SenderIs(s2, v);
    }
    SenderIs(s2, id);
  }

  /**
   A leader commits. Every run in which id leads, with an entry of its own term last in its log, and
   in which vs are enough followers not beyond that term, goes on to a state in which the leader and
   all of vs have the leader's log, all of it committed and applied.
   */
  lemma LeaderCommits(c: Config, r: Run, id: Id, vs: set<Id>) returns (r': Run, steps: seq<Step>)
    requires ValidConfig(c) && IsRun(c, r) && r.states != [] && id in LastState(r).nodes && vs <= LastState(r).nodes.Keys - {id}
    requires LastState(r).nodes[id].role == Leader && |LastState(r).nodes[id].log| >= 1
    requires LastTerm(LastState(r).nodes[id].log) == LastState(r).nodes[id].currentTerm
    requires vs != {} && Enough(1 + |vs|, LastState(r).nodes[id].peers)
    requires forall v :: v in vs ==> LastState(r).nodes[v].currentTerm <= LastState(r).nodes[id].currentTerm
    ensures r'.states != [] && Continues(c, r, r', [Heartbeat(id)] + steps, LastState(r'))
    ensures AllReplicate(steps, id, LastState(r).nodes[id].currentTerm, vs)
    ensures id in LastState(r').nodes && StillLeads(LastState(r).nodes[id], LastState(r').nodes[id]) && Finished(LastState(r').nodes[id])
    ensures forall v :: v in vs ==> && v in LastState(r').nodes && Finished(LastState(r').nodes[v])
                                    && LastState(r').nodes[v].log == LastState(r).nodes[id].log
  {
    hide ValidConfig, ProgressInv, Path, FullyAdvanced, AllReplicate, IsRun, Continues, Goes, AllCaughtUp, CanReplicate, Enough, StillLeads;
    var s := LastState(r);
    var t := s.nodes[id].currentTerm;
    LastInv(c, r);
    var s0 := Beat(c, s, id);
    AllReady(c, s0, id, vs);
    NotItself(c, s0, id, vs);
    var first, s1 := CatchUpAll(c, s0, id, vs);
    GoesReady(c, s0, s1, id, vs);
    AllCommitted(c, s0, s1, id, vs);
    var second, s2 := CatchUpAll(c, s1, id, vs);
    assert SendInv(s2) by { PartsOf(c, s2); }
    TwoPasses(s0, s1, s2, id, vs);
    steps := first + second;
    AllReplicateConcat(first, second, id, t, vs);
    PathConcat(s0, first, s1, second, s2);
    PathConcat(s, [Heartbeat(id)], s0, steps, s2);
    r' := PathContinues(c, r, [Heartbeat(id)] + steps, s2);
    ContinuesTo(c, r, r', [Heartbeat(id)] + steps, s2);
  }

  lemma PartsOf(c: Config, s: Cluster)
    requires ProgressInv(c, s)
    ensures SendInv(s)
  {
    hide ElectionInv, LogInv, SendInv;
  }

  lemma AllReady(c: Config, s: Cluster, id: Id, vs: set<Id>)
    requires ProgressInv(c, s) && id in s.nodes && s.nodes[id].role == Leader && vs <= s.nodes.Keys - {id}
    requires (id, s.nodes[id].currentTerm) in s.sends
    requires forall v :: v in vs ==> s.nodes[v].currentTerm <= s.nodes[id].currentTerm
    ensures AllCanReplicate(c, s, id, vs)
  {
    hide ProgressInv;
    ServerIs(c, s, id);
    forall v | v in vs ensures CanReplicate(c, s, id, v) { ServerIs(c, s, v); }
  }

  lemma GoesReady(c: Config, s: Cluster, s1: Cluster, id: Id, vs: set<Id>)
    requires AllCanReplicate(c, s, id, vs) && Goes(s, s1, id, vs)
    ensures AllCanReplicate(c, s1, id, vs) && s1.nodes[id].role == Leader && s1.nodes[id].log == s.nodes[id].log
    ensures s1.nodes[id].currentTerm == s.nodes[id].currentTerm && id in s1.nodes
  {
    hide CanReplicate;
    forall v | v in vs ensures CanReplicate(c, s1, id, v) { StillReady(c, s, s1, id, vs, v); }
  }
}
