/**
 What the history of an orderly run looks like: terms grow along every log, a leader's log is the
 log it stood with followed by entries of its own term, and requests carry prefixes of it.
 */
module RaftHistory {
  import opened Bytes
  import opened RaftNode
  import opened RaftCluster
  import opened RaftElection
  import opened RaftLogs

  /** The send goroutine reads the log while the node still leads the term it captured. */
  predicate SendsInTerm(s: Cluster, step: Step)
    requires Enabled(s, step)
  {
    step.SendAppend? ==> s.nodes[step.id].role == Leader && s.nodes[step.id].currentTerm == step.term
  }

  /**
   A follower accepts a request only if its snapshot is no shorter than that of the last request of
   the same leader and term it accepted, as it is when it handles one leader's requests in the order
   their snapshots were taken.
   */
  predicate AcceptsInOrder(s: Cluster, step: Step)
    requires Enabled(s, step)
  {
    step.DeliverAppend? && Accepts(s.nodes[step.ac.to], step.ac.req) && (step.ac.to, step.ac.req.term) in s.h.accepted ==>
      s.h.accepted[(step.ac.to, step.ac.req.term)] <= |step.ac.snapshot|
  }

  /** The order in which messages may act. */
  predicate Orderly(s: Cluster, step: Step)
    requires Enabled(s, step)
  {
    SendsInTerm(s, step) && AcceptsInOrder(s, step)
  }

  ghost predicate IsOrderlyRun(c: Config, r: Run)
    requires ValidConfig(c)
  {
    && IsRun(c, r)
    && forall i :: 0 <= i < |r.steps| ==> Orderly(r.states[i], r.steps[i])
  }

  ghost predicate TermsUpTo(log: Log, t: int) {
    forall i :: 0 <= i < |log| ==> log[i].term <= t
  }

  /** A candidate stands with a log of earlier terms, and keeps it while it is a candidate. */
  ghost predicate StoodWith(nodes: map<Id, NodeState>, logs: map<nat, Log>, t: nat, id: Id, log: Log) {
    && id in nodes && 1 <= t <= nodes[id].currentTerm
    && Canon(logs, log) && TermsUpTo(log, t - 1)
    && (nodes[id].currentTerm == t && nodes[id].role == Candidate ==> nodes[id].log == log)
  }

  ghost predicate CandLogsOk(s: Cluster) {
    && (forall t, id :: (t, id) in s.h.candLog ==>
          StoodWith(s.nodes, s.h.leaderLog, t, id, s.h.candLog[(t, id)]))
    && (forall id :: id in s.nodes && s.nodes[id].role == Candidate ==>
          (s.nodes[id].currentTerm, id) in s.h.candLog)
    && (forall t, v :: (t, v) in s.h.votes ==> (t, s.h.votes[(t, v)]) in s.h.candLog)
  }

  /** The log with which the leader of term t stood. */
  ghost function ElectionLog(h: History, t: nat): Log {
    if t in h.leaderOf && (t, h.leaderOf[t]) in h.candLog then h.candLog[(t, h.leaderOf[t])] else []
  }

  ghost predicate LeaderLogShape(h: History, t: nat) {
    && t in h.leaderLog && t in h.leaderOf && (t, h.leaderOf[t]) in h.candLog
    && Agree(h.leaderLog[t], ElectionLog(h, t), |ElectionLog(h, t)|)
    && forall i :: |ElectionLog(h, t)| <= i < |h.leaderLog[t]| ==> h.leaderLog[t][i].term == t
  }

  ghost predicate LeaderShapesOk(h: History) {
    forall t :: t in h.leaderLog ==> LeaderLogShape(h, t)
  }

  ghost predicate NodeTermsOk(s: Cluster) {
    forall id :: id in s.nodes ==> TermsUpTo(s.nodes[id].log, s.nodes[id].currentTerm)
  }

  ghost predicate VoteCallOk(h: History, req: VoteRequest) {
    && (req.term, req.candidate) in h.candLog
    && var log := h.candLog[(req.term, req.candidate)];
       |log| >= 1 && req.lastLogIndex == LastIndex(log) && req.lastLogTerm == LastTerm(log)
  }

  ghost predicate VoteCallsOk(s: Cluster) {
    forall vc :: vc in s.voteCalls ==> VoteCallOk(s.h, vc.req)
  }

  /** A request of term t carries a prefix of that leader's log, from after its election. */
  ghost predicate CallPrefix(h: History, ac: AppendCall) {
    && ac.req.term in h.leaderLog
    && Agree(h.leaderLog[ac.req.term], ac.snapshot, |ac.snapshot|)
    && |ElectionLog(h, ac.req.term)| <= |ac.snapshot|
  }

  ghost predicate CallPrefixesOk(s: Cluster) {
    forall ac :: ac in s.appendCalls ==> CallPrefix(s.h, ac)
  }

  ghost predicate AcceptedAt(s: Cluster, v: Id, t: nat) {
    && (v, t) in s.h.accepted && v in s.nodes && t in s.h.leaderLog
    && t <= s.nodes[v].currentTerm && s.h.accepted[(v, t)] <= |s.h.leaderLog[t]|
  }

  ghost predicate AcceptedOk(s: Cluster) {
    forall v, t :: (v, t) in s.h.accepted ==> AcceptedAt(s, v, t)
  }

  ghost predicate HistoryInv(s: Cluster) {
    && CandLogsOk(s) && LeaderShapesOk(s.h) && NodeTermsOk(s) && VoteCallsOk(s) && CallPrefixesOk(s) && AcceptedOk(s)
  }

  /** The invariants of the earlier modules and this one. */
  ghost predicate BaseInv(c: Config, s: Cluster) {
    ElectionInv(c, s) && LogInv(s) && HistoryInv(s)
  }

  lemma HistoryInvInit(c: Config)
    requires ValidConfig(c)
    ensures HistoryInv(InitCluster(c))
  {
    hide ValidConfig;
  }

  // ---- changes at one node that keep its log

  /** The node keeps its log, never goes back in term, and only an election makes it a candidate. */
  ghost predicate KeepsLog(n: NodeState, n': NodeState) {
    && n'.log == n.log && n'.currentTerm >= n.currentTerm
    && (n'.role == Candidate ==> n.role == Candidate && n'.currentTerm == n.currentTerm)
  }

  lemma KeepsLogCandLogs(s: Cluster, s': Cluster, id: Id)
    requires CandLogsOk(s) && OnlyNode(s, s', id) && KeepsLog(s.nodes[id], s'.nodes[id])
    requires s'.h.candLog == s.h.candLog && s'.h.leaderLog == s.h.leaderLog && s'.h.votes == s.h.votes
    ensures CandLogsOk(s')
  {
    hide Canon, TermsUpTo;
  }

  lemma KeepsLogNodeTerms(s: Cluster, s': Cluster, id: Id)
    requires NodeTermsOk(s) && OnlyNode(s, s', id) && KeepsLog(s.nodes[id], s'.nodes[id])
    ensures NodeTermsOk(s')
  {
  }

  lemma KeepsLogAccepted(s: Cluster, s': Cluster, id: Id)
    requires AcceptedOk(s) && OnlyNode(s, s', id) && s'.nodes[id].currentTerm >= s.nodes[id].currentTerm
    requires s'.h.accepted == s.h.accepted && s'.h.leaderLog == s.h.leaderLog
    ensures AcceptedOk(s')
  {
  }

  lemma KeepsLogHistory(s: Cluster, s': Cluster, id: Id)
    requires HistoryInv(s) && OnlyNode(s, s', id) && KeepsLog(s.nodes[id], s'.nodes[id])
    requires s'.h == s.h
    requires s'.voteCalls == s.voteCalls && s'.appendCalls == s.appendCalls
    ensures HistoryInv(s')
  {
    hide CandLogsOk, LeaderShapesOk, NodeTermsOk, AcceptedOk, VoteCallOk, CallPrefix, KeepsLog;
    KeepsLogCandLogs(s, s', id);
    KeepsLogNodeTerms(s, s', id);
    assert s'.nodes[id].currentTerm >= s.nodes[id].currentTerm by { KeepsLogTerm(s.nodes[id], s'.nodes[id]); }
    KeepsLogAccepted(s, s', id);
  }

  lemma KeepsLogTerm(n: NodeState, n': NodeState)
    requires KeepsLog(n, n')
    ensures n'.currentTerm >= n.currentTerm
  {
  }

  lemma HandleVoteKeeps(n: NodeState, req: VoteRequest)
    requires |n.log| >= 1
    ensures KeepsLog(n, HandleVote(n, req).0)
  {
  }

  lemma HandleAppendReplyKeeps(n: NodeState, peer: Id, req: AppendRequest, resp: AppendResponse)
    requires |n.log| >= 1
    ensures KeepsLog(n, HandleAppendReply(n, peer, req, resp))
  {
  }

  lemma HandleVoteReplyKeeps(n: NodeState, vr: VoteReply)
    ensures KeepsLog(n, HandleVoteReply(n, vr.voter, vr.term, vr.resp))
  {
  }

  // ---- the steps

  lemma TimeoutCandLogs(c: Config, s: Cluster, id: Id)
    requires NodesOk(c, s) && NodeLogsOk(s) && HistoryInv(s) && Enabled(s, ElectionTimeout(id))
    ensures CandLogsOk(AfterTimeout(s, id))
  {
    hide Canon, VoteCallsOk, CallPrefixesOk, AcceptedOk, LeaderShapesOk, TermsUpTo, NodeOk;
  }

  /** Candidate logs once recorded stay. */
  ghost predicate CandExtends(h: History, h': History) {
    && h'.leaderOf == h.leaderOf && h'.leaderLog == h.leaderLog
    && forall k :: k in h.candLog ==> k in h'.candLog && h'.candLog[k] == h.candLog[k]
  }

  lemma TimeoutExtends(s: Cluster, id: Id)
    requires CandLogsOk(s) && Enabled(s, ElectionTimeout(id))
    ensures CandExtends(s.h, AfterTimeout(s, id).h)
  {
    hide Canon, TermsUpTo;
  }

  lemma CandExtendsShapes(h: History, h': History)
    requires CandExtends(h, h') && LeaderShapesOk(h)
    ensures LeaderShapesOk(h')
    ensures forall ac :: CallPrefix(h, ac) ==> CallPrefix(h', ac)
  {
    hide Agree;
    forall t | t in h.leaderLog ensures LeaderLogShape(h', t) && ElectionLog(h', t) == ElectionLog(h, t) {
      assert LeaderLogShape(h, t);
    }
  }

  lemma TimeoutVoteCalls(c: Config, s: Cluster, id: Id)
    requires NodesOk(c, s) && VoteCallsOk(s) && Enabled(s, ElectionTimeout(id))
    requires CandExtends(s.h, AfterTimeout(s, id).h)
    ensures VoteCallsOk(AfterTimeout(s, id))
  {
    NodeFacts(c, s, id);
  }

  lemma TimeoutRest(s: Cluster, id: Id)
    requires NodeTermsOk(s) && AcceptedOk(s) && Enabled(s, ElectionTimeout(id))
    ensures NodeTermsOk(AfterTimeout(s, id)) && AcceptedOk(AfterTimeout(s, id))
  {
  }

  lemma HistoryInvTimeout(c: Config, s: Cluster, id: Id)
    requires BaseInv(c, s) && Enabled(s, ElectionTimeout(id))
    ensures HistoryInv(AfterTimeout(s, id))
  {
    hide NodesOk, VotesOk, VoteMessagesOk, TallyOk, LeadersOk, ElectorsOk, SendsOk, CandLogsOk, LeaderShapesOk,
      NodeTermsOk, VoteCallsOk, AcceptedOk, NodeLogsOk, LeaderLogsOk, CallsOk, CandExtends, CallPrefix;
    TimeoutCandLogs(c, s, id);
    TimeoutExtends(s, id);
    CandExtendsShapes(s.h, AfterTimeout(s, id).h);
    TimeoutVoteCalls(c, s, id);
    TimeoutRest(s, id);
  }

  lemma HistoryInvVote(c: Config, s: Cluster, vc: VoteCall)
    requires BaseInv(c, s) && Enabled(s, DeliverVote(vc))
    ensures HistoryInv(AfterVote(s, vc))
  {
    hide NodesOk, VotesOk, VoteMessagesOk, TallyOk, LeadersOk, ElectorsOk, SendsOk, CandLogsOk, LeaderShapesOk,
      NodeTermsOk, AcceptedOk, NodeLogsOk, LeaderLogsOk, CallsOk, CallPrefix, HandleVote, KeepsLog;
    HandleVoteKeeps(s.nodes[vc.to], vc.req);
    var s' := AfterVote(s, vc);
    var mid := s.(nodes := s'.nodes);
    KeepsLogHistory(s, mid, vc.to);
    VoteCandLogs(mid, s', vc);
    assert forall ac :: CallPrefix(mid.h, ac) ==> CallPrefix(s'.h, ac) by { CallPrefixFrame(mid.h, s'.h); }
    assert NodeTermsOk(s') by { NodeTermsFrame(mid, s'); }
    assert AcceptedOk(s') by { AcceptedFrame(mid, s'); }
    assert LeaderShapesOk(s'.h) by { ShapesFrame(mid.h, s'.h); }
  }

  lemma VoteCandLogs(s: Cluster, s': Cluster, vc: VoteCall)
    requires CandLogsOk(s) && VoteCallsOk(s) && vc in s.voteCalls
    requires s'.nodes == s.nodes && s'.h.candLog == s.h.candLog && s'.h.leaderLog == s.h.leaderLog
    requires s'.h.votes == s.h.votes || s'.h.votes == s.h.votes[(vc.req.term, vc.to) := vc.req.candidate]
    ensures CandLogsOk(s')
  {
    hide StoodWith;
  }

  lemma CallPrefixFrame(h: History, h': History)
    requires h'.leaderOf == h.leaderOf && h'.leaderLog == h.leaderLog && h'.candLog == h.candLog
    ensures forall ac :: CallPrefix(h, ac) ==> CallPrefix(h', ac)
  {
  }

  lemma VoteCallFrame(h: History, h': History)
    requires h'.candLog == h.candLog
    ensures forall req :: VoteCallOk(h, req) ==> VoteCallOk(h', req)
  {
  }

  lemma ShapesFrame(h: History, h': History)
    requires LeaderShapesOk(h)
    requires h'.leaderOf == h.leaderOf && h'.leaderLog == h.leaderLog && h'.candLog == h.candLog
    ensures LeaderShapesOk(h')
  {
    hide Agree;
  }

  lemma NodeTermsFrame(s: Cluster, s': Cluster)
    requires NodeTermsOk(s) && s'.nodes == s.nodes
    ensures NodeTermsOk(s')
  {
  }

  lemma AcceptedFrame(s: Cluster, s': Cluster)
    requires AcceptedOk(s) && s'.nodes == s.nodes
    requires s'.h.accepted == s.h.accepted && s'.h.leaderLog == s.h.leaderLog
    ensures AcceptedOk(s')
  {
  }

  /** The history of a winning reply, with the election log of the new leader. */
  lemma WinShapes(c: Config, s: Cluster, vr: VoteReply, h': History)
    requires CandLogsOk(s) && LeaderShapesOk(s.h) && vr.candidate in s.nodes
    requires s.nodes[vr.candidate].role == Candidate
    requires var n := s.nodes[vr.candidate];
             && n.currentTerm !in s.h.leaderOf && s.h.leaderOf.Keys == s.h.leaderLog.Keys
             && h'.leaderOf == s.h.leaderOf[n.currentTerm := vr.candidate]
             && h'.leaderLog == s.h.leaderLog[n.currentTerm := n.log]
             && h'.candLog == s.h.candLog
    ensures LeaderShapesOk(h')
    ensures forall ac :: CallPrefix(s.h, ac) ==> CallPrefix(h', ac)
  {
    hide Canon, TermsUpTo, Agree;
    var n := s.nodes[vr.candidate];
    assert StoodWith(s.nodes, s.h.leaderLog, n.currentTerm, vr.candidate, s.h.candLog[(n.currentTerm, vr.candidate)]);
    AgreeRefl(n.log);
    forall t | t in h'.leaderLog ensures LeaderLogShape(h', t) {
      if t != n.currentTerm {
        assert LeaderLogShape(s.h, t);
      }
    }
  }

  lemma AgreeRefl(log: Log)
    ensures Agree(log, log, |log|)
  {
  }

  lemma GrowsCandLogs(s: Cluster, s': Cluster)
    requires CandLogsOk(s) && s'.nodes == s.nodes && s'.h.candLog == s.h.candLog && s'.h.votes == s.h.votes
    requires Grows(s.h.leaderLog, s'.h.leaderLog)
    ensures CandLogsOk(s')
  {
    hide Canon, TermsUpTo, Grows;
    forall t, id | (t, id) in s.h.candLog
      ensures StoodWith(s'.nodes, s'.h.leaderLog, t, id, s'.h.candLog[(t, id)])
    {
      assert StoodWith(s.nodes, s.h.leaderLog, t, id, s.h.candLog[(t, id)]);
      CanonGrows(s.h.leaderLog, s'.h.leaderLog, s.h.candLog[(t, id)]);
    }
  }

  lemma GrowsAccepted(s: Cluster, s': Cluster)
    requires AcceptedOk(s) && s'.nodes == s.nodes && s'.h.accepted == s.h.accepted
    requires Grows(s.h.leaderLog, s'.h.leaderLog)
    ensures AcceptedOk(s')
  {
    forall v, t | (v, t) in s.h.accepted ensures AcceptedAt(s', v, t) {
      assert AcceptedAt(s, v, t);
    }
  }

  lemma HistoryInvVoteReply(c: Config, s: Cluster, vr: VoteReply)
    requires ValidConfig(c) && BaseInv(c, s) && Enabled(s, DeliverVoteReply(vr))
    ensures HistoryInv(AfterVoteReply(s, vr))
  {
    hide ValidConfig, ElectionInv, LogInv, CandLogsOk, LeaderShapesOk, NodeTermsOk, AcceptedOk, VoteCallOk,
      CallPrefix, HandleVoteReply, KeepsLog, Enough, Grows;
    HandleVoteReplyKeeps(s.nodes[vr.candidate], vr);
    var s' := AfterVoteReply(s, vr);
    var mid := s.(nodes := s'.nodes);
    KeepsLogHistory(s, mid, vr.candidate);
    VoteReplyGrows(c, s, vr);
    assert s'.h.candLog == s.h.candLog && s'.h.votes == s.h.votes && s'.h.accepted == s.h.accepted;
    GrowsCandLogs(mid, s');
    GrowsAccepted(mid, s');
    assert NodeTermsOk(s') by { NodeTermsFrame(mid, s'); }
    VoteReplyShapes(c, s, vr);
    VoteCallFrame(mid.h, s'.h);
  }

  lemma VoteReplyShapes(c: Config, s: Cluster, vr: VoteReply)
    requires ValidConfig(c) && ElectionInv(c, s) && CandLogsOk(s) && LeaderShapesOk(s.h)
    requires Enabled(s, DeliverVoteReply(vr))
    ensures LeaderShapesOk(AfterVoteReply(s, vr).h)
    ensures forall ac :: CallPrefix(s.h, ac) ==> CallPrefix(AfterVoteReply(s, vr).h, ac)
  {
    hide ValidConfig, ElectionInv, CandLogsOk, LeaderShapesOk, CallPrefix, HandleVoteReply, Enough;
    var n, h' := s.nodes[vr.candidate], AfterVoteReply(s, vr).h;
    if Wins(n, vr) {
      CountedReplyShape(s, vr);
      WinnerIsFirst(c, s, vr);
      LeaderKeys(c, s);
      WinShapes(c, s, vr, h');
    } else {
      if Counts(n, vr) { CountedReplyShape(s, vr); }
      else if n.role == Candidate { UncountedReplyNoLeader(n, vr); }
      CallPrefixFrame(s.h, h');
      ShapesFrame(s.h, h');
    }
  }

  lemma ProposeShapes(c: Config, s: Cluster, id: Id, data: ByteString)
    requires ElectionInv(c, s) && LeaderShapesOk(s.h) && Enabled(s, Propose(id, data))
    ensures LeaderShapesOk(AfterPropose(s, id, data).h)
    ensures forall ac :: CallPrefix(s.h, ac) ==> CallPrefix(AfterPropose(s, id, data).h, ac)
  {
    hide ElectionInv;
    LeaderFacts(c, s, id);
    var h', t := AfterPropose(s, id, data).h, s.nodes[id].currentTerm;
    assert LeaderLogShape(s.h, t);
    forall u | u in h'.leaderLog ensures LeaderLogShape(h', u) {
      assert LeaderLogShape(s.h, u);
      assert ElectionLog(h', u) == ElectionLog(s.h, u);
    }
  }

  lemma ProposeNodeTerms(s: Cluster, id: Id, data: ByteString)
    requires NodeTermsOk(s) && Enabled(s, Propose(id, data))
    ensures NodeTermsOk(AfterPropose(s, id, data))
  {
  }

  lemma HistoryInvPropose(c: Config, s: Cluster, id: Id, data: ByteString)
    requires ValidConfig(c) && BaseInv(c, s) && Enabled(s, Propose(id, data))
    ensures HistoryInv(AfterPropose(s, id, data))
  {
    hide ValidConfig, ElectionInv, LogInv, CandLogsOk, LeaderShapesOk, NodeTermsOk, AcceptedOk, VoteCallOk,
      CallPrefix, Grows;
    var s' := AfterPropose(s, id, data);
    ProposeShapes(c, s, id, data);
    ProposeNodeTerms(s, id, data);
    LeaderLogsGrow(c, s, Propose(id, data));
    var mid := s.(h := s'.h);
    GrowsCandLogs(s, mid);
    GrowsAccepted(s, mid);
    ProposeRest(mid, s', id);
    VoteCallFrame(s.h, s'.h);
  }

  /** Only a leader's log differs. */
  lemma ProposeRest(s: Cluster, s': Cluster, id: Id)
    requires CandLogsOk(s) && AcceptedOk(s) && OnlyNode(s, s', id) && s'.h == s.h
    requires s'.nodes[id].currentTerm == s.nodes[id].currentTerm
    requires s.nodes[id].role == Leader == s'.nodes[id].role
    ensures CandLogsOk(s') && AcceptedOk(s')
  {
    hide Canon, TermsUpTo;
  }

  lemma HistoryInvSend(c: Config, s: Cluster, id: Id, term: nat, peer: Id)
    requires BaseInv(c, s) && Enabled(s, SendAppend(id, term, peer)) && Orderly(s, SendAppend(id, term, peer))
    ensures HistoryInv(AfterSend(s, id, term, peer))
  {
    hide ElectionInv, LogInv, CandLogsOk, NodeTermsOk, AcceptedOk, VoteCallOk;
    LeaderFacts(c, s, id);
    var s' := AfterSend(s, id, term, peer);
    assert LeaderLogShape(s.h, term);
    assert CallPrefix(s.h, AppendCall(peer, MakeAppend(s.nodes[id], term, peer), s.nodes[id].log));
    hide CallPrefix;
    HistoryInvMessages(s, s');
  }

  lemma HistoryInvMessages(s: Cluster, s': Cluster)
    requires s'.nodes == s.nodes && s'.h == s.h
    requires CandLogsOk(s) && NodeTermsOk(s) && AcceptedOk(s)
    ensures CandLogsOk(s') && NodeTermsOk(s') && AcceptedOk(s')
  {
    hide StoodWith, TermsUpTo;
  }

  /** Terms along a leader's log never exceed its own. */
  lemma LeaderLogTerms(s: Cluster, t: nat)
    requires CandLogsOk(s) && LeaderShapesOk(s.h) && t in s.h.leaderLog
    ensures TermsUpTo(s.h.leaderLog[t], t)
    ensures TermsUpTo(ElectionLog(s.h, t), t - 1)
    ensures 1 <= t
  {
    hide Canon;
    assert LeaderLogShape(s.h, t);
    assert StoodWith(s.nodes, s.h.leaderLog, t, s.h.leaderOf[t], s.h.candLog[(t, s.h.leaderOf[t])]);
  }

  lemma RejectKeeps(n: NodeState, req: AppendRequest)
    requires |n.log| >= 1 && !Accepts(n, req)
    ensures KeepsLog(n, HandleAppend(n, req).0) && !HandleAppend(n, req).1.success
  {
  }

  lemma AcceptShape(logs: map<nat, Log>, n: NodeState, ac: AppendCall)
    requires |n.log| >= 1 && Canon(logs, n.log) && Canon(logs, ac.snapshot) && CallOk(ac) && Accepts(n, ac.req)
    ensures var (n', resp) := HandleAppend(n, ac.req);
            resp.success && n'.log == ac.snapshot && n'.role == Follower && n'.currentTerm == ac.req.term
  {
    AcceptedLogIsSnapshot(logs, n, ac);
  }

  lemma AcceptFacts(s: Cluster, ac: AppendCall)
    requires LogInv(s) && Enabled(s, DeliverAppend(ac)) && Accepts(s.nodes[ac.to], ac.req)
    ensures var s' := AfterAppend(s, ac);
            && OnlyNode(s, s', ac.to)
            && s'.nodes[ac.to].log == ac.snapshot && s'.nodes[ac.to].role == Follower
            && s.nodes[ac.to].currentTerm <= s'.nodes[ac.to].currentTerm == ac.req.term
            && s'.h == s.h.(accepted := s.h.accepted[(ac.to, ac.req.term) := |ac.snapshot|])
            && s' == s.(nodes := s'.nodes, h := s'.h, appendReplies := s'.appendReplies)
            && s'.appendReplies == s.appendReplies + {AppendReply(ac, AppendResponse(ac.req.term, true))}
  {
    hide HandleAppend, Canon, CallOk, LeaderLogsOk;
    AcceptShape(s.h.leaderLog, s.nodes[ac.to], ac);
    AcceptResponse(s.nodes[ac.to], ac.req);
  }

  lemma AcceptResponse(n: NodeState, req: AppendRequest)
    requires |n.log| >= 1 && Accepts(n, req)
    ensures HandleAppend(n, req).1 == AppendResponse(req.term, true)
  {
  }

  lemma HistoryInvAccept(c: Config, s: Cluster, ac: AppendCall)
    requires BaseInv(c, s) && Enabled(s, DeliverAppend(ac)) && Accepts(s.nodes[ac.to], ac.req)
    ensures HistoryInv(AfterAppend(s, ac))
  {
    hide ElectionInv, LogInv, CandLogsOk, LeaderShapesOk, NodeTermsOk, AcceptedOk, VoteCallOk, CallPrefix, AfterAppend;
    AcceptFacts(s, ac);
    var s' := AfterAppend(s, ac);
    AcceptNodeTerms(s, s', ac);
    AcceptCandLogs(s, s', ac);
    AcceptAccepted(s, s', ac);
    CallPrefixFrame(s.h, s'.h);
    ShapesFrame(s.h, s'.h);
    VoteCallFrame(s.h, s'.h);
  }

  lemma AcceptNodeTerms(s: Cluster, s': Cluster, ac: AppendCall)
    requires HistoryInv(s) && ac in s.appendCalls && OnlyNode(s, s', ac.to)
    requires s'.nodes[ac.to].log == ac.snapshot && s'.nodes[ac.to].currentTerm == ac.req.term
    ensures NodeTermsOk(s')
  {
    hide CandLogsOk, LeaderShapesOk, AcceptedOk, VoteCallsOk;
    assert CallPrefix(s.h, ac);
    LeaderLogTerms(s, ac.req.term);
    assert TermsUpTo(ac.snapshot, ac.req.term);
  }

  lemma AcceptCandLogs(s: Cluster, s': Cluster, ac: AppendCall)
    requires CandLogsOk(s) && OnlyNode(s, s', ac.to) && s'.nodes[ac.to].role == Follower
    requires s.nodes[ac.to].currentTerm <= s'.nodes[ac.to].currentTerm
    requires s'.h.candLog == s.h.candLog && s'.h.leaderLog == s.h.leaderLog && s'.h.votes == s.h.votes
    ensures CandLogsOk(s')
  {
    hide Canon, TermsUpTo;
  }

  lemma AcceptAccepted(s: Cluster, s': Cluster, ac: AppendCall)
    requires AcceptedOk(s) && CallPrefixesOk(s) && ac in s.appendCalls && OnlyNode(s, s', ac.to)
    requires s.nodes[ac.to].currentTerm <= s'.nodes[ac.to].currentTerm == ac.req.term
    requires s'.h.leaderLog == s.h.leaderLog
    requires s'.h.accepted == s.h.accepted[(ac.to, ac.req.term) := |ac.snapshot|]
    ensures AcceptedOk(s')
  {
    assert CallPrefix(s.h, ac);
  }

  lemma HistoryInvAppend(c: Config, s: Cluster, ac: AppendCall)
    requires BaseInv(c, s) && Enabled(s, DeliverAppend(ac))
    ensures HistoryInv(AfterAppend(s, ac))
  {
    hide ElectionInv, LogInv, HistoryInv, Accepts, HandleAppend, KeepsLog;
    if Accepts(s.nodes[ac.to], ac.req) {
      HistoryInvAccept(c, s, ac);
    } else {
      RejectKeeps(s.nodes[ac.to], ac.req);
      KeepsLogHistory(s, AfterAppend(s, ac), ac.to);
    }
  }

  lemma HistoryInvAppendReply(c: Config, s: Cluster, ar: AppendReply)
    requires BaseInv(c, s) && Enabled(s, DeliverAppendReply(ar))
    ensures HistoryInv(AfterAppendReply(s, ar))
  {
    hide ElectionInv, LogInv, HistoryInv, HandleAppendReply, KeepsLog;
    HandleAppendReplyKeeps(s.nodes[ar.call.req.leader], ar.call.to, ar.call.req, ar.resp);
    KeepsLogHistory(s, AfterAppendReply(s, ar), ar.call.req.leader);
  }

  lemma HistoryInvHeartbeat(s: Cluster, id: Id)
    requires HistoryInv(s) && Enabled(s, Heartbeat(id))
    ensures HistoryInv(Next(s, Heartbeat(id)))
  {
    hide CandLogsOk, NodeTermsOk, AcceptedOk, LeaderShapesOk, VoteCallOk, CallPrefix;
    HistoryInvMessages(s, Next(s, Heartbeat(id)));
  }

  lemma BaseInvNext(c: Config, s: Cluster, step: Step)
    requires ValidConfig(c) && BaseInv(c, s) && Enabled(s, step) && Orderly(s, step)
    ensures BaseInv(c, Next(s, step))
  {
    hide ValidConfig, ElectionInv, LogInv, HistoryInv, AfterTimeout, AfterVote, AfterVoteReply, AfterPropose,
      AfterSend, AfterAppend, AfterAppendReply;
    ElectionInvNext(c, s, step);
    LogInvNext(c, s, step);
    match step
    case ElectionTimeout(id) => HistoryInvTimeout(c, s, id);
    case DeliverVote(vc) => HistoryInvVote(c, s, vc);
    case DeliverVoteReply(vr) => HistoryInvVoteReply(c, s, vr);
    case Propose(id, data) => HistoryInvPropose(c, s, id, data);
    case Heartbeat(id) => HistoryInvHeartbeat(s, id);
    case SendAppend(id, term, peer) => HistoryInvSend(c, s, id, term, peer);
    case DeliverAppend(ac) => HistoryInvAppend(c, s, ac);
    case DeliverAppendReply(ar) => HistoryInvAppendReply(c, s, ar);
  }
}
