/**
 What every step does to the terms of the nodes and to the indices in their logs
 (internal/raft/raft.go, stepDown and the places it is called from).
 */
module RaftTerms {
  import opened Bytes
  import opened RaftNode
  import opened RaftCluster
  import opened RaftLogs

  // ---- terms

  /** The node a delivery goes to, and the term it carries. */
  function Carries(step: Step): (r: (Id, nat))
    requires step.DeliverVote? || step.DeliverVoteReply? || step.DeliverAppend? || step.DeliverAppendReply?
  {
    match step
    case DeliverVote(vc) => (vc.to, vc.req.term)
    case DeliverVoteReply(vr) => (vr.candidate, vr.resp.term)
    case DeliverAppend(ac) => (ac.to, ac.req.term)
    case DeliverAppendReply(ar) => (ar.call.req.leader, ar.resp.term)
  }

  /** The node still waits for the answer: a candidate or a leader in the term it asked in. */
  predicate Awaits(s: Cluster, step: Step) {
    match step
    case DeliverVoteReply(vr) =>
      vr.candidate in s.nodes && s.nodes[vr.candidate].role == Candidate && s.nodes[vr.candidate].currentTerm == vr.term
    case DeliverAppendReply(ar) =>
      var id := ar.call.req.leader;
      id in s.nodes && s.nodes[id].role == Leader && s.nodes[id].currentTerm == ar.call.req.term
    case _ => step.DeliverVote? || step.DeliverAppend?
  }

  /**
   Terms never fall; a node whose term rises without standing for election becomes a follower that
   has voted for no one but who asked; and a delivery that is awaited leaves the receiver with a term
   no older than the one it carries.
   */
  lemma TermsSpread(s: Cluster, step: Step, id: Id)
    requires Enabled(s, step) && id in s.nodes
    ensures id in Next(s, step).nodes
    ensures var n, n' := s.nodes[id], Next(s, step).nodes[id];
            && n'.currentTerm >= n.currentTerm
            && (n'.currentTerm > n.currentTerm && !step.ElectionTimeout? ==>
                  n'.role == Follower && (n'.votedFor == NO_VOTE || (step.DeliverVote? && n'.votedFor == step.vc.req.candidate)))
            && (Awaits(s, step) && id == Carries(step).0 ==> n'.currentTerm >= Carries(step).1)
            && (step.DeliverAppend? && id == step.ac.to && step.ac.req.term == n'.currentTerm ==> n'.role == Follower)
  {
    hide Grants, Enough, AdvanceCommitIndex, ApplyLog, MakeAppend, BecomeLeader;
    var n := s.nodes[id];
    match step
    case DeliverVoteReply(vr) => LeaderTerm(n.(awaiting := n.awaiting - {vr.voter}, votes := n.votes + 1));
    case DeliverAppend(ac) => AppendTerm(s.nodes[ac.to], ac.req);
    case DeliverAppendReply(ar) => ReplyTerm(s.nodes[ar.call.req.leader], ar);
    case _ =>
  }

  lemma LeaderTerm(n: NodeState)
    ensures BecomeLeader(n).currentTerm == n.currentTerm
  {
  }

  lemma AppendTerm(n: NodeState, req: AppendRequest)
    requires |n.log| >= 1
    ensures var n' := HandleAppend(n, req).0;
            && n'.currentTerm == (if req.term > n.currentTerm then req.term else n.currentTerm)
            && (req.term >= n.currentTerm ==> n'.role == Follower)
            && n'.votedFor == (if req.term > n.currentTerm then NO_VOTE else n.votedFor)
  {
  }

  lemma ReplyTerm(n: NodeState, ar: AppendReply)
    requires |n.log| >= 1
    ensures var n' := HandleAppendReply(n, ar.call.to, ar.call.req, ar.resp);
            if n.role == Leader && n.currentTerm == ar.call.req.term && ar.resp.term > n.currentTerm
            then n' == StepDown(n, ar.resp.term) else n'.currentTerm == n.currentTerm
  {
  }

  // ---- the indices in the logs

  ghost predicate Numbered(log: Log) {
    forall i :: 0 <= i < |log| ==> log[i].index == i
  }

  ghost predicate IndexInv(s: Cluster) {
    && (forall id :: id in s.nodes ==> Numbered(s.nodes[id].log))
    && (forall ac :: ac in s.appendCalls ==> Numbered(ac.snapshot))
  }

  lemma IndexInvInit(c: Config)
    requires ValidConfig(c)
    ensures IndexInv(InitCluster(c))
  {
  }

  lemma IndexInvNext(c: Config, s: Cluster, step: Step)
    requires LogInv(s) && IndexInv(s) && Enabled(s, step)
    ensures IndexInv(Next(s, step))
  {
    hide HandleVote, HandleVoteReply, HandleAppend, HandleAppendReply, Canon, LeaderLogsOk, CallOk, Numbered, MakeAppend;
    match step
    case DeliverVote(vc) => HandleVoteKeepsLog(s.nodes[vc.to], vc.req);
    case DeliverVoteReply(vr) => VoteReplyKeepsLogs(s.nodes[vr.candidate], vr);
    case DeliverAppend(ac) =>
      AcceptedLogIsSnapshot(s.h.leaderLog, s.nodes[ac.to], ac);
    case DeliverAppendReply(ar) =>
      AppendReplyKeepsLog(s.nodes[ar.call.req.leader], ar.call.to, ar.call.req, ar.resp);
    case Propose(id, data) => NumberedNext(s.nodes[id], data);
    case _ =>
  }

  lemma NumberedNext(n: NodeState, data: ByteString)
    requires Numbered(n.log)
    ensures Numbered(RaftNode.Propose(n, data).log)
  {
  }

  /** In every run each entry of each log, at a node or in a request, carries its own position. */
  lemma {:induction false} EntriesAreNumbered(c: Config, r: Run, i: nat)
    requires ValidConfig(c) && IsRun(c, r) && i < |r.states|
    ensures IndexInv(r.states[i])
  {
    hide ValidConfig, LogInv, InitCluster, Enabled, Next, IndexInv;
    if i == 0 {
      IndexInvInit(c);
    } else {
      EntriesAreNumbered(c, r, i - 1);
      LogInvAt(c, r, i - 1);
      IndexInvNext(c, r.states[i - 1], r.steps[i - 1]);
    }
  }
}
