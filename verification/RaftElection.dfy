/**
 Election safety: in every run at most one node leads in a term.
 */
module RaftElection {
  import opened Bytes
  import opened RaftNode
  import opened RaftCluster

  ghost predicate NodeOk(c: Config, id: Id, n: NodeState) {
    n.id == id && id in c.peers && n.peers == c.peers[id] && |n.log| >= 1 && n.log[0] == DUMMY
  }

  ghost predicate NodesOk(c: Config, s: Cluster) {
    && s.nodes.Keys == c.servers == s.h.tally.Keys
    && NO_VOTE !in c.servers
    && forall id :: id in s.nodes ==> NodeOk(c, id, s.nodes[id])
  }

  /** A recorded vote is never of a future term, and the vote of the current term is votedFor. */
  ghost predicate VoteOk(nodes: map<Id, NodeState>, t: nat, v: Id, candidate: Id) {
    && v in nodes && candidate in nodes
    && t <= nodes[v].currentTerm
    && (t == nodes[v].currentTerm ==> nodes[v].votedFor == candidate)
  }

  ghost predicate VotedForOk(votes: map<(nat, Id), Id>, id: Id, n: NodeState) {
    n.votedFor != NO_VOTE ==>
      (n.currentTerm, id) in votes && votes[(n.currentTerm, id)] == n.votedFor
  }

  ghost predicate VotesOk(s: Cluster) {
    && (forall t, v :: (t, v) in s.h.votes ==> VoteOk(s.nodes, t, v, s.h.votes[(t, v)]))
    && (forall id :: id in s.nodes ==> VotedForOk(s.h.votes, id, s.nodes[id]))
  }

  ghost predicate VotedFor(h: History, t: nat, v: Id, candidate: Id) {
    (t, v) in h.votes && h.votes[(t, v)] == candidate
  }

  /** Calls and replies name cluster members, and a granted reply is a recorded vote. */
  ghost predicate VoteMessagesOk(c: Config, s: Cluster) {
    && (forall vc :: vc in s.voteCalls ==> vc.to in c.servers && vc.req.candidate in c.servers)
    && (forall vr :: vr in s.voteReplies ==>
          && vr.candidate in c.servers && vr.voter in c.servers
          && (vr.resp.granted ==> VotedFor(s.h, vr.term, vr.voter, vr.candidate)))
  }

  /** The tally of a candidate counts distinct recorded votes for it. */
  ghost predicate CandidateOk(c: Config, h: History, id: Id, n: NodeState) {
    && id in h.tally
    && n.awaiting <= c.servers && h.tally[id] <= c.servers && h.tally[id] !! n.awaiting
    && |h.tally[id]| == n.votes
    && (forall v :: v in h.tally[id] ==> VotedFor(h, n.currentTerm, v, id))
  }

  ghost predicate TallyOk(c: Config, s: Cluster) {
    forall id :: id in s.nodes && s.nodes[id].role == Candidate ==> CandidateOk(c, s.h, id, s.nodes[id])
  }

  ghost predicate IsQuorum(c: Config, q: set<Id>) {
    q <= c.servers && 2 * |q| > |c.servers|
  }

  /** The leader of a term won a quorum of votes, and leads for as long as it is in that term. */
  ghost predicate WonTerm(c: Config, s: Cluster, t: nat) {
    && t in s.h.leaderOf && t in s.h.electors && t in s.h.leaderLog
    && s.h.leaderOf[t] in s.nodes
    && t <= s.nodes[s.h.leaderOf[t]].currentTerm
    && (t == s.nodes[s.h.leaderOf[t]].currentTerm ==> s.nodes[s.h.leaderOf[t]].role == Leader)
    && IsQuorum(c, s.h.electors[t])
  }

  ghost predicate LeaderOk(h: History, id: Id, n: NodeState) {
    && n.currentTerm in h.leaderOf && h.leaderOf[n.currentTerm] == id
    && n.currentTerm in h.leaderLog && h.leaderLog[n.currentTerm] == n.log
  }

  ghost predicate LeadersOk(c: Config, s: Cluster) {
    && s.h.leaderOf.Keys == s.h.leaderLog.Keys
    && (forall t :: t in s.h.leaderOf ==> WonTerm(c, s, t))
    && (forall id :: id in s.nodes && s.nodes[id].role == Leader ==> LeaderOk(s.h, id, s.nodes[id]))
  }

  ghost predicate ElectorsOk(h: History) {
    forall t, v :: t in h.leaderOf && t in h.electors && v in h.electors[t] ==> VotedFor(h, t, v, h.leaderOf[t])
  }

  /** Requests are sent under the name of the leader of their term, never to that leader. */
  ghost predicate SendsOk(c: Config, s: Cluster) {
    && (forall id, t :: (id, t) in s.sends ==> t in s.h.leaderOf && s.h.leaderOf[t] == id)
    && (forall ac :: ac in s.appendCalls ==>
          && ac.to in c.servers && ac.to != ac.req.leader
          && ac.req.term in s.h.leaderOf && s.h.leaderOf[ac.req.term] == ac.req.leader)
    && (forall ar :: ar in s.appendReplies ==> ar.call in s.appendCalls)
  }

  ghost predicate ElectionInv(c: Config, s: Cluster) {
    && NodesOk(c, s) && VotesOk(s) && VoteMessagesOk(c, s)
    && TallyOk(c, s) && LeadersOk(c, s) && ElectorsOk(s.h) && SendsOk(c, s)
  }

  lemma ElectionInvInit(c: Config)
    requires ValidConfig(c)
    ensures ElectionInv(c, InitCluster(c))
  {
  }

  // ---- quorums

  lemma {:induction false} MembersSize(s: seq<Id>)
    ensures |Members(s)| <= |s|
  {
    if s != [] {
      var front, last := s[..|s| - 1], s[|s| - 1];
      MembersSize(front);
      assert s == front + [last];
      assert Members(s) == Members(front) + {last};
    }
  }

  /** More than (len(peers)+1)/2 members of the cluster are more than half of it. */
  lemma EnoughIsQuorum(c: Config, id: Id, q: set<Id>)
    requires ValidConfig(c) && id in c.servers
    requires q <= c.servers && Enough(|q|, c.peers[id])
    ensures IsQuorum(c, q)
  {
    hide Members;
    MembersSize(c.peers[id]);
    assert |Members(c.peers[id]) + {id}| <= |Members(c.peers[id])| + 1;
  }

  lemma PeersAreServers(c: Config, id: Id)
    requires ValidConfig(c) && id in c.servers
    ensures forall p :: p in c.peers[id] ==> p in c.servers
  {
    assert forall p :: p in c.peers[id] ==> p in Members(c.peers[id]);
  }

  lemma SubsetSize(a: set<Id>, b: set<Id>)
    requires a <= b
    ensures |a| <= |b|
  {
    assert a + (b - a) == b;
  }

  /** Two quorums share a member. */
  lemma QuorumsMeet(c: Config, a: set<Id>, b: set<Id>) returns (v: Id)
    requires IsQuorum(c, a) && IsQuorum(c, b)
    ensures v in a && v in b
  {
    if a * b == {} {
      assert |a + b| == |a| + |b|;
      SubsetSize(a + b, c.servers);
      assert false;
    }
    v :| v in a * b;
  }

  // ---- changes that touch neither votes nor leadership

  /**
   A change that gives no vote, wins nothing and extends no leader's log: the node stays in its
   term, perhaps giving up a candidacy, or moves to a later term as a follower without a vote.
   */
  ghost predicate QuietChange(n: NodeState, n': NodeState) {
    && n'.id == n.id && n'.peers == n.peers && |n'.log| >= 1 && n'.log[0] == DUMMY
    && (if n'.currentTerm == n.currentTerm then
          && n'.votedFor == n.votedFor
          && (|| (n'.role == Follower && n.role != Leader)
              || (n'.role == n.role && n'.votes == n.votes && n'.awaiting <= n.awaiting
                  && (n.role == Leader ==> n'.log == n.log)))
        else
          n'.currentTerm > n.currentTerm && n'.votedFor == NO_VOTE && n'.role == Follower)
  }

  ghost predicate OnlyNode(s: Cluster, s': Cluster, id: Id) {
    id in s.nodes && id in s'.nodes && s'.nodes == s.nodes[id := s'.nodes[id]]
  }

  lemma QuietKeepsVotes(c: Config, s: Cluster, s': Cluster, id: Id)
    requires NodesOk(c, s) && VotesOk(s) && OnlyNode(s, s', id)
    requires QuietChange(s.nodes[id], s'.nodes[id])
    requires s'.h.votes == s.h.votes && s'.h.tally == s.h.tally
    ensures NodesOk(c, s') && VotesOk(s')
  {
    hide NodesOk, VotesOk;
    QuietNodes(c, s, s', id);
    QuietVotes(s, s', id);
  }

  lemma QuietNodes(c: Config, s: Cluster, s': Cluster, id: Id)
    requires NodesOk(c, s) && OnlyNode(s, s', id) && QuietChange(s.nodes[id], s'.nodes[id]) && s'.h.tally == s.h.tally
    ensures NodesOk(c, s')
  {
  }

  lemma QuietVotes(s: Cluster, s': Cluster, id: Id)
    requires VotesOk(s) && OnlyNode(s, s', id) && QuietChange(s.nodes[id], s'.nodes[id]) && s'.h.votes == s.h.votes
    ensures VotesOk(s')
  {
    forall t, v | (t, v) in s.h.votes ensures VoteOk(s'.nodes, t, v, s.h.votes[(t, v)]) {
      assert VoteOk(s.nodes, t, v, s.h.votes[(t, v)]);
    }
    forall x | x in s'.nodes ensures VotedForOk(s'.h.votes, x, s'.nodes[x]) {
      assert VotedForOk(s.h.votes, x, s.nodes[x]);
    }
  }

  lemma QuietKeepsTally(c: Config, s: Cluster, s': Cluster, id: Id)
    requires TallyOk(c, s) && OnlyNode(s, s', id)
    requires QuietChange(s.nodes[id], s'.nodes[id])
    requires s'.h.votes == s.h.votes && s'.h.tally == s.h.tally
    ensures TallyOk(c, s')
  {
  }

  lemma QuietKeepsLeaders(c: Config, s: Cluster, s': Cluster, id: Id)
    requires LeadersOk(c, s) && OnlyNode(s, s', id)
    requires QuietChange(s.nodes[id], s'.nodes[id])
    requires s'.h.leaderOf == s.h.leaderOf
    requires s'.h.leaderLog == s.h.leaderLog && s'.h.electors == s.h.electors
    ensures LeadersOk(c, s')
  {
    hide IsQuorum;
  }

  // ---- the steps

  lemma NodeFacts(c: Config, s: Cluster, id: Id)
    requires NodesOk(c, s) && id in s.nodes
    ensures NodeOk(c, id, s.nodes[id]) && id in c.servers
  {
  }

  lemma TimeoutKeepsNodes(c: Config, s: Cluster, id: Id)
    requires NodesOk(c, s) && Enabled(s, ElectionTimeout(id))
    ensures NodesOk(c, AfterTimeout(s, id))
  {
  }

  lemma TimeoutKeepsVotes(c: Config, s: Cluster, id: Id)
    requires NodesOk(c, s) && VotesOk(s) && Enabled(s, ElectionTimeout(id))
    ensures VotesOk(AfterTimeout(s, id))
  {
    hide NodesOk;
    NodeFacts(c, s, id);
  }

  lemma TimeoutKeepsMessages(c: Config, s: Cluster, id: Id)
    requires ValidConfig(c) && NodesOk(c, s) && VotesOk(s) && VoteMessagesOk(c, s)
    requires Enabled(s, ElectionTimeout(id))
    ensures VoteMessagesOk(c, AfterTimeout(s, id))
  {
    hide ValidConfig, VotesOk;
    PeersAreServers(c, id);
    NewVoteIsFree(c, s, id);
  }

  /** No vote has been recorded for the term an election is about to start. */
  lemma NewVoteIsFree(c: Config, s: Cluster, id: Id)
    requires NodesOk(c, s) && VotesOk(s) && id in s.nodes
    ensures (s.nodes[id].currentTerm + 1, id) !in s.h.votes
    ensures id in c.servers && id in c.peers && s.nodes[id].id == id && s.nodes[id].peers == c.peers[id]
  {
    assert NodeOk(c, id, s.nodes[id]);
  }

  lemma TimeoutKeepsTally(c: Config, s: Cluster, id: Id)
    requires ValidConfig(c) && NodesOk(c, s) && VotesOk(s) && TallyOk(c, s)
    requires Enabled(s, ElectionTimeout(id))
    ensures TallyOk(c, AfterTimeout(s, id))
  {
    hide ValidConfig, NodesOk, VotesOk;
    NewVoteIsFree(c, s, id);
    PeersAreServers(c, id);
    var s' := AfterTimeout(s, id);
    assert CandidateOk(c, s'.h, id, s'.nodes[id]);
  }

  lemma TimeoutKeepsLeaders(c: Config, s: Cluster, id: Id)
    requires NodesOk(c, s) && VotesOk(s) && LeadersOk(c, s) && ElectorsOk(s.h)
    requires Enabled(s, ElectionTimeout(id))
    ensures LeadersOk(c, AfterTimeout(s, id)) && ElectorsOk(AfterTimeout(s, id).h)
  {
    hide IsQuorum, NodesOk, VotesOk;
    NewVoteIsFree(c, s, id);
  }

  lemma TimeoutKeepsElectionInv(c: Config, s: Cluster, id: Id)
    requires ValidConfig(c) && ElectionInv(c, s) && Enabled(s, ElectionTimeout(id))
    ensures ElectionInv(c, AfterTimeout(s, id))
  {
    hide ValidConfig, NodesOk, VotesOk, VoteMessagesOk, TallyOk, LeadersOk, ElectorsOk, SendsOk;
    TimeoutKeepsNodes(c, s, id);
    TimeoutKeepsVotes(c, s, id);
    TimeoutKeepsMessages(c, s, id);
    TimeoutKeepsTally(c, s, id);
    TimeoutKeepsLeaders(c, s, id);
    SendsOkFrame(c, s, AfterTimeout(s, id));
  }

  lemma SendsOkFrame(c: Config, s: Cluster, s': Cluster)
    requires SendsOk(c, s) && s'.sends == s.sends && s'.appendCalls == s.appendCalls
    requires forall ar :: ar in s'.appendReplies ==> ar in s.appendReplies || ar.call in s.appendCalls
    requires forall t :: t in s.h.leaderOf ==> t in s'.h.leaderOf && s'.h.leaderOf[t] == s.h.leaderOf[t]
    ensures SendsOk(c, s')
  {
  }

  lemma VoteMessagesFrame(c: Config, s: Cluster, s': Cluster)
    requires VoteMessagesOk(c, s) && s'.voteCalls == s.voteCalls && s'.voteReplies == s.voteReplies
    requires s'.h.votes == s.h.votes
    ensures VoteMessagesOk(c, s')
  {
  }

  /** A refused vote is a quiet change, a granted one also sets votedFor where it was free. */
  lemma HandleVoteShape(n: NodeState, req: VoteRequest)
    requires |n.log| >= 1 && n.log[0] == DUMMY
    ensures var (n', resp) := HandleVote(n, req);
            && (!resp.granted ==> QuietChange(n, n'))
            && (resp.granted ==>
                  && n'.currentTerm == req.term && n'.votedFor == req.candidate
                  && QuietChange(n, n'.(votedFor := if req.term > n.currentTerm then NO_VOTE else n.votedFor))
                  && (req.term == n.currentTerm ==>
                        n'.role == n.role && n'.votes == n.votes && n'.awaiting == n.awaiting && n'.log == n.log
                        && (n.votedFor == NO_VOTE || n.votedFor == req.candidate)))
  {
  }

  lemma GrantKeepsVotes(c: Config, s: Cluster, vc: VoteCall)
    requires NodesOk(c, s) && VotesOk(s) && VoteMessagesOk(c, s)
    requires Enabled(s, DeliverVote(vc)) && HandleVote(s.nodes[vc.to], vc.req).1.granted
    ensures VotesOk(AfterVote(s, vc))
    ensures forall k :: k in s.h.votes ==>
              k in AfterVote(s, vc).h.votes && AfterVote(s, vc).h.votes[k] == s.h.votes[k]
  {
    hide HandleVote, NodeOk;
    GrantFacts(c, s, vc);
  }

  lemma GrantFacts(c: Config, s: Cluster, vc: VoteCall)
    requires NodesOk(c, s) && VoteMessagesOk(c, s) && Enabled(s, DeliverVote(vc))
    ensures vc.req.candidate in s.nodes && vc.req.candidate != NO_VOTE
    ensures var (n, (n', resp)) := (s.nodes[vc.to], HandleVote(s.nodes[vc.to], vc.req));
            resp.granted ==>
              && n'.currentTerm == vc.req.term >= n.currentTerm && n'.votedFor == vc.req.candidate
              && (vc.req.term == n.currentTerm ==> n.votedFor == NO_VOTE || n.votedFor == vc.req.candidate)
  {
    hide HandleVote;
    NodeFacts(c, s, vc.to);
    HandleVoteShape(s.nodes[vc.to], vc.req);
  }

  lemma GrantKeepsNodes(c: Config, s: Cluster, vc: VoteCall)
    requires NodesOk(c, s) && Enabled(s, DeliverVote(vc)) && HandleVote(s.nodes[vc.to], vc.req).1.granted
    ensures NodesOk(c, AfterVote(s, vc))
  {
    hide HandleVote;
    HandleVoteShape(s.nodes[vc.to], vc.req);
  }

  lemma VoteKeepsMessages(c: Config, s: Cluster, vc: VoteCall)
    requires VoteMessagesOk(c, s) && Enabled(s, DeliverVote(vc))
    requires forall k :: k in s.h.votes ==>
               k in AfterVote(s, vc).h.votes && AfterVote(s, vc).h.votes[k] == s.h.votes[k]
    ensures VoteMessagesOk(c, AfterVote(s, vc))
  {
    hide HandleVote;
  }

  lemma GrantKeepsTally(c: Config, s: Cluster, vc: VoteCall)
    requires NodesOk(c, s) && TallyOk(c, s)
    requires Enabled(s, DeliverVote(vc)) && HandleVote(s.nodes[vc.to], vc.req).1.granted
    requires forall k :: k in s.h.votes ==>
               k in AfterVote(s, vc).h.votes && AfterVote(s, vc).h.votes[k] == s.h.votes[k]
    ensures TallyOk(c, AfterVote(s, vc))
  {
    hide HandleVote;
    HandleVoteShape(s.nodes[vc.to], vc.req);
  }

  lemma GrantKeepsLeaders(c: Config, s: Cluster, vc: VoteCall)
    requires NodesOk(c, s) && LeadersOk(c, s) && ElectorsOk(s.h)
    requires Enabled(s, DeliverVote(vc)) && HandleVote(s.nodes[vc.to], vc.req).1.granted
    requires forall k :: k in s.h.votes ==>
               k in AfterVote(s, vc).h.votes && AfterVote(s, vc).h.votes[k] == s.h.votes[k]
    ensures LeadersOk(c, AfterVote(s, vc)) && ElectorsOk(AfterVote(s, vc).h)
  {
    hide HandleVote, NodesOk, LeadersOk, AfterVote;
    GrantLeaders(c, s, vc);
    GrantShape(s, vc);
  }

  lemma GrantShape(s: Cluster, vc: VoteCall)
    requires Enabled(s, DeliverVote(vc)) && HandleVote(s.nodes[vc.to], vc.req).1.granted
    ensures var s' := AfterVote(s, vc);
            && OnlyNode(s, s', vc.to) && s'.nodes[vc.to] == HandleVote(s.nodes[vc.to], vc.req).0
            && s'.h == s.h.(votes := s.h.votes[(vc.req.term, vc.to) := vc.req.candidate])
  {
    hide HandleVote;
  }

  lemma GrantLeaders(c: Config, s: Cluster, vc: VoteCall)
    requires NodesOk(c, s) && LeadersOk(c, s) && Enabled(s, DeliverVote(vc))
    requires HandleVote(s.nodes[vc.to], vc.req).1.granted
    ensures LeadersOk(c, AfterVote(s, vc))
  {
    hide HandleVote, IsQuorum, NodesOk, AfterVote, LeaderOk, WonTerm;
    var s' := AfterVote(s, vc);
    GrantShape(s, vc);
    NodeFacts(c, s, vc.to);
    HandleVoteShape(s.nodes[vc.to], vc.req);
    forall t | t in s'.h.leaderOf ensures WonTerm(c, s', t) { GrantWon(c, s, s', vc.to, t); }
    forall id | id in s'.nodes && s'.nodes[id].role == Leader ensures LeaderOk(s'.h, id, s'.nodes[id]) {
      assert LeaderOk(s.h, id, s.nodes[id]);
      LeaderSame(s, s', vc.to, id);
    }
  }

  /** A node that is still leader after a vote has kept its term and log. */
  lemma LeaderSame(s: Cluster, s': Cluster, v: Id, id: Id)
    requires OnlyNode(s, s', v) && id in s.nodes && s.nodes[id].role == Leader && LeaderOk(s.h, id, s.nodes[id])
    requires s'.h.leaderOf == s.h.leaderOf && s'.h.leaderLog == s.h.leaderLog
    requires s'.nodes[v].role == Leader ==> s'.nodes[v].currentTerm == s.nodes[v].currentTerm && s'.nodes[v].log == s.nodes[v].log
    requires s'.nodes[id].role == Leader
    ensures LeaderOk(s'.h, id, s'.nodes[id])
  {
  }

  lemma GrantWon(c: Config, s: Cluster, s': Cluster, v: Id, t: nat)
    requires OnlyNode(s, s', v) && WonTerm(c, s, t) && s.nodes[v].currentTerm <= s'.nodes[v].currentTerm
    requires s'.nodes[v].currentTerm == s.nodes[v].currentTerm ==> s'.nodes[v].role == s.nodes[v].role
    requires s'.h.leaderOf == s.h.leaderOf && s'.h.leaderLog == s.h.leaderLog && s'.h.electors == s.h.electors
    ensures WonTerm(c, s', t)
  {
    hide IsQuorum;
  }

  lemma VoteKeepsElectionInv(c: Config, s: Cluster, vc: VoteCall)
    requires ElectionInv(c, s) && Enabled(s, DeliverVote(vc))
    ensures ElectionInv(c, AfterVote(s, vc))
  {
    hide NodesOk, VotesOk, VoteMessagesOk, TallyOk, LeadersOk, ElectorsOk, SendsOk, HandleVote;
    var s' := AfterVote(s, vc);
    NodeFacts(c, s, vc.to);
    if HandleVote(s.nodes[vc.to], vc.req).1.granted {
      GrantKeepsNodes(c, s, vc);
      GrantKeepsVotes(c, s, vc);
      GrantKeepsTally(c, s, vc);
      GrantKeepsLeaders(c, s, vc);
    } else {
      HandleVoteShape(s.nodes[vc.to], vc.req);
      QuietKeepsVotes(c, s, s', vc.to);
      QuietKeepsTally(c, s, s', vc.to);
      QuietKeepsLeaders(c, s, s', vc.to);
    }
    VoteKeepsMessages(c, s, vc);
    SendsOkFrame(c, s, s');
  }

  /** The vote goroutine wins the election. */
  predicate Wins(n: NodeState, vr: VoteReply) {
    Counts(n, vr) && Enough(n.votes + 1, n.peers)
  }

  lemma TallyGrows(c: Config, s: Cluster, vr: VoteReply)
    requires NodesOk(c, s) && TallyOk(c, s) && VoteMessagesOk(c, s)
    requires Enabled(s, DeliverVoteReply(vr)) && Counts(s.nodes[vr.candidate], vr)
    ensures var q := s.h.tally[vr.candidate] + {vr.voter};
            && q <= c.servers && |q| == s.nodes[vr.candidate].votes + 1
            && forall v :: v in q ==> VotedFor(s.h, vr.term, v, vr.candidate)
  {
  }

  /** The heart of election safety: a winner finds its term without a leader. */
  lemma WinnerIsFirst(c: Config, s: Cluster, vr: VoteReply)
    requires ValidConfig(c) && ElectionInv(c, s) && Enabled(s, DeliverVoteReply(vr))
    requires Wins(s.nodes[vr.candidate], vr)
    ensures vr.term !in s.h.leaderOf
    ensures IsQuorum(c, s.h.tally[vr.candidate] + {vr.voter})
  {
    hide ValidConfig, NodesOk, VotesOk, VoteMessagesOk, TallyOk, SendsOk, IsQuorum, Enough;
    var id, t := vr.candidate, vr.term;
    var q := s.h.tally[id] + {vr.voter};
    TallyGrows(c, s, vr);
    NodeFacts(c, s, id);
    EnoughIsQuorum(c, id, q);
    if t in s.h.leaderOf {
      assert WonTerm(c, s, t);
      var v := QuorumsMeet(c, q, s.h.electors[t]);
      assert false;
    }
  }

  lemma UncountedReplyIsQuiet(n: NodeState, vr: VoteReply)
    requires !Counts(n, vr) && |n.log| >= 1 && n.log[0] == DUMMY
    ensures QuietChange(n, HandleVoteReply(n, vr.voter, vr.term, vr.resp))
    ensures n.role == Candidate ==> HandleVoteReply(n, vr.voter, vr.term, vr.resp).role != Leader
  {
  }

  lemma CountedReplyShape(s: Cluster, vr: VoteReply)
    requires Enabled(s, DeliverVoteReply(vr)) && Counts(s.nodes[vr.candidate], vr)
    ensures var n := s.nodes[vr.candidate];
            var s' := AfterVoteReply(s, vr);
            && OnlyNode(s, s', vr.candidate)
            && s'.nodes[vr.candidate] ==
                 n.(votes := n.votes + 1, awaiting := n.awaiting - {vr.voter},
                    role := if Wins(n, vr) then Leader else Candidate,
                    nextIndex := s'.nodes[vr.candidate].nextIndex, matchIndex := s'.nodes[vr.candidate].matchIndex)
            && s' == s.(nodes := s'.nodes, h := s'.h)
            && var tally := s.h.tally[vr.candidate] + {vr.voter};
               s'.h == if Wins(n, vr)
                       then s.h.(tally := s.h.tally[vr.candidate := tally],
                                 leaderOf := s.h.leaderOf[n.currentTerm := vr.candidate],
                                 leaderLog := s.h.leaderLog[n.currentTerm := n.log],
                                 electors := s.h.electors[n.currentTerm := tally])
                       else s.h.(tally := s.h.tally[vr.candidate := tally])
  {
  }

  lemma CountedReplyKeepsVotes(c: Config, s: Cluster, vr: VoteReply)
    requires NodesOk(c, s) && VotesOk(s) && VoteMessagesOk(c, s)
    requires Enabled(s, DeliverVoteReply(vr)) && Counts(s.nodes[vr.candidate], vr)
    ensures NodesOk(c, AfterVoteReply(s, vr)) && VotesOk(AfterVoteReply(s, vr))
    ensures VoteMessagesOk(c, AfterVoteReply(s, vr))
  {
    hide NodesOk, VotesOk, VoteMessagesOk, AfterVoteReply;
    CountedReplyNodes(c, s, vr);
    CountedReplyVotes(c, s, vr);
    CountedReplyMessages(c, s, vr);
  }

  lemma CountedReplyNodes(c: Config, s: Cluster, vr: VoteReply)
    requires NodesOk(c, s) && Enabled(s, DeliverVoteReply(vr)) && Counts(s.nodes[vr.candidate], vr)
    ensures NodesOk(c, AfterVoteReply(s, vr))
  {
    hide AfterVoteReply, HandleVoteReply;
    CountedReplyShape(s, vr);
  }

  lemma CountedReplyVotes(c: Config, s: Cluster, vr: VoteReply)
    requires NodesOk(c, s) && VotesOk(s) && Enabled(s, DeliverVoteReply(vr)) && Counts(s.nodes[vr.candidate], vr)
    ensures VotesOk(AfterVoteReply(s, vr))
  {
    hide NodesOk, AfterVoteReply, HandleVoteReply;
    CountedReplyShape(s, vr);
  }

  lemma CountedReplyMessages(c: Config, s: Cluster, vr: VoteReply)
    requires VoteMessagesOk(c, s) && Enabled(s, DeliverVoteReply(vr)) && Counts(s.nodes[vr.candidate], vr)
    ensures VoteMessagesOk(c, AfterVoteReply(s, vr))
  {
    hide AfterVoteReply, HandleVoteReply;
    CountedReplyShape(s, vr);
  }

  lemma CountedReplyKeepsTally(c: Config, s: Cluster, vr: VoteReply)
    requires NodesOk(c, s) && VoteMessagesOk(c, s) && TallyOk(c, s)
    requires Enabled(s, DeliverVoteReply(vr)) && Counts(s.nodes[vr.candidate], vr)
    ensures TallyOk(c, AfterVoteReply(s, vr))
  {
    hide AfterVoteReply, HandleVoteReply, VoteMessagesOk;
    CountedReplyShape(s, vr);
    TallyGrows(c, s, vr);
  }

  /** A reply that is counted without deciding the election leaves the leaders alone. */
  lemma CountLeaders(c: Config, s: Cluster, vr: VoteReply)
    requires LeadersOk(c, s) && Enabled(s, DeliverVoteReply(vr)) && Counts(s.nodes[vr.candidate], vr)
    requires !Wins(s.nodes[vr.candidate], vr)
    ensures LeadersOk(c, AfterVoteReply(s, vr))
  {
    hide AfterVoteReply, HandleVoteReply, IsQuorum, Enough;
    CountedReplyShape(s, vr);
  }

  lemma WinTerms(c: Config, s: Cluster, vr: VoteReply, t: nat)
    requires LeadersOk(c, s) && Enabled(s, DeliverVoteReply(vr)) && Wins(s.nodes[vr.candidate], vr)
    requires vr.term !in s.h.leaderOf && IsQuorum(c, s.h.tally[vr.candidate] + {vr.voter})
    requires t in AfterVoteReply(s, vr).h.leaderOf
    ensures WonTerm(c, AfterVoteReply(s, vr), t)
  {
    hide AfterVoteReply, HandleVoteReply, IsQuorum, Enough, LeaderOk;
    CountedReplyShape(s, vr);
    if t != vr.term { assert WonTerm(c, s, t); }
  }

  lemma WinLeader(c: Config, s: Cluster, vr: VoteReply, id: Id)
    requires LeadersOk(c, s) && Enabled(s, DeliverVoteReply(vr)) && Wins(s.nodes[vr.candidate], vr)
    requires vr.term !in s.h.leaderOf && id in AfterVoteReply(s, vr).nodes && AfterVoteReply(s, vr).nodes[id].role == Leader
    ensures LeaderOk(AfterVoteReply(s, vr).h, id, AfterVoteReply(s, vr).nodes[id])
  {
    hide AfterVoteReply, HandleVoteReply, Enough, WonTerm;
    CountedReplyShape(s, vr);
    if id != vr.candidate { assert LeaderOk(s.h, id, s.nodes[id]); }
  }

  lemma CountedReplyKeepsLeaders(c: Config, s: Cluster, vr: VoteReply)
    requires ValidConfig(c) && ElectionInv(c, s)
    requires Enabled(s, DeliverVoteReply(vr)) && Counts(s.nodes[vr.candidate], vr)
    ensures LeadersOk(c, AfterVoteReply(s, vr))
  {
    hide AfterVoteReply, HandleVoteReply, ValidConfig, NodesOk, VotesOk, VoteMessagesOk, TallyOk, IsQuorum,
      Enough, ElectorsOk, SendsOk, WonTerm, LeaderOk;
    var s' := AfterVoteReply(s, vr);
    if !Wins(s.nodes[vr.candidate], vr) {
      CountLeaders(c, s, vr);
      return;
    }
    WinnerIsFirst(c, s, vr);
    CountedReplyShape(s, vr);
    forall t | t in s'.h.leaderOf ensures WonTerm(c, s', t) { WinTerms(c, s, vr, t); }
    forall id | id in s'.nodes && s'.nodes[id].role == Leader ensures LeaderOk(s'.h, id, s'.nodes[id]) { WinLeader(c, s, vr, id); }
  }

  lemma CountedReplyKeepsElectors(c: Config, s: Cluster, vr: VoteReply)
    requires ValidConfig(c) && ElectionInv(c, s)
    requires Enabled(s, DeliverVoteReply(vr)) && Counts(s.nodes[vr.candidate], vr)
    ensures ElectorsOk(AfterVoteReply(s, vr).h) && SendsOk(c, AfterVoteReply(s, vr))
  {
    hide AfterVoteReply, HandleVoteReply, ValidConfig, NodesOk, VotesOk, VoteMessagesOk, TallyOk, LeadersOk,
      IsQuorum, Enough, SendsOk;
    CountedReplyShape(s, vr);
    TallyGrows(c, s, vr);
    if Wins(s.nodes[vr.candidate], vr) { WinnerIsFirst(c, s, vr); }
    SendsOkFrame(c, s, AfterVoteReply(s, vr));
  }

  lemma VoteReplyKeepsElectionInv(c: Config, s: Cluster, vr: VoteReply)
    requires ValidConfig(c) && ElectionInv(c, s) && Enabled(s, DeliverVoteReply(vr))
    ensures ElectionInv(c, AfterVoteReply(s, vr))
  {
    hide ValidConfig, NodesOk, VotesOk, VoteMessagesOk, TallyOk, LeadersOk, ElectorsOk, SendsOk, HandleVoteReply;
    var s', id := AfterVoteReply(s, vr), vr.candidate;
    NodeFacts(c, s, id);
    if Counts(s.nodes[id], vr) {
      CountedReplyKeepsVotes(c, s, vr);
      CountedReplyKeepsTally(c, s, vr);
      CountedReplyKeepsLeaders(c, s, vr);
      CountedReplyKeepsElectors(c, s, vr);
    } else {
      UncountedReplyIsQuiet(s.nodes[id], vr);
      QuietKeepsVotes(c, s, s', id);
      QuietKeepsTally(c, s, s', id);
      QuietKeepsLeaders(c, s, s', id);
      VoteMessagesFrame(c, s, s');
      SendsOkFrame(c, s, s');
    }
  }

  lemma ProposeKeepsLeaders(c: Config, s: Cluster, id: Id, data: ByteString)
    requires LeadersOk(c, s) && Enabled(s, Propose(id, data))
    ensures LeadersOk(c, AfterPropose(s, id, data))
  {
    hide IsQuorum;
  }

  lemma ProposeKeepsElectionInv(c: Config, s: Cluster, id: Id, data: ByteString)
    requires ElectionInv(c, s) && Enabled(s, Propose(id, data))
    ensures ElectionInv(c, AfterPropose(s, id, data))
  {
    hide NodesOk, VotesOk, VoteMessagesOk, TallyOk, LeadersOk, ElectorsOk, SendsOk;
    var s' := AfterPropose(s, id, data);
    ProposeKeepsLeaders(c, s, id, data);
    ProposeKeepsVotes(c, s, id, data);
    VoteMessagesFrame(c, s, s');
    SendsOkFrame(c, s, s');
    ElectorsFrame(s.h, s'.h);
  }

  lemma ProposeNodes(c: Config, s: Cluster, id: Id, data: ByteString)
    requires NodesOk(c, s) && Enabled(s, Propose(id, data))
    ensures NodesOk(c, AfterPropose(s, id, data))
  {
  }

  lemma ProposeVotes(s: Cluster, id: Id, data: ByteString)
    requires VotesOk(s) && Enabled(s, Propose(id, data))
    ensures VotesOk(AfterPropose(s, id, data))
  {
  }

  lemma ProposeKeepsVotes(c: Config, s: Cluster, id: Id, data: ByteString)
    requires NodesOk(c, s) && VotesOk(s) && TallyOk(c, s) && Enabled(s, Propose(id, data))
    ensures NodesOk(c, AfterPropose(s, id, data)) && VotesOk(AfterPropose(s, id, data))
    ensures TallyOk(c, AfterPropose(s, id, data))
  {
    hide CandidateOk, NodesOk, VotesOk;
    var s' := AfterPropose(s, id, data);
    ProposeNodes(c, s, id, data);
    ProposeVotes(s, id, data);
    assert forall i :: i in s.nodes && s.nodes[i].role == Candidate && CandidateOk(c, s.h, i, s.nodes[i]) ==>
                         CandidateOk(c, s'.h, i, s.nodes[i]) by { CandidateFrame(c, s.h, s'.h); }
  }

  lemma CandidateFrame(c: Config, h: History, h': History)
    requires h'.votes == h.votes && h'.tally == h.tally
    ensures forall i, n :: CandidateOk(c, h, i, n) ==> CandidateOk(c, h', i, n)
  {
  }

  lemma SendKeepsElectionInv(c: Config, s: Cluster, id: Id, term: nat, peer: Id)
    requires ValidConfig(c) && ElectionInv(c, s) && Enabled(s, SendAppend(id, term, peer))
    ensures ElectionInv(c, AfterSend(s, id, term, peer))
  {
    hide ValidConfig, NodesOk, VotesOk, VoteMessagesOk, TallyOk, LeadersOk, ElectorsOk;
    NodeFacts(c, s, id);
    PeersAreServers(c, id);
    NothingButMessages(c, s, AfterSend(s, id, term, peer));
  }

  /** Sending and receiving alone change nothing that elections depend on. */
  lemma NothingButMessages(c: Config, s: Cluster, s': Cluster)
    requires s'.nodes == s.nodes && s'.h == s.h
    requires s'.voteCalls == s.voteCalls && s'.voteReplies == s.voteReplies
    requires NodesOk(c, s) && VotesOk(s) && VoteMessagesOk(c, s) && TallyOk(c, s) && LeadersOk(c, s)
    ensures NodesOk(c, s') && VotesOk(s') && VoteMessagesOk(c, s') && TallyOk(c, s') && LeadersOk(c, s')
  {
    hide NodeOk, VoteOk, VotedForOk, CandidateOk, LeaderOk, IsQuorum;
  }

  /** A node other than the leader of the request's term changes quietly. */
  lemma HandleAppendIsQuiet(n: NodeState, req: AppendRequest)
    requires |n.log| >= 1 && n.log[0] == DUMMY
    requires n.currentTerm == req.term ==> n.role != Leader
    ensures QuietChange(n, HandleAppend(n, req).0)
    ensures HandleAppend(n, req).1.success == Accepts(n, req)
  {
  }

  lemma AppendKeepsElectionInv(c: Config, s: Cluster, ac: AppendCall)
    requires ElectionInv(c, s) && Enabled(s, DeliverAppend(ac))
    ensures ElectionInv(c, AfterAppend(s, ac))
  {
    hide NodesOk, VotesOk, VoteMessagesOk, TallyOk, LeadersOk, ElectorsOk, SendsOk, HandleAppend;
    var s' := AfterAppend(s, ac);
    NodeFacts(c, s, ac.to);
    ReceiverDoesNotLead(c, s, ac);
    HandleAppendIsQuiet(s.nodes[ac.to], ac.req);
    QuietKeepsVotes(c, s, s', ac.to);
    QuietKeepsTally(c, s, s', ac.to);
    QuietKeepsLeaders(c, s, s', ac.to);
    VoteMessagesFrame(c, s, s');
    SendsOkFrame(c, s, s');
    ElectorsFrame(s.h, s'.h);
  }

  lemma ReceiverDoesNotLead(c: Config, s: Cluster, ac: AppendCall)
    requires LeadersOk(c, s) && SendsOk(c, s) && ac in s.appendCalls && ac.to in s.nodes
    ensures s.nodes[ac.to].currentTerm == ac.req.term ==> s.nodes[ac.to].role != Leader
  {
    hide WonTerm;
  }

  lemma ElectorsFrame(h: History, h': History)
    requires ElectorsOk(h) && h'.votes == h.votes && h'.leaderOf == h.leaderOf && h'.electors == h.electors
    ensures ElectorsOk(h')
  {
  }

  lemma HandleAppendReplyIsQuiet(n: NodeState, peer: Id, req: AppendRequest, resp: AppendResponse)
    requires |n.log| >= 1 && n.log[0] == DUMMY
    ensures QuietChange(n, HandleAppendReply(n, peer, req, resp))
  {
  }

  lemma AppendReplyKeepsElectionInv(c: Config, s: Cluster, ar: AppendReply)
    requires ElectionInv(c, s) && Enabled(s, DeliverAppendReply(ar))
    ensures ElectionInv(c, AfterAppendReply(s, ar))
  {
    hide NodesOk, VotesOk, VoteMessagesOk, TallyOk, LeadersOk, ElectorsOk, SendsOk, HandleAppendReply;
    var s' := AfterAppendReply(s, ar);
    var id := ar.call.req.leader;
    NodeFacts(c, s, id);
    HandleAppendReplyIsQuiet(s.nodes[id], ar.call.to, ar.call.req, ar.resp);
    QuietKeepsVotes(c, s, s', id);
    QuietKeepsTally(c, s, s', id);
    QuietKeepsLeaders(c, s, s', id);
    VoteMessagesFrame(c, s, s');
    SendsOkFrame(c, s, s');
  }

  lemma HeartbeatKeepsElectionInv(c: Config, s: Cluster, id: Id)
    requires ElectionInv(c, s) && Enabled(s, Heartbeat(id))
    ensures ElectionInv(c, Next(s, Heartbeat(id)))
  {
    hide NodesOk, VotesOk, VoteMessagesOk, TallyOk, WonTerm, ElectorsOk;
    NothingButMessages(c, s, Next(s, Heartbeat(id)));
  }

  lemma ElectionInvNext(c: Config, s: Cluster, step: Step)
    requires ValidConfig(c) && ElectionInv(c, s) && Enabled(s, step)
    ensures ElectionInv(c, Next(s, step))
  {
    hide ValidConfig, ElectionInv, AfterTimeout, AfterVote, AfterVoteReply, AfterPropose, AfterSend,
      AfterAppend, AfterAppendReply;
    match step
    case ElectionTimeout(id) => TimeoutKeepsElectionInv(c, s, id);
    case DeliverVote(vc) => VoteKeepsElectionInv(c, s, vc);
    case DeliverVoteReply(vr) => VoteReplyKeepsElectionInv(c, s, vr);
    case Propose(id, data) => ProposeKeepsElectionInv(c, s, id, data);
    case Heartbeat(id) => HeartbeatKeepsElectionInv(c, s, id);
    case SendAppend(id, term, peer) => SendKeepsElectionInv(c, s, id, term, peer);
    case DeliverAppend(ac) => AppendKeepsElectionInv(c, s, ac);
    case DeliverAppendReply(ar) => AppendReplyKeepsElectionInv(c, s, ar);
  }

  lemma {:induction false} ElectionInvAt(c: Config, r: Run, i: nat)
    requires ValidConfig(c) && IsRun(c, r) && i < |r.states|
    ensures ElectionInv(c, r.states[i])
  {
    hide ValidConfig, ElectionInv, InitCluster, Enabled, Next;
    if i == 0 {
      ElectionInvInit(c);
    } else {
      ElectionInvAt(c, r, i - 1);
      ElectionInvNext(c, r.states[i - 1], r.steps[i - 1]);
    }
  }

  lemma VoteReplyKeepsLeaderOf(c: Config, s: Cluster, vr: VoteReply)
    requires ValidConfig(c) && ElectionInv(c, s) && Enabled(s, DeliverVoteReply(vr))
    ensures forall t :: t in s.h.leaderOf ==>
              t in AfterVoteReply(s, vr).h.leaderOf && AfterVoteReply(s, vr).h.leaderOf[t] == s.h.leaderOf[t]
  {
    hide ValidConfig, ElectionInv, HandleVoteReply, Enough;
    var n := s.nodes[vr.candidate];
    if Counts(n, vr) {
      CountedReplyShape(s, vr);
      if Wins(n, vr) { WinnerIsFirst(c, s, vr); }
    } else if n.role == Candidate {
      UncountedReplyNoLeader(n, vr);
    }
  }

  lemma UncountedReplyNoLeader(n: NodeState, vr: VoteReply)
    requires !Counts(n, vr) && n.role == Candidate
    ensures HandleVoteReply(n, vr.voter, vr.term, vr.resp).role != Leader
  {
  }

  /** A step leaves every leader recorded before it in place. */
  lemma StepKeepsLeaderOf(c: Config, s: Cluster, step: Step)
    requires ValidConfig(c) && ElectionInv(c, s) && Enabled(s, step)
    ensures forall t :: t in s.h.leaderOf ==>
              t in Next(s, step).h.leaderOf && Next(s, step).h.leaderOf[t] == s.h.leaderOf[t]
  {
    hide ValidConfig, ElectionInv, AfterVoteReply, HandleVote, HandleAppend, HandleAppendReply;
    if step.DeliverVoteReply? {
      VoteReplyKeepsLeaderOf(c, s, step.vr);
    }
  }

  /** Once a term has a leader, that stays its leader for the rest of the run. */
  lemma {:induction false} LeaderStays(c: Config, r: Run, i: nat, j: nat, t: nat)
    requires ValidConfig(c) && IsRun(c, r) && i <= j < |r.states|
    requires t in r.states[i].h.leaderOf
    ensures t in r.states[j].h.leaderOf && r.states[j].h.leaderOf[t] == r.states[i].h.leaderOf[t]
  {
    hide ValidConfig, ElectionInv, InitCluster, Enabled, Next;
    if i < j {
      LeaderStays(c, r, i, j - 1, t);
      ElectionInvAt(c, r, j - 1);
      StepKeepsLeaderOf(c, r.states[j - 1], r.steps[j - 1]);
    }
  }

  lemma LeaderFacts(c: Config, s: Cluster, id: Id)
    requires ElectionInv(c, s) && id in s.nodes && s.nodes[id].role == Leader
    ensures LeaderOk(s.h, id, s.nodes[id])
  {
    hide NodesOk, VotesOk, VoteMessagesOk, TallyOk, WonTerm, ElectorsOk, SendsOk, LeaderOk;
  }

  /** In every run, two nodes that lead in the same term, at whatever moments, are the same node. */
  lemma ElectionSafety(c: Config, r: Run, i: nat, j: nat, a: Id, b: Id)
    requires ValidConfig(c) && IsRun(c, r) && i < |r.states| && j < |r.states|
    requires a in r.states[i].nodes && r.states[i].nodes[a].role == Leader
    requires b in r.states[j].nodes && r.states[j].nodes[b].role == Leader
    requires r.states[i].nodes[a].currentTerm == r.states[j].nodes[b].currentTerm
    ensures a == b
  {
    hide ValidConfig, IsRun, ElectionInv;
    var t := r.states[i].nodes[a].currentTerm;
    ElectionInvAt(c, r, i);
    ElectionInvAt(c, r, j);
    LeaderFacts(c, r.states[i], a);
    LeaderFacts(c, r.states[j], b);
    if i <= j { LeaderStays(c, r, i, j, t); } else { LeaderStays(c, r, j, i, t); }
  }
}
