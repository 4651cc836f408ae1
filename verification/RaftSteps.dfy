/**
 Building runs of a cluster step by step: what an election, a proposal, a send, an accepted request
 and an acknowledgement make of the nodes they touch, with everything else left as it was.
 */
module RaftSteps {
  import opened Bytes
  import opened RaftNode
  import opened RaftCluster
  import opened RaftElection
  import opened RaftHistory

  // ---- reachable states

  /** The two halves of an orderly run. */
  datatype Half = Sending | Accepting

  predicate Obeys(s: Cluster, step: Step, half: Half)
    requires Enabled(s, step)
  {
    if half == Sending then SendsInTerm(s, step) else AcceptsInOrder(s, step)
  }

  ghost predicate IsHalfRun(c: Config, r: Run, half: Half)
    requires ValidConfig(c)
  {
    IsRun(c, r) && forall i :: 0 <= i < |r.steps| ==> Obeys(r.states[i], r.steps[i], half)
  }

  /** A state some run ends in that keeps one half of the order. */
  ghost predicate Reachable(c: Config, s: Cluster, half: Half)
    requires ValidConfig(c)
  {
    exists r :: IsHalfRun(c, r, half) && |r.states| > 0 && r.states[|r.states| - 1] == s
  }

  lemma ReachInit(c: Config, half: Half)
    requires ValidConfig(c)
    ensures Reachable(c, InitCluster(c), half)
  {
    hide ValidConfig, InitCluster, Enabled, Next;
    var r := Run([InitCluster(c)], []);
    assert IsHalfRun(c, r, half);
  }

  lemma ReachNext(c: Config, s: Cluster, step: Step, half: Half)
    requires ValidConfig(c) && Reachable(c, s, half) && Enabled(s, step) && Obeys(s, step, half)
    ensures Reachable(c, Next(s, step), half)
  {
    hide ValidConfig, InitCluster, Enabled, Next, Obeys;
    var r :| IsHalfRun(c, r, half) && |r.states| > 0 && r.states[|r.states| - 1] == s;
    var r' := Run(r.states + [Next(s, step)], r.steps + [step]);
    assert IsHalfRun(c, r', half);
  }

  ghost predicate Shaped(c: Config, s: Cluster) {
    && s.nodes.Keys == c.servers == s.h.tally.Keys && c.peers.Keys == c.servers
    && forall id :: id in s.nodes ==> id in c.peers && s.nodes[id].id == id && s.nodes[id].peers == c.peers[id]
  }

  lemma InitShape(c: Config)
    requires ValidConfig(c)
    ensures Shaped(c, InitCluster(c)) && InitCluster(c).h.accepted == map[]
    ensures forall id :: id in c.servers ==> InitCluster(c).nodes[id] == NewNode(id, c.peers[id])
  {
  }

  lemma ShapedAt(c: Config, s: Cluster, id: Id)
    requires Shaped(c, s) && id in c.servers
    ensures id in s.nodes && id in c.peers && s.nodes[id].id == id && s.nodes[id].peers == c.peers[id]
  {
  }

  lemma PeersAre(c: Config, id: Id)
    requires ValidConfig(c) && id in c.servers
    ensures id in c.peers && NoDuplicates(c.peers[id])
    ensures forall v :: v in c.servers && v != id ==> v in c.peers[id]
  {
    forall v | v in c.servers && v != id ensures v in c.peers[id] { assert v in Members(c.peers[id]) + {id}; }
  }

  // ---- going on from a state

  /** In s' only these nodes differ from s, and no message has been taken back. */
  ghost predicate Later(c: Config, s: Cluster, s': Cluster, ids: set<Id>) {
    && Shaped(c, s') && s.voteCalls <= s'.voteCalls && s.voteReplies <= s'.voteReplies && s.sends <= s'.sends
    && s.appendCalls <= s'.appendCalls && s.appendReplies <= s'.appendReplies
    && forall x :: x in s.nodes && x !in ids ==> x in s'.nodes && s'.nodes[x] == s.nodes[x]
  }

  lemma LaterAt(c: Config, s: Cluster, s': Cluster, ids: set<Id>, x: Id)
    requires Later(c, s, s', ids) && x in s.nodes && x !in ids
    ensures x in s'.nodes && s'.nodes[x] == s.nodes[x]
  {
  }

  lemma LaterShaped(c: Config, s: Cluster, s': Cluster, ids: set<Id>)
    requires Later(c, s, s', ids)
    ensures Shaped(c, s') && s.sends <= s'.sends && s.appendCalls <= s'.appendCalls && s.voteReplies <= s'.voteReplies
    ensures s.voteCalls <= s'.voteCalls
  {
  }

  lemma LaterTrans(c: Config, s: Cluster, s1: Cluster, s2: Cluster, i: set<Id>, j: set<Id>, k: set<Id>)
    requires Later(c, s, s1, i) && Later(c, s1, s2, j) && i + j <= k
    ensures Later(c, s, s2, k)
  {
    hide Shaped;
  }

  // ---- elections

  lemma Stand(c: Config, s: Cluster, id: Id, half: Half) returns (s': Cluster)
    requires ValidConfig(c) && Shaped(c, s) && id in c.servers && |s.nodes[id].log| >= 1 && Reachable(c, s, half)
    ensures Reachable(c, s', half) && Later(c, s, s', {id}) && s'.h.accepted == s.h.accepted
    ensures id in s'.nodes && s'.nodes[id] == StartElection(s.nodes[id])
    ensures forall v :: v in c.servers && v != id ==> VoteCall(v, VoteRequestOf(s'.nodes[id])) in s'.voteCalls
  {
    hide ValidConfig, Reachable, VoteRequestOf, AfterTimeout, Later;
    PeersAre(c, id);
    ShapedAt(c, s, id);
    ReachNext(c, s, ElectionTimeout(id), half);
    s' := AfterTimeout(s, id);
    StandShape(c, s, id);
    forall v | v in c.servers && v != id ensures VoteCall(v, VoteRequestOf(s'.nodes[id])) in s'.voteCalls {
      StandCalls(s, id, v);
    }
  }

  lemma StandShape(c: Config, s: Cluster, id: Id)
    requires Shaped(c, s) && Enabled(s, ElectionTimeout(id))
    ensures Later(c, s, AfterTimeout(s, id), {id})
    ensures id in AfterTimeout(s, id).nodes && AfterTimeout(s, id).nodes[id] == StartElection(s.nodes[id])
    ensures AfterTimeout(s, id).h.accepted == s.h.accepted
  {
    hide VoteRequestOf;
  }

  lemma StandCalls(s: Cluster, id: Id, v: Id)
    requires Enabled(s, ElectionTimeout(id)) && v in s.nodes[id].peers && v != s.nodes[id].id
    ensures id in AfterTimeout(s, id).nodes && |AfterTimeout(s, id).nodes[id].log| >= 1
    ensures VoteCall(v, VoteRequestOf(AfterTimeout(s, id).nodes[id])) in AfterTimeout(s, id).voteCalls
  {
    var n := StartElection(s.nodes[id]);
    assert v in n.awaiting;
  }

  /** A node that has given its vote in a newer term. */
  function Voted(n: NodeState, t: nat, id: Id): NodeState {
    n.(currentTerm := t, role := Follower, votedFor := id)
  }

  ghost predicate MayVote(s: Cluster, req: VoteRequest, v: Id) {
    && v in s.nodes && |s.nodes[v].log| >= 1 && s.nodes[v].currentTerm < req.term && UpToDate(req, s.nodes[v].log)
    && VoteCall(v, req) in s.voteCalls
  }

  function Ballot(req: VoteRequest, v: Id): VoteReply {
    VoteReply(req.candidate, v, req.term, VoteResponse(req.term, true))
  }

  lemma Grant(c: Config, s: Cluster, req: VoteRequest, v: Id, half: Half) returns (s': Cluster)
    requires ValidConfig(c) && Shaped(c, s) && MayVote(s, req, v) && Reachable(c, s, half)
    ensures Reachable(c, s', half) && Later(c, s, s', {v}) && s'.h.accepted == s.h.accepted
    ensures v in s'.nodes && s'.nodes[v] == Voted(s.nodes[v], req.term, req.candidate) && Ballot(req, v) in s'.voteReplies
  {
    hide ValidConfig, Reachable, UpToDate;
    ReachNext(c, s, DeliverVote(VoteCall(v, req)), half);
    s' := AfterVote(s, VoteCall(v, req));
  }

  lemma {:induction false} GrantAll(c: Config, s: Cluster, req: VoteRequest, vs: seq<Id>, half: Half) returns (s': Cluster)
    requires ValidConfig(c) && Shaped(c, s) && NoDuplicates(vs) && Reachable(c, s, half)
    requires forall v :: v in vs ==> MayVote(s, req, v)
    ensures Reachable(c, s', half) && Later(c, s, s', Members(vs)) && s'.h.accepted == s.h.accepted
    ensures forall v :: v in vs ==> Ballot(req, v) in s'.voteReplies
    ensures forall v :: v in vs ==> v in s.nodes && v in s'.nodes && s'.nodes[v] == Voted(s.nodes[v], req.term, req.candidate)
    decreases |vs|
  {
    hide ValidConfig, Reachable, Shaped, Later, MayVote, Ballot, Voted;
    if vs == [] {
      s' := s;
      LaterRefl(c, s);
      assert Members(vs) == {};
    } else {
      var v, rest := vs[0], vs[1..];
      Cons(vs, 0);
      VoterIn(s, req, v);
      var s1 := Grant(c, s, req, v, half);
      LaterShaped(c, s, s1, {v});
      forall x | x in rest ensures MayVote(s1, req, x) && x in s.nodes && x in s1.nodes && s1.nodes[x] == s.nodes[x] {
        StillVotes(c, s, s1, v, req, x);
      }
      s' := GrantAll(c, s1, req, rest, half);
      LaterShaped(c, s1, s', Members(rest));
      LaterAt(c, s1, s', Members(rest), v);
      LaterTrans(c, s, s1, s', {v}, Members(rest), Members(vs));
    }
  }

  lemma LaterRefl(c: Config, s: Cluster)
    requires Shaped(c, s)
    ensures Later(c, s, s, {})
  {
    hide Shaped;
  }

  lemma VoterIn(s: Cluster, req: VoteRequest, v: Id)
    requires MayVote(s, req, v)
    ensures v in s.nodes
  {
  }

  lemma OtherVoter(vs: seq<Id>, x: Id)
    requires vs != [] && NoDuplicates(vs) && x in vs[1..]
    ensures x != vs[0] && NoDuplicates(vs[1..])
  {
    var i :| 0 <= i < |vs[1..]| && vs[1..][i] == x;
    assert vs[i + 1] == x;
  }

  lemma StillVotes(c: Config, s: Cluster, s': Cluster, v: Id, req: VoteRequest, x: Id)
    requires Later(c, s, s', {v}) && MayVote(s, req, x) && x != v
    ensures x in s.nodes && MayVote(s', req, x) && x in s'.nodes && s'.nodes[x] == s.nodes[x]
  {
    hide Shaped, UpToDate;
  }

  lemma CountNode(n: NodeState, v: Id)
    requires n.role == Candidate
    ensures HandleVoteReply(n, v, n.currentTerm, VoteResponse(n.currentTerm, true))
            == if Enough(n.votes + 1, n.peers) then BecomeLeader(n.(votes := n.votes + 1, awaiting := n.awaiting - {v}))
               else n.(votes := n.votes + 1, awaiting := n.awaiting - {v})
  {
    hide Enough, BecomeLeader;
  }

  /** A granted vote is counted. */
  lemma Count(c: Config, s: Cluster, id: Id, v: Id, half: Half) returns (s': Cluster)
    requires ValidConfig(c) && Shaped(c, s) && id in c.servers && Reachable(c, s, half)
    requires var n := s.nodes[id];
             && n.role == Candidate && v in n.awaiting
             && VoteReply(id, v, n.currentTerm, VoteResponse(n.currentTerm, true)) in s.voteReplies
    ensures Reachable(c, s', half) && Later(c, s, s', {id}) && s'.h.accepted == s.h.accepted && id in s'.nodes
    ensures var n := s.nodes[id].(votes := s.nodes[id].votes + 1, awaiting := s.nodes[id].awaiting - {v});
            s'.nodes[id] == if Enough(n.votes, n.peers) then BecomeLeader(n) else n
  {
    hide ValidConfig, Reachable, HandleVoteReply, BecomeLeader, Enough, Later;
    var n := s.nodes[id];
    CountNode(n, v);
    var vr := VoteReply(id, v, n.currentTerm, VoteResponse(n.currentTerm, true));
    ReachNext(c, s, DeliverVoteReply(vr), half);
    s' := AfterVoteReply(s, vr);
    CountLater(c, s, id, v, s');
  }

  lemma CountLater(c: Config, s: Cluster, id: Id, v: Id, s': Cluster)
    requires Shaped(c, s) && id in c.servers && id in s.nodes
    requires var n := s.nodes[id];
             var vr := VoteReply(id, v, n.currentTerm, VoteResponse(n.currentTerm, true));
             n.role == Candidate && v in n.awaiting && vr in s.voteReplies && s' == AfterVoteReply(s, vr)
    ensures Later(c, s, s', {id})
  {
    hide HandleVoteReply, AfterVoteReply, Enough;
    var n := s.nodes[id];
    CountedReplyShape(s, VoteReply(id, v, n.currentTerm, VoteResponse(n.currentTerm, true)));
  }

  /** The vote of the last of these voters decides the election. */
  lemma {:induction false} CountAll(c: Config, s: Cluster, id: Id, vs: seq<Id>, half: Half) returns (s': Cluster)
    requires ValidConfig(c) && Shaped(c, s) && id in c.servers && Reachable(c, s, half) && vs != [] && NoDuplicates(vs)
    requires var n := s.nodes[id];
             && n.role == Candidate && Enough(n.votes + |vs|, n.peers) && !Enough(n.votes + |vs| - 1, n.peers)
             && forall v :: v in vs ==>
                  v in n.awaiting && VoteReply(id, v, n.currentTerm, VoteResponse(n.currentTerm, true)) in s.voteReplies
    ensures Reachable(c, s', half) && Later(c, s, s', {id}) && s'.h.accepted == s.h.accepted && id in s'.nodes
    ensures var n := s.nodes[id];
            s'.nodes[id] == BecomeLeader(n.(votes := n.votes + |vs|, awaiting := n.awaiting - Members(vs)))
    decreases |vs|
  {
    hide ValidConfig, Reachable, BecomeLeader, Later, Shaped;
    ShapedAt(c, s, id);
    var n, v, rest := s.nodes[id], vs[0], vs[1..];
    Cons(vs, 0);
    s' := Count(c, s, id, v, half);
    if rest != [] {
      var s1 := s';
      LaterShaped(c, s, s1, {id});
      assert n.awaiting - Members(vs) == n.awaiting - {v} - Members(rest);
      s' := CountAll(c, s1, id, rest, half);
      LaterTrans(c, s, s1, s', {id}, {id}, {id});
    }
  }

  /** What a node looks like that has just become leader with the log it had. */
  ghost predicate NewLeader(c: Config, id: Id, n: NodeState, n': NodeState) {
    && n'.role == Leader && n'.currentTerm == n.currentTerm + 1 && n'.log == n.log
    && n'.commitIndex == n.commitIndex && n'.lastApplied == n.lastApplied && n'.applied == n.applied
    && id in c.peers
    && forall p :: p in c.peers[id] ==> Lookup(n'.nextIndex, p) == |n.log| && Lookup(n'.matchIndex, p) == 0
  }

  lemma NewLeaderNode(c: Config, id: Id, n: NodeState, votes: nat, awaiting: set<Id>)
    requires id in c.peers && n.peers == c.peers[id]
    ensures NewLeader(c, id, n, BecomeLeader(StartElection(n).(votes := votes, awaiting := awaiting)))
  {
  }

  /** These voters and the node itself are just enough. */
  predicate JustEnough(c: Config, id: Id, vs: seq<Id>) {
    && NoDuplicates(vs) && id !in vs && id in c.peers && vs != []
    && Enough(1 + |vs|, c.peers[id]) && !Enough(|vs|, c.peers[id])
    && forall v :: v in vs ==> v in c.servers
  }

  ghost predicate WouldVote(s: Cluster, n: NodeState, v: Id) {
    && v in s.nodes && |s.nodes[v].log| >= 1 && s.nodes[v].currentTerm <= n.currentTerm && |n.log| >= 1
    && UpToDate(VoteRequestOf(StartElection(n)), s.nodes[v].log)
  }

  /** A node stands for the next term and gets these votes. */
  lemma Poll(c: Config, s: Cluster, id: Id, vs: seq<Id>, half: Half) returns (s': Cluster)
    requires ValidConfig(c) && Shaped(c, s) && id in c.servers && JustEnough(c, id, vs) && Reachable(c, s, half)
    requires |s.nodes[id].log| >= 1 && forall v :: v in vs ==> WouldVote(s, s.nodes[id], v)
    ensures Reachable(c, s', half) && Later(c, s, s', {id} + Members(vs)) && s'.h.accepted == s.h.accepted
    ensures id in s'.nodes && s'.nodes[id] == StartElection(s.nodes[id])
    ensures forall v :: v in vs ==> v in s'.nodes && s'.nodes[v] == Voted(s.nodes[v], s.nodes[id].currentTerm + 1, id)
    ensures forall v :: v in vs ==> Ballot(VoteRequestOf(s'.nodes[id]), v) in s'.voteReplies
  {
    hide ValidConfig, Reachable, UpToDate, Later, Shaped, Enough, Voted, Ballot;
    ShapedAt(c, s, id);
    var n := StartElection(s.nodes[id]);
    var req := VoteRequestOf(n);
    var s1 := Stand(c, s, id, half);
    LaterShaped(c, s, s1, {id});
    forall v | v in vs ensures MayVote(s1, req, v) && s1.nodes[v] == s.nodes[v] {
      assert WouldVote(s, s.nodes[id], v);
      LaterAt(c, s, s1, {id}, v);
    }
    s' := GrantAll(c, s1, req, vs, half);
    LaterAt(c, s1, s', Members(vs), id);
    LaterTrans(c, s, s1, s', {id}, Members(vs), {id} + Members(vs));
  }

  /** A node wins the next term with just enough votes. */
  lemma Elect(c: Config, s: Cluster, id: Id, vs: seq<Id>, half: Half) returns (s': Cluster)
    requires ValidConfig(c) && Shaped(c, s) && id in c.servers && JustEnough(c, id, vs) && Reachable(c, s, half)
    requires |s.nodes[id].log| >= 1 && forall v :: v in vs ==> WouldVote(s, s.nodes[id], v)
    ensures Reachable(c, s', half) && Later(c, s, s', {id} + Members(vs)) && s'.h.accepted == s.h.accepted
    ensures id in s'.nodes && NewLeader(c, id, s.nodes[id], s'.nodes[id])
    ensures forall v :: v in vs ==> v in s'.nodes && s'.nodes[v] == Voted(s.nodes[v], s.nodes[id].currentTerm + 1, id)
  {
    hide ValidConfig, Reachable, BecomeLeader, Later, Shaped, Enough, Voted, NewLeader, WouldVote;
    ShapedAt(c, s, id);
    PeersAre(c, id);
    var s1 := Poll(c, s, id, vs, half);
    LaterShaped(c, s, s1, {id} + Members(vs));
    s' := CountAll(c, s1, id, vs, half);
    forall v | v in vs ensures v in s'.nodes && s'.nodes[v] == s1.nodes[v] { LaterAt(c, s1, s', {id}, v); }
    NewLeaderNode(c, id, s.nodes[id], 1 + |vs|, StartElection(s.nodes[id]).awaiting - Members(vs));
    LaterTrans(c, s, s1, s', {id} + Members(vs), {id}, {id} + Members(vs));
  }

  // ---- proposals, requests and acknowledgements

  lemma Offer(c: Config, s: Cluster, id: Id, data: ByteString, half: Half) returns (s': Cluster)
    requires ValidConfig(c) && Shaped(c, s) && id in c.servers && s.nodes[id].role == Leader && Reachable(c, s, half)
    ensures Reachable(c, s', half) && Later(c, s, s', {id}) && s'.h.accepted == s.h.accepted
    ensures id in s'.nodes && s'.nodes[id] == RaftNode.Propose(s.nodes[id], data)
  {
    hide ValidConfig, Reachable;
    ReachNext(c, s, Step.Propose(id, data), half);
    s' := AfterPropose(s, id, data);
  }

  /** sendHeartbeats captures the leader's term; its goroutines have not run yet. */
  lemma Capture(c: Config, s: Cluster, id: Id, half: Half) returns (s': Cluster)
    requires ValidConfig(c) && Shaped(c, s) && id in c.servers && s.nodes[id].role == Leader && Reachable(c, s, half)
    ensures Reachable(c, s', half) && Later(c, s, s', {}) && s'.nodes == s.nodes && s'.h == s.h
    ensures (id, s.nodes[id].currentTerm) in s'.sends
  {
    hide ValidConfig, Reachable;
    ReachNext(c, s, Heartbeat(id), half);
    s' := Next(s, Heartbeat(id));
  }

  /** A captured term is sent with whatever log the node has by then. */
  lemma SendCaptured(c: Config, s: Cluster, id: Id, t: nat, v: Id, half: Half) returns (s': Cluster, ac: AppendCall)
    requires ValidConfig(c) && Shaped(c, s) && id in c.servers && v in c.servers && v != id && (id, t) in s.sends
    requires CanSend(s.nodes[id], v) && Reachable(c, s, half)
    requires half == Sending ==> s.nodes[id].role == Leader && s.nodes[id].currentTerm == t
    ensures Reachable(c, s', half) && Later(c, s, s', {}) && s'.nodes == s.nodes && s'.h == s.h && ac in s'.appendCalls
    ensures ac == AppendCall(v, MakeAppend(s.nodes[id], t, v), s.nodes[id].log)
  {
    hide ValidConfig, Reachable, MakeAppend;
    PeersAre(c, id);
    ReachNext(c, s, SendAppend(id, t, v), half);
    s' := AfterSend(s, id, t, v);
    ac := AppendCall(v, MakeAppend(s.nodes[id], t, v), s.nodes[id].log);
  }

  /** A leader sends its log to v. */
  lemma Send(c: Config, s: Cluster, id: Id, v: Id, half: Half) returns (s': Cluster, ac: AppendCall)
    requires ValidConfig(c) && Shaped(c, s) && id in c.servers && v in c.servers && v != id
    requires s.nodes[id].role == Leader && CanSend(s.nodes[id], v) && Reachable(c, s, half)
    ensures Reachable(c, s', half) && Later(c, s, s', {}) && s'.nodes == s.nodes && s'.h == s.h && ac in s'.appendCalls
    ensures ac == AppendCall(v, MakeAppend(s.nodes[id], s.nodes[id].currentTerm, v), s.nodes[id].log)
  {
    hide ValidConfig, Reachable, MakeAppend, Shaped, Later;
    ShapedAt(c, s, id);
    var s1 := Capture(c, s, id, half);
    LaterShaped(c, s, s1, {});
    var s2, call := SendCaptured(c, s1, id, s.nodes[id].currentTerm, v, half);
    s', ac := s2, call;
    LaterTrans(c, s, s1, s', {}, {}, {});
  }

  /** The snapshot is no shorter than the last one accepted of its leader and term. */
  predicate LongEnough(s: Cluster, ac: AppendCall) {
    (ac.to, ac.req.term) in s.h.accepted ==> s.h.accepted[(ac.to, ac.req.term)] <= |ac.snapshot|
  }

  lemma Receive(c: Config, s: Cluster, ac: AppendCall, w: NodeState, resp: AppendResponse, half: Half) returns (s': Cluster)
    requires ValidConfig(c) && Shaped(c, s) && ac.to in c.servers && ac in s.appendCalls && Reachable(c, s, half)
    requires |s.nodes[ac.to].log| >= 1 && HandleAppend(s.nodes[ac.to], ac.req) == (w, resp)
    requires w.id == ac.to && w.peers == s.nodes[ac.to].peers && (half == Accepting ==> LongEnough(s, ac))
    ensures Reachable(c, s', half) && Later(c, s, s', {ac.to}) && ac.to in s'.nodes && s'.nodes[ac.to] == w
    ensures AppendReply(ac, resp) in s'.appendReplies
    ensures s'.h.accepted.Keys <= s.h.accepted.Keys + {(ac.to, ac.req.term)}
  {
    hide ValidConfig, Reachable, HandleAppend, Later;
    ReachNext(c, s, DeliverAppend(ac), half);
    s' := AfterAppend(s, ac);
    ReceiveLater(c, s, ac, w, resp);
  }

  lemma ReceiveLater(c: Config, s: Cluster, ac: AppendCall, w: NodeState, resp: AppendResponse)
    requires Shaped(c, s) && Enabled(s, DeliverAppend(ac)) && HandleAppend(s.nodes[ac.to], ac.req) == (w, resp)
    requires w.id == ac.to && w.peers == s.nodes[ac.to].peers
    ensures Later(c, s, AfterAppend(s, ac), {ac.to})
  {
    hide HandleAppend;
  }

  lemma Acknowledge(c: Config, s: Cluster, ar: AppendReply, half: Half) returns (s': Cluster)
    requires ValidConfig(c) && Shaped(c, s) && ar in s.appendReplies && ar.call.req.leader in c.servers && Reachable(c, s, half)
    requires |s.nodes[ar.call.req.leader].log| >= 1
    ensures var id := ar.call.req.leader;
            && Reachable(c, s', half) && Later(c, s, s', {id}) && s'.h.accepted == s.h.accepted && id in s'.nodes
            && s'.nodes[id] == HandleAppendReply(s.nodes[id], ar.call.to, ar.call.req, ar.resp)
  {
    hide ValidConfig, Reachable, HandleAppendReply, Later;
    ReachNext(c, s, DeliverAppendReply(ar), half);
    s' := AfterAppendReply(s, ar);
    AcknowledgeLater(c, s, ar);
  }

  lemma AcknowledgeLater(c: Config, s: Cluster, ar: AppendReply)
    requires Shaped(c, s) && Enabled(s, DeliverAppendReply(ar))
    ensures Later(c, s, AfterAppendReply(s, ar), {ar.call.req.leader})
  {
    hide HandleAppendReply;
    ReplyKeepsName(s.nodes[ar.call.req.leader], ar);
  }

  lemma ReplyKeepsName(n: NodeState, ar: AppendReply)
    requires |n.log| >= 1
    ensures var n' := HandleAppendReply(n, ar.call.to, ar.call.req, ar.resp);
            n'.id == n.id && n'.peers == n.peers
  {
  }

  // ---- logs of one entry

  /** Where a request of term t with the entry e and commit index k takes a node. */
  function Took(w: NodeState, t: nat, e: Entry, k: nat): NodeState {
    var w1 := (if t > w.currentTerm then StepDown(w, t) else w).(role := Follower, log := [DUMMY, e]);
    if k > w.commitIndex then w1.(commitIndex := 1, lastApplied := 1, applied := [e]) else w1
  }

  lemma TakeOne(n: NodeState, t: nat, v: Id, w: NodeState, e: Entry)
    requires n.log == [DUMMY, e] && Lookup(n.nextIndex, v) == 1 && n.commitIndex <= 1
    requires |w.log| >= 1 && w.log[0] == DUMMY && w.currentTerm <= t
    requires w.commitIndex == 0 ==> w.lastApplied == 0 && w.applied == []
    ensures CanSend(n, v) && HandleAppend(w, MakeAppend(n, t, v)) == (Took(w, t, e, n.commitIndex), AppendResponse(t, true))
    ensures var req := MakeAppend(n, t, v);
            req.term == t && req.leader == n.id && req.prevLogIndex == 0 && |req.entries| == 1
    ensures Took(w, t, e, n.commitIndex).id == w.id && Took(w, t, e, n.commitIndex).peers == w.peers
  {
    var req := MakeAppend(n, t, v);
    assert n.log[1..] == [e];
    TakeIn(w, t, e, req);
  }

  lemma TakeIn(w: NodeState, t: nat, e: Entry, req: AppendRequest)
    requires |w.log| >= 1 && w.log[0] == DUMMY && w.currentTerm <= t && req.leaderCommit <= 1
    requires req.term == t && req.prevLogIndex == 0 && req.prevLogTerm == 0 && req.entries == [e]
    requires w.commitIndex == 0 ==> w.lastApplied == 0 && w.applied == []
    ensures HandleAppend(w, req) == (Took(w, t, e, req.leaderCommit), AppendResponse(t, true))
  {
    var w1 := if t > w.currentTerm then StepDown(w, t) else w;
    assert w1.log[..1] + [e] == [DUMMY, e];
    assert [DUMMY, e][1..2] == [e] && [] + [e] == [e];
  }

  /** A node takes the one entry of a sender's log. */
  lemma Take(c: Config, s: Cluster, id: Id, t: nat, ac: AppendCall, e: Entry, n: NodeState, half: Half) returns (s': Cluster)
    requires ValidConfig(c) && Shaped(c, s) && ac.to in c.servers && ac in s.appendCalls && Reachable(c, s, half)
    requires n.log == [DUMMY, e] && Lookup(n.nextIndex, ac.to) == 1 && n.commitIndex <= 1 && n.id == id
    requires ac == AppendCall(ac.to, MakeAppend(n, t, ac.to), n.log)
    requires var w := s.nodes[ac.to];
             && |w.log| >= 1 && w.log[0] == DUMMY && w.currentTerm <= t
             && (w.commitIndex == 0 ==> w.lastApplied == 0 && w.applied == [])
    requires half == Accepting ==> (ac.to, t) !in s.h.accepted
    ensures Reachable(c, s', half) && Later(c, s, s', {ac.to}) && ac.to in s'.nodes
    ensures s'.nodes[ac.to] == Took(s.nodes[ac.to], t, e, n.commitIndex)
    ensures AppendReply(ac, AppendResponse(t, true)) in s'.appendReplies
    ensures s'.h.accepted.Keys <= s.h.accepted.Keys + {(ac.to, t)}
  {
    hide ValidConfig, Reachable, HandleAppend, MakeAppend, Later, Shaped, Took, CanSend;
    ShapedAt(c, s, ac.to);
    TakeOne(n, t, ac.to, s.nodes[ac.to], e);
    s' := Receive(c, s, ac, Took(s.nodes[ac.to], t, e, n.commitIndex), AppendResponse(t, true), half);
  }

  /** A leader of the one entry e that the nodes in m have acknowledged, too few to commit it. */
  ghost predicate Gathering(c: Config, id: Id, n: NodeState, e: Entry, m: set<Id>) {
    && n.id == id && n.role == Leader && n.log == [DUMMY, e] && n.currentTerm == e.term && id in c.peers && n.peers == c.peers[id]
    && n.commitIndex == 0 && n.lastApplied == 0 && n.applied == []
    && forall p :: p in c.peers[id] ==>
         Lookup(n.nextIndex, p) == (if p in m then 2 else 1) && Lookup(n.matchIndex, p) == if p in m then 1 else 0
  }

  /** It has committed and applied the entry. */
  ghost predicate Committed(c: Config, id: Id, n: NodeState, e: Entry, m: set<Id>) {
    && n.id == id && n.role == Leader && n.log == [DUMMY, e] && n.currentTerm == e.term && id in c.peers
    && n.commitIndex == 1 && n.applied == [e]
    && forall p :: p in c.peers[id] && p !in m ==> Lookup(n.nextIndex, p) == 1
  }

  lemma LastFresh(ps: seq<Id>, m: set<Id>)
    requires ps != [] && NoDuplicates(ps) && m <= Members(ps)
    ensures var front, last := ps[..|ps| - 1], ps[|ps| - 1];
            NoDuplicates(front) && m - {last} <= Members(front) && last !in front && forall p :: p in front ==> p in ps
  {
    assert ps == ps[..|ps| - 1] + [ps[|ps| - 1]];
  }

  lemma {:induction false} CountIs(ps: seq<Id>, id: Id, match_: map<Id, nat>, m: set<Id>)
    requires NoDuplicates(ps) && m <= Members(ps) && id !in m
    requires forall p :: p in ps ==> Lookup(match_, p) == if p in m then 1 else 0
    ensures CountMatching(ps, id, match_, 1) == |m|
  {
    hide Lookup, Members, NoDuplicates;
    if ps == [] {
      assert m == {} by { NoMembers(m); }
    } else {
      var front, last := ps[..|ps| - 1], ps[|ps| - 1];
      LastFresh(ps, m);
      CountIs(front, id, match_, m - {last});
      if last in m { assert |m| == |m - {last}| + 1; } else { assert m - {last} == m; }
    }
  }

  lemma NoMembers(m: set<Id>)
    requires m <= Members([])
    ensures m == {}
  {
  }

  lemma AckFields(c: Config, id: Id, n: NodeState, e: Entry, m: set<Id>, v: Id)
    requires Gathering(c, id, n, e, m) && v in c.peers[id] && v !in m
    ensures Gathering(c, id, n.(matchIndex := n.matchIndex[v := 1], nextIndex := n.nextIndex[v := 2]), e, m + {v})
  {
  }

  lemma AckNode(c: Config, id: Id, n: NodeState, e: Entry, m: set<Id>, v: Id, req: AppendRequest)
    requires Gathering(c, id, n, e, m) && NoDuplicates(c.peers[id]) && m <= Members(c.peers[id]) && id !in m
    requires v in c.peers[id] && v != id && v !in m && req.prevLogIndex == 0 && |req.entries| == 1 && req.term == e.term
    ensures var n' := HandleAppendReply(n, v, req, AppendResponse(e.term, true));
            if Enough(2 + |m|, c.peers[id]) then Committed(c, id, n', e, m + {v}) else Gathering(c, id, n', e, m + {v})
  {
    hide Enough, Members, NoDuplicates, CountMatching;
    var n1 := n.(matchIndex := n.matchIndex[v := 1], nextIndex := n.nextIndex[v := 2]);
    AckFields(c, id, n, e, m, v);
    assert m + {v} <= Members(c.peers[id]) by { InMembers(c.peers[id], v); }
    CountIs(c.peers[id], id, n1.matchIndex, m + {v});
    assert |m + {v}| == |m| + 1;
    Advance(c, id, n1, e, m + {v});
  }

  lemma InMembers(ps: seq<Id>, v: Id)
    requires v in ps
    ensures v in Members(ps)
  {
  }

  lemma Advance(c: Config, id: Id, n: NodeState, e: Entry, m: set<Id>)
    requires Gathering(c, id, n, e, m) && CountMatching(c.peers[id], id, n.matchIndex, 1) == |m|
    ensures var n' := AdvanceCommitIndex(n); if Enough(1 + |m|, c.peers[id]) then Committed(c, id, n', e, m) else n' == n
  {
    hide Enough, CountMatching;
    assert ScanCommit(n, 1) == if Committable(n, 1) then 1 else 0;
    assert n.log[1..2] == [e] && [] + [e] == [e];
  }

  /** One more follower takes the leader's entry and acknowledges it. */
  lemma AckOne(c: Config, s: Cluster, id: Id, v: Id, e: Entry, m: set<Id>, half: Half) returns (s': Cluster)
    requires ValidConfig(c) && Shaped(c, s) && id in c.servers && v in c.servers && v != id && v !in m && Reachable(c, s, half)
    requires id in c.peers && m <= Members(c.peers[id]) && id !in m && Gathering(c, id, s.nodes[id], e, m)
    requires CanTake(s, v, e.term) && (half == Accepting ==> (v, e.term) !in s.h.accepted)
    ensures Reachable(c, s', half) && Later(c, s, s', {id, v}) && id in s'.nodes && v in s'.nodes
    ensures if Enough(2 + |m|, c.peers[id]) then Committed(c, id, s'.nodes[id], e, m + {v})
            else Gathering(c, id, s'.nodes[id], e, m + {v})
    ensures s'.nodes[v] == Took(s.nodes[v], e.term, e, 0)
    ensures s'.h.accepted.Keys <= s.h.accepted.Keys + {(v, e.term)}
  {
    hide ValidConfig, Reachable, HandleAppendReply, HandleAppend, Later, Shaped, MakeAppend, Took, Enough, Committed, Gathering, CanSend;
    ShapedAt(c, s, id);
    var n := s.nodes[id];
    PeersAre(c, id);
    GatheringNext(c, id, n, e, m, v);
    TakeOne(n, e.term, v, s.nodes[v], e);
    var s1, ac := Send(c, s, id, v, half);
    LaterShaped(c, s, s1, {});
    var s2 := Take(c, s1, id, e.term, ac, e, n, half);
    LaterShaped(c, s1, s2, {v});
    LaterAt(c, s1, s2, {v}, id);
    AckNode(c, id, n, e, m, v, ac.req);
    s' := Acknowledge(c, s2, AppendReply(ac, AppendResponse(e.term, true)), half);
    LaterAt(c, s2, s', {id}, v);
    LaterTrans(c, s, s1, s2, {}, {v}, {v});
    LaterTrans(c, s, s2, s', {v}, {id}, {id, v});
  }

  ghost predicate CanTake(s: Cluster, v: Id, t: nat) {
    && v in s.nodes && |s.nodes[v].log| >= 1 && s.nodes[v].log[0] == DUMMY && s.nodes[v].currentTerm <= t
    && s.nodes[v].commitIndex == 0 && s.nodes[v].lastApplied == 0 && s.nodes[v].applied == []
  }

  lemma GatheringNext(c: Config, id: Id, n: NodeState, e: Entry, m: set<Id>, v: Id)
    requires Gathering(c, id, n, e, m) && v in c.peers[id] && v !in m
    ensures Lookup(n.nextIndex, v) == 1 && n.role == Leader && n.log == [DUMMY, e] && n.currentTerm == e.term && n.id == id
    ensures n.commitIndex == 0
  {
  }

  /** The nodes in m have acknowledged the entry, and with those in vs there are just enough. */
  ghost predicate AckReady(c: Config, s: Cluster, id: Id, vs: seq<Id>, e: Entry, m: set<Id>, half: Half) {
    && Shaped(c, s) && id in c.servers && id !in vs && vs != [] && NoDuplicates(vs)
    && id in c.peers && m <= Members(c.peers[id]) && id !in m && Gathering(c, id, s.nodes[id], e, m)
    && Enough(1 + |m| + |vs|, c.peers[id]) && !Enough(|m| + |vs|, c.peers[id])
    && forall v :: v in vs ==> AckFrom(c, s, v, e, m, half)
  }

  ghost predicate AckFrom(c: Config, s: Cluster, v: Id, e: Entry, m: set<Id>, half: Half) {
    v in c.servers && v !in m && CanTake(s, v, e.term) && (half == Accepting ==> (v, e.term) !in s.h.accepted)
  }

  lemma AckStep(c: Config, s: Cluster, id: Id, vs: seq<Id>, e: Entry, m: set<Id>, half: Half) returns (s': Cluster)
    requires ValidConfig(c) && AckReady(c, s, id, vs, e, m, half) && Reachable(c, s, half)
    ensures Reachable(c, s', half) && Later(c, s, s', {id, vs[0]}) && id in s'.nodes
    ensures if vs[1..] == [] then Committed(c, id, s'.nodes[id], e, m + {vs[0]})
            else AckReady(c, s', id, vs[1..], e, m + {vs[0]}, half)
    ensures vs[0] in s.nodes && vs[0] in s'.nodes && s'.nodes[vs[0]] == Took(s.nodes[vs[0]], e.term, e, 0)
    ensures s'.h.accepted.Keys <= s.h.accepted.Keys + {(vs[0], e.term)}
  {
    hide ValidConfig, Reachable, Later, Took, Committed, Gathering, CanTake, Enough, Members, NoDuplicates, Shaped;
    var v, rest := vs[0], vs[1..];
    Cons(vs, e.term);
    assert AckFrom(c, s, v, e, m, half);
    TakerIn(s, v, e.term);
    MoreThan(m, v, |rest|, c.peers[id]);
    InPeers(c, id, m, v);
    s' := AckOne(c, s, id, v, e, m, half);
    LaterShaped(c, s, s', {id, v});
    forall x | x in rest ensures AckFrom(c, s', x, e, m + {v}, half) {
      assert AckFrom(c, s, x, e, m, half);
      StillTakes(c, s, s', {id, v}, x, e.term);
    }
  }

  /** With the last of these followers the entry is committed. */
  lemma {:induction false} AckAll(c: Config, s: Cluster, id: Id, vs: seq<Id>, e: Entry, m: set<Id>, half: Half) returns (s': Cluster)
    requires ValidConfig(c) && AckReady(c, s, id, vs, e, m, half) && Reachable(c, s, half)
    ensures Reachable(c, s', half) && Later(c, s, s', {id} + Members(vs)) && id in s'.nodes
    ensures Committed(c, id, s'.nodes[id], e, m + Members(vs))
    ensures s'.h.accepted.Keys <= s.h.accepted.Keys + Calls(vs, e.term)
    decreases |vs|
  {
    hide ValidConfig, Reachable, Later, Committed, AckReady, Calls, Members, NoDuplicates, Took;
    AckReadyList(c, s, id, vs, e, m, half);
    Cons(vs, e.term);
    var v, rest := vs[0], vs[1..];
    var s1 := AckStep(c, s, id, vs, e, m, half);
    if rest == [] {
      s' := s1;
      LaterWider(c, s, s1, {id, v}, {id} + Members(vs));
    } else {
      s' := AckAll(c, s1, id, rest, e, m + {v}, half);
      LaterTrans(c, s, s1, s', {id, v}, {id} + Members(rest), {id} + Members(vs));
      assert m + {v} + Members(rest) == m + Members(vs);
    }
  }

  lemma AckReadyList(c: Config, s: Cluster, id: Id, vs: seq<Id>, e: Entry, m: set<Id>, half: Half)
    requires AckReady(c, s, id, vs, e, m, half)
    ensures vs != [] && NoDuplicates(vs)
  {
  }

  /** The first of a list and the others. */
  lemma Cons(vs: seq<Id>, t: nat)
    requires vs != [] && NoDuplicates(vs)
    ensures vs[0] in vs && vs[0] !in vs[1..] && vs[0] !in Members(vs[1..]) && NoDuplicates(vs[1..])
    ensures Members(vs) == {vs[0]} + Members(vs[1..]) && Calls(vs, t) == {(vs[0], t)} + Calls(vs[1..], t)
    ensures vs[1..] == [] ==> Members(vs) == {vs[0]}
    ensures forall x :: x in vs <==> x == vs[0] || x in vs[1..]
  {
    assert vs == [vs[0]] + vs[1..];
    forall x | x in vs[1..] ensures x != vs[0] { OtherVoter(vs, x); }
  }

  lemma MoreThan(m: set<Id>, v: Id, k: nat, peers: seq<Id>)
    requires v !in m && Enough(2 + |m| + k, peers) && !Enough(1 + |m| + k, peers)
    ensures |m + {v}| == |m| + 1 && (k > 0 ==> !Enough(2 + |m|, peers))
  {
  }

  lemma InPeers(c: Config, id: Id, m: set<Id>, v: Id)
    requires ValidConfig(c) && id in c.servers && v in c.servers && v != id && id in c.peers && m <= Members(c.peers[id]) && id !in m
    ensures m + {v} <= Members(c.peers[id]) && id !in m + {v}
  {
    PeersAre(c, id);
  }

  lemma LaterWider(c: Config, s: Cluster, s': Cluster, i: set<Id>, j: set<Id>)
    requires Later(c, s, s', i) && i <= j
    ensures Later(c, s, s', j)
  {
    hide Shaped;
  }

  function Calls(vs: seq<Id>, t: nat): set<(Id, nat)> {
    set v | v in vs :: (v, t)
  }

  lemma TakerIn(s: Cluster, v: Id, t: nat)
    requires CanTake(s, v, t)
    ensures v in s.nodes
  {
  }

  lemma StillTakes(c: Config, s: Cluster, s': Cluster, ids: set<Id>, x: Id, t: nat)
    requires Later(c, s, s', ids) && CanTake(s, x, t) && x !in ids
    ensures x in s.nodes && CanTake(s', x, t) && x in s'.nodes && s'.nodes[x] == s.nodes[x]
  {
    hide Shaped;
  }

  // ---- clusters of any size

  function Names(n: nat): (r: seq<Id>)
    ensures |r| == n
  {
    seq(n, i requires 0 <= i < n => i + 1)
  }

  function AllBut(ids: seq<Id>, id: Id): seq<Id> {
    if ids == [] then [] else if ids[0] == id then AllBut(ids[1..], id) else [ids[0]] + AllBut(ids[1..], id)
  }

  lemma {:induction false} AllButIs(ids: seq<Id>, id: Id)
    requires NoDuplicates(ids)
    ensures NoDuplicates(AllBut(ids, id)) && Members(AllBut(ids, id)) == Members(ids) - {id}
    ensures |AllBut(ids, id)| == |ids| - if id in ids then 1 else 0
  {
    if ids != [] {
      var rest := ids[1..];
      Cons(ids, 0);
      AllButIs(rest, id);
      var r := AllBut(rest, id);
      if ids[0] != id { FrontFresh(ids[0], r); }
    }
  }

  lemma FrontFresh(x: Id, r: seq<Id>)
    requires NoDuplicates(r) && x !in Members(r)
    ensures NoDuplicates([x] + r) && Members([x] + r) == {x} + Members(r)
  {
    forall j | 0 <= j < |r| ensures x != r[j] { assert r[j] in Members(r); }
  }

  /** Nodes 1 to n, each with a list of the others. */
  function FullConfig(n: nat): Config {
    var ids := Names(n);
    Config(Members(ids), map id | id in Members(ids) :: AllBut(ids, id))
  }

  lemma FullConfigOk(n: nat)
    ensures ValidConfig(FullConfig(n))
    ensures forall id :: id in FullConfig(n).servers <==> 1 <= id <= n
    ensures forall id :: 1 <= id <= n ==> id in FullConfig(n).peers && |FullConfig(n).peers[id]| == n - 1
  {
    var ids, c := Names(n), FullConfig(n);
    forall id ensures id in c.servers <==> 1 <= id <= n {
      if 1 <= id <= n { assert ids[id - 1] == id; }
    }
    forall id | id in c.servers
      ensures NoDuplicates(c.peers[id]) && Members(c.peers[id]) + {id} == c.servers && |c.peers[id]| == n - 1
    {
      AllButIs(ids, id);
    }
  }
}
