/**
 A Raft cluster as a transition system. Each step is one lock-protected body of
 internal/raft/raft.go at one node; messages once sent may be delivered late, repeatedly, in any
 order, or never. Nothing restarts: SaveState writes nothing, so a restart would lose the vote.
 */
module RaftCluster {
  import opened Bytes
  import opened RaftNode

  /** Who is in the cluster and which peer list each node was given. */
  datatype Config = Config(servers: set<Id>, peers: map<Id, seq<Id>>)

  predicate NoDuplicates(s: seq<Id>) {
    forall i, j :: 0 <= i < j < |s| ==> s[i] != s[j]
  }

  function Members(s: seq<Id>): set<Id> {
    set p | p in s
  }

  /** Each list is duplicate-free and names all the others; it may or may not name the node itself. */
  predicate ValidConfig(c: Config) {
    && NO_VOTE !in c.servers
    && c.peers.Keys == c.servers
    && forall id :: id in c.servers ==>
         NoDuplicates(c.peers[id]) && Members(c.peers[id]) + {id} == c.servers
  }

  datatype VoteCall = VoteCall(to: Id, req: VoteRequest)
  datatype VoteReply = VoteReply(candidate: Id, voter: Id, term: nat, resp: VoteResponse)

  /** A request on its way, with the whole log the sender had when it read its fields. */
  datatype AppendCall = AppendCall(to: Id, req: AppendRequest, snapshot: Log)
  datatype AppendReply = AppendReply(call: AppendCall, resp: AppendResponse)

  /**
   What has happened so far; no step reads it. leaderOf, leaderLog and electors give, for a term
   that has had a leader, the leader, its log as last extended, and those whose votes it counted.
   votes gives the vote of (term, voter); candLog the log with which (term, candidate) stood;
   tally the votes counted in a node's running election; accepted the snapshot length of the last
   request of (node, term) that was accepted.
   */
  datatype History = History(
    leaderOf: map<nat, Id>, leaderLog: map<nat, Log>, electors: map<nat, set<Id>>,
    votes: map<(nat, Id), Id>, candLog: map<(nat, Id), Log>, tally: map<Id, set<Id>>,
    accepted: map<(Id, nat), nat>)

  datatype Cluster = Cluster(
    nodes: map<Id, NodeState>,
    voteCalls: set<VoteCall>, voteReplies: set<VoteReply>,
    sends: set<(Id, nat)>, appendCalls: set<AppendCall>, appendReplies: set<AppendReply>,
    h: History)

  function InitCluster(c: Config): Cluster
    requires ValidConfig(c)
  {
    Cluster(map id | id in c.servers :: NewNode(id, c.peers[id]), {}, {}, {}, {}, {},
            History(map[], map[], map[], map[], map[], map id | id in c.servers :: {}, map[]))
  }

  /**
   ElectionTimeout: startElection.  DeliverVote: RequestVote at the voter.  DeliverVoteReply: the
   vote goroutine.  Propose: a leader appends a client's entry.  Heartbeat: sendHeartbeats checks
   that the node leads and captures the term.  SendAppend: the send goroutine, running later,
   reads nextIndex, log and commitIndex.  DeliverAppend: AppendEntries at the follower.
   DeliverAppendReply: the rest of the send goroutine.
   */
  datatype Step =
    | ElectionTimeout(id: Id)
    | DeliverVote(vc: VoteCall)
    | DeliverVoteReply(vr: VoteReply)
    | Propose(id: Id, data: ByteString)
    | Heartbeat(id: Id)
    | SendAppend(id: Id, term: nat, peer: Id)
    | DeliverAppend(ac: AppendCall)
    | DeliverAppendReply(ar: AppendReply)

  predicate Enabled(s: Cluster, step: Step) {
    match step
    case ElectionTimeout(id) => id in s.nodes && |s.nodes[id].log| >= 1 && id in s.h.tally
    case DeliverVote(vc) => vc in s.voteCalls && vc.to in s.nodes && |s.nodes[vc.to].log| >= 1
    case DeliverVoteReply(vr) =>
      && vr in s.voteReplies && vr.candidate in s.nodes && vr.candidate in s.h.tally
      // each answer is counted by its own goroutine, once
      && (s.nodes[vr.candidate].role == Candidate && s.nodes[vr.candidate].currentTerm == vr.term
          ==> vr.voter in s.nodes[vr.candidate].awaiting)
    case Propose(id, data) => id in s.nodes && s.nodes[id].role == Leader
    case Heartbeat(id) => id in s.nodes && s.nodes[id].role == Leader
    case SendAppend(id, term, peer) =>
      && id in s.nodes && (id, term) in s.sends
      && peer in s.nodes[id].peers && peer != id && CanSend(s.nodes[id], peer)
    case DeliverAppend(ac) => ac in s.appendCalls && ac.to in s.nodes && |s.nodes[ac.to].log| >= 1
    case DeliverAppendReply(ar) =>
      && ar in s.appendReplies && ar.call.req.leader in s.nodes && |s.nodes[ar.call.req.leader].log| >= 1
  }

  /** The vote goroutine adds this answer to the tally. */
  predicate Counts(n: NodeState, vr: VoteReply) {
    n.role == Candidate && n.currentTerm == vr.term && vr.resp.term <= n.currentTerm && vr.resp.granted
  }

  function AfterTimeout(s: Cluster, id: Id): Cluster
    requires Enabled(s, ElectionTimeout(id))
  {
    var n := StartElection(s.nodes[id]);
    s.(nodes := s.nodes[id := n],
       voteCalls := s.voteCalls + (set p | p in n.awaiting :: VoteCall(p, VoteRequestOf(n))),
       h := s.h.(votes := s.h.votes[(n.currentTerm, id) := id],
                 candLog := s.h.candLog[(n.currentTerm, id) := n.log],
                 tally := s.h.tally[id := {id}]))
  }

  function AfterVote(s: Cluster, vc: VoteCall): Cluster
    requires Enabled(s, DeliverVote(vc))
  {
    var (n, resp) := HandleVote(s.nodes[vc.to], vc.req);
    s.(nodes := s.nodes[vc.to := n],
       voteReplies := s.voteReplies + {VoteReply(vc.req.candidate, vc.to, vc.req.term, resp)},
       h := if resp.granted then s.h.(votes := s.h.votes[(vc.req.term, vc.to) := vc.req.candidate]) else s.h)
  }

  function AfterVoteReply(s: Cluster, vr: VoteReply): Cluster
    requires Enabled(s, DeliverVoteReply(vr))
  {
    var id := vr.candidate;
    var old_ := s.nodes[id];
    var n := HandleVoteReply(old_, vr.voter, vr.term, vr.resp);
    var h1 := if Counts(old_, vr) then s.h.(tally := s.h.tally[id := s.h.tally[id] + {vr.voter}]) else s.h;
    var h2 := if old_.role == Candidate && n.role == Leader
              then h1.(leaderOf := h1.leaderOf[n.currentTerm := id],
                       leaderLog := h1.leaderLog[n.currentTerm := n.log],
                       electors := h1.electors[n.currentTerm := h1.tally[id]])
              else h1;
    s.(nodes := s.nodes[id := n], h := h2)
  }

  function AfterPropose(s: Cluster, id: Id, data: ByteString): Cluster
    requires Enabled(s, Propose(id, data))
  {
    var n := RaftNode.Propose(s.nodes[id], data);
    s.(nodes := s.nodes[id := n], h := s.h.(leaderLog := s.h.leaderLog[n.currentTerm := n.log]))
  }

  function AfterSend(s: Cluster, id: Id, term: nat, peer: Id): Cluster
    requires Enabled(s, SendAppend(id, term, peer))
  {
    var n := s.nodes[id];
    s.(appendCalls := s.appendCalls + {AppendCall(peer, MakeAppend(n, term, peer), n.log)})
  }

  function AfterAppend(s: Cluster, ac: AppendCall): Cluster
    requires Enabled(s, DeliverAppend(ac))
  {
    var (n, resp) := HandleAppend(s.nodes[ac.to], ac.req);
    s.(nodes := s.nodes[ac.to := n],
       appendReplies := s.appendReplies + {AppendReply(ac, resp)},
       h := if resp.success then s.h.(accepted := s.h.accepted[(ac.to, ac.req.term) := |ac.snapshot|]) else s.h)
  }

  function AfterAppendReply(s: Cluster, ar: AppendReply): Cluster
    requires Enabled(s, DeliverAppendReply(ar))
  {
    var id := ar.call.req.leader;
    s.(nodes := s.nodes[id := HandleAppendReply(s.nodes[id], ar.call.to, ar.call.req, ar.resp)])
  }

  function Next(s: Cluster, step: Step): Cluster
    requires Enabled(s, step)
  {
    match step
    case ElectionTimeout(id) => AfterTimeout(s, id)
    case DeliverVote(vc) => AfterVote(s, vc)
    case DeliverVoteReply(vr) => AfterVoteReply(s, vr)
    case Propose(id, data) => AfterPropose(s, id, data)
    case Heartbeat(id) => s.(sends := s.sends + {(id, s.nodes[id].currentTerm)})
    case SendAppend(id, term, peer) => AfterSend(s, id, term, peer)
    case DeliverAppend(ac) => AfterAppend(s, ac)
    case DeliverAppendReply(ar) => AfterAppendReply(s, ar)
  }

  /** A run: the states visited and the steps between them. */
  datatype Run = Run(states: seq<Cluster>, steps: seq<Step>)

  predicate IsRun(c: Config, r: Run)
    requires ValidConfig(c)
  {
    && |r.states| == |r.steps| + 1
    && r.states[0] == InitCluster(c)
    && forall i :: 0 <= i < |r.steps| ==>
         Enabled(r.states[i], r.steps[i]) && r.states[i + 1] == Next(r.states[i], r.steps[i])
  }
}
