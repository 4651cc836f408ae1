/**
 One Raft node: what each lock-protected body of internal/raft/raft.go does to the node's
 fields. The functions over NodeState say what a handler computes, the class Node does it by
 updating fields step by step, as the source does, and is proved to compute the same state.
 */
module RaftNode {
  import opened Bytes

  /** Node names; the source's strings matter only up to equality, so a name is a number here. */
  type Id = nat

  /** The empty name, which votedFor holds while no vote has been given in the current term. */
  const NO_VOTE: Id := 0

  datatype Role = Follower | Candidate | Leader

  datatype Entry = Entry(term: nat, index: nat, data: ByteString)

  type Log = seq<Entry>

  /** The dummy entry that makes the log start at index 1. */
  const DUMMY: Entry := Entry(0, 0, [])

  datatype VoteRequest = VoteRequest(term: nat, candidate: Id, lastLogIndex: nat, lastLogTerm: nat)
  datatype VoteResponse = VoteResponse(term: nat, granted: bool)
  datatype AppendRequest = AppendRequest(term: nat, leader: Id, prevLogIndex: nat, prevLogTerm: nat,
                                         entries: seq<Entry>, leaderCommit: nat)
  datatype AppendResponse = AppendResponse(term: nat, success: bool)

  /**
   The fields of a node. `applied` is what has been sent on applyCh; `votes` and `awaiting` are
   the variables captured by the vote goroutines of the running election: the tally, and the
   peers whose answer has not been handled yet.
   */
  datatype NodeState = NodeState(
    id: Id, peers: seq<Id>, role: Role, currentTerm: nat, votedFor: Id, log: Log,
    commitIndex: nat, lastApplied: nat, applied: seq<Entry>,
    nextIndex: map<Id, nat>, matchIndex: map<Id, nat>,
    votes: nat, awaiting: set<Id>)

  /** A missing map entry reads as zero. */
  function Lookup(m: map<Id, nat>, p: Id): nat {
    if p in m then m[p] else 0
  }

  /** The map m with every one of ps set to v. */
  function SetAll(m: map<Id, nat>, ps: seq<Id>, v: nat): map<Id, nat> {
    m + (map p | p in ps :: v)
  }

  lemma SetAllNext(m: map<Id, nat>, ps: seq<Id>, k: nat, v: nat)
    requires k < |ps|
    ensures SetAll(m, ps[..k], v)[ps[k] := v] == SetAll(m, ps[..k + 1], v)
  {
    assert forall p :: p in ps[..k + 1] <==> p in ps[..k] || p == ps[k];
  }

  lemma SetAllStart(m: map<Id, nat>, v: nat)
    ensures SetAll(m, [], v) == m
  {
  }

  /** Whether v votes, or acknowledgements, are enough: v > (len(peers)+1)/2. */
  predicate Enough(v: nat, peers: seq<Id>) {
    v > (|peers| + 1) / 2
  }

  function LastIndex(log: Log): nat
    requires |log| >= 1
  {
    |log| - 1
  }

  function LastTerm(log: Log): nat
    requires |log| >= 1
  {
    log[|log| - 1].term
  }

  function NewNode(id: Id, peers: seq<Id>): NodeState {
    NodeState(id, peers, Follower, 0, NO_VOTE, [DUMMY], 0, 0, [], map[], map[], 0, {})
  }

  function StepDown(n: NodeState, term: nat): NodeState {
    n.(currentTerm := term, role := Follower, votedFor := NO_VOTE)
  }

  function StartElection(n: NodeState): NodeState {
    n.(role := Candidate, currentTerm := n.currentTerm + 1, votedFor := n.id,
       votes := 1, awaiting := set p | p in n.peers && p != n.id)
  }

  function VoteRequestOf(n: NodeState): VoteRequest
    requires |n.log| >= 1
  {
    VoteRequest(n.currentTerm, n.id, LastIndex(n.log), LastTerm(n.log))
  }

  function BecomeLeader(n: NodeState): NodeState {
    n.(role := Leader,
       nextIndex := SetAll(n.nextIndex, n.peers, |n.log|),
       matchIndex := SetAll(n.matchIndex, n.peers, 0))
  }

  function HandleVoteReply(n: NodeState, peer: Id, term: nat, resp: VoteResponse): NodeState {
    if n.role != Candidate || n.currentTerm != term then n
    else
      var n1 := n.(awaiting := n.awaiting - {peer});
      if resp.term > n.currentTerm then StepDown(n1, resp.term)
      else if resp.granted then
        var n2 := n1.(votes := n.votes + 1);
        if Enough(n2.votes, n.peers) then BecomeLeader(n2) else n2
      else n1
  }

  /** The candidate's log is at least as up to date as the voter's. */
  predicate UpToDate(req: VoteRequest, log: Log)
    requires |log| >= 1
  {
    req.lastLogTerm > LastTerm(log)
    || (req.lastLogTerm == LastTerm(log) && req.lastLogIndex >= LastIndex(log))
  }

  predicate Grants(n: NodeState, req: VoteRequest)
    requires |n.log| >= 1
  {
    && req.term >= n.currentTerm
    && (req.term > n.currentTerm || n.votedFor == NO_VOTE || n.votedFor == req.candidate)
    && UpToDate(req, n.log)
  }

  function HandleVote(n: NodeState, req: VoteRequest): (NodeState, VoteResponse)
    requires |n.log| >= 1
  {
    var n1 := if req.term > n.currentTerm then StepDown(n, req.term) else n;
    if Grants(n, req)
    then (n1.(votedFor := req.candidate), VoteResponse(n1.currentTerm, true))
    else (n1, VoteResponse(n1.currentTerm, false))
  }

  /** Sends the entries up to commitIndex that have not been applied. */
  function ApplyLog(n: NodeState): NodeState
    requires n.commitIndex < |n.log|
  {
    if n.lastApplied < n.commitIndex
    then n.(applied := n.applied + n.log[n.lastApplied + 1..n.commitIndex + 1], lastApplied := n.commitIndex)
    else n
  }

  /** The consistency check of AppendEntries. */
  predicate Matches(n: NodeState, req: AppendRequest) {
    req.prevLogIndex < |n.log| && n.log[req.prevLogIndex].term == req.prevLogTerm
  }

  predicate Accepts(n: NodeState, req: AppendRequest) {
    req.term >= n.currentTerm && Matches(n, req)
  }

  function Min(a: nat, b: nat): nat {
    if a < b then a else b
  }

  function HandleAppend(n: NodeState, req: AppendRequest): (NodeState, AppendResponse)
    requires |n.log| >= 1
  {
    var n1 := if req.term > n.currentTerm then StepDown(n, req.term) else n;
    if req.term < n1.currentTerm then (n1, AppendResponse(n1.currentTerm, false))
    else
      var n2 := n1.(role := Follower);
      if !Matches(n2, req) then (n2, AppendResponse(n2.currentTerm, false))
      else
        var n3 := n2.(log := n2.log[..req.prevLogIndex + 1] + req.entries);
        var n4 := if req.leaderCommit > n3.commitIndex
                  then ApplyLog(n3.(commitIndex := Min(req.leaderCommit, LastIndex(n3.log))))
                  else n3;
        (n4, AppendResponse(n4.currentTerm, true))
  }

  /** How many of the peers other than the node itself are known to hold index i. */
  function CountMatching(peers: seq<Id>, id: Id, matchIndex: map<Id, nat>, i: nat): nat {
    if peers == [] then 0
    else
      var last := peers[|peers| - 1];
      CountMatching(peers[..|peers| - 1], id, matchIndex, i)
      + (if last != id && Lookup(matchIndex, last) >= i then 1 else 0)
  }

  /** Index i may be committed: a quorum holds it and it is of the leader's own term. */
  predicate Committable(n: NodeState, i: nat)
    requires i < |n.log|
  {
    && Enough(1 + CountMatching(n.peers, n.id, n.matchIndex, i), n.peers)
    && n.log[i].term == n.currentTerm
  }

  /** The highest committable index in (commitIndex, i], or commitIndex if there is none. */
  function ScanCommit(n: NodeState, i: nat): (c: nat)
    requires i < |n.log|
    ensures c == n.commitIndex || (n.commitIndex < c <= i && Committable(n, c))
    ensures forall j :: n.commitIndex < j <= i && Committable(n, j) ==> j <= c
  {
    if i <= n.commitIndex then n.commitIndex
    else if Committable(n, i) then i
    else ScanCommit(n, i - 1)
  }

  function AdvanceCommitIndex(n: NodeState): NodeState
    requires |n.log| >= 1
  {
    var c := ScanCommit(n, |n.log| - 1);
    if c > n.commitIndex then ApplyLog(n.(commitIndex := c)) else n
  }

  function HandleAppendReply(n: NodeState, peer: Id, req: AppendRequest, resp: AppendResponse): NodeState
    requires |n.log| >= 1
  {
    if n.role != Leader || n.currentTerm != req.term then n
    else if resp.term > n.currentTerm then StepDown(n, resp.term)
    else if resp.success then
      var m := req.prevLogIndex + |req.entries|;
      AdvanceCommitIndex(n.(matchIndex := n.matchIndex[peer := m], nextIndex := n.nextIndex[peer := m + 1]))
    else if Lookup(n.nextIndex, peer) > 1 then
      n.(nextIndex := n.nextIndex[peer := n.nextIndex[peer] - 1])
    else n
  }

  /** The log reads of the send goroutine stay in range. */
  predicate CanSend(n: NodeState, peer: Id) {
    1 <= Lookup(n.nextIndex, peer) <= |n.log|
  }

  /** The request the send goroutine builds from the fields it reads, for the term captured before. */
  function MakeAppend(n: NodeState, term: nat, peer: Id): AppendRequest
    requires CanSend(n, peer)
  {
    var next := Lookup(n.nextIndex, peer);
    AppendRequest(term, n.id, next - 1, n.log[next - 1].term, n.log[next..], n.commitIndex)
  }

  function Propose(n: NodeState, data: ByteString): NodeState {
    n.(log := n.log + [Entry(n.currentTerm, |n.log|, data)])
  }

  // ---- laws of the handlers

  /** A request for a vote, asked again, gets the same answer and changes nothing more. */
  lemma VoteRepeats(n: NodeState, req: VoteRequest)
    requires |n.log| >= 1
    ensures HandleVote(HandleVote(n, req).0, req) == HandleVote(n, req)
  {
    var (n1, r1) := HandleVote(n, req);
    assert Grants(n, req) ==> Grants(n1, req);
  }

  /** The log that a request stands for is at least as up to date as the other. */
  predicate NotBehind(a: Log, b: Log)
    requires |a| >= 1 && |b| >= 1
  {
    UpToDate(VoteRequest(0, NO_VOTE, LastIndex(a), LastTerm(a)), b)
  }

  /** Of two logs one at least is not behind the other, a log is not behind itself, and the relation carries over. */
  lemma NotBehindIsTotal(a: Log, b: Log, d: Log)
    requires |a| >= 1 && |b| >= 1 && |d| >= 1
    ensures (NotBehind(a, b) || NotBehind(b, a)) && NotBehind(a, a)
    ensures NotBehind(a, b) && NotBehind(b, d) ==> NotBehind(a, d)
    ensures NotBehind(a, b) && NotBehind(b, a) <==> LastTerm(a) == LastTerm(b) && |a| == |b|
  {
  }

  /** A new leader's first request to a peer carries nothing and asks about its last entry. */
  lemma FirstRequestIsEmpty(n: NodeState, t: nat, p: Id)
    requires |n.log| >= 1 && p in n.peers
    ensures CanSend(BecomeLeader(n), p)
    ensures MakeAppend(BecomeLeader(n), t, p) == AppendRequest(t, n.id, LastIndex(n.log), LastTerm(n.log), [], n.commitIndex)
  {
  }

  /** The node as the source has it: fields updated in place under the node's lock. */
  class Node {
    const id: Id
    const peers: seq<Id>
    var role: Role
    var currentTerm: nat
    var votedFor: Id
    var log: Log
    var commitIndex: nat
    var lastApplied: nat
    var applied: seq<Entry>
    var nextIndex: map<Id, nat>
    var matchIndex: map<Id, nat>
    var votes: nat
    var awaiting: set<Id>

    function View(): NodeState
      reads this
    {
      NodeState(id, peers, role, currentTerm, votedFor, log, commitIndex, lastApplied, applied,
                nextIndex, matchIndex, votes, awaiting)
    }

    constructor (id: Id, peers: seq<Id>)
      ensures View() == NewNode(id, peers)
    {
      this.id, this.peers := id, peers;
      role, currentTerm, votedFor := Follower, 0, NO_VOTE;
      log := [DUMMY];
      commitIndex, lastApplied, applied := 0, 0, [];
      nextIndex, matchIndex := map[], map[];
      votes, awaiting := 0, {};
    }

    method DoStepDown(term: nat)
      modifies this
      ensures View() == StepDown(old(View()), term)
    {
      currentTerm := term;
      role := Follower;
      votedFor := NO_VOTE;
    }

    method DoStartElection() returns (req: VoteRequest)
      requires |log| >= 1
      modifies this
      ensures View() == StartElection(old(View()))
      ensures req == VoteRequestOf(View())
    {
      role := Candidate;
      currentTerm := currentTerm + 1;
      votedFor := id;
      votes := 1;
      awaiting := set p | p in peers && p != id;
      req := VoteRequest(currentTerm, id, |log| - 1, log[|log| - 1].term);
    }

    method DoBecomeLeader()
      modifies this
      ensures View() == BecomeLeader(old(View()))
    {
      hide SetAll;
      SetAllStart(nextIndex, |log|);
      SetAllStart(matchIndex, 0);
      role := Leader;
      var k := 0;
      assert peers[..0] == [];
      while k < |peers|
        invariant 0 <= k <= |peers|
        invariant nextIndex == SetAll(old(nextIndex), peers[..k], |log|)
        invariant matchIndex == SetAll(old(matchIndex), peers[..k], 0)
        invariant View() == old(View()).(role := Leader, nextIndex := nextIndex, matchIndex := matchIndex)
      {
        SetAllNext(old(nextIndex), peers, k, |log|);
        SetAllNext(old(matchIndex), peers, k, 0);
        nextIndex := nextIndex[peers[k] := |log|];
        matchIndex := matchIndex[peers[k] := 0];
        k := k + 1;
      }
      assert peers[..|peers|] == peers;
    }

    method DoHandleVoteReply(peer: Id, term: nat, resp: VoteResponse)
      modifies this
      ensures View() == HandleVoteReply(old(View()), peer, term, resp)
    {
      if role != Candidate || currentTerm != term {
        return;
      }
      awaiting := awaiting - {peer};
      if resp.term > currentTerm {
        DoStepDown(resp.term);
        return;
      }
      if resp.granted {
        votes := votes + 1;
        if votes > (|peers| + 1) / 2 {
          DoBecomeLeader();
        }
      }
    }

    method DoHandleVote(req: VoteRequest) returns (resp: VoteResponse)
      requires |log| >= 1
      modifies this
      ensures (View(), resp) == HandleVote(old(View()), req)
    {
      if req.term > currentTerm {
        DoStepDown(req.term);
      }
      resp := VoteResponse(currentTerm, false);
      if req.term == currentTerm && (votedFor == NO_VOTE || votedFor == req.candidate) {
        var lastLogIdx := |log| - 1;
        var lastLogTerm := log[lastLogIdx].term;
        if req.lastLogTerm > lastLogTerm
           || (req.lastLogTerm == lastLogTerm && req.lastLogIndex >= lastLogIdx) {
          votedFor := req.candidate;
          resp := VoteResponse(currentTerm, true);
        }
      }
    }

    method DoApplyLog()
      requires commitIndex < |log|
      modifies this
      ensures View() == ApplyLog(old(View()))
    {
      ghost var start := lastApplied;
      while lastApplied < commitIndex
        invariant start <= lastApplied
        invariant lastApplied <= commitIndex || lastApplied == start
        invariant lastApplied < |log| ==> applied == old(applied) + log[start + 1..lastApplied + 1]
        invariant lastApplied >= |log| ==> applied == old(applied)
        invariant View() == old(View()).(lastApplied := lastApplied, applied := applied)
      {
        lastApplied := lastApplied + 1;
        assert log[start + 1..lastApplied + 1] == log[start + 1..lastApplied] + [log[lastApplied]];
        applied := applied + [log[lastApplied]];
      }
    }

    method DoHandleAppend(req: AppendRequest) returns (resp: AppendResponse)
      requires |log| >= 1
      modifies this
      ensures (View(), resp) == HandleAppend(old(View()), req)
    {
      if req.term > currentTerm {
        DoStepDown(req.term);
      }
      resp := AppendResponse(currentTerm, false);
      if req.term < currentTerm {
        return;
      }
      role := Follower;
      if req.prevLogIndex >= |log| || log[req.prevLogIndex].term != req.prevLogTerm {
        return;
      }
      log := log[..req.prevLogIndex + 1] + req.entries;
      if req.leaderCommit > commitIndex {
        if req.leaderCommit < |log| - 1 {
          commitIndex := req.leaderCommit;
        } else {
          commitIndex := |log| - 1;
        }
        DoApplyLog();
      }
      resp := AppendResponse(currentTerm, true);
    }

    method DoAdvanceCommitIndex()
      requires |log| >= 1
      modifies this
      ensures View() == AdvanceCommitIndex(old(View()))
    {
      ghost var n := View();
      var i := |log| - 1;
      while i > commitIndex
        invariant 0 <= i < |log|
        invariant View() == n
        invariant ScanCommit(n, |log| - 1) == ScanCommit(n, i)
      {
        var count := 1;
        var k := 0;
        while k < |peers|
          invariant 0 <= k <= |peers|
          invariant count == 1 + CountMatching(peers[..k], id, matchIndex, i)
        {
          assert peers[..k + 1][..k] == peers[..k];
          if peers[k] != id && Lookup(matchIndex, peers[k]) >= i {
            count := count + 1;
          }
          k := k + 1;
        }
        assert peers[..|peers|] == peers;
        if count > (|peers| + 1) / 2 && log[i].term == currentTerm {
          commitIndex := i;
          DoApplyLog();
          return;
        }
        i := i - 1;
      }
    }

    method DoHandleAppendReply(peer: Id, req: AppendRequest, resp: AppendResponse)
      requires |log| >= 1
      modifies this
      ensures View() == HandleAppendReply(old(View()), peer, req, resp)
    {
      hide AdvanceCommitIndex;
      if role != Leader || currentTerm != req.term {
        return;
      }
      if resp.term > currentTerm {
        DoStepDown(resp.term);
        return;
      }
      if resp.success {
        matchIndex := matchIndex[peer := req.prevLogIndex + |req.entries|];
        nextIndex := nextIndex[peer := matchIndex[peer] + 1];
        DoAdvanceCommitIndex();
      } else if Lookup(nextIndex, peer) > 1 {
        nextIndex := nextIndex[peer := nextIndex[peer] - 1];
      }
    }
  }
}
