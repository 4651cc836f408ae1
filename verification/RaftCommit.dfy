/**
 State machine safety: in an orderly run no two nodes ever apply different entries at an index.
 */
module RaftCommit {
  import opened Bytes
  import opened RaftNode
  import opened RaftCluster
  import opened RaftElection
  import opened RaftLogs
  import opened RaftHistory
  import opened RaftSafety

  /** A success on its way back reports no more than the follower accepted in that term. */
  ghost predicate ReplyOk(h: History, ar: AppendReply) {
    ar.resp.success ==>
      (ar.call.to, ar.call.req.term) in h.accepted
      && |ar.call.snapshot| <= h.accepted[(ar.call.to, ar.call.req.term)]
  }

  ghost predicate RepliesOk(s: Cluster) {
    forall ar :: ar in s.appendReplies ==> ReplyOk(s.h, ar)
  }

  /** A leader's matchIndex stays below what the peer accepted, and its nextIndex inside its log. */
  ghost predicate PeerOk(h: History, n: NodeState, p: Id) {
    && CanSend(n, p)
    && (Lookup(n.matchIndex, p) > 0 ==>
          (p, n.currentTerm) in h.accepted && Lookup(n.matchIndex, p) < h.accepted[(p, n.currentTerm)])
  }

  ghost predicate LeaderPeersOk(h: History, n: NodeState) {
    forall p :: p in n.peers && p != n.id ==> PeerOk(h, n, p)
  }

  ghost predicate MatchOk(s: Cluster) {
    forall id :: id in s.nodes && s.nodes[id].role == Leader ==> LeaderPeersOk(s.h, s.nodes[id])
  }

  /** The first ci+1 entries of the log are committed: a quorum held them in term t. */
  ghost predicate PrefixCommitted(c: Config, h: History, log: Log, ci: nat, t: nat, k: nat) {
    CommittedIn(c, h, t, k) && ci < k && Agree(log, h.leaderLog[t], ci + 1)
  }

  ghost predicate CommitBy(c: Config, h: History, id: Id, n: NodeState, t: nat, k: nat) {
    && t <= n.currentTerm && PrefixCommitted(c, h, n.log, n.commitIndex, t, k)
    && (t == n.currentTerm ==> n.commitIndex < AckLen(h, id, t))
  }

  ghost predicate NodeCommitOk(c: Config, h: History, id: Id, n: NodeState) {
    n.commitIndex < |n.log| && (n.commitIndex == 0 || exists t, k :: CommitBy(c, h, id, n, t, k))
  }

  ghost predicate NodeCommitsOk(c: Config, s: Cluster) {
    forall id :: id in s.nodes ==> NodeCommitOk(c, s.h, id, s.nodes[id])
  }

  ghost predicate CallCommitBy(c: Config, h: History, ac: AppendCall, t: nat, k: nat) {
    t <= ac.req.term && PrefixCommitted(c, h, ac.snapshot, ac.req.leaderCommit, t, k)
  }

  ghost predicate CallCommitOk(c: Config, h: History, ac: AppendCall) {
    ac.req.leaderCommit < |ac.snapshot| && (ac.req.leaderCommit == 0 || exists t, k :: CallCommitBy(c, h, ac, t, k))
  }

  ghost predicate CallCommitsOk(c: Config, s: Cluster) {
    forall ac :: ac in s.appendCalls ==> CallCommitOk(c, s.h, ac)
  }

  /** Exactly the committed entries have been applied, in order. */
  ghost predicate AppliedOk(n: NodeState) {
    n.lastApplied == n.commitIndex < |n.log| && n.applied == n.log[1..n.commitIndex + 1]
  }

  ghost predicate AllAppliedOk(s: Cluster) {
    forall id :: id in s.nodes ==> AppliedOk(s.nodes[id])
  }

  ghost predicate CommitInv(c: Config, s: Cluster) {
    RepliesOk(s) && MatchOk(s) && NodeCommitsOk(c, s) && CallCommitsOk(c, s) && AllAppliedOk(s)
  }

  ghost predicate SafetyInv(c: Config, s: Cluster) {
    BaseInv(c, s) && HoldInv(s) && CommitInv(c, s)
  }

  lemma CommitInvInit(c: Config)
    requires ValidConfig(c)
    ensures CommitInv(c, InitCluster(c))
  {
    hide ValidConfig, CommitBy, CallCommitBy;
  }

  // ---- what is committed stays committed

  ghost predicate HistoryKept(h: History, h': History) {
    && h.leaderOf.Keys == h.leaderLog.Keys && Grows(h.leaderLog, h'.leaderLog)
    && (forall t :: t in h.leaderOf ==> t in h'.leaderOf && h'.leaderOf[t] == h.leaderOf[t])
    && (forall x :: x in h.accepted ==> x in h'.accepted && h.accepted[x] <= h'.accepted[x])
  }

  lemma HeldKept(h: History, h': History, v: Id, t: nat, k: nat)
    requires HistoryKept(h, h') && Held(h, v, t, k)
    ensures Held(h', v, t, k) && AckLen(h, v, t) <= AckLen(h', v, t)
  {
  }

  lemma CommittedKept(c: Config, h: History, h': History, t: nat, k: nat)
    requires HistoryKept(h, h') && CommittedIn(c, h, t, k)
    ensures CommittedIn(c, h', t, k) && Agree(h'.leaderLog[t], h.leaderLog[t], k)
  {
    hide IsQuorum, HistoryKept, Held;
    var q :| IsQuorum(c, q) && HeldByAll(h, q, t, k);
    forall v | v in q ensures Held(h', v, t, k) { HeldKept(h, h', v, t, k); }
    assert HeldByAll(h', q, t, k);
    OwnEntryKept(h, h', t, k);
  }

  lemma OwnEntryKept(h: History, h': History, t: nat, k: nat)
    requires HistoryKept(h, h') && OwnEntry(h.leaderLog, t, k)
    ensures OwnEntry(h'.leaderLog, t, k) && Agree(h'.leaderLog[t], h.leaderLog[t], k)
  {
  }

  lemma PrefixKept(c: Config, h: History, h': History, log: Log, log': Log, ci: nat, t: nat, k: nat)
    requires HistoryKept(h, h') && PrefixCommitted(c, h, log, ci, t, k)
    requires Agree(log', log, |log|)
    ensures PrefixCommitted(c, h', log', ci, t, k)
  {
    hide CommittedIn, HistoryKept;
    CommittedKept(c, h, h', t, k);
    CommittedBounds(c, h, t, k);
    CommittedBounds(c, h', t, k);
  }

  lemma CommittedBounds(c: Config, h: History, t: nat, k: nat)
    requires CommittedIn(c, h, t, k)
    ensures OwnEntry(h.leaderLog, t, k)
  {
  }

  /** The node's commitment is untouched: same index, same applied entries, a log that extends the old. */
  ghost predicate SameCommit(n: NodeState, n': NodeState) {
    && n'.commitIndex == n.commitIndex && n'.lastApplied == n.lastApplied && n'.applied == n.applied
    && Agree(n'.log, n.log, |n.log|) && n'.currentTerm >= n.currentTerm
  }

  lemma AckLenKept(h: History, h': History, v: Id, t: nat)
    requires HistoryKept(h, h') && t in h.leaderLog
    ensures AckLen(h, v, t) <= AckLen(h', v, t)
  {
  }

  lemma NodeCommitKept(c: Config, h: History, h': History, id: Id, n: NodeState, n': NodeState)
    requires HistoryKept(h, h') && NodeCommitOk(c, h, id, n) && SameCommit(n, n')
    ensures NodeCommitOk(c, h', id, n')
  {
    hide HistoryKept, PrefixCommitted;
    if n.commitIndex != 0 {
      var t, k :| CommitBy(c, h, id, n, t, k);
      PrefixKept(c, h, h', n.log, n'.log, n.commitIndex, t, k);
      assert t in h.leaderLog by { PrefixBounds(c, h, n.log, n.commitIndex, t, k); }
      AckLenKept(h, h', id, t);
      assert CommitBy(c, h', id, n', t, k);
    }
  }

  lemma PrefixBounds(c: Config, h: History, log: Log, ci: nat, t: nat, k: nat)
    requires PrefixCommitted(c, h, log, ci, t, k)
    ensures OwnEntry(h.leaderLog, t, k) && ci < k && Agree(log, h.leaderLog[t], ci + 1) && CommittedIn(c, h, t, k)
  {
  }

  lemma CallCommitKept(c: Config, h: History, h': History, ac: AppendCall)
    requires HistoryKept(h, h') && CallCommitOk(c, h, ac)
    ensures CallCommitOk(c, h', ac)
  {
    hide HistoryKept, PrefixCommitted;
    if ac.req.leaderCommit != 0 {
      var t, k :| CallCommitBy(c, h, ac, t, k);
      PrefixKept(c, h, h', ac.snapshot, ac.snapshot, ac.req.leaderCommit, t, k);
      assert CallCommitBy(c, h', ac, t, k);
    }
  }

  lemma AppliedKept(n: NodeState, n': NodeState)
    requires AppliedOk(n) && SameCommit(n, n')
    ensures AppliedOk(n')
  {
    assert n'.log[1..n.commitIndex + 1] == n.log[1..n.commitIndex + 1];
  }

  /** Commitment, apart from a leader's bookkeeping, survives a step in which all nodes keep it. */
  lemma CommitsKept(c: Config, s: Cluster, s': Cluster)
    requires NodeCommitsOk(c, s) && CallCommitsOk(c, s) && AllAppliedOk(s) && HistoryKept(s.h, s'.h)
    requires s'.nodes.Keys == s.nodes.Keys
    requires forall id :: id in s.nodes ==> SameCommit(s.nodes[id], s'.nodes[id])
    ensures NodeCommitsOk(c, s') && AllAppliedOk(s')
    ensures forall ac :: ac in s.appendCalls ==> CallCommitOk(c, s'.h, ac)
  {
    hide HistoryKept, NodeCommitOk, CallCommitOk, AppliedOk, SameCommit;
    forall id | id in s'.nodes ensures NodeCommitOk(c, s'.h, id, s'.nodes[id]) && AppliedOk(s'.nodes[id]) {
      NodeCommitKept(c, s.h, s'.h, id, s.nodes[id], s'.nodes[id]);
      AppliedKept(s.nodes[id], s'.nodes[id]);
    }
    forall ac | ac in s.appendCalls ensures CallCommitOk(c, s'.h, ac) {
      CallCommitKept(c, s.h, s'.h, ac);
    }
  }

  lemma RepliesKept(s: Cluster, h': History)
    requires RepliesOk(s) && HistoryKept(s.h, h')
    ensures forall ar :: ar in s.appendReplies ==> ReplyOk(h', ar)
  {
  }

  lemma PeersKept(h: History, h': History, n: NodeState, n': NodeState)
    requires LeaderPeersOk(h, n) && HistoryKept(h, h')
    requires n'.id == n.id && n'.peers == n.peers && n'.currentTerm == n.currentTerm && |n'.log| >= |n.log|
    requires n'.nextIndex == n.nextIndex && n'.matchIndex == n.matchIndex
    ensures LeaderPeersOk(h', n')
  {
    forall p | p in n'.peers && p != n'.id ensures PeerOk(h', n', p) {
      assert PeerOk(h, n, p);
    }
  }

  /** A leader after the step was one before it, in the same term with the same bookkeeping. */
  ghost predicate NoNewLeader(n: NodeState, n': NodeState) {
    n'.role == Leader ==>
      && n.role == Leader && n'.id == n.id && n'.peers == n.peers && n'.currentTerm == n.currentTerm
      && |n'.log| >= |n.log| && n'.nextIndex == n.nextIndex && n'.matchIndex == n.matchIndex
  }

  lemma MatchKept(s: Cluster, s': Cluster)
    requires MatchOk(s) && HistoryKept(s.h, s'.h) && s'.nodes.Keys == s.nodes.Keys
    requires forall id :: id in s.nodes ==> NoNewLeader(s.nodes[id], s'.nodes[id])
    ensures MatchOk(s')
  {
    hide HistoryKept, LeaderPeersOk;
    forall id | id in s'.nodes && s'.nodes[id].role == Leader ensures LeaderPeersOk(s'.h, s'.nodes[id]) {
      PeersKept(s.h, s'.h, s.nodes[id], s'.nodes[id]);
    }
  }

  // ---- the steps that commit nothing

  lemma HandleVoteSame(n: NodeState, req: VoteRequest)
    requires |n.log| >= 1
    ensures SameCommit(n, HandleVote(n, req).0) && NoNewLeader(n, HandleVote(n, req).0)
  {
  }

  lemma HandleVoteReplySame(n: NodeState, vr: VoteReply)
    ensures SameCommit(n, HandleVoteReply(n, vr.voter, vr.term, vr.resp))
    ensures !Wins(n, vr) ==> NoNewLeader(n, HandleVoteReply(n, vr.voter, vr.term, vr.resp))
  {
  }

  lemma RejectSame(n: NodeState, req: AppendRequest)
    requires |n.log| >= 1 && !Accepts(n, req)
    ensures SameCommit(n, HandleAppend(n, req).0) && NoNewLeader(n, HandleAppend(n, req).0)
    ensures !HandleAppend(n, req).1.success
  {
  }

  lemma HistoryKeptNext(c: Config, s: Cluster, step: Step)
    requires ValidConfig(c) && ElectionInv(c, s) && Enabled(s, step) && Orderly(s, step)
    ensures HistoryKept(s.h, Next(s, step).h)
  {
    hide ValidConfig, ElectionInv, Grows, Next, Orderly;
    LeaderKeys(c, s);
    LeaderLogsGrow(c, s, step);
    StepKeepsLeaderOf(c, s, step);
    if step.DeliverAppend? {
      AcceptedGrows(s, step.ac);
    } else {
      AcceptedStays(s, step);
    }
  }

  lemma AcceptedStays(s: Cluster, step: Step)
    requires Enabled(s, step) && !step.DeliverAppend?
    ensures Next(s, step).h.accepted == s.h.accepted
  {
    hide HandleVote, HandleAppendReply, AfterVoteReply, VoteRequestOf;
    if step.DeliverVoteReply? { VoteReplyAccepted(s, step.vr); }
  }

  lemma VoteReplyAccepted(s: Cluster, vr: VoteReply)
    requires Enabled(s, DeliverVoteReply(vr))
    ensures AfterVoteReply(s, vr).h.accepted == s.h.accepted
  {
    hide HandleVoteReply, AfterVoteReply, Counts, Wins;
    if Counts(s.nodes[vr.candidate], vr) { CountedReplyShape(s, vr); } else { UncountedAccepted(s, vr); }
  }

  lemma UncountedAccepted(s: Cluster, vr: VoteReply)
    requires Enabled(s, DeliverVoteReply(vr)) && !Counts(s.nodes[vr.candidate], vr)
    ensures AfterVoteReply(s, vr).h.accepted == s.h.accepted
  {
    hide HandleVoteReply, Counts;
  }

  lemma AcceptedGrows(s: Cluster, ac: AppendCall)
    requires Enabled(s, DeliverAppend(ac)) && Orderly(s, DeliverAppend(ac))
    ensures var h' := Next(s, DeliverAppend(ac)).h;
            forall x :: x in s.h.accepted ==> x in h'.accepted && s.h.accepted[x] <= h'.accepted[x]
  {
    hide HandleAppend, Accepts;
    AppendSuccess(s.nodes[ac.to], ac.req);
  }

  lemma AppendSuccess(n: NodeState, req: AppendRequest)
    requires |n.log| >= 1
    ensures HandleAppend(n, req).1.success == Accepts(n, req)
  {
  }

  /** One node changed without committing anything; messages may have been added. */
  lemma QuietCommitInv(c: Config, s: Cluster, s': Cluster, id: Id)
    requires CommitInv(c, s) && OnlyNode(s, s', id) && HistoryKept(s.h, s'.h)
    requires SameCommit(s.nodes[id], s'.nodes[id]) && NoNewLeader(s.nodes[id], s'.nodes[id])
    requires s'.appendCalls == s.appendCalls
    requires forall ar :: ar in s'.appendReplies ==> ar in s.appendReplies || !ar.resp.success
    ensures CommitInv(c, s')
  {
    hide HistoryKept, NodeCommitsOk, AllAppliedOk, CallCommitOk, MatchOk, ReplyOk;
    assert forall i :: i in s.nodes ==> SameCommit(s.nodes[i], s'.nodes[i]) && NoNewLeader(s.nodes[i], s'.nodes[i]);
    hide SameCommit, NoNewLeader;
    CommitsKept(c, s, s');
    MatchKept(s, s');
    RepliesKept(s, s'.h);
    assert forall ar: AppendReply :: !ar.resp.success ==> ReplyOk(s'.h, ar) by { FailedReplies(s'.h); }
  }

  lemma FailedReplies(h: History)
    ensures forall ar: AppendReply :: !ar.resp.success ==> ReplyOk(h, ar)
  {
  }

  lemma CommitInvTimeout(c: Config, s: Cluster, id: Id)
    requires CommitInv(c, s) && Enabled(s, ElectionTimeout(id)) && HistoryKept(s.h, AfterTimeout(s, id).h)
    ensures CommitInv(c, AfterTimeout(s, id))
  {
    hide CommitInv, HistoryKept;
    QuietCommitInv(c, s, AfterTimeout(s, id), id);
  }

  lemma CommitInvVote(c: Config, s: Cluster, vc: VoteCall)
    requires CommitInv(c, s) && Enabled(s, DeliverVote(vc)) && HistoryKept(s.h, AfterVote(s, vc).h)
    ensures CommitInv(c, AfterVote(s, vc))
  {
    hide CommitInv, HistoryKept, HandleVote, SameCommit, NoNewLeader;
    HandleVoteSame(s.nodes[vc.to], vc.req);
    QuietCommitInv(c, s, AfterVote(s, vc), vc.to);
  }

  lemma CommitInvReject(c: Config, s: Cluster, ac: AppendCall)
    requires CommitInv(c, s) && Enabled(s, DeliverAppend(ac)) && !Accepts(s.nodes[ac.to], ac.req)
    requires HistoryKept(s.h, AfterAppend(s, ac).h)
    ensures CommitInv(c, AfterAppend(s, ac))
  {
    hide CommitInv, HistoryKept, HandleAppend, SameCommit, NoNewLeader, Accepts;
    RejectSame(s.nodes[ac.to], ac.req);
    QuietCommitInv(c, s, AfterAppend(s, ac), ac.to);
  }

  lemma CommitInvHeartbeat(c: Config, s: Cluster, id: Id)
    requires CommitInv(c, s) && Enabled(s, Heartbeat(id))
    ensures CommitInv(c, Next(s, Heartbeat(id)))
  {
    hide NodeCommitOk, CallCommitOk, LeaderPeersOk, ReplyOk, AppliedOk;
  }

  lemma CommitInvPropose(c: Config, s: Cluster, id: Id, data: ByteString)
    requires CommitInv(c, s) && Enabled(s, Propose(id, data)) && HistoryKept(s.h, AfterPropose(s, id, data).h)
    ensures CommitInv(c, AfterPropose(s, id, data))
  {
    hide CommitInv, HistoryKept;
    QuietCommitInv(c, s, AfterPropose(s, id, data), id);
  }

  /** A new leader starts with every match at zero and sends from the end of its log. */
  lemma WinPeers(h: History, n: NodeState, vr: VoteReply)
    requires Wins(n, vr) && |n.log| >= 1
    ensures LeaderPeersOk(h, HandleVoteReply(n, vr.voter, vr.term, vr.resp))
  {
  }

  lemma CommitInvVoteReply(c: Config, s: Cluster, vr: VoteReply)
    requires CommitInv(c, s) && NodesOk(c, s) && Enabled(s, DeliverVoteReply(vr))
    requires HistoryKept(s.h, AfterVoteReply(s, vr).h)
    ensures CommitInv(c, AfterVoteReply(s, vr))
  {
    hide CommitInv, HistoryKept, HandleVoteReply, SameCommit, NoNewLeader, NodesOk, Wins;
    HandleVoteReplySame(s.nodes[vr.candidate], vr);
    if Wins(s.nodes[vr.candidate], vr) {
      CommitInvWin(c, s, vr);
    } else {
      QuietCommitInv(c, s, AfterVoteReply(s, vr), vr.candidate);
    }
  }

  lemma CommitInvWin(c: Config, s: Cluster, vr: VoteReply)
    requires CommitInv(c, s) && NodesOk(c, s) && Enabled(s, DeliverVoteReply(vr)) && Wins(s.nodes[vr.candidate], vr)
    requires HistoryKept(s.h, AfterVoteReply(s, vr).h)
    ensures CommitInv(c, AfterVoteReply(s, vr))
  {
    hide HistoryKept, HandleVoteReply, SameCommit, Wins, NodesOk, NodeCommitsOk, AllAppliedOk, CallCommitOk, ReplyOk,
      LeaderPeersOk;
    var s', id := AfterVoteReply(s, vr), vr.candidate;
    NodeFacts(c, s, id);
    HandleVoteReplySame(s.nodes[id], vr);
    forall i | i in s.nodes ensures SameCommit(s.nodes[i], s'.nodes[i]) { SameCommitRefl(s.nodes[i]); }
    CommitsKept(c, s, s');
    RepliesKept(s, s'.h);
    WinPeers(s'.h, s.nodes[id], vr);
    forall i | i in s'.nodes && s'.nodes[i].role == Leader ensures LeaderPeersOk(s'.h, s'.nodes[i]) {
      if i != id { PeersKept(s.h, s'.h, s.nodes[i], s'.nodes[i]); }
    }
  }

  lemma SameCommitRefl(n: NodeState)
    ensures SameCommit(n, n)
  {
  }

  lemma CommitInvSend(c: Config, s: Cluster, id: Id, term: nat, peer: Id)
    requires CommitInv(c, s) && Enabled(s, SendAppend(id, term, peer)) && Orderly(s, SendAppend(id, term, peer))
    ensures CommitInv(c, AfterSend(s, id, term, peer))
  {
    hide LeaderPeersOk, ReplyOk, AppliedOk, PrefixCommitted;
    var n := s.nodes[id];
    var ac := AppendCall(peer, MakeAppend(n, term, peer), n.log);
    assert NodeCommitOk(c, s.h, id, n);
    if n.commitIndex != 0 {
      var t, k :| CommitBy(c, s.h, id, n, t, k);
      assert CallCommitBy(c, s.h, ac, t, k);
    }
    assert CallCommitOk(c, s.h, ac);
  }

  /** What every step does to a node's commitment: it grows, and no committed entry is removed. */
  ghost predicate CommitGrows(n: NodeState, n': NodeState) {
    n.commitIndex <= n'.commitIndex && n.applied <= n'.applied && Agree(n'.log, n.log, n.commitIndex + 1)
  }

  lemma SameCommitGrows(n: NodeState, n': NodeState)
    requires SameCommit(n, n') && n.commitIndex < |n.log|
    ensures CommitGrows(n, n')
  {
  }

  // ---- a leader commits

  /** The peers, other than the leader, known to hold index i. */
  ghost function Matching(peers: seq<Id>, id: Id, matchIndex: map<Id, nat>, i: nat): set<Id> {
    set p | p in peers && p != id && Lookup(matchIndex, p) >= i
  }

  lemma {:induction false} CountIsSize(peers: seq<Id>, id: Id, matchIndex: map<Id, nat>, i: nat)
    requires NoDuplicates(peers)
    ensures |Matching(peers, id, matchIndex, i)| == CountMatching(peers, id, matchIndex, i)
  {
    hide Matching, Lookup;
    if peers == [] {
      MatchingNone(id, matchIndex, i);
    } else {
      var front, last := peers[..|peers| - 1], peers[|peers| - 1];
      CountIsSize(front, id, matchIndex, i);
      assert peers == front + [last];
      MatchingSnoc(front, last, id, matchIndex, i);
    }
  }

  lemma MatchingNone(id: Id, matchIndex: map<Id, nat>, i: nat)
    ensures Matching([], id, matchIndex, i) == {}
  {
  }

  lemma MatchingSnoc(front: seq<Id>, last: Id, id: Id, matchIndex: map<Id, nat>, i: nat)
    requires last !in front
    ensures |Matching(front + [last], id, matchIndex, i)|
            == |Matching(front, id, matchIndex, i)| + if last != id && Lookup(matchIndex, last) >= i then 1 else 0
  {
    hide Lookup;
    var m, all := Matching(front, id, matchIndex, i), Matching(front + [last], id, matchIndex, i);
    if last != id && Lookup(matchIndex, last) >= i {
      assert all == m + {last} && last !in m;
    } else {
      assert all == m;
    }
  }

  /** An index a leader may commit is held by a quorum. */
  lemma LeaderHolds(h: History, id: Id, n: NodeState, i: nat)
    requires LeaderOk(h, id, n) && 1 <= i < |n.log| && n.log[i].term == n.currentTerm
    ensures Held(h, id, n.currentTerm, i + 1)
  {
  }

  lemma PeerHolds(h: History, id: Id, n: NodeState, v: Id, i: nat)
    requires LeaderOk(h, id, n) && n.id == id && LeaderPeersOk(h, n) && 1 <= i < |n.log| && n.log[i].term == n.currentTerm
    requires v in n.peers && v != id && Lookup(n.matchIndex, v) >= i
    ensures Held(h, v, n.currentTerm, i + 1)
  {
    assert PeerOk(h, n, v);
  }

  lemma CommittableIsCommitted(c: Config, h: History, id: Id, n: NodeState, i: nat)
    requires ValidConfig(c) && NodeOk(c, id, n) && id in c.servers && LeaderOk(h, id, n) && LeaderPeersOk(h, n)
    requires 1 <= i < |n.log| && Committable(n, i)
    ensures CommittedIn(c, h, n.currentTerm, i + 1)
  {
    hide ValidConfig, CountMatching, IsQuorum, Enough, Matching, Held, LeaderPeersOk;
    var m := Matching(n.peers, id, n.matchIndex, i);
    var q := m + {id};
    assert NoDuplicates(n.peers) by { ConfigFacts(c, id); }
    CountIsSize(n.peers, id, n.matchIndex, i);
    MatchingFacts(c, id, n.matchIndex, i);
    assert |q| == |m| + 1;
    EnoughIsQuorum(c, id, q);
    forall v | v in q ensures Held(h, v, n.currentTerm, i + 1) {
      if v == id { LeaderHolds(h, id, n, i); } else { PeerHolds(h, id, n, v, i); }
    }
    assert HeldByAll(h, q, n.currentTerm, i + 1);
  }

  lemma ConfigFacts(c: Config, id: Id)
    requires ValidConfig(c) && id in c.servers
    ensures NoDuplicates(c.peers[id])
  {
    hide Members;
  }

  lemma MatchingFacts(c: Config, id: Id, matchIndex: map<Id, nat>, i: nat)
    requires ValidConfig(c) && id in c.servers
    ensures Matching(c.peers[id], id, matchIndex, i) <= c.servers && id !in Matching(c.peers[id], id, matchIndex, i)
    ensures forall p :: p in Matching(c.peers[id], id, matchIndex, i) ==>
              p in c.peers[id] && p != id && Lookup(matchIndex, p) >= i
  {
    hide ValidConfig;
    PeersAreServers(c, id);
  }

  lemma AdvanceCommits(c: Config, h: History, id: Id, n: NodeState)
    requires ValidConfig(c) && NodeOk(c, id, n) && id in c.servers && LeaderOk(h, id, n) && LeaderPeersOk(h, n)
    requires NodeCommitOk(c, h, id, n) && AppliedOk(n)
    ensures var n' := AdvanceCommitIndex(n);
            NodeCommitOk(c, h, id, n') && AppliedOk(n') && CommitGrows(n, n') && LeaderPeersOk(h, n')
  {
    hide ValidConfig, CommittedIn, Committable, NodeCommitOk, LeaderPeersOk;
    var n' := AdvanceCommitIndex(n);
    assert n.commitIndex < |n.log| by { CommitWithin(c, h, id, n); }
    if n' != n {
      var i := n'.commitIndex;
      CommittableIsCommitted(c, h, id, n, i);
      assert n.log[1..n.commitIndex + 1] + n.log[n.commitIndex + 1..i + 1] == n.log[1..i + 1];
      NowCommitted(c, h, id, n, n', i);
    }
    PeersSame(h, n, n');
  }

  lemma CommitWithin(c: Config, h: History, id: Id, n: NodeState)
    requires NodeCommitOk(c, h, id, n)
    ensures n.commitIndex < |n.log|
  {
  }

  lemma NowCommitted(c: Config, h: History, id: Id, n: NodeState, n': NodeState, i: nat)
    requires LeaderOk(h, id, n) && CommittedIn(c, h, n.currentTerm, i + 1) && 1 <= i < |n.log|
    requires n'.log == n.log && n'.currentTerm == n.currentTerm && n'.commitIndex == i
    ensures NodeCommitOk(c, h, id, n')
  {
    hide CommittedIn;
    assert CommitBy(c, h, id, n', n.currentTerm, i + 1);
  }

  lemma PeersSame(h: History, n: NodeState, n': NodeState)
    requires LeaderPeersOk(h, n) && n'.id == n.id && n'.peers == n.peers && n'.currentTerm == n.currentTerm
    requires n'.log == n.log && n'.nextIndex == n.nextIndex && n'.matchIndex == n.matchIndex
    ensures LeaderPeersOk(h, n')
  {
    forall p | p in n'.peers && p != n'.id ensures PeerOk(h, n', p) { assert PeerOk(h, n, p); }
  }

  /** The bookkeeping of a success: the peer holds the whole snapshot. */
  function Acknowledged(n: NodeState, peer: Id, req: AppendRequest): NodeState {
    var m := req.prevLogIndex + |req.entries|;
    n.(matchIndex := n.matchIndex[peer := m], nextIndex := n.nextIndex[peer := m + 1])
  }

  lemma AcknowledgedPeers(h: History, n: NodeState, ar: AppendReply)
    requires LeaderPeersOk(h, n) && ReplyOk(h, ar) && ar.resp.success && CallOk(ar.call)
    requires ar.call.req.term == n.currentTerm && |ar.call.snapshot| <= |n.log|
    ensures LeaderPeersOk(h, Acknowledged(n, ar.call.to, ar.call.req))
  {
    var n' := Acknowledged(n, ar.call.to, ar.call.req);
    forall p | p in n'.peers && p != n'.id ensures PeerOk(h, n', p) { assert PeerOk(h, n, p); }
  }

  lemma BackOffPeers(h: History, n: NodeState, peer: Id)
    requires LeaderPeersOk(h, n) && Lookup(n.nextIndex, peer) > 1
    ensures LeaderPeersOk(h, n.(nextIndex := n.nextIndex[peer := n.nextIndex[peer] - 1]))
  {
    var n' := n.(nextIndex := n.nextIndex[peer := n.nextIndex[peer] - 1]);
    forall p | p in n'.peers && p != n'.id ensures PeerOk(h, n', p) { assert PeerOk(h, n, p); }
  }

  lemma SnapshotWithin(c: Config, s: Cluster, ac: AppendCall, id: Id)
    requires BaseInv(c, s) && ac in s.appendCalls && id in s.nodes
    requires s.nodes[id].role == Leader && s.nodes[id].currentTerm == ac.req.term
    ensures |ac.snapshot| <= |s.nodes[id].log| && CallOk(ac)
  {
    hide ElectionInv, NodeLogsOk, LeaderLogsOk, Canon, CandLogsOk, LeaderShapesOk, NodeTermsOk, VoteCallsOk, AcceptedOk;
    LeaderFacts(c, s, id);
    assert CallPrefix(s.h, ac);
  }

  /** What the reply goroutine does to the leader. */
  lemma AppendReplyNode(c: Config, s: Cluster, ar: AppendReply, id: Id, n: NodeState, n': NodeState)
    requires Enabled(s, DeliverAppendReply(ar)) && id == ar.call.req.leader && n == s.nodes[id]
    requires n' == HandleAppendReply(n, ar.call.to, ar.call.req, ar.resp)
    requires ValidConfig(c) && BaseInv(c, s) && CommitInv(c, s)
    ensures NodeCommitOk(c, s.h, id, n') && AppliedOk(n') && CommitGrows(n, n')
    ensures n'.role == Leader ==> LeaderPeersOk(s.h, n')
  {
    hide ValidConfig, ElectionInv, LogInv, HistoryInv, CallCommitOk, AdvanceCommitIndex, LeaderPeersOk, ReplyOk,
      NodeCommitOk, AppliedOk, CommitGrows;
    if n.role == Leader && n.currentTerm == ar.call.req.term && ar.resp.term <= n.currentTerm {
      if ar.resp.success {
        ReplyCall(c, s, ar);
        SnapshotWithin(c, s, ar.call, id);
        AcknowledgedPeers(s.h, n, ar);
        var n1 := Acknowledged(n, ar.call.to, ar.call.req);
        LeaderFacts(c, s, id);
        LeaderNodeFacts(c, s, id);
        SameNode(c, s.h, id, n, n1);
        AdvanceCommits(c, s.h, id, n1);
        GrowsSame(n, n1, n');
      } else {
        if Lookup(n.nextIndex, ar.call.to) > 1 { BackOffPeers(s.h, n, ar.call.to); }
        SameNode(c, s.h, id, n, n');
      }
    } else {
      SameNode(c, s.h, id, n, n');
    }
  }

  lemma ReplyCall(c: Config, s: Cluster, ar: AppendReply)
    requires ElectionInv(c, s) && ar in s.appendReplies
    ensures ar.call in s.appendCalls
  {
    hide NodesOk, VotesOk, VoteMessagesOk, TallyOk, LeadersOk, ElectorsOk;
  }

  lemma LeaderNodeFacts(c: Config, s: Cluster, id: Id)
    requires ElectionInv(c, s) && id in s.nodes
    ensures NodeOk(c, id, s.nodes[id]) && id in c.servers
  {
    hide NodesOk, VotesOk, VoteMessagesOk, TallyOk, LeadersOk, ElectorsOk, SendsOk;
    NodeFacts(c, s, id);
  }

  lemma SameNode(c: Config, h: History, id: Id, n: NodeState, n': NodeState)
    requires NodeCommitOk(c, h, id, n) && AppliedOk(n)
    requires n'.log == n.log && n'.commitIndex == n.commitIndex && n'.lastApplied == n.lastApplied
    requires n'.applied == n.applied && n'.currentTerm >= n.currentTerm
    ensures NodeCommitOk(c, h, id, n') && AppliedOk(n') && CommitGrows(n, n')
  {
    hide PrefixCommitted;
    if n.commitIndex != 0 {
      var t, k :| CommitBy(c, h, id, n, t, k);
      assert CommitBy(c, h, id, n', t, k);
    }
  }

  lemma GrowsSame(n: NodeState, n1: NodeState, n': NodeState)
    requires CommitGrows(n1, n') && n1.log == n.log && n1.commitIndex == n.commitIndex && n1.applied == n.applied
    ensures CommitGrows(n, n')
  {
  }

  lemma CommitInvAppendReply(c: Config, s: Cluster, ar: AppendReply)
    requires ValidConfig(c) && BaseInv(c, s) && CommitInv(c, s) && Enabled(s, DeliverAppendReply(ar))
    ensures CommitInv(c, AfterAppendReply(s, ar))
  {
    hide ValidConfig, BaseInv, HandleAppendReply, NodeCommitOk, AppliedOk, LeaderPeersOk, ReplyOk, CallCommitOk,
      CommitGrows;
    var id := ar.call.req.leader;
    AppendReplyNode(c, s, ar, id, s.nodes[id], AfterAppendReply(s, ar).nodes[id]);
  }

  // ---- a follower accepts

  /** The follower's committed entries are in the snapshot it accepts. */
  lemma SnapshotKeepsCommitted(c: Config, s: Cluster, ac: AppendCall, n: NodeState, t: nat, k: nat)
    requires BaseInv(c, s) && HoldInv(s) && Enabled(s, DeliverAppend(ac)) && n == s.nodes[ac.to]
    requires Accepts(n, ac.req) && Orderly(s, DeliverAppend(ac))
    requires CommitBy(c, s.h, ac.to, n, t, k)
    ensures Agree(ac.snapshot, s.h.leaderLog[t], n.commitIndex + 1)
  {
    hide ElectionInv, LogInv, CandLogsOk, LeaderShapesOk, NodeTermsOk, VoteCallsOk, CallPrefixesOk, AcceptedOk,
      NodesHold, VotesHold, ElectorsHold, CommittedIn;
    var u := ac.req.term;
    CallFacts(c, s, ac);
    CommittedBounds(c, s.h, t, k);
    if t < u {
      LeaderCompleteness(c, s, t, k, u);
      CarriedInElectionLog(s, t, k, u);
    }
  }

  lemma AcceptFields(n: NodeState, req: AppendRequest)
    requires |n.log| >= 1 && Accepts(n, req) && n.lastApplied == n.commitIndex
    requires req.leaderCommit <= req.prevLogIndex + |req.entries|
    ensures var n' := HandleAppend(n, req).0;
            && n'.role == Follower && n'.currentTerm == req.term
            && n'.log == n.log[..req.prevLogIndex + 1] + req.entries
            && n'.commitIndex == (if req.leaderCommit > n.commitIndex then req.leaderCommit else n.commitIndex)
            && n'.lastApplied == n'.commitIndex
            && n'.applied == if req.leaderCommit > n.commitIndex
                             then n.applied + n'.log[n.commitIndex + 1..req.leaderCommit + 1] else n.applied
  {
  }

  lemma AppliedExtends(log: Log, log': Log, ci: nat, ci': nat, applied: seq<Entry>)
    requires ci < |log| && ci <= ci' < |log'| && Agree(log', log, ci + 1) && applied == log[1..ci + 1]
    ensures applied + log'[ci + 1..ci' + 1] == log'[1..ci' + 1]
  {
    assert applied == log'[1..ci + 1];
  }

  /** What accepting does to the follower's log and commit index. */
  lemma AcceptNode(logs: map<nat, Log>, n: NodeState, ac: AppendCall)
    requires |n.log| >= 1 && Canon(logs, n.log) && Canon(logs, ac.snapshot) && CallOk(ac) && Accepts(n, ac.req)
    requires ac.req.leaderCommit < |ac.snapshot| && AppliedOk(n) && n.commitIndex < |ac.snapshot|
    requires Agree(ac.snapshot, n.log, n.commitIndex + 1)
    ensures var n' := HandleAppend(n, ac.req).0;
            && n'.log == ac.snapshot && n'.role == Follower && n'.currentTerm == ac.req.term
            && n'.commitIndex == (if ac.req.leaderCommit > n.commitIndex then ac.req.leaderCommit else n.commitIndex)
            && AppliedOk(n') && CommitGrows(n, n')
  {
    hide Canon, HandleAppend, Accepts, Agree;
    AcceptedLogIsSnapshot(logs, n, ac);
    AcceptFields(n, ac.req);
    var n' := HandleAppend(n, ac.req).0;
    AppliedExtends(n.log, ac.snapshot, n.commitIndex, n'.commitIndex, n.applied);
    if n'.commitIndex == n.commitIndex { assert ac.snapshot[n.commitIndex + 1..n.commitIndex + 1] == []; }
  }

  lemma CommitAt(c: Config, s: Cluster, id: Id)
    requires CommitInv(c, s) && id in s.nodes
    ensures NodeCommitOk(c, s.h, id, s.nodes[id])
  {
    hide RepliesOk, MatchOk, CallCommitsOk, AllAppliedOk, NodeCommitOk;
  }

  lemma AcceptCommitted(c: Config, s: Cluster, ac: AppendCall)
    requires Enabled(s, DeliverAppend(ac)) && Orderly(s, DeliverAppend(ac)) && Accepts(s.nodes[ac.to], ac.req)
    requires SafetyInv(c, s)
    ensures var n := s.nodes[ac.to];
            n.commitIndex < |ac.snapshot| && Agree(ac.snapshot, n.log, n.commitIndex + 1)
  {
    hide BaseInv, HoldInv, CommitInv, PrefixCommitted, Accepts, Orderly, AckLen;
    var n := s.nodes[ac.to];
    CommitAt(c, s, ac.to);
    if n.commitIndex != 0 {
      var t, k :| CommitBy(c, s.h, ac.to, n, t, k);
      SnapshotKeepsCommitted(c, s, ac, n, t, k);
      PrefixBounds(c, s.h, n.log, n.commitIndex, t, k);
    } else {
      SnapshotStarts(c, s, ac);
    }
  }

  lemma SnapshotStarts(c: Config, s: Cluster, ac: AppendCall)
    requires BaseInv(c, s) && Enabled(s, DeliverAppend(ac))
    ensures 1 <= |ac.snapshot| && ac.snapshot[0] == s.nodes[ac.to].log[0]
    ensures Canon(s.h.leaderLog, s.nodes[ac.to].log) && Canon(s.h.leaderLog, ac.snapshot) && CallOk(ac)
  {
    hide ElectionInv, LeaderLogsOk, HistoryInv;
    assert Canon(s.h.leaderLog, s.nodes[ac.to].log) && Canon(s.h.leaderLog, ac.snapshot);
  }

  /** The accepted state is committed by what committed the old index, or the leader's. */
  lemma AcceptCommitOk(c: Config, s: Cluster, ac: AppendCall, h': History, n': NodeState)
    requires Enabled(s, DeliverAppend(ac)) && Orderly(s, DeliverAppend(ac)) && Accepts(s.nodes[ac.to], ac.req)
    requires HistoryKept(s.h, h') && SafetyInv(c, s)
    requires h' == s.h.(accepted := s.h.accepted[(ac.to, ac.req.term) := |ac.snapshot|])
    requires n'.log == ac.snapshot && n'.currentTerm == ac.req.term >= s.nodes[ac.to].currentTerm
    requires n'.commitIndex == (if ac.req.leaderCommit > s.nodes[ac.to].commitIndex then ac.req.leaderCommit
                                else s.nodes[ac.to].commitIndex)
    ensures NodeCommitOk(c, h', ac.to, n')
  {
    hide BaseInv, HoldInv, RepliesOk, MatchOk, AllAppliedOk, PrefixCommitted, Accepts, Orderly, HistoryKept;
    var n := s.nodes[ac.to];
    AcceptCommitted(c, s, ac);
    CallFacts(c, s, ac);
    assert CallCommitOk(c, s.h, ac) && NodeCommitOk(c, s.h, ac.to, n);
    if ac.req.leaderCommit > n.commitIndex {
      var t, k :| CallCommitBy(c, s.h, ac, t, k);
      PrefixKept(c, s.h, h', ac.snapshot, n'.log, n'.commitIndex, t, k);
      assert CommitBy(c, h', ac.to, n', t, k);
    } else if n.commitIndex != 0 {
      var t, k :| CommitBy(c, s.h, ac.to, n, t, k);
      SnapshotKeepsCommitted(c, s, ac, n, t, k);
      RebasePrefix(c, s.h, n.log, ac.snapshot, n.commitIndex, t, k);
      PrefixKept(c, s.h, h', ac.snapshot, n'.log, n'.commitIndex, t, k);
      assert CommitBy(c, h', ac.to, n', t, k);
    }
  }

  lemma RebasePrefix(c: Config, h: History, log: Log, log': Log, ci: nat, t: nat, k: nat)
    requires PrefixCommitted(c, h, log, ci, t, k) && Agree(log', h.leaderLog[t], ci + 1)
    ensures PrefixCommitted(c, h, log', ci, t, k)
  {
    hide CommittedIn;
  }

  /** Everything about the accepting follower. */
  lemma AcceptedNode(c: Config, s: Cluster, ac: AppendCall)
    requires Enabled(s, DeliverAppend(ac)) && Orderly(s, DeliverAppend(ac)) && Accepts(s.nodes[ac.to], ac.req)
    requires HistoryKept(s.h, AfterAppend(s, ac).h) && SafetyInv(c, s)
    ensures var (s', n') := (AfterAppend(s, ac), HandleAppend(s.nodes[ac.to], ac.req).0);
            && s'.nodes == s.nodes[ac.to := n'] && n'.role == Follower
            && s'.h == s.h.(accepted := s.h.accepted[(ac.to, ac.req.term) := |ac.snapshot|])
            && NodeCommitOk(c, s'.h, ac.to, n') && AppliedOk(n') && CommitGrows(s.nodes[ac.to], n')
            && s'.appendReplies == s.appendReplies + {AppendReply(ac, AppendResponse(ac.req.term, true))}
            && s'.appendCalls == s.appendCalls
  {
    hide BaseInv, HoldInv, RepliesOk, MatchOk, NodeCommitOk, HandleAppend, Canon, CallOk, CommitGrows, CallCommitBy,
      Orderly, HistoryKept, AppliedOk;
    var n := s.nodes[ac.to];
    AcceptCommitted(c, s, ac);
    SnapshotStarts(c, s, ac);
    assert CallCommitOk(c, s.h, ac);
    AcceptNode(s.h.leaderLog, n, ac);
    AcceptResponse(n, ac.req);
    AcceptCommitOk(c, s, ac, AfterAppend(s, ac).h, HandleAppend(n, ac.req).0);
  }

  lemma CommitInvAccept(c: Config, s: Cluster, ac: AppendCall)
    requires Enabled(s, DeliverAppend(ac)) && Orderly(s, DeliverAppend(ac)) && Accepts(s.nodes[ac.to], ac.req)
    requires HistoryKept(s.h, AfterAppend(s, ac).h) && SafetyInv(c, s)
    ensures CommitInv(c, AfterAppend(s, ac))
  {
    hide BaseInv, HoldInv, NodeCommitOk, AppliedOk, CommitGrows, Orderly, HistoryKept, AfterAppend, HandleAppend,
      Accepts, CallCommitOk, LeaderPeersOk, SameCommit;
    var s' := AfterAppend(s, ac);
    AcceptedNode(c, s, ac);
    forall id | id in s'.nodes && id != ac.to ensures NodeCommitOk(c, s'.h, id, s'.nodes[id]) {
      SameCommitRefl(s.nodes[id]);
      NodeCommitKept(c, s.h, s'.h, id, s.nodes[id], s.nodes[id]);
    }
    forall call | call in s'.appendCalls ensures CallCommitOk(c, s'.h, call) {
      CallCommitKept(c, s.h, s'.h, call);
    }
    forall id | id in s'.nodes && s'.nodes[id].role == Leader ensures LeaderPeersOk(s'.h, s'.nodes[id]) {
      PeersKept(s.h, s'.h, s.nodes[id], s'.nodes[id]);
    }
    RepliesKept(s, s'.h);
  }

  // ---- the whole

  lemma SafetyInvNext(c: Config, s: Cluster, step: Step)
    requires ValidConfig(c) && SafetyInv(c, s) && Enabled(s, step) && Orderly(s, step)
    ensures SafetyInv(c, Next(s, step))
  {
    hide ValidConfig, BaseInv, HoldInv, CommitInv, HistoryKept, AfterTimeout, AfterVote, AfterVoteReply,
      AfterPropose, AfterSend, AfterAppend, AfterAppendReply, Accepts;
    BaseInvNext(c, s, step);
    HoldInvNext(c, s, step);
    BaseElection(c, s);
    HistoryKeptNext(c, s, step);
    match step
    case ElectionTimeout(id) => CommitInvTimeout(c, s, id);
    case DeliverVote(vc) => CommitInvVote(c, s, vc);
    case DeliverVoteReply(vr) => CommitInvVoteReply(c, s, vr);
    case Propose(id, data) => CommitInvPropose(c, s, id, data);
    case Heartbeat(id) => CommitInvHeartbeat(c, s, id);
    case SendAppend(id, term, peer) => CommitInvSend(c, s, id, term, peer);
    case DeliverAppend(ac) =>
      if Accepts(s.nodes[ac.to], ac.req) { CommitInvAccept(c, s, ac); } else { CommitInvReject(c, s, ac); }
    case DeliverAppendReply(ar) => CommitInvAppendReply(c, s, ar);
  }

  lemma BaseElection(c: Config, s: Cluster)
    requires BaseInv(c, s)
    ensures ElectionInv(c, s) && NodesOk(c, s)
  {
    hide NodesOk, VotesOk, VoteMessagesOk, TallyOk, LeadersOk, ElectorsOk, SendsOk, LogInv, HistoryInv;
  }

  lemma SafetyInvInit(c: Config)
    requires ValidConfig(c)
    ensures SafetyInv(c, InitCluster(c))
  {
    hide ValidConfig, ElectionInv, LogInv, HistoryInv, HoldInv, CommitInv;
    ElectionInvInit(c);
    LogInvInit(c);
    HistoryInvInit(c);
    HoldInvInit(c);
    CommitInvInit(c);
  }

  lemma {:induction false} SafetyInvAt(c: Config, r: Run, i: nat)
    requires ValidConfig(c) && IsOrderlyRun(c, r) && i < |r.states|
    ensures SafetyInv(c, r.states[i])
  {
    hide ValidConfig, SafetyInv, InitCluster, Enabled, Next, Orderly;
    if i == 0 {
      SafetyInvInit(c);
    } else {
      SafetyInvAt(c, r, i - 1);
      SafetyInvNext(c, r.states[i - 1], r.steps[i - 1]);
    }
  }

  lemma PrefixesAgree(c: Config, s: Cluster, x: Log, y: Log, i: nat, j: nat, t: nat, k: nat, u: nat, l: nat)
    requires ElectionInv(c, s) && ElectorsHold(s.h) && t <= u
    requires PrefixCommitted(c, s.h, x, i, t, k) && PrefixCommitted(c, s.h, y, j, u, l)
    ensures Agree(x, y, Min(i, j) + 1)
  {
    hide ElectionInv, ElectorsHold, CommittedIn;
    CommittedBounds(c, s.h, u, l);
    if t < u { LeaderCompleteness(c, s, t, k, u); }
  }

  /** Two nodes agree on everything both have committed. */
  lemma CommittedLogsAgree(c: Config, s: Cluster, a: Id, b: Id)
    requires SafetyInv(c, s) && a in s.nodes && b in s.nodes
    ensures var i := Min(s.nodes[a].commitIndex, s.nodes[b].commitIndex);
            Agree(s.nodes[a].log, s.nodes[b].log, i + 1)
  {
    hide BaseInv, NodesHold, VotesHold, ElectorsHold, RepliesOk, MatchOk, CallCommitsOk, AllAppliedOk, PrefixCommitted,
      NodesOk, ElectionInv;
    var na, nb := s.nodes[a], s.nodes[b];
    assert NodeCommitOk(c, s.h, a, na) && NodeCommitOk(c, s.h, b, nb);
    BaseElection(c, s);
    if na.commitIndex == 0 || nb.commitIndex == 0 {
      NodeFacts(c, s, a);
      NodeFacts(c, s, b);
    } else {
      var t: nat, k: nat :| CommitBy(c, s.h, a, na, t, k);
      var u: nat, l: nat :| CommitBy(c, s.h, b, nb, u, l);
      if t <= u {
        PrefixesAgree(c, s, na.log, nb.log, na.commitIndex, nb.commitIndex, t, k, u, l);
      } else {
        PrefixesAgree(c, s, nb.log, na.log, nb.commitIndex, na.commitIndex, u, l, t, k);
      }
    }
  }

  lemma AppendCommitGrows(c: Config, s: Cluster, ac: AppendCall, n: NodeState, n': NodeState)
    requires Enabled(s, DeliverAppend(ac)) && n == s.nodes[ac.to] && n' == HandleAppend(n, ac.req).0
    requires Orderly(s, DeliverAppend(ac)) && AppliedOk(n) && HistoryKept(s.h, AfterAppend(s, ac).h)
    requires ValidConfig(c) && SafetyInv(c, s)
    ensures CommitGrows(n, n')
  {
    hide ValidConfig, SafetyInv, Orderly, HistoryKept, HandleAppend, Accepts, SameCommit, NoNewLeader, CommitGrows;
    if Accepts(s.nodes[ac.to], ac.req) {
      AcceptedNode(c, s, ac);
    } else {
      RejectSame(s.nodes[ac.to], ac.req);
      SameCommitGrows(s.nodes[ac.to], HandleAppend(s.nodes[ac.to], ac.req).0);
    }
  }

  lemma VoteCommitGrows(n: NodeState, req: VoteRequest, vr: VoteReply)
    requires |n.log| >= 1 && n.commitIndex < |n.log|
    ensures CommitGrows(n, HandleVote(n, req).0)
    ensures CommitGrows(n, HandleVoteReply(n, vr.voter, vr.term, vr.resp))
  {
    hide HandleVote, HandleVoteReply, SameCommit, NoNewLeader, CommitGrows, Wins;
    HandleVoteSame(n, req);
    SameCommitGrows(n, HandleVote(n, req).0);
    HandleVoteReplySame(n, vr);
    SameCommitGrows(n, HandleVoteReply(n, vr.voter, vr.term, vr.resp));
  }

  /** The node after a step: what its handler makes of it, if the step is its own. */
  function NodeAfter(s: Cluster, step: Step, id: Id): NodeState
    requires Enabled(s, step) && id in s.nodes
  {
    var n := s.nodes[id];
    match step
    case ElectionTimeout(x) => if id == x then StartElection(n) else n
    case DeliverVote(vc) => if id == vc.to then HandleVote(n, vc.req).0 else n
    case DeliverVoteReply(vr) => if id == vr.candidate then HandleVoteReply(n, vr.voter, vr.term, vr.resp) else n
    case Propose(x, data) => if id == x then RaftNode.Propose(n, data) else n
    case Heartbeat(x) => n
    case SendAppend(x, term, peer) => n
    case DeliverAppend(ac) => if id == ac.to then HandleAppend(n, ac.req).0 else n
    case DeliverAppendReply(ar) =>
      if id == ar.call.req.leader then HandleAppendReply(n, ar.call.to, ar.call.req, ar.resp) else n
  }

  lemma NodeAfterIs(s: Cluster, step: Step, id: Id)
    requires Enabled(s, step) && id in s.nodes
    ensures id in Next(s, step).nodes && Next(s, step).nodes[id] == NodeAfter(s, step, id)
  {
    hide HandleVote, HandleVoteReply, HandleAppend, HandleAppendReply;
  }

  /** A step never lowers a commit index, never unapplies, never removes a committed entry. */
  lemma StepCommitGrows(c: Config, s: Cluster, step: Step, id: Id)
    requires ValidConfig(c) && SafetyInv(c, s) && Enabled(s, step) && Orderly(s, step) && id in s.nodes
    ensures id in Next(s, step).nodes && CommitGrows(s.nodes[id], Next(s, step).nodes[id])
  {
    hide ValidConfig, BaseInv, HoldInv, CommitInv, CommitGrows, HistoryKept, Orderly, Next, StartElection,
      HandleVote, HandleVoteReply, HandleAppend, HandleAppendReply, Accepts;
    NodeAfterIs(s, step, id);
    AppliedAt(c, s, id);
    var n := s.nodes[id];
    SameLogGrows(n, n);
    match step
    case ElectionTimeout(x) => StandGrows(n);
    case DeliverVote(vc) =>
      VoteCommitGrows(n, vc.req, VoteReply(0, 0, 0, VoteResponse(0, false)));
    case DeliverVoteReply(vr) =>
      VoteCommitGrows(n, VoteRequest(0, 0, 0, 0), vr);
    case Propose(x, data) => ProposeGrows(n, data);
    case Heartbeat(x) =>
    case SendAppend(x, term, peer) =>
    case DeliverAppend(ac) =>
      if id == ac.to {
        BaseElection(c, s);
        AppendKept(c, s, ac);
        AppendCommitGrows(c, s, ac, n, HandleAppend(n, ac.req).0);
      }
    case DeliverAppendReply(ar) =>
      if id == ar.call.req.leader {
        AppendReplyNode(c, s, ar, id, n, HandleAppendReply(n, ar.call.to, ar.call.req, ar.resp));
      }
  }

  lemma AppendKept(c: Config, s: Cluster, ac: AppendCall)
    requires ValidConfig(c) && ElectionInv(c, s) && Enabled(s, DeliverAppend(ac)) && Orderly(s, DeliverAppend(ac))
    ensures HistoryKept(s.h, AfterAppend(s, ac).h)
  {
    hide ValidConfig, ElectionInv, HistoryKept, Orderly, AfterAppend;
    HistoryKeptNext(c, s, DeliverAppend(ac));
  }

  lemma StandGrows(n: NodeState)
    requires n.commitIndex < |n.log|
    ensures CommitGrows(n, StartElection(n))
  {
    SameLogGrows(n, StartElection(n));
  }

  lemma AppliedAt(c: Config, s: Cluster, id: Id)
    requires SafetyInv(c, s) && id in s.nodes
    ensures AppliedOk(s.nodes[id])
  {
    hide BaseInv, HoldInv, RepliesOk, MatchOk, CallCommitsOk, NodeCommitsOk;
  }

  lemma SameLogGrows(n: NodeState, n': NodeState)
    requires n'.log == n.log && n'.commitIndex == n.commitIndex < |n.log| && n'.applied == n.applied
    ensures CommitGrows(n, n')
  {
  }

  lemma ProposeGrows(n: NodeState, data: ByteString)
    requires n.commitIndex < |n.log|
    ensures CommitGrows(n, RaftNode.Propose(n, data))
  {
  }

  /**
   Over every orderly run a node's commit index never falls, what it has applied is only extended,
   and no entry it had committed is ever removed from its log or changed.
   */
  lemma {:induction false} CommitNeverUndone(c: Config, r: Run, i: nat, j: nat, id: Id)
    requires ValidConfig(c) && IsOrderlyRun(c, r) && i <= j < |r.states| && id in c.servers
    ensures id in r.states[i].nodes && id in r.states[j].nodes
    ensures CommitGrows(r.states[i].nodes[id], r.states[j].nodes[id])
  {
    hide ValidConfig, SafetyInv, InitCluster, Enabled, Next, Orderly;
    SafetyInvAt(c, r, i);
    StateServers(c, r.states[i], id);
    if i < j {
      CommitNeverUndone(c, r, i, j - 1, id);
      SafetyInvAt(c, r, j - 1);
      StepCommitGrows(c, r.states[j - 1], r.steps[j - 1], id);
    }
  }

  lemma StateServers(c: Config, s: Cluster, id: Id)
    requires SafetyInv(c, s) && id in c.servers
    ensures id in s.nodes && AppliedOk(s.nodes[id]) && CommitGrows(s.nodes[id], s.nodes[id])
  {
    hide BaseInv, HoldInv, RepliesOk, MatchOk, CallCommitsOk, NodeCommitsOk;
    BaseElection(c, s);
  }

  /**
   State machine safety: in every orderly run, whatever two nodes have applied at whatever moments,
   they applied the same entry in every place both have reached.
   */
  lemma StateMachineSafety(c: Config, r: Run, i: nat, j: nat, a: Id, b: Id)
    requires ValidConfig(c) && IsOrderlyRun(c, r) && i <= j < |r.states| && a in c.servers && b in c.servers
    ensures a in r.states[i].nodes && b in r.states[j].nodes
    ensures var (x, y) := (r.states[i].nodes[a].applied, r.states[j].nodes[b].applied);
            x <= y || y <= x
  {
    hide ValidConfig, SafetyInv, IsOrderlyRun, Agree;
    CommitNeverUndone(c, r, i, j, a);
    CommitNeverUndone(c, r, j, j, b);
    SafetyInvAt(c, r, j);
    StateServers(c, r.states[j], a);
    StateServers(c, r.states[j], b);
    CommittedLogsAgree(c, r.states[j], a, b);
    AppliedComparable(r.states[j].nodes[a], r.states[j].nodes[b]);
    var (x, x', y) := (r.states[i].nodes[a].applied, r.states[j].nodes[a].applied, r.states[j].nodes[b].applied);
    assert x <= x';
    if y <= x' { PrefixesComparable(x, y, x'); }
  }

  /** In every orderly run a node has applied exactly the entries up to its commit index, all in its log. */
  lemma AppliedIsCommitted(c: Config, r: Run, i: nat, id: Id)
    requires ValidConfig(c) && IsOrderlyRun(c, r) && i < |r.states| && id in c.servers
    ensures id in r.states[i].nodes && AppliedOk(r.states[i].nodes[id])
  {
    hide ValidConfig, SafetyInv, IsOrderlyRun, AppliedOk;
    SafetyInvAt(c, r, i);
    StateServers(c, r.states[i], id);
    AppliedAt(c, r.states[i], id);
  }

  /** In every orderly run the leaders of all later terms have what was committed before them. */
  lemma LaterLeadersHold(c: Config, r: Run, i: nat, t: nat, k: nat, e: nat)
    requires ValidConfig(c) && IsOrderlyRun(c, r) && i < |r.states|
    requires CommittedIn(c, r.states[i].h, t, k) && t < e && e in r.states[i].h.leaderLog
    ensures Agree(r.states[i].h.leaderLog[e], r.states[i].h.leaderLog[t], k)
  {
    hide ValidConfig, IsOrderlyRun, BaseInv, NodesHold, VotesHold, ElectorsHold, CommitInv, CommittedIn, Agree, ElectionInv;
    SafetyInvAt(c, r, i);
    BaseElection(c, r.states[i]);
    LeaderCompleteness(c, r.states[i], t, k, e);
  }

  lemma PrefixesComparable(x: seq<Entry>, y: seq<Entry>, z: seq<Entry>)
    requires x <= z && y <= z
    ensures x <= y || y <= x
  {
  }

  lemma AppliedComparable(a: NodeState, b: NodeState)
    requires AppliedOk(a) && AppliedOk(b) && Agree(a.log, b.log, Min(a.commitIndex, b.commitIndex) + 1)
    ensures a.applied <= b.applied || b.applied <= a.applied
  {
    hide AppliedOk;
    if a.commitIndex <= b.commitIndex { AppliedPrefix(a, b); } else { AgreeSwaps(a.log, b.log, b.commitIndex + 1); AppliedPrefix(b, a); }
  }

  lemma AgreeSwaps(x: Log, y: Log, k: nat)
    requires Agree(x, y, k)
    ensures Agree(y, x, k)
  {
  }

  lemma AppliedPrefix(a: NodeState, b: NodeState)
    requires AppliedOk(a) && AppliedOk(b) && a.commitIndex <= b.commitIndex && Agree(a.log, b.log, a.commitIndex + 1)
    ensures a.applied <= b.applied
  {
    var k := a.commitIndex + 1;
    forall i | 0 <= i < |a.applied| ensures a.applied[i] == b.applied[i] {
      assert a.log[..k][i + 1] == b.log[..k][i + 1];
    }
  }
}
