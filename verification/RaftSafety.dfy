/**
 Leader completeness: in an orderly run, an entry a quorum holds of its own leader's term is in the
 log of every later leader (the Raft paper, extended version, section 5.4.3).
 */
module RaftSafety {
  import opened Bytes
  import opened RaftNode
  import opened RaftCluster
  import opened RaftElection
  import opened RaftLogs
  import opened RaftHistory

  /** How much of the log of the leader of term t node v is known to have held in that term. */
  ghost function AckLen(h: History, v: Id, t: nat): nat {
    if t in h.leaderOf && h.leaderOf[t] == v && t in h.leaderLog then |h.leaderLog[t]|
    else if (v, t) in h.accepted then h.accepted[(v, t)]
    else 0
  }

  ghost predicate OwnEntry(logs: map<nat, Log>, t: nat, k: nat) {
    t in logs && 1 <= k <= |logs[t]| && logs[t][k - 1].term == t
  }

  /** In term t, v held the first k entries of its leader's log, the last of which is of term t. */
  ghost predicate Held(h: History, v: Id, t: nat, k: nat) {
    OwnEntry(h.leaderLog, t, k) && k <= AckLen(h, v, t)
  }

  /** Every leader of a term after t and up to hi has those k entries. */
  ghost predicate Carried(logs: map<nat, Log>, t: nat, k: nat, hi: int) {
    t in logs && forall u :: t < u <= hi && u in logs ==> Agree(logs[u], logs[t], k)
  }

  /** A node keeps what it held for as long as the leaders it may have heard from have it. */
  ghost predicate NodesHold(s: Cluster) {
    forall v, t, k :: v in s.nodes && Held(s.h, v, t, k)
                      && Carried(s.h.leaderLog, t, k, s.nodes[v].currentTerm) ==>
      Agree(s.nodes[v].log, s.h.leaderLog[t], k)
  }

  ghost predicate VoteHolds(h: History, e: nat, v: Id, t: nat, k: nat) {
    (e, v) in h.votes && (e, h.votes[(e, v)]) in h.candLog && t < e && Held(h, v, t, k)
    && Carried(h.leaderLog, t, k, e - 1) ==>
      Agree(h.candLog[(e, h.votes[(e, v)])], h.leaderLog[t], k)
  }

  /** A candidate in an undecided term has what those who voted for it held. */
  ghost predicate VotesHold(h: History) {
    forall e, v, t, k :: (e, v) in h.votes && e !in h.leaderLog && Held(h, v, t, k) ==> VoteHolds(h, e, v, t, k)
  }

  ghost predicate ElectorHolds(h: History, e: nat, v: Id, t: nat, k: nat) {
    t < e && e in h.leaderLog && Held(h, v, t, k) && Carried(h.leaderLog, t, k, e - 1) ==>
      Agree(h.leaderLog[e], h.leaderLog[t], k)
  }

  /** A leader has what those who elected it held. */
  ghost predicate ElectorsHold(h: History) {
    forall e, v, t, k :: e in h.leaderLog && e in h.electors && v in h.electors[e] && Held(h, v, t, k) ==>
      ElectorHolds(h, e, v, t, k)
  }

  ghost predicate HoldInv(s: Cluster) {
    NodesHold(s) && VotesHold(s.h) && ElectorsHold(s.h)
  }

  lemma HoldInvInit(c: Config)
    requires ValidConfig(c)
    ensures HoldInv(InitCluster(c))
  {
    hide ValidConfig;
  }

  // ---- how leader logs may grow

  ghost predicate GrowsOwn(logs: map<nat, Log>, logs': map<nat, Log>) {
    && Grows(logs, logs')
    && forall u, i :: u in logs && u in logs' && |logs[u]| <= i < |logs'[u]| ==> logs'[u][i].term == u
  }

  /** An entry of term t carried by grown logs was already carried before they grew. */
  lemma CarriedBack(logs: map<nat, Log>, logs': map<nat, Log>, t: nat, k: nat, hi: int)
    requires GrowsOwn(logs, logs') && OwnEntry(logs, t, k) && Carried(logs', t, k, hi)
    ensures Carried(logs, t, k, hi)
  {
    forall u | t < u <= hi && u in logs ensures Agree(logs[u], logs[t], k) {
      assert Agree(logs'[u], logs'[t], k) && Agree(logs'[t], logs[t], |logs[t]|) && Agree(logs'[u], logs[u], |logs[u]|);
      assert logs'[u][k - 1].term == t;
    }
  }

  lemma CarriedMonotone(logs: map<nat, Log>, t: nat, k: nat, hi: int, lo: int)
    requires Carried(logs, t, k, hi) && lo <= hi
    ensures Carried(logs, t, k, lo)
  {
  }

  /** An entry of a leader of term t in the log of a later leader was there when that one was elected. */
  lemma CarriedInElectionLog(s: Cluster, t: nat, k: nat, u: nat)
    requires CandLogsOk(s) && LeaderShapesOk(s.h) && OwnEntry(s.h.leaderLog, t, k)
    requires t < u && u in s.h.leaderLog && Agree(s.h.leaderLog[u], s.h.leaderLog[t], k)
    ensures k <= |ElectionLog(s.h, u)|
  {
    assert LeaderLogShape(s.h, u);
    assert s.h.leaderLog[u][k - 1].term == t;
    hide CandLogsOk;
  }

  // ---- steps that keep logs and what is held

  lemma KeepsLogHolds(s: Cluster, s': Cluster, id: Id)
    requires NodesHold(s) && OnlyNode(s, s', id) && KeepsLog(s.nodes[id], s'.nodes[id])
    requires s'.h.leaderLog == s.h.leaderLog && s'.h.leaderOf == s.h.leaderOf && s'.h.accepted == s.h.accepted
    ensures NodesHold(s')
  {
    hide Agree;
    forall v: Id, t: nat, k: nat | v in s'.nodes && Held(s'.h, v, t, k)
                     && Carried(s'.h.leaderLog, t, k, s'.nodes[v].currentTerm)
      ensures Agree(s'.nodes[v].log, s'.h.leaderLog[t], k)
    {
      assert Held(s.h, v, t, k);
      CarriedMonotone(s.h.leaderLog, t, k, s'.nodes[v].currentTerm, s.nodes[v].currentTerm);
    }
  }

  lemma HoldFrame(h: History, h': History)
    requires VotesHold(h) && ElectorsHold(h)
    requires h'.leaderLog == h.leaderLog && h'.leaderOf == h.leaderOf && h'.accepted == h.accepted
    requires h'.votes == h.votes && h'.candLog == h.candLog && h'.electors == h.electors
    ensures VotesHold(h') && ElectorsHold(h')
  {
    hide Agree, Carried;
    forall v: Id, t: nat, k: nat | Held(h', v, t, k) ensures Held(h, v, t, k) {}
  }

  // ---- standing and voting

  /** The argument for a vote: a log that holds an entry is only beaten by logs that hold it too. */
  lemma UpToDateHolds(s: Cluster, req: VoteRequest, log: Log, t: nat, k: nat)
    requires CandLogsOk(s) && LeaderShapesOk(s.h) && VoteCallOk(s.h, req)
    requires Canon(s.h.leaderLog, log) && UpToDate(req, log)
    requires OwnEntry(s.h.leaderLog, t, k) && Agree(log, s.h.leaderLog[t], k) && t < req.term
    requires Carried(s.h.leaderLog, t, k, req.term - 1)
    ensures Agree(s.h.candLog[(req.term, req.candidate)], s.h.leaderLog[t], k)
  {
    hide LeaderShapesOk;
    var cand := s.h.candLog[(req.term, req.candidate)];
    assert StoodWith(s.nodes, s.h.leaderLog, req.term, req.candidate, cand);
    VoteArgument(s, cand, log, t, k, req.term);
  }

  lemma VoteArgument(s: Cluster, cand: Log, log: Log, t: nat, k: nat, e: nat)
    requires CandLogsOk(s) && LeaderShapesOk(s.h)
    requires Canon(s.h.leaderLog, log) && Canon(s.h.leaderLog, cand) && TermsUpTo(cand, e - 1)
    requires LastTerm(cand) > LastTerm(log) || (LastTerm(cand) == LastTerm(log) && |cand| >= |log|)
    requires OwnEntry(s.h.leaderLog, t, k) && Agree(log, s.h.leaderLog[t], k) && t < e
    requires Carried(s.h.leaderLog, t, k, e - 1)
    ensures Agree(cand, s.h.leaderLog[t], k)
  {
    hide CandLogsOk, LeaderShapesOk, TermsUpTo;
    var logs := s.h.leaderLog;
    LeaderLogTerms(s, t);
    LastTermAtLeast(s, log, k - 1);
    var u, i := LastTerm(cand), |cand| - 1;
    assert u >= t && 1 <= t;
    assert i > 0 && CanonAt(logs, cand, i);
    assert u < e by { TermsUpToAt(cand, e - 1, i); }
    if u == LastTerm(log) {
      CanonMatch2(logs, cand, log);
    } else {
      assert Agree(logs[u], logs[t], k);
      CarriedInElectionLog(s, t, k, u);
      OwnEntryAfterElection(s, u, i);
    }
  }

  lemma TermsUpToAt(log: Log, t: int, i: nat)
    requires TermsUpTo(log, t) && i < |log|
    ensures log[i].term <= t
  {
  }

  /** Of two canonical logs ending in the same term the longer one contains the shorter one. */
  lemma CanonMatch2(logs: map<nat, Log>, a: Log, b: Log)
    requires Canon(logs, a) && Canon(logs, b) && LastTerm(a) == LastTerm(b) && |a| >= |b|
    ensures Agree(a, b, |b|)
  {
    if |b| > 1 {
      assert CanonAt(logs, a, |a| - 1) && CanonAt(logs, b, |b| - 1);
    }
  }

  /** An entry of term u in a canonical log lies beyond the log with which u's leader stood. */
  lemma OwnEntryAfterElection(s: Cluster, u: nat, i: nat)
    requires CandLogsOk(s) && LeaderShapesOk(s.h) && u in s.h.leaderLog
    requires i < |s.h.leaderLog[u]| && s.h.leaderLog[u][i].term == u
    ensures |ElectionLog(s.h, u)| <= i
  {
    hide CandLogsOk;
    LeaderLogTerms(s, u);
    assert LeaderLogShape(s.h, u);
  }

  /** Terms never fall along a canonical log. */
  lemma LastTermAtLeast(s: Cluster, log: Log, j: nat)
    requires CandLogsOk(s) && LeaderShapesOk(s.h) && Canon(s.h.leaderLog, log) && j < |log|
    ensures LastTerm(log) >= log[j].term
  {
    hide CandLogsOk, LeaderShapesOk, TermsUpTo;
    var i := |log| - 1;
    if i > 0 && j < i {
      assert CanonAt(s.h.leaderLog, log, i);
      LeaderLogTerms(s, log[i].term);
      TermsUpToAt(s.h.leaderLog[log[i].term], log[i].term, j);
    }
  }

  /** A node's log when it votes or stands in an undecided term holds what the node held. */
  lemma VoterHolds(s: Cluster, v: Id, e: nat, t: nat, k: nat)
    requires NodesHold(s) && v in s.nodes && s.nodes[v].currentTerm <= e && e !in s.h.leaderLog
    requires Held(s.h, v, t, k) && Carried(s.h.leaderLog, t, k, e - 1)
    ensures Agree(s.nodes[v].log, s.h.leaderLog[t], k)
  {
    assert Carried(s.h.leaderLog, t, k, s.nodes[v].currentTerm);
    hide Agree;
  }

  lemma TimeoutVotesHold(c: Config, s: Cluster, id: Id)
    requires NodesHold(s) && VotesHold(s.h) && ElectorsHold(s.h) && CandLogsOk(s) && Enabled(s, ElectionTimeout(id))
    ensures VotesHold(AfterTimeout(s, id).h) && ElectorsHold(AfterTimeout(s, id).h)
  {
    hide Agree, Carried, CandLogsOk, NodesHold, CandExtends;
    var h, h', e' := s.h, AfterTimeout(s, id).h, s.nodes[id].currentTerm + 1;
    forall v: Id, t: nat, k: nat | Held(h', v, t, k) ensures Held(h, v, t, k) {}
    TimeoutExtends(s, id);
    forall e: nat, v: Id, t: nat, k: nat | (e, v) in h'.votes && e !in h'.leaderLog && Held(h', v, t, k)
      ensures VoteHolds(h', e, v, t, k)
    {
      if (e, v) == (e', id) {
        if t < e && Carried(h.leaderLog, t, k, e - 1) { VoterHolds(s, id, e, t, k); }
      } else {
        assert VoteHolds(h, e, v, t, k);
        CandExtendsAt(s, h, h', e, v);
      }
    }
  }

  lemma CandExtendsAt(s: Cluster, h: History, h': History, e: nat, v: Id)
    requires CandExtends(h, h') && s.h == h && CandLogsOk(s) && (e, v) in h.votes
    ensures (e, h.votes[(e, v)]) in h.candLog && (e, h.votes[(e, v)]) in h'.candLog
    ensures h'.candLog[(e, h.votes[(e, v)])] == h.candLog[(e, h.votes[(e, v)])]
  {
    hide StoodWith;
  }

  lemma TimeoutKeepsHoldInv(c: Config, s: Cluster, id: Id)
    requires BaseInv(c, s) && HoldInv(s) && Enabled(s, ElectionTimeout(id))
    ensures HoldInv(AfterTimeout(s, id))
  {
    hide ElectionInv, LogInv, CandLogsOk, LeaderShapesOk, NodeTermsOk, VoteCallsOk, CallPrefixesOk, AcceptedOk,
      NodesHold, VotesHold, ElectorsHold;
    TimeoutVotesHold(c, s, id);
    StandingNodesHold(s, AfterTimeout(s, id), id);
  }

  lemma StandingNodesHold(s: Cluster, s': Cluster, id: Id)
    requires NodesHold(s) && OnlyNode(s, s', id)
    requires s'.nodes[id].log == s.nodes[id].log && s'.nodes[id].currentTerm >= s.nodes[id].currentTerm
    requires s'.h.leaderLog == s.h.leaderLog && s'.h.leaderOf == s.h.leaderOf && s'.h.accepted == s.h.accepted
    ensures NodesHold(s')
  {
    hide Agree;
    forall v: Id, t: nat, k: nat | v in s'.nodes && Held(s'.h, v, t, k)
                     && Carried(s'.h.leaderLog, t, k, s'.nodes[v].currentTerm)
      ensures Agree(s'.nodes[v].log, s'.h.leaderLog[t], k)
    {
      assert Held(s.h, v, t, k);
      CarriedMonotone(s.h.leaderLog, t, k, s'.nodes[v].currentTerm, s.nodes[v].currentTerm);
    }
  }

  lemma GrantFactsForHold(n: NodeState, req: VoteRequest)
    requires |n.log| >= 1 && HandleVote(n, req).1.granted
    ensures n.currentTerm <= req.term && UpToDate(req, n.log)
  {
  }

  lemma GrantVotesHold(c: Config, s: Cluster, vc: VoteCall)
    requires BaseInv(c, s) && HoldInv(s) && Enabled(s, DeliverVote(vc))
    requires HandleVote(s.nodes[vc.to], vc.req).1.granted
    ensures VotesHold(AfterVote(s, vc).h) && ElectorsHold(AfterVote(s, vc).h)
  {
    hide ElectionInv, LeaderLogsOk, CallsOk, CandLogsOk, LeaderShapesOk, NodeTermsOk, CallPrefixesOk, AcceptedOk,
      NodesHold, Agree, Carried, HandleVote, Canon, UpToDate, VoteCallOk, OwnEntry;
    var h, h', v', e' := s.h, AfterVote(s, vc).h, vc.to, vc.req.term;
    GrantFactsForHold(s.nodes[v'], vc.req);
    forall v: Id, t: nat, k: nat | Held(h', v, t, k) ensures Held(h, v, t, k) {}
    forall e: nat, v: Id, t: nat, k: nat | (e, v) in h'.votes && e !in h'.leaderLog && Held(h', v, t, k)
      ensures VoteHolds(h', e, v, t, k)
    {
      if (e, v) == (e', v') {
        if t < e && Carried(h.leaderLog, t, k, e - 1) {
          VoterHolds(s, v', e, t, k);
          UpToDateHolds(s, vc.req, s.nodes[v'].log, t, k);
        }
      } else {
        assert VoteHolds(h, e, v, t, k);
      }
    }
  }

  lemma VoteKeepsHoldInv(c: Config, s: Cluster, vc: VoteCall)
    requires BaseInv(c, s) && HoldInv(s) && Enabled(s, DeliverVote(vc))
    ensures HoldInv(AfterVote(s, vc))
  {
    hide BaseInv, NodesHold, VotesHold, ElectorsHold, HandleVote, KeepsLog;
    HandleVoteKeeps(s.nodes[vc.to], vc.req);
    KeepsLogHolds(s, AfterVote(s, vc), vc.to);
    if HandleVote(s.nodes[vc.to], vc.req).1.granted {
      GrantVotesHold(c, s, vc);
    } else {
      HoldFrame(s.h, AfterVote(s, vc).h);
    }
  }

  // ---- winning

  /** The history after the candidate id, in term e, has won. */
  ghost predicate WonBy(s: Cluster, h': History, id: Id) {
    && id in s.nodes && s.nodes[id].role == Candidate
    && var e := s.nodes[id].currentTerm;
       && e !in s.h.leaderOf && s.h.leaderOf.Keys == s.h.leaderLog.Keys
       && e in h'.electors && (forall v :: v in h'.electors[e] ==> VotedFor(s.h, e, v, id))
       && h'.electors == s.h.electors[e := h'.electors[e]]
       && h'.leaderOf == s.h.leaderOf[e := id] && h'.leaderLog == s.h.leaderLog[e := s.nodes[id].log]
       && h'.votes == s.h.votes && h'.candLog == s.h.candLog && h'.accepted == s.h.accepted
  }

  lemma WinHeld(s: Cluster, h': History, id: Id)
    requires WonBy(s, h', id) && CandLogsOk(s) && AcceptedOk(s)
    ensures GrowsOwn(s.h.leaderLog, h'.leaderLog)
    ensures forall v, t, k :: Held(h', v, t, k) ==> Held(s.h, v, t, k)
    ensures forall t, k :: OwnEntry(s.h.leaderLog, t, k) ==> h'.leaderLog[t] == s.h.leaderLog[t]
  {
    var e := s.nodes[id].currentTerm;
    assert StoodWith(s.nodes, s.h.leaderLog, e, id, s.h.candLog[(e, id)]);
    hide Canon;
  }

  lemma WinElectorsHold(s: Cluster, h': History, id: Id)
    requires WonBy(s, h', id) && CandLogsOk(s) && AcceptedOk(s)
    requires VotesHold(s.h) && ElectorsHold(s.h)
    ensures ElectorsHold(h')
  {
    hide CandLogsOk, AcceptedOk, GrowsOwn, Agree, Carried, OwnEntry;
    var h, n := s.h, s.nodes[id];
    WinHeld(s, h', id);
    forall e: nat, v: Id, t: nat, k: nat | e in h'.leaderLog && e in h'.electors && v in h'.electors[e] && Held(h', v, t, k)
      ensures ElectorHolds(h', e, v, t, k)
    {
      if t < e && Carried(h'.leaderLog, t, k, e - 1) {
        assert Held(h, v, t, k);
        CarriedBack(h.leaderLog, h'.leaderLog, t, k, e - 1);
        if e == n.currentTerm {
          CandidateStoodWith(s, id);
          assert VoteHolds(h, e, v, t, k);
        } else {
          assert ElectorHolds(h, e, v, t, k);
        }
      }
    }
  }

  lemma CandidateStoodWith(s: Cluster, id: Id)
    requires CandLogsOk(s) && id in s.nodes && s.nodes[id].role == Candidate
    ensures (s.nodes[id].currentTerm, id) in s.h.candLog
    ensures s.h.candLog[(s.nodes[id].currentTerm, id)] == s.nodes[id].log
  {
    hide Canon, TermsUpTo;
  }

  lemma WinVotesHold(s: Cluster, h': History, id: Id)
    requires WonBy(s, h', id) && CandLogsOk(s) && AcceptedOk(s) && VotesHold(s.h)
    ensures VotesHold(h')
  {
    hide CandLogsOk, AcceptedOk, GrowsOwn, Agree, Carried, OwnEntry;
    WinHeld(s, h', id);
    forall e: nat, v: Id, t: nat, k: nat | (e, v) in h'.votes && e !in h'.leaderLog && Held(h', v, t, k)
      ensures VoteHolds(h', e, v, t, k)
    {
      assert Held(s.h, v, t, k);
      assert VoteHolds(s.h, e, v, t, k);
      if Carried(h'.leaderLog, t, k, e - 1) {
        CarriedBack(s.h.leaderLog, h'.leaderLog, t, k, e - 1);
      }
    }
  }

  lemma WinNodesHold(s: Cluster, s': Cluster, id: Id)
    requires WonBy(s, s'.h, id) && CandLogsOk(s) && AcceptedOk(s) && NodesHold(s)
    requires OnlyNode(s, s', id) && KeepsLog(s.nodes[id], s'.nodes[id])
    ensures NodesHold(s')
  {
    hide CandLogsOk, AcceptedOk, GrowsOwn, Agree, OwnEntry;
    WinHeld(s, s'.h, id);
    forall v: Id, t: nat, k: nat | v in s'.nodes && Held(s'.h, v, t, k)
                     && Carried(s'.h.leaderLog, t, k, s'.nodes[v].currentTerm)
      ensures Agree(s'.nodes[v].log, s'.h.leaderLog[t], k)
    {
      assert Held(s.h, v, t, k);
      CarriedBack(s.h.leaderLog, s'.h.leaderLog, t, k, s'.nodes[v].currentTerm);
      CarriedMonotone(s.h.leaderLog, t, k, s'.nodes[v].currentTerm, s.nodes[v].currentTerm);
    }
  }

  lemma WinIsWonBy(c: Config, s: Cluster, vr: VoteReply)
    requires ValidConfig(c) && ElectionInv(c, s) && Enabled(s, DeliverVoteReply(vr)) && Wins(s.nodes[vr.candidate], vr)
    ensures WonBy(s, AfterVoteReply(s, vr).h, vr.candidate)
  {
    hide ValidConfig, NodesOk, VotesOk, VoteMessagesOk, TallyOk, LeadersOk, ElectorsOk, SendsOk, HandleVoteReply,
      AfterVoteReply, IsQuorum;
    CountedReplyShape(s, vr);
    WinnerIsFirst(c, s, vr);
    LeaderKeys(c, s);
    TallyGrows(c, s, vr);
  }

  lemma VoteReplyKeepsHoldInv(c: Config, s: Cluster, vr: VoteReply)
    requires ValidConfig(c) && BaseInv(c, s) && HoldInv(s) && Enabled(s, DeliverVoteReply(vr))
    ensures HoldInv(AfterVoteReply(s, vr))
  {
    hide ValidConfig, ElectionInv, LogInv, CandLogsOk, LeaderShapesOk, NodeTermsOk, VoteCallsOk, CallPrefixesOk,
      AcceptedOk, NodesHold, VotesHold, ElectorsHold, HandleVoteReply, KeepsLog, WonBy, Enough;
    var s', id := AfterVoteReply(s, vr), vr.candidate;
    HandleVoteReplyKeeps(s.nodes[id], vr);
    if Wins(s.nodes[id], vr) {
      WinIsWonBy(c, s, vr);
      WinNodesHold(s, s', id);
      WinVotesHold(s, s'.h, id);
      WinElectorsHold(s, s'.h, id);
    } else {
      if Counts(s.nodes[id], vr) { CountedReplyShape(s, vr); }
      else if s.nodes[id].role == Candidate { UncountedReplyNoLeader(s.nodes[id], vr); }
      KeepsLogHolds(s, s', id);
      HoldFrame(s.h, s'.h);
    }
  }

  // ---- proposing

  /** A new entry is held by its leader only. */
  lemma ProposeHeld(c: Config, s: Cluster, id: Id, data: ByteString)
    requires ElectionInv(c, s) && AcceptedOk(s) && Enabled(s, Propose(id, data))
    ensures var (h, h', n) := (s.h, AfterPropose(s, id, data).h, s.nodes[id]);
            && GrowsOwn(h.leaderLog, h'.leaderLog)
            && n.currentTerm in h'.leaderLog
            && h'.leaderLog[n.currentTerm] == AfterPropose(s, id, data).nodes[id].log
            && (forall v, t, k :: Held(h', v, t, k) ==> Held(h, v, t, k) || (v == id && t == n.currentTerm))
  {
    hide ElectionInv;
    LeaderFacts(c, s, id);
    var (h, h', n) := (s.h, AfterPropose(s, id, data).h, s.nodes[id]);
    forall v: Id, t: nat, k: nat | Held(h', v, t, k) ensures Held(h, v, t, k) || (v == id && t == n.currentTerm) {
      if t == n.currentTerm && v != id {
        assert AcceptedAt(s, v, t);
      }
    }
  }

  lemma ProposeNodesHold(c: Config, s: Cluster, id: Id, data: ByteString)
    requires ElectionInv(c, s) && AcceptedOk(s) && NodesHold(s) && Enabled(s, Propose(id, data))
    ensures NodesHold(AfterPropose(s, id, data))
  {
    hide ElectionInv, AcceptedOk, GrowsOwn, Held, AfterPropose;
    var s' := AfterPropose(s, id, data);
    ProposeHeld(c, s, id, data);
    ProposeNode(s, id, data);
    forall v: Id, t: nat, k: nat | v in s'.nodes && Held(s'.h, v, t, k)
                     && Carried(s'.h.leaderLog, t, k, s'.nodes[v].currentTerm)
      ensures Agree(s'.nodes[v].log, s'.h.leaderLog[t], k)
    {
      HeldBounds(s'.h, v, t, k);
      if Held(s.h, v, t, k) {
        HeldBounds(s.h, v, t, k);
        CarriedBack(s.h.leaderLog, s'.h.leaderLog, t, k, s'.nodes[v].currentTerm);
        AgreeGrown(s.h.leaderLog, s'.h.leaderLog, t, k);
      }
    }
  }

  lemma HeldBounds(h: History, v: Id, t: nat, k: nat)
    requires Held(h, v, t, k)
    ensures OwnEntry(h.leaderLog, t, k)
  {
  }

  lemma AgreeGrown(logs: map<nat, Log>, logs': map<nat, Log>, t: nat, k: nat)
    requires GrowsOwn(logs, logs') && OwnEntry(logs, t, k)
    ensures t in logs' && Agree(logs'[t], logs[t], k)
  {
  }

  lemma ProposeNode(s: Cluster, id: Id, data: ByteString)
    requires Enabled(s, Propose(id, data))
    ensures var s' := AfterPropose(s, id, data);
            && s'.nodes.Keys == s.nodes.Keys
            && (forall v :: v in s.nodes ==> s'.nodes[v].currentTerm == s.nodes[v].currentTerm)
            && (forall v :: v in s.nodes ==> Agree(s'.nodes[v].log, s.nodes[v].log, |s.nodes[v].log|))
  {
  }

  lemma ProposeVotesHold(c: Config, s: Cluster, id: Id, data: ByteString)
    requires ElectionInv(c, s) && AcceptedOk(s) && VotesHold(s.h) && Enabled(s, Propose(id, data))
    ensures VotesHold(AfterPropose(s, id, data).h)
  {
    hide ElectionInv, AcceptedOk, GrowsOwn, Held, Carried, OwnEntry, AfterPropose;
    var h, h' := s.h, AfterPropose(s, id, data).h;
    ProposeHeld(c, s, id, data);
    ProposeHistory(s, id, data);
    forall e: nat, v: Id, t: nat, k: nat | (e, v) in h'.votes && e !in h'.leaderLog && Held(h', v, t, k)
      ensures VoteHolds(h', e, v, t, k)
    {
      if t < e && Carried(h'.leaderLog, t, k, e - 1) {
        VoteTerm(c, s, e, v);
        assert Held(h, v, t, k);
        HeldBounds(h, v, t, k);
        assert VoteHolds(h, e, v, t, k);
        CarriedBack(h.leaderLog, h'.leaderLog, t, k, e - 1);
        AgreeGrown(h.leaderLog, h'.leaderLog, t, k);
      }
    }
  }

  lemma ProposeHistory(s: Cluster, id: Id, data: ByteString)
    requires Enabled(s, Propose(id, data))
    ensures var (h, h') := (s.h, AfterPropose(s, id, data).h);
            h'.votes == h.votes && h'.candLog == h.candLog && h'.electors == h.electors && h'.leaderOf == h.leaderOf
            && (forall e :: e in h.leaderLog ==> e in h'.leaderLog)
            && (forall e :: e in h'.leaderLog ==> e in h.leaderLog || e == s.nodes[id].currentTerm)
  {
  }

  lemma VoteTerm(c: Config, s: Cluster, e: nat, v: Id)
    requires ElectionInv(c, s) && (e, v) in s.h.votes
    ensures v in s.nodes && e <= s.nodes[v].currentTerm
  {
    hide NodesOk, VoteMessagesOk, TallyOk, LeadersOk, ElectorsOk, SendsOk;
    assert VoteOk(s.nodes, e, v, s.h.votes[(e, v)]);
  }

  lemma ElectorTerm(c: Config, s: Cluster, e: nat, v: Id)
    requires ElectionInv(c, s) && e in s.h.leaderLog && e in s.h.electors && v in s.h.electors[e]
    ensures v in s.nodes && e <= s.nodes[v].currentTerm
  {
    hide NodesOk, VotesOk, VoteMessagesOk, TallyOk, WonTerm, LeaderOk, SendsOk;
    assert VotedFor(s.h, e, v, s.h.leaderOf[e]);
    VoteTerm(c, s, e, v);
  }

  lemma ProposeElectorsHold(c: Config, s: Cluster, id: Id, data: ByteString)
    requires ElectionInv(c, s) && AcceptedOk(s) && ElectorsHold(s.h) && Enabled(s, Propose(id, data))
    ensures ElectorsHold(AfterPropose(s, id, data).h)
  {
    hide ElectionInv, AcceptedOk, Held, Carried, OwnEntry, AfterPropose;
    var h, h' := s.h, AfterPropose(s, id, data).h;
    ProposeHeld(c, s, id, data);
    ProposeHistory(s, id, data);
    LeaderFacts(c, s, id);
    forall e: nat, v: Id, t: nat, k: nat | e in h'.leaderLog && e in h'.electors && v in h'.electors[e] && Held(h', v, t, k)
      ensures ElectorHolds(h', e, v, t, k)
    {
      if t < e && Carried(h'.leaderLog, t, k, e - 1) {
        ElectorTerm(c, s, e, v);
        assert Held(h, v, t, k);
        HeldBounds(h, v, t, k);
        assert ElectorHolds(h, e, v, t, k);
        CarriedBack(h.leaderLog, h'.leaderLog, t, k, e - 1);
        AgreeGrown(h.leaderLog, h'.leaderLog, t, k);
        assert Agree(h'.leaderLog[e], h.leaderLog[e], |h.leaderLog[e]|);
      }
    }
  }

  lemma ProposeKeepsHoldInv(c: Config, s: Cluster, id: Id, data: ByteString)
    requires BaseInv(c, s) && HoldInv(s) && Enabled(s, Propose(id, data))
    ensures HoldInv(AfterPropose(s, id, data))
  {
    hide ElectionInv, LogInv, CandLogsOk, LeaderShapesOk, NodeTermsOk, VoteCallsOk, CallPrefixesOk,
      AcceptedOk, NodesHold, VotesHold, ElectorsHold, AfterPropose;
    ProposeNodesHold(c, s, id, data);
    ProposeVotesHold(c, s, id, data);
    ProposeElectorsHold(c, s, id, data);
  }

  // ---- accepting

  /** Accepting a request of term u changes only what the follower holds of term u. */
  lemma AcceptHeld(s: Cluster, h': History, ac: AppendCall)
    requires h' == s.h.(accepted := s.h.accepted[(ac.to, ac.req.term) := |ac.snapshot|])
    ensures forall v, t, k :: Held(h', v, t, k) ==> Held(s.h, v, t, k) || (v == ac.to && t == ac.req.term)
  {
  }

  lemma HeldTerm(c: Config, s: Cluster, v: Id, t: nat, k: nat)
    requires ElectionInv(c, s) && AcceptedOk(s) && Held(s.h, v, t, k)
    ensures v in s.nodes && t <= s.nodes[v].currentTerm
  {
    hide NodesOk, VotesOk, VoteMessagesOk, TallyOk, ElectorsOk, SendsOk, IsQuorum, LeaderOk;
    if t in s.h.leaderOf && s.h.leaderOf[t] == v && t in s.h.leaderLog {
      assert WonTerm(c, s, t);
    } else if (v, t) in s.h.accepted {
      assert AcceptedAt(s, v, t);
    }
  }

  lemma CallFacts(c: Config, s: Cluster, ac: AppendCall)
    requires BaseInv(c, s) && ac in s.appendCalls
    ensures CallPrefix(s.h, ac) && ac.req.term in s.h.leaderOf && s.h.leaderOf[ac.req.term] != ac.to
  {
    hide NodesOk, VotesOk, VoteMessagesOk, TallyOk, LeadersOk, ElectorsOk, LogInv, CandLogsOk, LeaderShapesOk,
      NodeTermsOk, VoteCallsOk, AcceptedOk, CallPrefix;
  }

  /** The accepted snapshot holds everything the follower held, if the sender's log does. */
  lemma SnapshotHolds(c: Config, s: Cluster, ac: AppendCall, h': History, t: nat, k: nat)
    requires BaseInv(c, s) && ac in s.appendCalls && ac.to in s.nodes && s.nodes[ac.to].currentTerm <= ac.req.term
    requires h' == s.h.(accepted := s.h.accepted[(ac.to, ac.req.term) := |ac.snapshot|])
    requires Held(h', ac.to, t, k) && Carried(s.h.leaderLog, t, k, ac.req.term)
    ensures Agree(ac.snapshot, s.h.leaderLog[t], k)
  {
    hide ElectionInv, LogInv, CandLogsOk, LeaderShapesOk, NodeTermsOk, VoteCallsOk, CallPrefixesOk, AcceptedOk;
    var u := ac.req.term;
    CallFacts(c, s, ac);
    if t != u {
      AcceptHeld(s, h', ac);
      HeldTerm(c, s, ac.to, t, k);
      assert Agree(s.h.leaderLog[u], s.h.leaderLog[t], k);
      CarriedInElectionLog(s, t, k, u);
    }
  }

  lemma AcceptNodesHold(c: Config, s: Cluster, ac: AppendCall)
    requires BaseInv(c, s) && NodesHold(s) && Enabled(s, DeliverAppend(ac)) && Accepts(s.nodes[ac.to], ac.req)
    ensures NodesHold(AfterAppend(s, ac))
  {
    hide ElectionInv, LogInv, HistoryInv, AfterAppend, Agree, Held;
    var s' := AfterAppend(s, ac);
    assert LogInv(s);
    AcceptFacts(s, ac);
    AcceptHeld(s, s'.h, ac);
    forall v: Id, t: nat, k: nat | v in s'.nodes && Held(s'.h, v, t, k)
                     && Carried(s'.h.leaderLog, t, k, s'.nodes[v].currentTerm)
      ensures Agree(s'.nodes[v].log, s'.h.leaderLog[t], k)
    {
      if v == ac.to {
        SnapshotHolds(c, s, ac, s'.h, t, k);
      } else {
        assert Held(s.h, v, t, k);
      }
    }
  }

  lemma AcceptVotesHold(c: Config, s: Cluster, ac: AppendCall)
    requires BaseInv(c, s) && VotesHold(s.h) && ElectorsHold(s.h)
    requires Enabled(s, DeliverAppend(ac)) && Accepts(s.nodes[ac.to], ac.req)
    ensures VotesHold(AfterAppend(s, ac).h) && ElectorsHold(AfterAppend(s, ac).h)
  {
    hide ElectionInv, LogInv, HistoryInv, AfterAppend, Agree, Held, Carried;
    var h, h' := s.h, AfterAppend(s, ac).h;
    AcceptFacts(s, ac);
    AcceptHeld(s, h', ac);
    forall e: nat, v: Id, t: nat, k: nat | (e, v) in h'.votes && e !in h'.leaderLog && Held(h', v, t, k)
      ensures VoteHolds(h', e, v, t, k)
    {
      if t < e {
        VoteTerm(c, s, e, v);
        assert VoteHolds(h, e, v, t, k);
      }
    }
    forall e: nat, v: Id, t: nat, k: nat | e in h'.leaderLog && e in h'.electors && v in h'.electors[e] && Held(h', v, t, k)
      ensures ElectorHolds(h', e, v, t, k)
    {
      if t < e {
        ElectorTerm(c, s, e, v);
        assert ElectorHolds(h, e, v, t, k);
      }
    }
  }

  lemma AppendKeepsHoldInv(c: Config, s: Cluster, ac: AppendCall)
    requires BaseInv(c, s) && HoldInv(s) && Enabled(s, DeliverAppend(ac))
    ensures HoldInv(AfterAppend(s, ac))
  {
    hide BaseInv, NodesHold, VotesHold, ElectorsHold, HandleAppend, KeepsLog, Accepts;
    if Accepts(s.nodes[ac.to], ac.req) {
      AcceptNodesHold(c, s, ac);
      AcceptVotesHold(c, s, ac);
    } else {
      RejectKeeps(s.nodes[ac.to], ac.req);
      KeepsLogHolds(s, AfterAppend(s, ac), ac.to);
    }
  }

  lemma AppendReplyKeepsHoldInv(c: Config, s: Cluster, ar: AppendReply)
    requires HoldInv(s) && Enabled(s, DeliverAppendReply(ar))
    ensures HoldInv(AfterAppendReply(s, ar))
  {
    hide NodesHold, VotesHold, ElectorsHold, HandleAppendReply, KeepsLog;
    var id := ar.call.req.leader;
    HandleAppendReplyKeeps(s.nodes[id], ar.call.to, ar.call.req, ar.resp);
    KeepsLogHolds(s, AfterAppendReply(s, ar), id);
  }

  lemma MessagesKeepNodesHold(s: Cluster, s': Cluster)
    requires NodesHold(s) && s'.nodes == s.nodes && s'.h == s.h
    ensures NodesHold(s')
  {
    hide Held, Carried, Agree;
  }

  lemma HoldInvNext(c: Config, s: Cluster, step: Step)
    requires ValidConfig(c) && BaseInv(c, s) && HoldInv(s) && Enabled(s, step)
    ensures HoldInv(Next(s, step))
  {
    hide ValidConfig, BaseInv, NodesHold, VotesHold, ElectorsHold, AfterTimeout, AfterVote, AfterVoteReply,
      AfterPropose, AfterAppend, AfterAppendReply;
    match step
    case ElectionTimeout(id) => TimeoutKeepsHoldInv(c, s, id);
    case DeliverVote(vc) => VoteKeepsHoldInv(c, s, vc);
    case DeliverVoteReply(vr) => VoteReplyKeepsHoldInv(c, s, vr);
    case Propose(id, data) => ProposeKeepsHoldInv(c, s, id, data);
    case Heartbeat(id) => MessagesKeepNodesHold(s, Next(s, step));
    case SendAppend(id, term, peer) => MessagesKeepNodesHold(s, Next(s, step));
    case DeliverAppend(ac) => AppendKeepsHoldInv(c, s, ac);
    case DeliverAppendReply(ar) => AppendReplyKeepsHoldInv(c, s, ar);
  }

  // ---- leader completeness

  /** A quorum holds the first k entries of the leader of term t, the last of them of its own term. */
  ghost predicate CommittedIn(c: Config, h: History, t: nat, k: nat) {
    OwnEntry(h.leaderLog, t, k) && exists q :: IsQuorum(c, q) && HeldByAll(h, q, t, k)
  }

  ghost predicate HeldByAll(h: History, q: set<Id>, t: nat, k: nat) {
    forall v :: v in q ==> Held(h, v, t, k)
  }

  lemma ElectorsAreQuorum(c: Config, s: Cluster, e: nat)
    requires ElectionInv(c, s) && e in s.h.leaderLog
    ensures e in s.h.electors && IsQuorum(c, s.h.electors[e])
  {
    hide NodesOk, VotesOk, VoteMessagesOk, TallyOk, LeaderOk, ElectorsOk, SendsOk, IsQuorum;
    assert WonTerm(c, s, e);
  }

  /** Leader completeness: what is committed in term t is in the log of every later leader. */
  lemma {:induction false} LeaderCompleteness(c: Config, s: Cluster, t: nat, k: nat, e: nat)
    requires ElectionInv(c, s) && ElectorsHold(s.h) && CommittedIn(c, s.h, t, k)
    requires t < e && e in s.h.leaderLog
    ensures Agree(s.h.leaderLog[e], s.h.leaderLog[t], k)
    decreases e
  {
    hide ElectionInv, IsQuorum, Held, Agree;
    forall u | t < u <= e - 1 && u in s.h.leaderLog ensures Agree(s.h.leaderLog[u], s.h.leaderLog[t], k) {
      LeaderCompleteness(c, s, t, k, u);
    }
    var q :| IsQuorum(c, q) && HeldByAll(s.h, q, t, k);
    ElectorsAreQuorum(c, s, e);
    var v := QuorumsMeet(c, q, s.h.electors[e]);
    assert ElectorHolds(s.h, e, v, t, k);
  }
}
