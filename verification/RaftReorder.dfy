/**
 Why the order of messages matters. A follower truncates its log after the previous index of every
 request it accepts, so a request that overtakes an older one of the same leader is undone by it.
 Each half of the order is given up in turn, and in either case two nodes apply different entries.
 */
module RaftReorder {
  import opened Bytes
  import opened RaftNode
  import opened RaftCluster
  import opened RaftLogs
  import opened RaftHistory
  import opened RaftSteps

  // ---- nodes that have nothing yet

  /** Nothing in the log and nothing applied. */
  predicate Blank(n: NodeState, t: nat) {
    n.log == [DUMMY] && n.currentTerm == t && n.commitIndex == 0 && n.lastApplied == 0 && n.applied == []
  }

  ghost predicate BlankLeader(c: Config, id: Id, n: NodeState, t: nat) {
    && Blank(n, t) && n.role == Leader && n.id == id && id in c.peers && n.peers == c.peers[id]
    && forall p :: p in c.peers[id] ==> Lookup(n.nextIndex, p) == 1 && Lookup(n.matchIndex, p) == 0
  }

  lemma BlankStarts(n: NodeState, t: nat)
    requires Blank(n, t)
    ensures Blank(StartElection(n), t + 1)
  {
  }

  lemma BlankVotes(s: Cluster, n: NodeState, v: Id, t: nat)
    requires Blank(n, t) && v in s.nodes && Blank(s.nodes[v], s.nodes[v].currentTerm) && s.nodes[v].currentTerm <= t
    ensures WouldVote(s, n, v)
  {
  }

  lemma BlankVoted(n: NodeState, t: nat, t': nat, id: Id)
    requires Blank(n, t)
    ensures Blank(Voted(n, t', id), t') && Voted(n, t', id).nextIndex == n.nextIndex
  {
  }

  /** A node with nothing in its log is elected by others with nothing in theirs. */
  lemma ElectBlank(c: Config, s: Cluster, id: Id, vs: seq<Id>, t: nat, half: Half) returns (s': Cluster)
    requires ValidConfig(c) && Shaped(c, s) && id in c.servers && JustEnough(c, id, vs) && Reachable(c, s, half)
    requires Blank(s.nodes[id], t)
    requires forall v :: v in vs ==> v in s.nodes && Blank(s.nodes[v], s.nodes[v].currentTerm) && s.nodes[v].currentTerm <= t
    ensures Reachable(c, s', half) && Later(c, s, s', {id} + Members(vs)) && s'.h.accepted == s.h.accepted
    ensures id in s'.nodes && BlankLeader(c, id, s'.nodes[id], t + 1)
    ensures forall v :: v in vs ==>
              v in s'.nodes && Blank(s'.nodes[v], t + 1) && s'.nodes[v].nextIndex == s.nodes[v].nextIndex
  {
    hide ValidConfig, Reachable, Later, Shaped, JustEnough, WouldVote, Voted;
    ShapedAt(c, s, id);
    forall v | v in vs ensures WouldVote(s, s.nodes[id], v) { BlankVotes(s, s.nodes[id], v, t); }
    s' := Elect(c, s, id, vs, half);
    LaterShaped(c, s, s', {id} + Members(vs));
    ShapedAt(c, s', id);
    forall v | v in vs ensures Blank(s'.nodes[v], t + 1) && s'.nodes[v].nextIndex == s.nodes[v].nextIndex {
      BlankVoted(s.nodes[v], s.nodes[v].currentTerm, t + 1, id);
    }
  }

  /** The leader takes in its first entry. */
  lemma OfferFirst(c: Config, s: Cluster, id: Id, e: Entry, half: Half) returns (s': Cluster)
    requires ValidConfig(c) && Shaped(c, s) && id in c.servers && BlankLeader(c, id, s.nodes[id], e.term) && e.index == 1
    requires Reachable(c, s, half)
    ensures Reachable(c, s', half) && Later(c, s, s', {id}) && s'.h.accepted == s.h.accepted
    ensures id in s'.nodes && Gathering(c, id, s'.nodes[id], e, {})
  {
    hide ValidConfig, Reachable, Later, Shaped;
    s' := Offer(c, s, id, e.data, half);
    assert [DUMMY] + [e] == [DUMMY, e];
  }

  // ---- requests out of order

  /** A request overtaken by a newer one of its leader empties the log again. */
  lemma Truncates(w: NodeState, n: NodeState, v: Id, e: Entry)
    requires Blank(n, n.currentTerm) && Lookup(n.nextIndex, v) == 1 && w.log == [DUMMY, e] && w.currentTerm == n.currentTerm
    requires w.commitIndex == 0
    ensures CanSend(n, v) && HandleAppend(w, MakeAppend(n, n.currentTerm, v))
            == (w.(role := Follower, log := [DUMMY]), AppendResponse(w.currentTerm, true))
  {
    assert n.log[1..] == [] && w.log[..1] + [] == [DUMMY];
  }

  /** In a cluster of three the node and one other are enough. */
  lemma OneIsEnough(id: Id, v: Id)
    requires 1 <= id <= 3 && 1 <= v <= 3 && v != id
    ensures ValidConfig(FullConfig(3)) && JustEnough(FullConfig(3), id, [v])
    ensures forall x :: x in FullConfig(3).servers <==> 1 <= x <= 3
  {
    hide FullConfig, ValidConfig;
    FullConfigOk(3);
  }

  /** Leader id commits its first entry with follower v. */
  lemma CommitWith(c: Config, s: Cluster, id: Id, v: Id, e: Entry) returns (s': Cluster)
    requires c == FullConfig(3) && ValidConfig(c) && JustEnough(c, id, [v]) && Shaped(c, s) && Reachable(c, s, Sending)
    requires id in c.servers && v in c.servers && BlankLeader(c, id, s.nodes[id], e.term) && e.index == 1
    requires Blank(s.nodes[v], e.term)
    ensures Reachable(c, s', Sending) && Later(c, s, s', {id, v}) && id in s'.nodes && v in s'.nodes
    ensures s'.nodes[id].applied == [e] && s'.nodes[v] == Took(s.nodes[v], e.term, e, 0)
  {
    hide ValidConfig, Reachable, Later, Shaped, BlankLeader, Gathering, Took, FullConfig;
    ShapedAt(c, s, id);
    ShapedAt(c, s, v);
    var s1 := OfferFirst(c, s, id, e, Sending);
    LaterShaped(c, s, s1, {id});
    LaterAt(c, s, s1, {id}, v);
    assert AckFrom(c, s1, v, e, {}, Sending);
    s' := AckStep(c, s1, id, [v], e, {}, Sending);
    assert [v][1..] == [];
    LaterTrans(c, s, s1, s', {id}, {id, v}, {id, v});
  }

  /** Node 2 accepts the new entry, node 1 commits it, and the older request empties node 2 again. */
  lemma LateRequest(c: Config, s: Cluster, e: Entry) returns (s': Cluster)
    requires c == FullConfig(3) && ValidConfig(c) && Shaped(c, s) && Reachable(c, s, Sending) && e == Entry(1, 1, e.data)
    requires 1 in c.servers && 2 in c.servers && BlankLeader(c, 1, s.nodes[1], 1) && Blank(s.nodes[2], 1)
    ensures Reachable(c, s', Sending) && Later(c, s, s', {1, 2}) && 1 in s'.nodes && 2 in s'.nodes
    ensures s'.nodes[1].applied == [e] && Blank(s'.nodes[2], 1)
  {
    hide ValidConfig, Reachable, HandleAppend, MakeAppend, Later, Shaped, FullConfig;
    OneIsEnough(1, 2);
    PeersAre(c, 1);
    ShapedAt(c, s, 1);
    ShapedAt(c, s, 2);
    var s1, late := Send(c, s, 1, 2, Sending);
    LaterShaped(c, s, s1, {});
    var s2 := CommitWith(c, s1, 1, 2, e);
    LaterShaped(c, s1, s2, {1, 2});
    ShapedAt(c, s2, 2);
    var w := s2.nodes[2];
    Truncates(w, s.nodes[1], 2, e);
    s' := Receive(c, s2, late, w.(role := Follower, log := [DUMMY]), AppendResponse(w.currentTerm, true), Sending);
    LaterAt(c, s2, s', {2}, 1);
    LaterTrans(c, s, s1, s2, {}, {1, 2}, {1, 2});
    LaterTrans(c, s, s2, s', {1, 2}, {2}, {1, 2});
  }

  /** Node 3 stands a first time, which nobody hears of, and then wins term 2 with node 2. */
  lemma SecondElection(c: Config, s: Cluster) returns (s': Cluster)
    requires c == FullConfig(3) && ValidConfig(c) && Shaped(c, s) && Reachable(c, s, Sending)
    requires 2 in c.servers && 3 in c.servers && Blank(s.nodes[2], 1) && Blank(s.nodes[3], 0)
    ensures Reachable(c, s', Sending) && Later(c, s, s', {2, 3}) && 2 in s'.nodes && 3 in s'.nodes
    ensures BlankLeader(c, 3, s'.nodes[3], 2) && Blank(s'.nodes[2], 2)
  {
    hide ValidConfig, Reachable, Later, Shaped, FullConfig, StartElection, BlankLeader;
    OneIsEnough(3, 2);
    ShapedAt(c, s, 2);
    ShapedAt(c, s, 3);
    BlankStarts(s.nodes[3], 0);
    var s1 := Stand(c, s, 3, Sending);
    LaterShaped(c, s, s1, {3});
    LaterAt(c, s, s1, {3}, 2);
    s' := ElectBlank(c, s1, 3, [2], 1, Sending);
    LaterTrans(c, s, s1, s', {3}, {3} + Members([2]), {2, 3});
  }

  /**
   With requests delivered out of order two nodes apply different entries: node 1 commits an entry
   held by node 2, an older empty request then truncates node 2, and node 3 is elected without it.
   */
  lemma ReorderingBreaksSafety(a: ByteString, b: ByteString) returns (c: Config, s: Cluster)
    ensures ValidConfig(c) && Reachable(c, s, Sending) && 1 in s.nodes && 3 in s.nodes
    ensures s.nodes[1].applied == [Entry(1, 1, a)] && s.nodes[3].applied == [Entry(2, 1, b)]
  {
    hide ValidConfig, Reachable, Later, Shaped, FullConfig, InitCluster, BlankLeader;
    c := FullConfig(3);
    OneIsEnough(1, 2);
    OneIsEnough(3, 2);
    var s0 := InitCluster(c);
    InitShape(c);
    ReachInit(c, Sending);
    ShapedAt(c, s0, 3);
    var s1 := ElectBlank(c, s0, 1, [2], 0, Sending);
    LaterShaped(c, s0, s1, {1} + Members([2]));
    LaterAt(c, s0, s1, {1} + Members([2]), 3);
    var s2 := LateRequest(c, s1, Entry(1, 1, a));
    LaterShaped(c, s1, s2, {1, 2});
    LaterAt(c, s1, s2, {1, 2}, 3);
    var s3 := SecondElection(c, s2);
    LaterShaped(c, s2, s3, {2, 3});
    LaterAt(c, s2, s3, {2, 3}, 1);
    s := CommitWith(c, s3, 3, 2, Entry(2, 1, b));
    LaterAt(c, s3, s, {3, 2}, 1);
  }

  // ---- sends that read the log after the node has stepped down

  /** In a cluster of seven the node and three others are enough. */
  lemma ThreeAreEnough(id: Id, u: Id, v: Id, w: Id)
    requires 1 <= id <= 7 && 1 <= u <= 7 && 1 <= v <= 7 && 1 <= w <= 7
    requires id != u && id != v && id != w && u != v && u != w && v != w
    ensures ValidConfig(FullConfig(7)) && JustEnough(FullConfig(7), id, [u, v, w]) && Members([u, v, w]) == {u, v, w}
    ensures forall x :: x in FullConfig(7).servers <==> 1 <= x <= 7
  {
    hide FullConfig, ValidConfig;
    FullConfigOk(7);
  }

  /** A deposed or sitting leader of term t that still has sends of that term to make. */
  ghost predicate Pending(s: Cluster, id: Id, t: nat, peer: Id) {
    (id, t) in s.sends && id in s.nodes && Lookup(s.nodes[id].nextIndex, peer) == 1
  }

  ghost predicate AllBlank(s: Cluster, ids: set<Id>) {
    forall id :: id in ids ==> id in s.nodes && Blank(s.nodes[id], s.nodes[id].currentTerm)
  }

  /** Node id, of term t, leads the next term with the votes of three others and captures that term. */
  lemma LeadNext(c: Config, s: Cluster, id: Id, u: Id, v: Id, w: Id, t: nat) returns (s': Cluster)
    requires c == FullConfig(7) && ValidConfig(c) && Shaped(c, s) && Reachable(c, s, Accepting)
    requires 1 <= id <= 7 && 1 <= u <= 7 && 1 <= v <= 7 && 1 <= w <= 7
    requires id != u && id != v && id != w && u != v && u != w && v != w
    requires AllBlank(s, {id, u, v, w}) && s.nodes[id].currentTerm == t
    requires s.nodes[u].currentTerm <= t && s.nodes[v].currentTerm <= t && s.nodes[w].currentTerm <= t
    ensures Reachable(c, s', Accepting) && Later(c, s, s', {id, u, v, w}) && s'.h.accepted == s.h.accepted
    ensures AllBlank(s', {id, u, v, w}) && BlankLeader(c, id, s'.nodes[id], t + 1) && (id, t + 1) in s'.sends
    ensures s'.nodes[u].currentTerm == s'.nodes[v].currentTerm == s'.nodes[w].currentTerm == t + 1
    ensures s'.nodes[u].nextIndex == s.nodes[u].nextIndex
  {
    hide ValidConfig, Reachable, Later, Shaped, FullConfig, JustEnough;
    ThreeAreEnough(id, u, v, w);
    var s1 := ElectBlank(c, s, id, [u, v, w], t, Accepting);
    LaterShaped(c, s, s1, {id} + {u, v, w});
    s' := Capture(c, s1, id, Accepting);
    LaterTrans(c, s, s1, s', {id} + {u, v, w}, {}, {id, u, v, w});
  }

  lemma SevenServers()
    ensures ValidConfig(FullConfig(7)) && forall x :: x in FullConfig(7).servers <==> 1 <= x <= 7
  {
    hide FullConfig, ValidConfig;
    FullConfigOk(7);
  }

  /**
   Nodes 1, 2 and 3 have led terms 1, 2 and 3; nodes 1 and 2 still have sends of their terms to make.
   Node 1 is in term 1, node 2 in term 2, and node 5 has heard of nothing.
   */
  ghost predicate ThreeTerms(c: Config, s: Cluster) {
    && Shaped(c, s) && s.h.accepted == map[] && AllBlank(s, {1, 2, 4, 5, 6, 7})
    && 3 in s.nodes && BlankLeader(c, 3, s.nodes[3], 3)
    && s.nodes[1].currentTerm == 1 && s.nodes[2].currentTerm == 2 && s.nodes[5].currentTerm == 0
    && s.nodes[4].currentTerm == s.nodes[6].currentTerm == s.nodes[7].currentTerm == 3
    && Pending(s, 1, 1, 5) && Pending(s, 2, 2, 1)
  }

  lemma StartSeven(c: Config)
    requires c == FullConfig(7) && ValidConfig(c)
    ensures var s := InitCluster(c);
            && Shaped(c, s) && Reachable(c, s, Accepting) && s.h.accepted == map[] && AllBlank(s, {1, 2, 3, 4, 5, 6, 7})
            && forall id :: 1 <= id <= 7 ==> id in s.nodes && s.nodes[id].currentTerm == 0
  {
    hide ValidConfig, Reachable, FullConfig, InitCluster;
    SevenServers();
    InitShape(c);
    ReachInit(c, Accepting);
  }

  lemma LeaderNext(c: Config, id: Id, n: NodeState, t: nat, p: Id)
    requires ValidConfig(c) && BlankLeader(c, id, n, t) && id in c.servers && p in c.servers && p != id
    ensures Lookup(n.nextIndex, p) == 1 && n.currentTerm == t
  {
    hide ValidConfig;
    PeersAre(c, id);
  }

  lemma FirstTerm(c: Config) returns (s: Cluster)
    requires c == FullConfig(7) && ValidConfig(c)
    ensures Reachable(c, s, Accepting) && Shaped(c, s) && s.h.accepted == map[] && AllBlank(s, {1, 2, 3, 4, 5, 6, 7})
    ensures s.nodes[3].currentTerm == s.nodes[4].currentTerm == s.nodes[5].currentTerm == 0
    ensures s.nodes[1].currentTerm == s.nodes[2].currentTerm == s.nodes[6].currentTerm == s.nodes[7].currentTerm == 1
    ensures Pending(s, 1, 1, 5)
  {
    hide ValidConfig, Reachable, Later, Shaped, FullConfig, InitCluster, BlankLeader, Blank;
    SevenServers();
    StartSeven(c);
    var s0 := InitCluster(c);
    s := LeadNext(c, s0, 1, 2, 6, 7, 0);
    LaterShaped(c, s0, s, {1, 2, 6, 7});
    LaterAt(c, s0, s, {1, 2, 6, 7}, 3);
    LaterAt(c, s0, s, {1, 2, 6, 7}, 4);
    LaterAt(c, s0, s, {1, 2, 6, 7}, 5);
    LeaderNext(c, 1, s.nodes[1], 1, 5);
  }

  lemma FirstTerms(c: Config) returns (s: Cluster)
    requires c == FullConfig(7) && ValidConfig(c)
    ensures Reachable(c, s, Accepting) && Shaped(c, s) && s.h.accepted == map[] && AllBlank(s, {1, 2, 3, 4, 5, 6, 7})
    ensures s.nodes[1].currentTerm == 1 && s.nodes[4].currentTerm == s.nodes[5].currentTerm == 0
    ensures s.nodes[2].currentTerm == s.nodes[3].currentTerm == s.nodes[6].currentTerm == s.nodes[7].currentTerm == 2
    ensures Pending(s, 1, 1, 5) && Pending(s, 2, 2, 1)
  {
    hide ValidConfig, Reachable, Later, Shaped, FullConfig, BlankLeader, Blank;
    SevenServers();
    var s1 := FirstTerm(c);
    s := LeadNext(c, s1, 2, 3, 6, 7, 1);
    LaterShaped(c, s1, s, {2, 3, 6, 7});
    LaterAt(c, s1, s, {2, 3, 6, 7}, 1);
    LaterAt(c, s1, s, {2, 3, 6, 7}, 4);
    LaterAt(c, s1, s, {2, 3, 6, 7}, 5);
    LeaderNext(c, 2, s.nodes[2], 2, 1);
  }

  lemma LeadThree(c: Config) returns (s: Cluster)
    requires c == FullConfig(7) && ValidConfig(c)
    ensures Reachable(c, s, Accepting) && ThreeTerms(c, s)
  {
    hide ValidConfig, Reachable, Later, Shaped, FullConfig, Blank, BlankLeader;
    var s1 := FirstTerms(c);
    s := LeadNext(c, s1, 3, 4, 6, 7, 2);
    LaterShaped(c, s1, s, {3, 4, 6, 7});
    LaterAt(c, s1, s, {3, 4, 6, 7}, 1);
    LaterAt(c, s1, s, {3, 4, 6, 7}, 2);
    LaterAt(c, s1, s, {3, 4, 6, 7}, 5);
  }

  /** Node 3 takes in an entry and sends it to node 1. */
  lemma SendThird(c: Config, s: Cluster, x: Entry) returns (s': Cluster, r: AppendCall, n: NodeState)
    requires c == FullConfig(7) && ValidConfig(c) && Reachable(c, s, Accepting) && ThreeTerms(c, s) && x == Entry(3, 1, x.data)
    ensures Reachable(c, s', Accepting) && Later(c, s, s', {3}) && s'.h.accepted == map[] && 3 in s'.nodes && r in s'.appendCalls
    ensures Gathering(c, 3, n, x, {}) && s'.nodes[3] == n && CanSend(n, 1) && r == AppendCall(1, MakeAppend(n, 3, 1), n.log)
  {
    hide ValidConfig, Reachable, Later, Shaped, FullConfig, BlankLeader, Gathering, MakeAppend, Pending, AllBlank, CanSend;
    SevenServers();
    var s1 := OfferFirst(c, s, 3, x, Accepting);
    LaterShaped(c, s, s1, {3});
    n := s1.nodes[3];
    PeersAre(c, 3);
    GatheringNext(c, 3, n, x, {}, 1);
    OneEntry(n, x, 1);
    var s2, ac := Send(c, s1, 3, 1, Accepting);
    s', r := s2, ac;
    LaterTrans(c, s, s1, s', {3}, {}, {3});
  }

  lemma OneEntry(n: NodeState, e: Entry, v: Id)
    requires n.log == [DUMMY, e] && Lookup(n.nextIndex, v) == 1
    ensures CanSend(n, v)
  {
  }

  /** Node 4 commits an entry in term 4, and node 2 learns of it. */
  ghost predicate FourthCommitted(c: Config, s: Cluster, e: Entry) {
    && Shaped(c, s) && (forall k :: k in s.h.accepted ==> k.1 == 4)
    && 1 in s.nodes && 2 in s.nodes && 4 in s.nodes && 5 in s.nodes
    && Blank(s.nodes[1], 1) && Blank(s.nodes[5], 0) && s.nodes[4].applied == [e]
    && s.nodes[2].log == [DUMMY, e] && s.nodes[2].commitIndex == 1
    && Pending(s, 1, 1, 5) && Pending(s, 2, 2, 1)
  }

  /** Node 4 leads term 4 with an entry that nodes 3, 6 and 7 do not have yet. */
  lemma LeadFourth(c: Config, s: Cluster, e: Entry, n3: NodeState, x: Entry) returns (s': Cluster)
    requires c == FullConfig(7) && ValidConfig(c) && Reachable(c, s, Accepting) && Shaped(c, s) && s.h.accepted == map[]
    requires AllBlank(s, {1, 2, 4, 5, 6, 7}) && 3 in s.nodes && s.nodes[3] == n3 && Gathering(c, 3, n3, x, {}) && x.term == 3
    requires s.nodes[1].currentTerm == 1 && s.nodes[2].currentTerm == 2 && s.nodes[5].currentTerm == 0
    requires s.nodes[4].currentTerm == s.nodes[6].currentTerm == s.nodes[7].currentTerm == 3 && e == Entry(4, 1, e.data)
    ensures Reachable(c, s', Accepting) && Later(c, s, s', {2, 4, 6, 7}) && s'.h.accepted == map[]
    ensures AckReady(c, s', 4, [3, 6, 7], e, {}, Accepting)
    ensures 2 in s'.nodes && Blank(s'.nodes[2], 4) && s'.nodes[2].nextIndex == s.nodes[2].nextIndex
  {
    hide ValidConfig, Reachable, Later, Shaped, FullConfig, BlankLeader, Gathering, Blank, JustEnough, AckReady;
    SevenServers();
    var s1 := LeadNext(c, s, 4, 2, 6, 7, 3);
    LaterShaped(c, s, s1, {4, 2, 6, 7});
    LaterAt(c, s, s1, {4, 2, 6, 7}, 3);
    s' := OfferFirst(c, s1, 4, e, Accepting);
    LaterShaped(c, s1, s', {4});
    LaterAt(c, s1, s', {4}, 2);
    LaterAt(c, s1, s', {4}, 3);
    LaterAt(c, s1, s', {4}, 6);
    LaterAt(c, s1, s', {4}, 7);
    GatheringTakes(c, s', 3, x, 4);
    BlankTakes(s', 6, 4);
    BlankTakes(s', 7, 4);
    FourthReady(c, s', e);
    LaterTrans(c, s, s1, s', {4, 2, 6, 7}, {4}, {2, 4, 6, 7});
  }

  lemma GatheringTakes(c: Config, s: Cluster, v: Id, x: Entry, t: nat)
    requires v in s.nodes && Gathering(c, v, s.nodes[v], x, {}) && x.term <= t
    ensures CanTake(s, v, t)
  {
  }

  lemma BlankTakes(s: Cluster, v: Id, t: nat)
    requires v in s.nodes && Blank(s.nodes[v], s.nodes[v].currentTerm) && s.nodes[v].currentTerm <= t
    ensures CanTake(s, v, t)
  {
  }

  lemma FourthReady(c: Config, s: Cluster, e: Entry)
    requires c == FullConfig(7) && ValidConfig(c) && Shaped(c, s) && s.h.accepted == map[] && e.term == 4
    requires 4 in s.nodes && Gathering(c, 4, s.nodes[4], e, {}) && CanTake(s, 3, 4) && CanTake(s, 6, 4) && CanTake(s, 7, 4)
    ensures AckReady(c, s, 4, [3, 6, 7], e, {}, Accepting)
  {
    hide ValidConfig, FullConfig, Gathering, CanTake, Shaped, Enough;
    ThreeAreEnough(4, 3, 6, 7);
    SevenServers();
  }

  lemma CommittedNext(c: Config, id: Id, n: NodeState, e: Entry, m: set<Id>, v: Id)
    requires ValidConfig(c) && Committed(c, id, n, e, m) && id in c.servers && v in c.servers && v != id && v !in m
    ensures Lookup(n.nextIndex, v) == 1 && n.role == Leader && n.log == [DUMMY, e] && n.currentTerm == e.term && n.id == id
    ensures n.commitIndex == 1 && n.applied == [e]
  {
    hide ValidConfig;
    PeersAre(c, id);
  }

  /** What node 4 has committed reaches node 2. */
  lemma TellSecond(c: Config, s: Cluster, e: Entry, m: set<Id>) returns (s': Cluster)
    requires c == FullConfig(7) && ValidConfig(c) && Reachable(c, s, Accepting) && Shaped(c, s) && e.term == 4
    requires 4 in s.nodes && Committed(c, 4, s.nodes[4], e, m) && 2 !in m && 2 in s.nodes && Blank(s.nodes[2], 4)
    requires (2, 4) !in s.h.accepted
    ensures Reachable(c, s', Accepting) && Later(c, s, s', {2}) && s'.h.accepted.Keys <= s.h.accepted.Keys + {(2, 4)}
    ensures 2 in s'.nodes && s'.nodes[2] == Took(s.nodes[2], 4, e, 1)
  {
    hide ValidConfig, Reachable, Later, Shaped, FullConfig, Committed, MakeAppend, CanSend, Took;
    SevenServers();
    var n := s.nodes[4];
    CommittedNext(c, 4, n, e, m, 2);
    OneEntry(n, e, 2);
    var s1, ac := Send(c, s, 4, 2, Accepting);
    LaterShaped(c, s, s1, {});
    s' := Take(c, s1, 4, 4, ac, e, n, Accepting);
    LaterTrans(c, s, s1, s', {}, {2}, {2});
  }

  /** Nodes 3, 6 and 7 acknowledge it, and node 4 commits. */
  lemma GatherFourth(c: Config, s: Cluster, e: Entry) returns (s': Cluster)
    requires c == FullConfig(7) && ValidConfig(c) && Reachable(c, s, Accepting) && e.term == 4 && s.h.accepted == map[]
    requires AckReady(c, s, 4, [3, 6, 7], e, {}, Accepting) && 2 in s.nodes && Blank(s.nodes[2], 4)
    ensures Reachable(c, s', Accepting) && Later(c, s, s', {2, 3, 4, 6, 7}) && (forall k :: k in s'.h.accepted ==> k.1 == 4)
    ensures 2 in s'.nodes && 4 in s'.nodes && s'.nodes[4].applied == [e]
    ensures s'.nodes[2].log == [DUMMY, e] && s'.nodes[2].commitIndex == 1 && s'.nodes[2].nextIndex == s.nodes[2].nextIndex
  {
    hide ValidConfig, Reachable, Later, Shaped, FullConfig, AckReady, Committed, Took, Blank;
    SevenServers();
    ThreeAreEnough(4, 3, 6, 7);
    var s1 := AckAll(c, s, 4, [3, 6, 7], e, {}, Accepting);
    var m, ids := {} + {3, 6, 7}, {4} + {3, 6, 7};
    LaterShaped(c, s, s1, ids);
    LaterAt(c, s, s1, ids, 2);
    CallsOf(s1, [3, 6, 7]);
    s' := TellSecond(c, s1, e, m);
    LaterAt(c, s1, s', {2}, 4);
    CommittedNext(c, 4, s1.nodes[4], e, m, 2);
    TookFields(s1.nodes[2], e);
    LaterTrans(c, s, s1, s', ids, {2}, {2, 3, 4, 6, 7});
  }

  lemma CommitFourth(c: Config, s: Cluster, e: Entry, n3: NodeState, x: Entry, r: AppendCall) returns (s': Cluster)
    requires c == FullConfig(7) && ValidConfig(c) && Reachable(c, s, Accepting) && Shaped(c, s) && s.h.accepted == map[]
    requires AllBlank(s, {1, 2, 4, 5, 6, 7}) && 3 in s.nodes && s.nodes[3] == n3 && Gathering(c, 3, n3, x, {}) && x.term == 3
    requires s.nodes[1].currentTerm == 1 && s.nodes[2].currentTerm == 2 && s.nodes[5].currentTerm == 0
    requires s.nodes[4].currentTerm == s.nodes[6].currentTerm == s.nodes[7].currentTerm == 3 && e == Entry(4, 1, e.data)
    requires Pending(s, 1, 1, 5) && Pending(s, 2, 2, 1) && r in s.appendCalls
    ensures Reachable(c, s', Accepting) && FourthCommitted(c, s', e) && r in s'.appendCalls
  {
    hide ValidConfig, Reachable, Later, Shaped, FullConfig, Gathering, AckReady, Blank;
    var s1 := LeadFourth(c, s, e, n3, x);
    LaterShaped(c, s, s1, {2, 4, 6, 7});
    LaterAt(c, s, s1, {2, 4, 6, 7}, 1);
    LaterAt(c, s, s1, {2, 4, 6, 7}, 5);
    s' := GatherFourth(c, s1, e);
    LaterShaped(c, s1, s', {2, 3, 4, 6, 7});
    LaterAt(c, s1, s', {2, 3, 4, 6, 7}, 1);
    LaterAt(c, s1, s', {2, 3, 4, 6, 7}, 5);
  }

  lemma CallsOf(s: Cluster, vs: seq<Id>)
    requires s.h.accepted.Keys <= {} + Calls(vs, 4) && 2 !in vs
    ensures (2, 4) !in s.h.accepted && forall k :: k in s.h.accepted ==> k.1 == 4
  {
  }

  lemma TookFields(w: NodeState, e: Entry)
    requires Blank(w, 4)
    ensures var w' := Took(w, 4, e, 1); w'.log == [DUMMY, e] && w'.commitIndex == 1 && w'.nextIndex == w.nextIndex
  {
  }

  /** Node 2 sends node 1, under term 2, the entry of term 4 as committed. */
  lemma RelayCommit(c: Config, s: Cluster, e: Entry) returns (s': Cluster)
    requires c == FullConfig(7) && ValidConfig(c) && Reachable(c, s, Accepting) && FourthCommitted(c, s, e)
    ensures Reachable(c, s', Accepting) && Later(c, s, s', {1}) && 1 in s'.nodes && s'.nodes[1] == Took(s.nodes[1], 2, e, 1)
    ensures s'.h.accepted.Keys <= s.h.accepted.Keys + {(1, 2)}
  {
    hide ValidConfig, Reachable, Later, Shaped, FullConfig, MakeAppend, CanSend, Took;
    SevenServers();
    ShapedAt(c, s, 2);
    var n := s.nodes[2];
    OneEntry(n, e, 1);
    var s1, ac := SendCaptured(c, s, 2, 2, 1, Accepting);
    LaterShaped(c, s, s1, {});
    s' := Take(c, s1, 2, 2, ac, e, n, Accepting);
    LaterTrans(c, s, s1, s', {}, {1}, {1});
  }

  lemma Relayed(w: NodeState, e: Entry, x: Entry)
    requires Blank(w, 1)
    ensures var w1 := Took(w, 2, e, 1);
            && w1.log == [DUMMY, e] && w1.commitIndex == 1 && w1.applied == [e] && w1.currentTerm == 2
            && w1.nextIndex == w.nextIndex
            && var w2 := Took(w1, 3, x, 0);
               w2.log == [DUMMY, x] && w2.commitIndex == 1 && w2.nextIndex == w.nextIndex && w2.id == w.id
  {
  }

  lemma SpreadFields(w: NodeState, x: Entry)
    requires Blank(w, 0)
    ensures Took(w, 1, x, 1).applied == [x]
  {
  }

  /** Node 1 has an entry of term 4 that it knows to be committed, and one of term 3 is on its way to it. */
  ghost predicate Undone(c: Config, s: Cluster, r: AppendCall, n: NodeState, e: Entry, x: Entry) {
    && Shaped(c, s) && 1 in s.nodes && 4 in s.nodes && 5 in s.nodes && (forall k :: k in s.h.accepted ==> k.1 == 4 || k == (1, 2))
    && s.nodes[1].log == [DUMMY, e] && s.nodes[1].commitIndex == 1 && s.nodes[1].applied == [e] && s.nodes[1].currentTerm == 2
    && s.nodes[4].applied == [e] && Blank(s.nodes[5], 0) && Pending(s, 1, 1, 5)
    && n.id == 3 && n.log == [DUMMY, x] && n.commitIndex == 0 && Lookup(n.nextIndex, 1) == 1
    && r in s.appendCalls && CanSend(n, 1) && r == AppendCall(1, MakeAppend(n, 3, 1), n.log)
  }

  /** The request of node 3 is under way and node 4 has committed its entry. */
  lemma ReachFourth(c: Config, e: Entry, x: Entry) returns (s: Cluster, r: AppendCall, n: NodeState)
    requires c == FullConfig(7) && ValidConfig(c) && e == Entry(4, 1, e.data) && x == Entry(3, 1, x.data)
    ensures Reachable(c, s, Accepting) && FourthCommitted(c, s, e) && r in s.appendCalls
    ensures n.id == 3 && n.log == [DUMMY, x] && n.commitIndex == 0 && Lookup(n.nextIndex, 1) == 1
    ensures CanSend(n, 1) && r == AppendCall(1, MakeAppend(n, 3, 1), n.log)
  {
    hide ValidConfig, Reachable, Later, Shaped, FullConfig, Gathering, MakeAppend, CanSend, ThreeTerms, FourthCommitted;
    SevenServers();
    var s1 := LeadThree(c);
    var s2, r', n' := SendThird(c, s1, x);
    r, n := r', n';
    KeepThree(c, s1, s2);
    s := CommitFourth(c, s2, e, n, x, r);
    PeersAre(c, 3);
    GatheringNext(c, 3, n, x, {}, 1);
  }

  lemma ReachUndone(c: Config, e: Entry, x: Entry) returns (s: Cluster, r: AppendCall, n: NodeState)
    requires c == FullConfig(7) && ValidConfig(c) && e == Entry(4, 1, e.data) && x == Entry(3, 1, x.data)
    ensures Reachable(c, s, Accepting) && Undone(c, s, r, n, e, x)
  {
    hide ValidConfig, Reachable, Later, Shaped, FullConfig, MakeAppend, CanSend, Took;
    var s1, r', n' := ReachFourth(c, e, x);
    r, n := r', n';
    s := RelayCommit(c, s1, e);
    LaterShaped(c, s1, s, {1});
    LaterAt(c, s1, s, {1}, 4);
    LaterAt(c, s1, s, {1}, 5);
    Relayed(s1.nodes[1], e, x);
  }

  /** What node 3's proposal leaves alone. */
  lemma KeepThree(c: Config, s: Cluster, s': Cluster)
    requires ThreeTerms(c, s) && Later(c, s, s', {3})
    ensures Shaped(c, s') && AllBlank(s', {1, 2, 4, 5, 6, 7}) && Pending(s', 1, 1, 5) && Pending(s', 2, 2, 1)
    ensures s'.nodes[1].currentTerm == 1 && s'.nodes[2].currentTerm == 2 && s'.nodes[5].currentTerm == 0
    ensures s'.nodes[4].currentTerm == s'.nodes[6].currentTerm == s'.nodes[7].currentTerm == 3
  {
    hide Shaped, Blank, BlankLeader;
  }

  lemma UndoneTakes(c: Config, s: Cluster, r: AppendCall, n: NodeState, e: Entry, x: Entry)
    requires Undone(c, s, r, n, e, x)
    ensures HandleAppend(s.nodes[1], r.req) == (Took(s.nodes[1], 3, x, 0), AppendResponse(3, true)) && r.req.term == 3
    ensures Took(s.nodes[1], 3, x, 0).log == [DUMMY, x] && Took(s.nodes[1], 3, x, 0).commitIndex == 1
    ensures Took(s.nodes[1], 3, x, 0).nextIndex == s.nodes[1].nextIndex
  {
    hide Shaped, HandleAppend, MakeAppend;
    TakeOne(n, 3, 1, s.nodes[1], x);
  }

  /**
   With requests accepted in order but sent after the node has stepped down, a committed and applied
   entry is undone: node 2 hands node 1 an entry of the leader that deposed it, under its old term,
   and a request of an earlier leader that node 1 has not heard of yet then replaces it.
   */
  lemma LateSendUndoesCommit(a: ByteString, b: ByteString) returns (c: Config, s: Cluster, r: AppendCall)
    ensures ValidConfig(c) && Reachable(c, s, Accepting) && 1 in s.nodes
    ensures s.nodes[1].log == [DUMMY, Entry(4, 1, a)] && s.nodes[1].commitIndex == 1 && s.nodes[1].applied == [Entry(4, 1, a)]
    ensures Enabled(s, DeliverAppend(r)) && AcceptsInOrder(s, DeliverAppend(r))
    ensures var s' := Next(s, DeliverAppend(r));
            1 in s'.nodes && s'.nodes[1].log == [DUMMY, Entry(3, 1, b)] && s'.nodes[1].commitIndex == 1
  {
    hide ValidConfig, Reachable, FullConfig, HandleAppend, MakeAppend, Took, Shaped, CanSend;
    c := FullConfig(7);
    SevenServers();
    var e, x := Entry(4, 1, a), Entry(3, 1, b);
    var s1, r1, n := ReachUndone(c, e, x);
    s, r := s1, r1;
    UndoneTakes(c, s, r, n, e, x);
  }

  /** Node 1 takes the entry of term 3 although it has committed another, and hands it to node 5 as committed. */
  lemma Spread(c: Config, s: Cluster, r: AppendCall, n: NodeState, e: Entry, x: Entry) returns (s': Cluster)
    requires c == FullConfig(7) && ValidConfig(c) && Reachable(c, s, Accepting) && Undone(c, s, r, n, e, x)
    ensures Reachable(c, s', Accepting) && 4 in s'.nodes && 5 in s'.nodes
    ensures s'.nodes[4].applied == [e] && s'.nodes[5].applied == [x]
  {
    hide ValidConfig, Reachable, Later, Shaped, FullConfig, MakeAppend, CanSend, Took;
    SevenServers();
    ShapedAt(c, s, 1);
    UndoneTakes(c, s, r, n, e, x);
    var s1 := Take(c, s, 3, 3, r, x, n, Accepting);
    LaterShaped(c, s, s1, {1});
    LaterAt(c, s, s1, {1}, 4);
    LaterAt(c, s, s1, {1}, 5);
    ShapedAt(c, s1, 1);
    OneEntry(s1.nodes[1], x, 5);
    var s2, ac := SendCaptured(c, s1, 1, 1, 5, Accepting);
    LaterShaped(c, s1, s2, {});
    s' := Take(c, s2, 1, 1, ac, x, s1.nodes[1], Accepting);
    LaterAt(c, s2, s', {5}, 4);
    SpreadFields(s2.nodes[5], x);
  }

  /**
   So two nodes apply different entries: node 4 the one it committed in term 4, and node 5 the one of
   term 3, which node 1 sends it under term 1 with the commit index of the other.
   */
  lemma LateSendBreaksSafety(a: ByteString, b: ByteString) returns (c: Config, s: Cluster)
    ensures ValidConfig(c) && Reachable(c, s, Accepting) && 4 in s.nodes && 5 in s.nodes
    ensures s.nodes[4].applied == [Entry(4, 1, a)] && s.nodes[5].applied == [Entry(3, 1, b)]
  {
    hide ValidConfig, Reachable, FullConfig, Undone;
    c := FullConfig(7);
    SevenServers();
    var s1, r, n := ReachUndone(c, Entry(4, 1, a), Entry(3, 1, b));
    s := Spread(c, s1, r, n, Entry(4, 1, a), Entry(3, 1, b));
  }

  // ---- what an accepted request keeps

  /**
   Exactly when accepting a request keeps what the follower has acknowledged of its leader's log:
   the first k entries survive if and only if the snapshot has at least k.
   */
  lemma AcceptKeepsAcknowledged(logs: map<nat, Log>, n: NodeState, ac: AppendCall, k: nat)
    requires |n.log| >= 1 && Canon(logs, n.log) && Canon(logs, ac.snapshot) && CallOk(ac) && Accepts(n, ac.req)
    requires ac.req.term in logs && Agree(logs[ac.req.term], ac.snapshot, |ac.snapshot|)
    requires Agree(n.log, logs[ac.req.term], k)
    ensures Agree(HandleAppend(n, ac.req).0.log, logs[ac.req.term], k) <==> k <= |ac.snapshot|
  {
    hide Canon, HandleAppend;
    AcceptedLogIsSnapshot(logs, n, ac);
  }
}
