/**
 The skip list under the memtable: linked towers whose forward links are rewired in place, proved to
 be a sorted map (internal/memtable/skiplist.go, iterator.go).
 */
module SkipList {
  import opened Bytes
  import opened KeyOrder
  import opened SortedLists

  const MAX_LEVEL: nat := 16

  // ---- the sorted map

  /** The run with k set to v. */
  function PutRun(es: Run, k: Key, v: Option<ByteString>): Run {
    if es == [] || Less(k, es[0].key) then [KV(k, v)] + es
    else if es[0].key == k then [KV(k, v)] + es[1..]
    else [es[0]] + PutRun(es[1..], k, v)
  }

  lemma {:induction false} PutFind(es: Run, k: Key, v: Option<ByteString>, q: Key)
    ensures Sorted(es) ==> Find(PutRun(es, k, v), q) == if q == k then Some(v) else Find(es, q)
  {
    hide Less;
    KeysOrdered();
    if es != [] && !Less(k, es[0].key) && es[0].key != k {
      PutFind(es[1..], k, v, q);
    } else if es == [] || Less(k, es[0].key) {
      assert ([KV(k, v)] + es)[1..] == es;
    } else {
      assert ([KV(k, v)] + es[1..])[1..] == es[1..];
    }
  }

  /** Where a key goes: everything before p is smaller, everything from p on is not. */
  ghost predicate Splits(es: Run, k: Key, p: nat) {
    && p <= |es|
    && (forall i :: 0 <= i < p ==> Less(es[i].key, k))
    && (forall i :: p <= i < |es| ==> !Less(es[i].key, k))
  }

  lemma ShiftUpdate(es: Run, p: nat, e: KV)
    requires 0 < p < |es|
    ensures es[p := e] == [es[0]] + es[1..][p - 1 := e]
  {
  }

  lemma ShiftInsert(es: Run, p: nat, e: KV)
    requires 0 < p <= |es|
    ensures es[..p] + [e] + es[p..] == [es[0]] + (es[1..][..p - 1] + [e] + es[1..][p - 1..])
  {
  }

  lemma {:induction false} PutAt(es: Run, k: Key, v: Option<ByteString>, p: nat)
    requires Sorted(es) && Splits(es, k, p)
    ensures PutRun(es, k, v) == if p < |es| && es[p].key == k then es[p := KV(k, v)] else es[..p] + [KV(k, v)] + es[p..]
  {
    hide Less, Sorted, Splits;
    SplitsHead(es, k, p);
    if p > 0 {
      TailSplits(es, k, p);
      PutAt(es[1..], k, v, p - 1);
      if p < |es| && es[p].key == k { ShiftUpdate(es, p, KV(k, v)); } else { ShiftInsert(es, p, KV(k, v)); }
    } else {
      assert es[..0] + [KV(k, v)] + es[0..] == [KV(k, v)] + es;
      if es != [] && es[0].key == k { assert es[0 := KV(k, v)] == [KV(k, v)] + es[1..]; }
    }
  }

  lemma SplitsHead(es: Run, k: Key, p: nat)
    requires Splits(es, k, p)
    ensures p <= |es| && (p > 0 ==> !Less(k, es[0].key) && es[0].key != k)
    ensures p == 0 && es != [] ==> (Less(k, es[0].key) <==> es[0].key != k)
  {
    hide Less;
    KeysOrdered();
  }

  lemma TailSplits(es: Run, k: Key, p: nat)
    requires Sorted(es) && Splits(es, k, p) && p > 0
    ensures Sorted(es[1..]) && Splits(es[1..], k, p - 1)
  {
    hide Less;
    var tail := es[1..];
    assert forall i :: 0 <= i < |tail| ==> tail[i] == es[i + 1];
  }

  lemma PutSorted(es: Run, k: Key, v: Option<ByteString>, p: nat)
    requires Sorted(es) && Splits(es, k, p)
    ensures Sorted(PutRun(es, k, v))
  {
    hide Less, PutRun;
    KeysOrdered();
    PutAt(es, k, v, p);
  }

  lemma FindSplit(es: Run, k: Key, p: nat)
    requires Sorted(es) && Splits(es, k, p)
    ensures Find(es, k) == if p < |es| && es[p].key == k then Some(es[p].val) else None
  {
    hide Less;
    KeysOrdered();
    if p < |es| && es[p].key == k {
      FindAt(es, p);
    } else {
      FindNone(es, k);
      assert forall i :: p < i < |es| ==> Less(es[p].key, es[i].key);
    }
  }

  // ---- lanes, by the heights of the towers

  /** The next tower after a that reaches lane i, or the number of towers. */
  function NextTower(hs: seq<nat>, a: nat, i: nat): (b: nat)
    requires a < |hs|
    ensures a < b <= |hs|
    decreases |hs| - a
  {
    if a + 1 == |hs| || hs[a + 1] > i then a + 1 else NextTower(hs, a + 1, i)
  }

  lemma {:induction false} NextIs(hs: seq<nat>, a: nat, i: nat)
    requires a < |hs|
    ensures var b := NextTower(hs, a, i);
            && (b < |hs| ==> hs[b] > i) && (forall c :: a < c < b ==> hs[c] <= i)
    decreases |hs| - a
  {
    if a + 1 < |hs| && hs[a + 1] <= i { NextIs(hs, a + 1, i); }
  }

  lemma {:induction false} NextUnique(hs: seq<nat>, a: nat, i: nat, b: nat)
    requires a < b <= |hs| && (b < |hs| ==> hs[b] > i) && forall c :: a < c < b ==> hs[c] <= i
    ensures NextTower(hs, a, i) == b
    decreases |hs| - a
  {
    if a + 1 < b { NextUnique(hs, a + 1, i, b); }
  }

  /** The towers met when lane i is followed from a. */
  function Lane(hs: seq<nat>, a: nat, i: nat): seq<nat>
    requires a < |hs|
    decreases |hs| - a
  {
    var b := NextTower(hs, a, i);
    if b == |hs| then [] else [b] + Lane(hs, b, i)
  }

  /** A lane visits, in order, exactly the towers that reach it. */
  lemma {:induction false} LaneMembers(hs: seq<nat>, a: nat, i: nat)
    requires a < |hs|
    ensures forall b :: b in Lane(hs, a, i) <==> a < b < |hs| && hs[b] > i
    ensures forall x, y :: 0 <= x < y < |Lane(hs, a, i)| ==> Lane(hs, a, i)[x] < Lane(hs, a, i)[y]
    decreases |hs| - a
  {
    hide NextTower;
    NextIs(hs, a, i);
    var b := NextTower(hs, a, i);
    if b < |hs| {
      LaneMembers(hs, b, i);
      var rest := Lane(hs, b, i);
      assert forall y :: 0 <= y < |rest| ==> rest[y] in rest;
    }
  }

  /** Every lane is a sublist of the one below it. */
  lemma LanesNested(hs: seq<nat>, i: nat)
    requires hs != []
    ensures forall b :: b in Lane(hs, 0, i + 1) ==> b in Lane(hs, 0, i)
  {
    hide Lane;
    LaneMembers(hs, 0, i);
    LaneMembers(hs, 0, i + 1);
  }

  function Inserted<T>(xs: seq<T>, p: nat, x: T): (r: seq<T>)
    requires p <= |xs|
    ensures |r| == |xs| + 1
  {
    xs[..p] + [x] + xs[p..]
  }

  /** The links after a tower of height h has gone in at p, lane by lane. */
  lemma NextInserted(hs: seq<nat>, p: nat, h: nat, a: nat, i: nat)
    requires 0 < p <= |hs| && a < |hs|
    ensures var hs' := Inserted(hs, p, h);
            var b := NextTower(hs, a, i);
            && (a < p ==> NextTower(hs', a, i) == if b < p then b else if h > i then p else b + 1)
            && (a >= p ==> NextTower(hs', a + 1, i) == b + 1)
  {
    var hs' := Inserted(hs, p, h);
    var b := NextTower(hs, a, i);
    NextIs(hs, a, i);
    if a < p {
      if b < p {
        NextUnique(hs', a, i, b);
      } else if h > i {
        NextUnique(hs', a, i, p);
      } else {
        NextUnique(hs', a, i, b + 1);
      }
    } else {
      NextUnique(hs', a + 1, i, b + 1);
    }
  }

  /** The new tower points to whatever its predecessor in the lane pointed to. */
  lemma NextOfNew(hs: seq<nat>, p: nat, h: nat, u: nat, i: nat)
    requires u < p <= |hs| && NextTower(hs, u, i) >= p
    ensures NextTower(Inserted(hs, p, h), p, i) == NextTower(hs, u, i) + 1
  {
    NextIs(hs, u, i);
    NextUnique(Inserted(hs, p, h), p, i, NextTower(hs, u, i) + 1);
  }

  // ---- memory accounting

  function EntryMem(e: KV, h: nat): nat {
    32 + |e.key| + (if e.val.Some? then |e.val.value| else 0) + 8 * h
  }

  function Mem(es: Run, hs: seq<nat>): nat
    requires |es| == |hs|
  {
    if es == [] then 0 else Mem(es[..|es| - 1], hs[..|hs| - 1]) + EntryMem(es[|es| - 1], hs[|hs| - 1])
  }

  lemma {:induction false} MemInserted(es: Run, hs: seq<nat>, p: nat, e: KV, h: nat)
    requires |es| == |hs| && p <= |es|
    ensures Mem(Inserted(es, p, e), Inserted(hs, p, h)) == Mem(es, hs) + EntryMem(e, h)
    decreases |es|
  {
    hide EntryMem;
    var es', hs' := Inserted(es, p, e), Inserted(hs, p, h);
    if p == |es| {
      assert es'[..|es'| - 1] == es && hs'[..|hs'| - 1] == hs;
    } else {
      var n := |es| - 1;
      MemInserted(es[..n], hs[..n], p, e, h);
      assert es'[..|es'| - 1] == Inserted(es[..n], p, e) && hs'[..|hs'| - 1] == Inserted(hs[..n], p, h);
      assert es'[|es'| - 1] == es[n] && hs'[|hs'| - 1] == hs[n];
    }
  }

  lemma {:induction false} MemReplaced(es: Run, hs: seq<nat>, p: nat, e: KV)
    requires |es| == |hs| && p < |es|
    ensures Mem(es[p := e], hs) + EntryMem(es[p], hs[p]) == Mem(es, hs) + EntryMem(e, hs[p])
    decreases |es|
  {
    hide EntryMem;
    var n := |es| - 1;
    if p == n {
      assert es[p := e][..n] == es[..n];
    } else {
      MemReplaced(es[..n], hs[..n], p, e);
      assert es[p := e][..n] == es[..n][p := e];
    }
  }

  // ---- the linked structure

  class Node {
    const key: Key
    var val: Option<ByteString>
    var forward: seq<Node?>

    constructor (k: Key, v: Option<ByteString>, height: nat)
      ensures key == k && val == v && forward == seq(height, _ => null)
    {
      key, val := k, v;
      forward := seq(height, _ => null);
    }
  }

  function At(nodes: seq<Node>, b: nat): Node? {
    if b < |nodes| then nodes[b] else null
  }

  ghost predicate Distinct(nodes: seq<Node>) {
    forall a, b :: 0 <= a < b < |nodes| ==> nodes[a] != nodes[b]
  }

  ghost function Links(nodes: seq<Node>): (r: seq<seq<Node?>>)
    reads nodes
    ensures |r| == |nodes| && forall a :: 0 <= a < |nodes| ==> r[a] == nodes[a].forward
  {
    if nodes == [] then [] else Links(nodes[..|nodes| - 1]) + [nodes[|nodes| - 1].forward]
  }

  /** The entries of a list of towers. */
  ghost function Entries(nodes: seq<Node>): (r: Run)
    reads nodes
    ensures |r| == |nodes| && forall a :: 0 <= a < |nodes| ==> r[a] == KV(nodes[a].key, nodes[a].val)
  {
    if nodes == [] then [] else Entries(nodes[..|nodes| - 1]) + [KV(nodes[|nodes| - 1].key, nodes[|nodes| - 1].val)]
  }

  /** In every lane each tower points to the next one that reaches the lane. */
  ghost predicate LinksOk(nodes: seq<Node>, hs: seq<nat>, links: seq<seq<Node?>>) {
    && |links| == |nodes| == |hs|
    && (forall a :: 0 <= a < |nodes| ==> |links[a]| == hs[a])
    && (forall a, i :: 0 <= a < |nodes| && 0 <= i < hs[a] ==> links[a][i] == At(nodes, NextTower(hs, a, i)))
  }

  ghost predicate HeightsOk(hs: seq<nat>, level: nat) {
    && hs != [] && hs[0] == MAX_LEVEL && level <= MAX_LEVEL
    && (forall a :: 1 <= a < |hs| ==> 1 <= hs[a] <= level)
  }

  /** The nodes found for the first n lanes are the predecessors in them. */
  ghost predicate Predecessors(nodes: seq<Node>, hs: seq<nat>, c: nat, us: seq<nat>, update: seq<Node?>, n: nat) {
    |us| == |update| == MAX_LEVEL && n <= MAX_LEVEL && forall i :: 0 <= i < n ==> IsPredecessor(nodes, hs, c, i, us[i], update[i])
  }

  /** The last tower before position c that reaches lane i. */
  ghost predicate IsPredecessor(nodes: seq<Node>, hs: seq<nat>, c: nat, i: nat, u: nat, node: Node?) {
    u <= c < |nodes| == |hs| && node == nodes[u] && hs[u] > i && NextTower(hs, u, i) > c
  }

  ghost predicate LessBefore(es: Run, key: Key, c: nat) {
    c <= |es| && forall x :: 0 <= x < c ==> Less(es[x].key, key)
  }

  /** A tower of lane i with nothing smaller than the key after it in the lane. */
  ghost predicate LaneEnd(es: Run, nodes: seq<Node>, hs: seq<nat>, key: Key, i: nat, u: nat, node: Node?) {
    && u < |nodes| == |hs| == |es| + 1 && node == nodes[u] && hs[u] > i
    && (NextTower(hs, u, i) < |hs| ==> !Less(es[NextTower(hs, u, i) - 1].key, key))
  }

  /** All that ties the fields of a skip list together. */
  ghost predicate ListOk(head: Node, nodes: seq<Node>, hs: seq<nat>, level: nat, size: nat, memSize: nat)
    reads nodes
  {
    && nodes != [] && nodes[0] == head && |hs| == |nodes| && Distinct(nodes)
    && HeightsOk(hs, level) && LinksOk(nodes, hs, Links(nodes))
    && Sorted(Entries(nodes[1..]))
    && size == |nodes| - 1 && memSize == Mem(Entries(nodes[1..]), hs[1..])
  }

  /** What a walk needs to know of a valid list. */
  lemma ListFacts(head: Node, nodes: seq<Node>, hs: seq<nat>, level: nat, size: nat, memSize: nat)
    requires ListOk(head, nodes, hs, level, size, memSize)
    ensures nodes != [] && nodes[0] == head && |hs| == |nodes| && HeightsOk(hs, level) && Sorted(Entries(nodes[1..]))
  {
    hide LinksOk, Distinct, Sorted, HeightsOk;
  }

  /** What a node's link in a lane is. */
  lemma LinkIs(head: Node, nodes: seq<Node>, hs: seq<nat>, level: nat, size: nat, memSize: nat, c: nat, i: nat)
    requires ListOk(head, nodes, hs, level, size, memSize) && c < |nodes|
    ensures |nodes[c].forward| == hs[c] && |hs| == |nodes|
    ensures i < hs[c] ==> nodes[c].forward[i] == At(nodes, NextTower(hs, c, i))
  {
    hide Distinct, Sorted, HeightsOk, NextTower, Entries;
    assert Links(nodes)[c] == nodes[c].forward;
  }

  class SkipList {
    const head: Node
    var level: nat
    var size: nat
    var memSize: nat
    ghost var nodes: seq<Node>
    ghost var hs: seq<nat>

    ghost predicate Valid()
      reads this, nodes
    {
      ListOk(head, nodes, hs, level, size, memSize)
    }

    /** The map: its entries in key order. */
    ghost function Contents(): (es: Run)
      reads this, nodes
    {
      if nodes == [] then [] else Entries(nodes[1..])
    }

    constructor ()
      ensures Valid() && Contents() == [] && fresh(nodes) && memSize == 0
    {
      head := new Node([], None, MAX_LEVEL);
      level, size, memSize := 0, 0, 0;
      nodes := [head];
      hs := [MAX_LEVEL];
    }

    /** One lane of the descent. */
    method Walk(key: Key, i: nat, from: Node, ghost c0: nat) returns (current: Node, ghost c: nat)
      requires Valid() && c0 < |nodes| == |hs| && from == nodes[c0] && hs[c0] > i
      requires LessBefore(Contents(), key, c0)
      ensures c0 <= c < |nodes| && current == nodes[c] && LessBefore(Contents(), key, c)
      ensures LaneEnd(Contents(), nodes, hs, key, i, c, current)
    {
      hide Less, ListOk, LessBefore, NextTower;
      ListFacts(head, nodes, hs, level, size, memSize);
      current, c := from, c0;
      ghost var es := Contents();
      LinkIs(head, nodes, hs, level, size, memSize, c, i);
      while current.forward[i] != null && Less(current.forward[i].key, key)
        invariant c0 <= c < |nodes| && current == nodes[c] && hs[c] > i && |current.forward| == hs[c]
        invariant current.forward[i] == At(nodes, NextTower(hs, c, i))
        invariant LessBefore(es, key, c)
        decreases |nodes| - c
      {
        NextIs(hs, c, i);
        ghost var b := NextTower(hs, c, i);
        assert nodes[1..][b - 1] == nodes[b];
        WalkFurther(es, key, c, b);
        current, c := current.forward[i], b;
        LinkIs(head, nodes, hs, level, size, memSize, c, i);
      }
      ghost var b := NextTower(hs, c, i);
      if b < |nodes| { assert nodes[1..][b - 1] == nodes[b]; }
    }

    /** The descent shared by Put, Get and Seek: the last node before the key, and one per lane. */
    method Descend(key: Key) returns (current: Node, update: seq<Node?>, ghost c: nat, ghost us: seq<nat>)
      requires Valid()
      ensures c < |nodes| == |hs| && current == nodes[c] && Splits(Contents(), key, c)
      ensures Predecessors(nodes, hs, c, us, update, level)
    {
      hide Less, ListOk, LessBefore, LaneEnd, NextTower, Splits, IsPredecessor, Sorted;
      ListFacts(head, nodes, hs, level, size, memSize);
      current, c := head, 0;
      update := seq(MAX_LEVEL, _ => null);
      us := seq(MAX_LEVEL, _ => 0);
      ghost var es := Contents();
      NothingBefore(es, key);
      var i := level;
      while i > 0
        invariant 0 <= i <= level && c < |nodes| && current == nodes[c] && hs[c] >= i
        invariant |update| == |us| == MAX_LEVEL && LessBefore(es, key, c)
        invariant forall j :: i <= j < level ==> us[j] <= c && LaneEnd(es, nodes, hs, key, j, us[j], update[j])
      {
        i := i - 1;
        current, c := Walk(key, i, current, c);
        LaneReach(es, nodes, hs, key, i, c, current);
        update := update[i := current];
        us := us[i := c];
      }
      Landed(es, nodes, hs, key, level, c, us, update);
    }

    /** The bottom lane links every node to the one after it. */
    method NextNode(current: Node, ghost c: nat) returns (next: Node?)
      requires Valid() && c < |nodes| && current == nodes[c]
      ensures next == At(nodes, c + 1)
      ensures |Contents()| == |nodes| - 1
      ensures next != null <==> c < |Contents()|
      ensures c < |Contents()| ==> Contents()[c] == KV(next.key, next.val)
    {
      hide ListOk, NextTower;
      ListFacts(head, nodes, hs, level, size, memSize);
      LinkIs(head, nodes, hs, level, size, memSize, c, 0);
      NextUnique(hs, c, 0, c + 1);
      next := current.forward[0];
      if c + 1 < |nodes| { assert nodes[1..][c] == nodes[c + 1]; }
    }

    method Get(key: Key) returns (r: Option<Option<ByteString>>)
      requires Valid()
      ensures r == Find(Contents(), key)
    {
      hide ListOk, Splits, IsPredecessor, Sorted, Find;
      ListFacts(head, nodes, hs, level, size, memSize);
      var current, update, c, us := Descend(key);
      var next := NextNode(current, c);
      FindSplit(Contents(), key, c);
      if next != null && next.key == key { return Some(next.val); }
      return None;
    }

    /** Splices a tower into lanes 0 up to its height, behind the node found for each lane. */
    method Splice(node: Node, update: seq<Node?>, ghost us: seq<nat>, height: nat, ghost was: seq<seq<Node?>>)
      requires Distinct(nodes) && node !in nodes && Targets(nodes, update, us, was, height) && Linked(nodes, was)
      requires node.forward == seq(height, _ => null)
      modifies node`forward, (set n | n in nodes)`forward
      ensures SplicedIn(nodes, update, us, was, height, node)
    {
      hide Rewired, NewLinks, Distinct;
      SpliceStarts(nodes, update, us, was, height, node);
      var i := 0;
      while i < height
        invariant 0 <= i <= height
        invariant forall a :: 0 <= a < |nodes| ==> nodes[a].forward == Rewired(was[a], us, a, i, node)
        invariant node.forward == NewLinks(was, us, i, height)
      {
        ghost var u := us[i];
        RewiredAt(was[u], us, u, i, node);
        OthersDiffer(nodes, u);
        forall a | 0 <= a < |nodes|
          ensures Rewired(was[a], us, a, i + 1, node)
                  == if a == u then Rewired(was[a], us, a, i, node)[i := node] else Rewired(was[a], us, a, i, node)
        {
          RewiredStep(was[a], us, a, i, node);
        }
        NewLinksStep(was, us, i, height);
        node.forward := node.forward[i := update[i].forward[i]];
        update[i].forward := update[i].forward[i := node];
        i := i + 1;
      }
    }

    /** Overwrites the value of the node after position c. */
    method Replace(next: Node, ghost c: nat, value: Option<ByteString>)
      requires Valid() && c + 1 < |nodes| && next == nodes[c + 1]
      modifies this`memSize, next`val
      ensures Valid() && c < |old(Contents())| && Contents() == old(Contents())[c := KV(next.key, value)]
    {
      hide ListOk, Sorted, Mem, Links, HeightsOk, Distinct, LinksOk;
      ListFacts(head, nodes, hs, level, size, memSize);
      ListMore(head, nodes, hs, level, size, memSize);
      ghost var es := Contents();
      ghost var links := Links(nodes);
      ghost var e := KV(next.key, value);
      assert forall x :: 0 <= x < |es| ==> nodes[1..][x] == nodes[x + 1];
      var oldLen := if next.val.Some? then |next.val.value| else 0;
      var newLen := if value.Some? then |value.value| else 0;
      ReplaceMem(es, hs[1..], c, e);
      OthersDiffer(nodes, c + 1);
      next.val := value;
      memSize := memSize + newLen - oldLen;
      Replaced(nodes, es, c, e, links);
      SameKeysSorted(es, c, e);
      ListOkIf(head, nodes, hs, level, size, memSize, es[c := e], links);
    }

    /** The lanes above the list's level start at the head. */
    method ExtendUpdate(found: seq<Node?>, height: nat, ghost c: nat, ghost us0: seq<nat>) returns (update: seq<Node?>, ghost us: seq<nat>)
      requires Valid() && height <= MAX_LEVEL && c < |nodes| == |hs|
      requires Predecessors(nodes, hs, c, us0, found, level)
      ensures Predecessors(nodes, hs, c, us, update, height)
    {
      hide ListOk, IsPredecessor, HeightsOk, Sorted, Entries;
      ListFacts(head, nodes, hs, level, size, memSize);
      update, us := found, us0;
      var i := level;
      while i < height
        invariant level <= i <= MAX_LEVEL && |update| == |us| == MAX_LEVEL
        invariant forall j :: 0 <= j < i ==> IsPredecessor(nodes, hs, c, j, us[j], update[j])
      {
        HeadPredecessor(nodes, hs, level, c, i);
        update := update[i := head];
        us := us[i := 0];
        i := i + 1;
      }
    }

    /** A new tower, linked in but not yet counted among the nodes. */
    method AddTower(key: Key, value: Option<ByteString>, height: nat, update: seq<Node?>, ghost us: seq<nat>, ghost c: nat,
                    ghost was: seq<seq<Node?>>, ghost es: Run) returns (node: Node)
      requires nodes != [] && Distinct(nodes) && Targets(nodes, update, us, was, height) && Linked(nodes, was)
      requires Entries(nodes[1..]) == es
      modifies (set n | n in nodes)`forward
      ensures fresh(node) && node !in nodes && node.key == key && node.val == value
      ensures SplicedIn(nodes, update, us, was, height, node) && Entries(nodes[1..]) == es
    {
      hide Distinct, Targets, SplicedIn, Entries;
      node := new Node(key, value, height);
      Splice(node, update, us, height, was);
      SameEntries(nodes[1..], es);
    }

    /** Makes the tower and links it in; the list's own fields are still to follow. */
    method Link(key: Key, value: Option<ByteString>, height: nat, found: seq<Node?>, ghost c: nat, ghost us0: seq<nat>)
      returns (node: Node)
      requires Valid() && 1 <= height <= MAX_LEVEL && c < |nodes| == |hs| && Predecessors(nodes, hs, c, us0, found, level)
      requires c <= |Contents()| && Sorted(Inserted(Contents(), c, KV(key, value)))
      modifies (set n | n in nodes)`forward
      ensures fresh(node) && node !in nodes && c + 1 <= |nodes| == |hs| && old(c <= |Contents()|)
      ensures Entries(Inserted(nodes, c + 1, node)[1..]) == Inserted(old(Contents()), c, KV(key, value))
      ensures ListOk(head, Inserted(nodes, c + 1, node), Inserted(hs, c + 1, height), if height > level then height else level,
                     size + 1, memSize + EntryMem(KV(key, value), height))
    {
      hide ListOk, Sorted, Mem, Links, HeightsOk, Distinct, LinksOk, Predecessors, Inserted, Entries, At, NextTower, EntryMem,
        Targets, SplicedIn;
      ListFacts(head, nodes, hs, level, size, memSize);
      ListMore(head, nodes, hs, level, size, memSize);
      ghost var es := Entries(nodes[1..]);
      ghost var was := Links(nodes);
      var update, us := ExtendUpdate(found, height, c, us0);
      SpliceNeeds(nodes, hs, was, c, height, us, update);
      node := AddTower(key, value, height, update, us, c, was, es);
      InsertedOk(head, nodes, hs, level, size, memSize, es, was, us, update, c, height, node);
    }

    /** The list's own fields after a tower has been linked in. */
    method Adopt(ghost grown: seq<Node>, ghost heights: seq<nat>, height: nat, e: KV)
      requires grown != []
      requires ListOk(head, grown, heights, if height > level then height else level, size + 1, memSize + EntryMem(e, height))
      modifies this
      ensures Valid() && nodes == grown && Contents() == old(Entries(grown[1..]))
    {
      hide ListOk, Entries, EntryMem;
      nodes, hs := grown, heights;
      if height > level { level := height; }
      size := size + 1;
      memSize := memSize + EntryMem(e, height);
    }

    /** Puts a new tower after position c. */
    method Insert(key: Key, value: Option<ByteString>, height: nat, found: seq<Node?>, ghost c: nat, ghost us0: seq<nat>)
      requires Valid() && 1 <= height <= MAX_LEVEL && c < |nodes| == |hs|
      requires Predecessors(nodes, hs, c, us0, found, level)
      requires c <= |Contents()| && Sorted(Inserted(Contents(), c, KV(key, value)))
      modifies this, nodes
      ensures Valid() && old(c <= |Contents()|) && Contents() == Inserted(old(Contents()), c, KV(key, value))
      ensures fresh(set n | n in nodes && n !in old(nodes))
    {
      hide ListOk, Sorted, Predecessors, Inserted, Entries, EntryMem;
      var node := Link(key, value, height, found, c, us0);
      ghost var was, grown := nodes, Inserted(nodes, c + 1, node);
      InsertedLength(nodes, c + 1, node);
      Adopt(grown, Inserted(hs, c + 1, height), height, KV(key, value));
      forall n | n in nodes && n !in was ensures n == node { InsertedMember(was, c + 1, node, n); }
    }

    /** Sets a key; height is the height drawn for a new tower. */
    method Put(key: Key, value: Option<ByteString>, height: nat)
      requires Valid() && 1 <= height <= MAX_LEVEL
      modifies this, nodes
      ensures Valid() && Contents() == PutRun(old(Contents()), key, value)
      ensures fresh(set n | n in nodes && n !in old(nodes))
    {
      hide ListOk, Splits, Predecessors, Sorted, PutRun, Entries;
      ListFacts(head, nodes, hs, level, size, memSize);
      var current, update, c, us := Descend(key);
      var next := NextNode(current, c);
      PutAt(Contents(), key, value, c);
      PutSorted(Contents(), key, value, c);
      if next != null && next.key == key {
        Replace(next, c, value);
      } else {
        Insert(key, value, height, update, c, us);
      }
    }

    /** A deletion stores a tombstone. */
    method Delete(key: Key, height: nat)
      requires Valid() && 1 <= height <= MAX_LEVEL
      modifies this, nodes
      ensures Valid() && Contents() == PutRun(old(Contents()), key, None)
      ensures fresh(set n | n in nodes && n !in old(nodes))
    {
      Put(key, None, height);
    }
  }

  lemma NothingBefore(es: Run, key: Key)
    ensures LessBefore(es, key, 0)
  {
  }

  lemma WalkFurther(es: Run, key: Key, c: nat, b: nat)
    requires Sorted(es) && LessBefore(es, key, c) && c < b <= |es| && Less(es[b - 1].key, key)
    ensures LessBefore(es, key, b)
  {
    hide Less;
    KeysOrdered();
    forall x | 0 <= x < b ensures Less(es[x].key, key) {
      if x < b - 1 { assert Less(es[x].key, es[b - 1].key); }
    }
  }

  lemma LaneReach(es: Run, nodes: seq<Node>, hs: seq<nat>, key: Key, i: nat, u: nat, node: Node?)
    requires LaneEnd(es, nodes, hs, key, i, u, node)
    ensures u < |hs| && hs[u] > i
  {
  }

  /** After the bottom lane the key's place is known in every lane. */
  lemma Landed(es: Run, nodes: seq<Node>, hs: seq<nat>, key: Key, level: nat, c: nat, us: seq<nat>, update: seq<Node?>)
    requires Sorted(es) && |hs| == |es| + 1 == |nodes| && HeightsOk(hs, level) && c < |hs| && |us| == |update| == MAX_LEVEL
    requires LessBefore(es, key, c)
    requires forall j :: 0 <= j < level ==> us[j] <= c && LaneEnd(es, nodes, hs, key, j, us[j], update[j])
    ensures Splits(es, key, c)
    ensures forall j :: 0 <= j < level ==> IsPredecessor(nodes, hs, c, j, us[j], update[j])
  {
    hide Less, NextTower;
    KeysOrdered();
    forall j | 0 <= j < level ensures IsPredecessor(nodes, hs, c, j, us[j], update[j]) {
      assert LaneEnd(es, nodes, hs, key, j, us[j], update[j]);
    }
    if c < |es| {
      assert 1 <= hs[c + 1] <= level;
      assert LaneEnd(es, nodes, hs, key, 0, us[0], update[0]);
      NextIs(hs, us[0], 0);
      assert NextTower(hs, us[0], 0) == c + 1;
      forall i | c <= i < |es| ensures !Less(es[i].key, key) {
        if i > c { assert Less(es[c].key, es[i].key); }
      }
    }
  }

  // ---- splicing

  /** A node's links once lanes below i have been spliced; us[j] is the node spliced in lane j. */
  ghost function Rewired(f: seq<Node?>, us: seq<nat>, a: nat, i: nat, node: Node): (r: seq<Node?>)
    requires |us| == MAX_LEVEL
    ensures |r| == |f|
  {
    seq(|f|, j requires 0 <= j < |f| => if j < i && j < MAX_LEVEL && us[j] == a then node else f[j])
  }

  ghost function NewLinks(was: seq<seq<Node?>>, us: seq<nat>, i: nat, height: nat): (r: seq<Node?>)
    requires |us| == MAX_LEVEL && i <= height <= MAX_LEVEL
    requires forall j :: 0 <= j < height ==> us[j] < |was| && j < |was[us[j]]|
    ensures |r| == height
  {
    seq(height, j requires 0 <= j < height => if j < i then was[us[j]][j] else null)
  }

  /** The node found for each lane below the height, and its link in that lane. */
  ghost predicate Targets(nodes: seq<Node>, update: seq<Node?>, us: seq<nat>, was: seq<seq<Node?>>, height: nat) {
    && |update| == |us| == MAX_LEVEL && height <= MAX_LEVEL && |was| == |nodes|
    && forall i :: 0 <= i < height ==> us[i] < |nodes| && update[i] == nodes[us[i]] && i < |was[us[i]]|
  }

  /** The links before a splice. */
  ghost predicate Linked(nodes: seq<Node>, was: seq<seq<Node?>>)
    reads nodes
  {
    |was| == |nodes| && forall a :: 0 <= a < |nodes| ==> nodes[a].forward == was[a]
  }

  /** The links after it. */
  ghost predicate SplicedIn(nodes: seq<Node>, update: seq<Node?>, us: seq<nat>, was: seq<seq<Node?>>, height: nat, node: Node)
    reads nodes, node
  {
    && Targets(nodes, update, us, was, height) && node.forward == NewLinks(was, us, height, height)
    && forall a :: 0 <= a < |nodes| ==> nodes[a].forward == Rewired(was[a], us, a, height, node)
  }

  lemma InsertedMember(nodes: seq<Node>, p: nat, node: Node, n: Node)
    requires p <= |nodes| && n in Inserted(nodes, p, node)
    ensures n == node || n in nodes
  {
  }

  lemma InsertedLength(nodes: seq<Node>, p: nat, node: Node)
    requires p <= |nodes|
    ensures |Inserted(nodes, p, node)| == |nodes| + 1
  {
  }

  lemma SpliceStarts(nodes: seq<Node>, update: seq<Node?>, us: seq<nat>, was: seq<seq<Node?>>, height: nat, node: Node)
    requires Targets(nodes, update, us, was, height)
    ensures forall a :: 0 <= a < |nodes| ==> Rewired(was[a], us, a, 0, node) == was[a]
    ensures NewLinks(was, us, 0, height) == seq(height, _ => null)
  {
  }

  lemma RewiredAt(f: seq<Node?>, us: seq<nat>, a: nat, i: nat, node: Node)
    requires |us| == MAX_LEVEL && i < |f|
    ensures Rewired(f, us, a, i, node)[i] == f[i]
  {
  }

  lemma RewiredStep(f: seq<Node?>, us: seq<nat>, a: nat, i: nat, node: Node)
    requires |us| == MAX_LEVEL && i < MAX_LEVEL && (us[i] == a ==> i < |f|)
    ensures Rewired(f, us, a, i + 1, node) == if us[i] == a then Rewired(f, us, a, i, node)[i := node] else Rewired(f, us, a, i, node)
  {
  }

  lemma NewLinksStep(was: seq<seq<Node?>>, us: seq<nat>, i: nat, height: nat)
    requires |us| == MAX_LEVEL && i < height <= MAX_LEVEL
    requires forall j :: 0 <= j < height ==> us[j] < |was| && j < |was[us[j]]|
    ensures NewLinks(was, us, i + 1, height) == NewLinks(was, us, i, height)[i := was[us[i]][i]]
  {
  }

  lemma ListMore(head: Node, nodes: seq<Node>, hs: seq<nat>, level: nat, size: nat, memSize: nat)
    requires ListOk(head, nodes, hs, level, size, memSize)
    ensures |hs| == |nodes| > 0 && Distinct(nodes) && LinksOk(nodes, hs, Links(nodes)) && size == |nodes| - 1
    ensures memSize == Mem(Entries(nodes[1..]), hs[1..])
  {
    hide LinksOk, Distinct, Sorted, HeightsOk, Mem;
  }

  lemma ListOkIf(head: Node, nodes: seq<Node>, hs: seq<nat>, level: nat, size: nat, memSize: nat, es: Run,
                 links: seq<seq<Node?>>)
    requires nodes != [] && nodes[0] == head && |hs| == |nodes| && Distinct(nodes)
    requires HeightsOk(hs, level) && Links(nodes) == links && LinksOk(nodes, hs, links)
    requires Entries(nodes[1..]) == es && Sorted(es) && size == |nodes| - 1 && memSize == Mem(es, hs[1..])
    ensures ListOk(head, nodes, hs, level, size, memSize)
  {
    hide LinksOk, Distinct, Sorted, HeightsOk, Mem;
  }

  lemma ReplaceMem(es: Run, hs: seq<nat>, c: nat, e: KV)
    requires |es| == |hs| && c < |es| && e.key == es[c].key
    ensures Mem(es[c := e], hs) + (if es[c].val.Some? then |es[c].val.value| else 0)
            == Mem(es, hs) + (if e.val.Some? then |e.val.value| else 0)
  {
    MemReplaced(es, hs, c, e);
  }

  /** Changing one value changes one entry and no link. */
  lemma Replaced(nodes: seq<Node>, es: Run, c: nat, e: KV, links: seq<seq<Node?>>)
    requires nodes != [] && |es| == |nodes| - 1 && c < |es| && |links| == |nodes|
    requires KV(nodes[c + 1].key, nodes[c + 1].val) == e
    requires forall a :: 0 <= a < |es| && a != c ==> KV(nodes[a + 1].key, nodes[a + 1].val) == es[a]
    requires forall a :: 0 <= a < |nodes| ==> nodes[a].forward == links[a]
    ensures Entries(nodes[1..]) == es[c := e] && Links(nodes) == links
  {
    assert forall a :: 0 <= a < |es| ==> nodes[1..][a] == nodes[a + 1];
  }

  lemma SameEntries(nodes: seq<Node>, es: Run)
    requires |es| == |nodes| && forall a :: 0 <= a < |nodes| ==> KV(nodes[a].key, nodes[a].val) == es[a]
    ensures Entries(nodes) == es
  {
  }

  lemma OthersDiffer(nodes: seq<Node>, x: nat)
    requires Distinct(nodes) && x < |nodes|
    ensures forall a :: 0 <= a < |nodes| && a != x ==> nodes[a] != nodes[x]
  {
  }

  lemma SameKeysSorted(es: Run, c: nat, e: KV)
    requires Sorted(es) && c < |es| && e.key == es[c].key
    ensures Sorted(es[c := e])
  {
    hide Less;
  }

  /** In a lane no tower but the head reaches, the head is the predecessor. */
  lemma HeadPredecessor(nodes: seq<Node>, hs: seq<nat>, level: nat, c: nat, i: nat)
    requires HeightsOk(hs, level) && c < |nodes| == |hs| && level <= i < MAX_LEVEL
    ensures IsPredecessor(nodes, hs, c, i, 0, nodes[0])
  {
    hide NextTower;
    NextIs(hs, 0, i);
  }

  lemma SpliceNeeds(nodes: seq<Node>, hs: seq<nat>, was: seq<seq<Node?>>, c: nat, height: nat, us: seq<nat>, update: seq<Node?>)
    requires LinksOk(nodes, hs, was) && Predecessors(nodes, hs, c, us, update, height)
    ensures Targets(nodes, update, us, was, height)
  {
    hide NextTower;
    forall i | 0 <= i < height ensures us[i] < |nodes| && update[i] == nodes[us[i]] && i < |was[us[i]]| {
      assert IsPredecessor(nodes, hs, c, i, us[i], update[i]);
    }
  }

  /** All links after the splice, in the new order of the towers. */
  ghost function SplicedLinks(was: seq<seq<Node?>>, us: seq<nat>, c: nat, height: nat, node: Node): (r: seq<seq<Node?>>)
    requires |us| == MAX_LEVEL && height <= MAX_LEVEL && c < |was|
    requires forall j :: 0 <= j < height ==> us[j] < |was| && j < |was[us[j]]|
    ensures |r| == |was| + 1
  {
    seq(|was| + 1, a requires 0 <= a <= |was| =>
      if a <= c then Rewired(was[a], us, a, height, node)
      else if a == c + 1 then NewLinks(was, us, height, height)
      else Rewired(was[a - 1], us, a - 1, height, node))
  }

  /** Only the predecessor's link in a lane crosses the place of the new tower. */
  lemma CrossingIsPredecessor(nodes: seq<Node>, hs: seq<nat>, c: nat, i: nat, u: nat, node: Node?, a: nat)
    requires IsPredecessor(nodes, hs, c, i, u, node) && a <= c && hs[a] > i && NextTower(hs, a, i) > c
    ensures a == u
  {
    hide NextTower;
    NextIs(hs, a, i);
    NextIs(hs, u, i);
  }

  lemma AtInserted(nodes: seq<Node>, p: nat, node: Node, b: nat)
    requires p <= |nodes|
    ensures b < p ==> At(Inserted(nodes, p, node), b) == At(nodes, b)
    ensures b >= p ==> At(Inserted(nodes, p, node), b + 1) == At(nodes, b)
    ensures At(Inserted(nodes, p, node), p) == node
  {
  }

  lemma LinkBefore(nodes: seq<Node>, hs: seq<nat>, was: seq<seq<Node?>>, us: seq<nat>, update: seq<Node?>, c: nat, height: nat,
                   node: Node, a: nat, i: nat)
    requires LinksOk(nodes, hs, was) && |us| == |update| == MAX_LEVEL && height <= MAX_LEVEL && a <= c < |nodes| && i < hs[a]
    requires i < height ==> IsPredecessor(nodes, hs, c, i, us[i], update[i])
    ensures Rewired(was[a], us, a, height, node)[i]
            == At(Inserted(nodes, c + 1, node), NextTower(Inserted(hs, c + 1, height), a, i))
  {
    hide NextTower, Inserted, IsPredecessor, At;
    var b := NextTower(hs, a, i);
    NextInserted(hs, c + 1, height, a, i);
    AtInserted(nodes, c + 1, node, b);
    if i < height {
      PredecessorParts(nodes, hs, c, i, us[i], update[i]);
      if b > c { CrossingIsPredecessor(nodes, hs, c, i, us[i], update[i], a); }
    }
  }

  lemma PredecessorParts(nodes: seq<Node>, hs: seq<nat>, c: nat, i: nat, u: nat, node: Node?)
    requires IsPredecessor(nodes, hs, c, i, u, node)
    ensures u <= c < |nodes| == |hs| && node == nodes[u] && hs[u] > i && NextTower(hs, u, i) > c
  {
  }

  lemma LinkAfter(nodes: seq<Node>, hs: seq<nat>, was: seq<seq<Node?>>, us: seq<nat>, update: seq<Node?>, c: nat, height: nat,
                  node: Node, a: nat, i: nat)
    requires LinksOk(nodes, hs, was) && |us| == |update| == MAX_LEVEL && height <= MAX_LEVEL && c < a < |nodes| && i < hs[a]
    requires i < height ==> IsPredecessor(nodes, hs, c, i, us[i], update[i])
    ensures Rewired(was[a], us, a, height, node)[i]
            == At(Inserted(nodes, c + 1, node), NextTower(Inserted(hs, c + 1, height), a + 1, i))
  {
    hide NextTower, Inserted, At;
    NextInserted(hs, c + 1, height, a, i);
    AtInserted(nodes, c + 1, node, NextTower(hs, a, i));
  }

  lemma LinkNew(nodes: seq<Node>, hs: seq<nat>, was: seq<seq<Node?>>, us: seq<nat>, update: seq<Node?>, c: nat, height: nat,
                node: Node, i: nat)
    requires LinksOk(nodes, hs, was) && |us| == |update| == MAX_LEVEL && height <= MAX_LEVEL && c < |nodes| && i < height
    requires forall j :: 0 <= j < height ==> us[j] < |was| && j < |was[us[j]]|
    requires IsPredecessor(nodes, hs, c, i, us[i], update[i])
    ensures NewLinks(was, us, height, height)[i]
            == At(Inserted(nodes, c + 1, node), NextTower(Inserted(hs, c + 1, height), c + 1, i))
  {
    hide NextTower, Inserted, At;
    NextOfNew(hs, c + 1, height, us[i], i);
    AtInserted(nodes, c + 1, node, NextTower(hs, us[i], i));
  }

  /** The spliced list is linked in every lane. */
  lemma LinksInserted(nodes: seq<Node>, hs: seq<nat>, was: seq<seq<Node?>>, us: seq<nat>, update: seq<Node?>, c: nat, height: nat,
                      node: Node)
    requires LinksOk(nodes, hs, was) && |us| == |update| == MAX_LEVEL && height <= MAX_LEVEL && c < |nodes|
    requires forall i :: 0 <= i < height ==> IsPredecessor(nodes, hs, c, i, us[i], update[i])
    requires forall j :: 0 <= j < height ==> us[j] < |was| && j < |was[us[j]]|
    ensures LinksOk(Inserted(nodes, c + 1, node), Inserted(hs, c + 1, height), SplicedLinks(was, us, c, height, node))
  {
    hide NextTower, At, IsPredecessor, Rewired, NewLinks, Inserted, SplicedLinks;
    var nodes', hs' := Inserted(nodes, c + 1, node), Inserted(hs, c + 1, height);
    var links := SplicedLinks(was, us, c, height, node);
    forall a | 0 <= a < |nodes'| ensures |links[a]| == hs'[a] {
      SplicedAt(was, us, c, height, node, a);
      InsertedAt(hs, c + 1, height, a);
    }
    forall a, i | 0 <= a < |nodes'| && 0 <= i < hs'[a] ensures links[a][i] == At(nodes', NextTower(hs', a, i)) {
      SplicedAt(was, us, c, height, node, a);
      InsertedAt(hs, c + 1, height, a);
      if a <= c {
        LinkBefore(nodes, hs, was, us, update, c, height, node, a, i);
      } else if a == c + 1 {
        LinkNew(nodes, hs, was, us, update, c, height, node, i);
      } else {
        LinkAfter(nodes, hs, was, us, update, c, height, node, a - 1, i);
      }
    }
  }

  lemma InsertedAt<T>(xs: seq<T>, p: nat, x: T, a: nat)
    requires p <= |xs| && a <= |xs|
    ensures Inserted(xs, p, x)[a] == if a < p then xs[a] else if a == p then x else xs[a - 1]
  {
  }

  lemma SplicedAt(was: seq<seq<Node?>>, us: seq<nat>, c: nat, height: nat, node: Node, a: nat)
    requires |us| == MAX_LEVEL && height <= MAX_LEVEL && c < |was| && a <= |was|
    requires forall j :: 0 <= j < height ==> us[j] < |was| && j < |was[us[j]]|
    ensures SplicedLinks(was, us, c, height, node)[a]
            == if a <= c then Rewired(was[a], us, a, height, node)
               else if a == c + 1 then NewLinks(was, us, height, height)
               else Rewired(was[a - 1], us, a - 1, height, node)
  {
    hide Rewired, NewLinks;
  }

  lemma SplicedEntries(nodes: seq<Node>, es: Run, c: nat, node: Node, links: seq<seq<Node?>>)
    requires c < |nodes| && Entries(nodes[1..]) == es && |links| == |nodes| + 1
    requires forall a :: 0 <= a <= c ==> nodes[a].forward == links[a]
    requires node.forward == links[c + 1]
    requires forall a :: c < a < |nodes| ==> nodes[a].forward == links[a + 1]
    ensures Links(Inserted(nodes, c + 1, node)) == links
    ensures Entries(Inserted(nodes, c + 1, node)[1..]) == Inserted(es, c, KV(node.key, node.val))
  {
    hide Links, Entries, Inserted;
    var nodes', es' := Inserted(nodes, c + 1, node), Inserted(es, c, KV(node.key, node.val));
    var all := Links(nodes');
    forall a | 0 <= a < |nodes'| ensures all[a] == links[a] {
      InsertedAt(nodes, c + 1, node, a);
    }
    var tail := nodes'[1..];
    forall a | 0 <= a < |tail| ensures KV(tail[a].key, tail[a].val) == es'[a] {
      InsertedAt(nodes, c + 1, node, a + 1);
      InsertedAt(es, c, KV(node.key, node.val), a);
      if a < c { assert nodes[1..][a] == nodes[a + 1]; } else if a > c { assert nodes[1..][a - 1] == nodes[a]; }
    }
    SameEntries(tail, es');
  }

  lemma HeightsInserted(hs: seq<nat>, level: nat, c: nat, height: nat)
    requires HeightsOk(hs, level) && c < |hs| && 1 <= height <= MAX_LEVEL
    ensures HeightsOk(Inserted(hs, c + 1, height), if height > level then height else level)
    ensures Inserted(hs, c + 1, height)[1..] == Inserted(hs[1..], c, height)
  {
  }

  lemma DistinctInserted(nodes: seq<Node>, p: nat, node: Node)
    requires Distinct(nodes) && p <= |nodes| && node !in nodes
    ensures Distinct(Inserted(nodes, p, node))
    ensures p > 0 ==> Inserted(nodes, p, node)[0] == nodes[0]
    ensures forall n :: n in Inserted(nodes, p, node) <==> n == node || n in nodes
  {
  }

  /** The spliced list is valid. */
  lemma InsertedOk(head: Node, nodes: seq<Node>, hs: seq<nat>, level: nat, size: nat, memSize: nat, es: Run,
                   was: seq<seq<Node?>>, us: seq<nat>, update: seq<Node?>, c: nat, height: nat, node: Node)
    requires c < |nodes| == |hs| && nodes[0] == head && Distinct(nodes) && node !in nodes
    requires HeightsOk(hs, level) && LinksOk(nodes, hs, was) && Entries(nodes[1..]) == es && 1 <= height <= MAX_LEVEL
    requires size == |nodes| - 1 && memSize == Mem(es, hs[1..])
    requires Predecessors(nodes, hs, c, us, update, height)
    requires SplicedIn(nodes, update, us, was, height, node)
    requires Sorted(Inserted(es, c, KV(node.key, node.val)))
    ensures var nodes', e := Inserted(nodes, c + 1, node), KV(node.key, node.val);
            && Entries(nodes'[1..]) == Inserted(es, c, e)
            && (forall n :: n in nodes' <==> n == node || n in nodes)
            && ListOk(head, nodes', Inserted(hs, c + 1, height), if height > level then height else level, size + 1,
                      memSize + EntryMem(e, height))
  {
    hide Mem, EntryMem, Sorted, Links, HeightsOk, Distinct, LinksOk, IsPredecessor, Rewired, NewLinks, Inserted, SplicedLinks, Entries;
    var e := KV(node.key, node.val);
    var links := SplicedLinks(was, us, c, height, node);
    SplicedAt(was, us, c, height, node, c + 1);
    forall a | 0 <= a <= c ensures nodes[a].forward == links[a] { SplicedAt(was, us, c, height, node, a); }
    forall a | c < a < |nodes| ensures nodes[a].forward == links[a + 1] { SplicedAt(was, us, c, height, node, a + 1); }
    MemInserted(es, hs[1..], c, e, height);
    LinksInserted(nodes, hs, was, us, update, c, height, node);
    SplicedEntries(nodes, es, c, node, links);
    HeightsInserted(hs, level, c, height);
    DistinctInserted(nodes, c + 1, node);
    ListOkIf(head, Inserted(nodes, c + 1, node), Inserted(hs, c + 1, height), if height > level then height else level, size + 1,
             memSize + EntryMem(e, height), Inserted(es, c, e), links);
  }

  // ---- the iterator

  class Iterator {
    const list: SkipList
    var current: Node?
    ghost var at: nat

    /** Positioned before the entry at, or past the last one. */
    ghost predicate Positioned()
      reads this, list, list.nodes
    {
      && list.Valid() && 1 <= at <= |list.nodes|
      && current == At(list.nodes, at)
    }

    /** The entries still to come. */
    ghost function Rest(): Run
      reads this, list, list.nodes
    {
      if 1 <= at <= |list.Contents()| then list.Contents()[at - 1..] else []
    }

    constructor (l: SkipList)
      ensures list == l && current == null
    {
      list, current, at := l, null, 0;
    }

    method SeekToFirst()
      requires list.Valid()
      modifies this
      ensures Positioned() && Rest() == list.Contents()
    {
      hide ListOk, Entries, At;
      ListFacts(list.head, list.nodes, list.hs, list.level, list.size, list.memSize);
      current := list.NextNode(list.head, 0);
      at := 1;
    }

    /** Moves to the first entry not below the target. */
    method Seek(target: Key)
      requires list.Valid()
      modifies this
      ensures Positioned() && Splits(list.Contents(), target, at - 1)
      ensures at - 1 <= |list.Contents()| && Rest() == list.Contents()[at - 1..]
    {
      hide ListOk, Entries, At, Splits, IsPredecessor, Sorted;
      ListFacts(list.head, list.nodes, list.hs, list.level, list.size, list.memSize);
      var node, update, c, us := list.Descend(target);
      current := list.NextNode(node, c);
      at := c + 1;
    }

    method Next()
      requires Positioned()
      modifies this
      ensures Positioned() && Rest() == if old(Rest()) == [] then [] else old(Rest())[1..]
    {
      hide ListOk, Entries;
      ListFacts(list.head, list.nodes, list.hs, list.level, list.size, list.memSize);
      if current != null {
        current := list.NextNode(current, at);
        at := at + 1;
      }
    }

    /** Key and value are those of the next entry. */
    method Entry() returns (e: KV)
      requires Positioned() && current != null
      ensures Rest() != [] && e == Rest()[0]
    {
      hide ListOk;
      ListFacts(list.head, list.nodes, list.hs, list.level, list.size, list.memSize);
      e := KV(current.key, current.val);
      assert list.nodes[1..][at - 1] == list.nodes[at];
    }
  }
}
