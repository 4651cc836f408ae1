/**
 The k-way merge iterator of internal/lsm/merge_iterator.go: a binary heap of child iterators,
 proved to walk the merge of the children's entries.
 */
module MergeIterator {
  import opened Bytes
  import opened KeyOrder
  import opened SortedLists

  /** A heap item: the key its child stands at, and the child's index. */
  datatype Item = Item(key: Key, idx: nat)

  /** iterHeap.Less: by key, and among equal keys the lower index first. */
  predicate Before(a: Item, b: Item) {
    if a.key == b.key then a.idx < b.idx else Less(a.key, b.key)
  }

  lemma ItemsOrdered()
    ensures forall a: Item :: !Before(a, a)
    ensures forall a: Item, b: Item :: Before(a, b) || Before(b, a) || a == b
    ensures forall a: Item, b: Item, d: Item :: Before(a, b) && Before(b, d) ==> Before(a, d)
  {
    hide Less;
    KeysOrdered();
  }

  // ---- the heap

  function Parent(i: nat): nat
    requires i >= 1
  {
    (i - 1) / 2
  }

  ghost predicate IsHeap(h: seq<Item>) {
    forall i :: 1 <= i < |h| ==> !Before(h[i], h[Parent(i)])
  }

  /** A heap apart from the place of item j against its parent. */
  ghost predicate HeapAbove(h: seq<Item>, j: nat) {
    && (forall i :: 1 <= i < |h| && i != j ==> !Before(h[i], h[Parent(i)]))
    && (j >= 1 ==> forall i :: 1 <= i < |h| && Parent(i) == j ==> !Before(h[i], h[Parent(j)]))
  }

  /** A heap apart from the places of the children of item j. */
  ghost predicate HeapBelow(h: seq<Item>, j: nat) {
    && (forall i :: 1 <= i < |h| && Parent(i) != j ==> !Before(h[i], h[Parent(i)]))
    && (j >= 1 ==> forall i :: 1 <= i < |h| && Parent(i) == j && j < |h| ==> !Before(h[i], h[Parent(j)]))
  }

  function Swap(h: seq<Item>, i: nat, j: nat): (r: seq<Item>)
    requires i < |h| && j < |h|
    ensures |r| == |h|
  {
    h[i := h[j]][j := h[i]]
  }

  lemma SwapSame(h: seq<Item>, i: nat, j: nat)
    requires i < |h| && j < |h|
    ensures multiset(Swap(h, i, j)) == multiset(h)
  {
  }

  lemma SwapUp(h: seq<Item>, j: nat)
    requires 1 <= j < |h| && HeapAbove(h, j) && Before(h[j], h[Parent(j)])
    ensures HeapAbove(Swap(h, Parent(j), j), Parent(j))
  {
    hide Before;
    ItemsOrdered();
    var p, h' := Parent(j), Swap(h, Parent(j), j);
    forall i | 1 <= i < |h'| && i != p ensures !Before(h'[i], h'[Parent(i)]) {
    }
    if p >= 1 {
      forall i | 1 <= i < |h'| && Parent(i) == p ensures !Before(h'[i], h'[Parent(p)]) {
      }
    }
  }

  lemma SwapDown(h: seq<Item>, j: nat, m: nat)
    requires HeapBelow(h, j) && j < m < |h| && Parent(m) == j && Before(h[m], h[j])
    requires forall i :: 1 <= i < |h| && Parent(i) == j ==> !Before(h[i], h[m])
    ensures HeapBelow(Swap(h, j, m), m)
  {
    hide Before;
    ItemsOrdered();
    var h' := Swap(h, j, m);
    forall i | 1 <= i < |h'| && Parent(i) != m ensures !Before(h'[i], h'[Parent(i)]) {
    }
    forall i | 1 <= i < |h'| && Parent(i) == m ensures !Before(h'[i], h'[Parent(m)]) {
    }
  }

  /** container/heap's up: move item j towards the root until its parent is no larger. */
  method Up(h: seq<Item>, j0: nat) returns (r: seq<Item>)
    requires j0 < |h| && HeapAbove(h, j0)
    ensures IsHeap(r) && multiset(r) == multiset(h)
  {
    hide Before;
    r := h;
    var j: nat := j0;
    while j > 0 && Before(r[j], r[Parent(j)])
      invariant j < |r| && HeapAbove(r, j) && multiset(r) == multiset(h)
      decreases j
    {
      SwapUp(r, j);
      SwapSame(r, Parent(j), j);
      r := Swap(r, Parent(j), j);
      j := Parent(j);
    }
  }

  /** The child of i that comes first. */
  function FirstChild(h: seq<Item>, i: nat): (j: nat)
    requires 2 * i + 1 < |h|
    ensures i < j < |h| && Parent(j) == i
  {
    var j := 2 * i + 1;
    if j + 1 < |h| && Before(h[j + 1], h[j]) then j + 1 else j
  }

  lemma FirstChildIsLeast(h: seq<Item>, i: nat)
    requires 2 * i + 1 < |h|
    ensures forall x :: 1 <= x < |h| && Parent(x) == i ==> !Before(h[x], h[FirstChild(h, i)])
  {
    hide Before;
    ItemsOrdered();
    assert forall x :: 1 <= x < |h| && Parent(x) == i ==> x == 2 * i + 1 || x == 2 * i + 2;
  }

  lemma DownDone(h: seq<Item>, i: nat)
    requires HeapBelow(h, i) && (h == [] || i < |h|)
    requires 2 * i + 1 >= |h| || !Before(h[FirstChild(h, i)], h[i])
    ensures IsHeap(h)
  {
    hide Before, FirstChild;
    ItemsOrdered();
    if 2 * i + 1 < |h| {
      FirstChildIsLeast(h, i);
      ChildRange(h, i);
    } else {
      assert forall x :: 1 <= x < |h| ==> Parent(x) != i;
    }
  }

  lemma ChildRange(h: seq<Item>, i: nat)
    requires 2 * i + 1 < |h|
    ensures i < FirstChild(h, i) < |h|
  {
  }

  /** container/heap's down: move the root towards the leaves until no child is smaller. */
  method Down(h: seq<Item>) returns (r: seq<Item>)
    requires HeapBelow(h, 0)
    ensures IsHeap(r) && multiset(r) == multiset(h)
  {
    hide Before, HeapBelow, IsHeap, FirstChild, Swap;
    r := h;
    var i: nat := 0;
    while 2 * i + 1 < |r| && Before(r[FirstChild(r, i)], r[i])
      invariant HeapBelow(r, i) && multiset(r) == multiset(h) && (r == [] || i < |r|)
      decreases |r| - i
    {
      var j := FirstChild(r, i);
      FirstChildIsLeast(r, i);
      SwapDown(r, i, j);
      SwapSame(r, i, j);
      r := Swap(r, i, j);
      i := j;
    }
    DownDone(r, i);
  }

  /** heap.Push. */
  method Push(h: seq<Item>, x: Item) returns (r: seq<Item>)
    requires IsHeap(h)
    ensures IsHeap(r) && multiset(r) == multiset(h) + multiset{x}
  {
    hide Before;
    r := h + [x];
    assert forall i :: 1 <= i < |h| ==> r[i] == h[i] && r[Parent(i)] == h[Parent(i)];
    assert forall i :: 1 <= i < |r| ==> Parent(i) != |h|;
    r := Up(r, |h|);
  }

  /** heap.Pop: the root goes, the last item takes its place and sinks. */
  method Pop(h: seq<Item>) returns (x: Item, r: seq<Item>)
    requires IsHeap(h) && h != []
    ensures x == h[0] && IsHeap(r) && multiset(h) == multiset(r) + multiset{x}
  {
    hide Before;
    x := h[0];
    var n := |h| - 1;
    r := Swap(h, 0, n);
    SwapSame(h, 0, n);
    assert r == r[..n] + [x];
    r := r[..n];
    assert HeapBelow(r, 0);
    r := Down(r);
  }

  /** Nothing in a heap comes before its root. */
  lemma {:induction false} RootIsLeast(h: seq<Item>, i: nat)
    requires IsHeap(h) && i < |h|
    ensures !Before(h[i], h[0])
  {
    hide Before;
    ItemsOrdered();
    if i > 0 {
      RootIsLeast(h, Parent(i));
    }
  }

  // ---- what is in the heap

  ghost predicate Stands(rest: seq<Run>, x: Item) {
    x.idx < |rest| && rest[x.idx] != [] && rest[x.idx][0].key == x.key
  }

  /** The heap holds every child that is not exhausted, once, with the key it stands at. */
  ghost predicate HeapOf(h: seq<Item>, rest: seq<Run>) {
    forall x: Item :: multiset(h)[x] == if Stands(rest, x) then 1 else 0
  }

  lemma HeapHas(h: seq<Item>, rest: seq<Run>, i: nat) returns (j: nat)
    requires HeapOf(h, rest) && i < |rest| && rest[i] != []
    ensures j < |h| && h[j] == Item(rest[i][0].key, i)
  {
    var x := Item(rest[i][0].key, i);
    assert x in multiset(h);
    assert x in h;
    j :| 0 <= j < |h| && h[j] == x;
  }

  lemma HeapOnly(h: seq<Item>, rest: seq<Run>, j: nat)
    requires HeapOf(h, rest) && j < |h|
    ensures Stands(rest, h[j])
  {
    assert h[j] in multiset(h);
  }

  /** The root of the heap is the child the merge takes next. */
  lemma RootIsBest(h: seq<Item>, rest: seq<Run>)
    requires IsHeap(h) && HeapOf(h, rest)
    ensures h == [] <==> Best(rest, |rest|).None?
    ensures h != [] ==> Best(rest, |rest|) == Some(h[0].idx)
  {
    hide Less, IsHeap, HeapOf, Best;
    KeysOrdered();
    var b := Best(rest, |rest|);
    if b.Some? {
      var j := HeapHas(h, rest, b.value);
      RootIsLeast(h, j);
    }
    if h != [] {
      HeapOnly(h, rest, 0);
      BestIsLeast(rest, |rest|, h[0].idx);
    }
  }

  lemma {:induction false} AdvanceShrinks(ls: seq<Run>, i: nat)
    requires i < |ls| && ls[i] != []
    ensures TotalSize(ls[i := ls[i][1..]]) == TotalSize(ls) - 1
  {
    if i > 0 {
      assert ls[i := ls[i][1..]][1..] == ls[1..][i - 1 := ls[i][1..]];
      AdvanceShrinks(ls[1..], i - 1);
    } else {
      assert ls[0 := ls[0][1..]][1..] == ls[1..];
    }
  }

  /** The child has been moved past k, or not yet. */
  ghost predicate PartlyDropped(was: seq<Run>, now: seq<Run>, k: Key) {
    |now| == |was| && forall i :: 0 <= i < |was| ==> now[i] == was[i] || now[i] == DropHead(was[i], k)
  }

  /** When no root has key k any more, every child has been moved past it. */
  lemma AllDropped(h: seq<Item>, was: seq<Run>, now: seq<Run>, k: Key)
    requires AllSorted(was) && PartlyDropped(was, now, k) && IsHeap(h) && HeapOf(h, now)
    requires forall i :: 0 <= i < |was| && was[i] != [] ==> !Less(was[i][0].key, k)
    requires h == [] || h[0].key != k
    ensures now == DropKey(was, k)
  {
    hide Less, IsHeap, HeapOf, Sorted;
    KeysOrdered();
    forall i | 0 <= i < |was| ensures now[i] == DropHead(was[i], k) {
      if now[i] == was[i] && was[i] != [] && was[i][0].key == k {
        var j := HeapHas(h, now, i);
        RootIsLeast(h, j);
        HeapOnly(h, now, 0);
        NotBelow(was, now, k, h[0].idx);
        assert false;
      }
    }
  }

  lemma NotBelow(was: seq<Run>, now: seq<Run>, k: Key, i: nat)
    requires AllSorted(was) && PartlyDropped(was, now, k) && i < |now| && now[i] != []
    requires forall i :: 0 <= i < |was| && was[i] != [] ==> !Less(was[i][0].key, k)
    ensures !Less(now[i][0].key, k)
  {
    hide Less;
    KeysOrdered();
    if now[i] != was[i] {
      assert was[i] != [] && now[i] == was[i][1..];
      assert Less(was[i][0].key, was[i][1].key);
    }
  }

  lemma PopHeap(h: seq<Item>, r: seq<Item>, x: Item, rest: seq<Run>)
    requires HeapOf(h, rest) && h != [] && x == h[0] && multiset(h) == multiset(r) + multiset{x}
    ensures Stands(rest, x)
    ensures forall y: Item :: multiset(r)[y] == if Stands(rest, y) && y.idx != x.idx then 1 else 0
  {
    HeapOnly(h, rest, 0);
  }

  lemma PushHeap(r: seq<Item>, r': seq<Item>, rest: seq<Run>, rest': seq<Run>, x: Item)
    requires Stands(rest, x) && rest' == rest[x.idx := rest[x.idx][1..]]
    requires forall y: Item :: multiset(r)[y] == if Stands(rest, y) && y.idx != x.idx then 1 else 0
    requires multiset(r') == if rest'[x.idx] == [] then multiset(r)
                             else multiset(r) + multiset{Item(rest'[x.idx][0].key, x.idx)}
    ensures HeapOf(r', rest')
  {
    forall y: Item ensures multiset(r')[y] == if Stands(rest', y) then 1 else 0 {
      if y.idx != x.idx { assert Stands(rest', y) <==> Stands(rest, y); }
    }
  }

  lemma PartlyDroppedNext(was: seq<Run>, now: seq<Run>, k: Key, i: nat)
    requires AllSorted(was) && PartlyDropped(was, now, k) && i < |now| && now[i] != [] && now[i][0].key == k
    ensures PartlyDropped(was, now[i := now[i][1..]], k)
  {
    hide Less;
    KeysOrdered();
    assert |was[i]| > 1 ==> Less(was[i][0].key, was[i][1].key);
  }

  /** The entries of a sorted run from the first key not below the target on. */
  function SeekRun(es: Run, target: Key): Run {
    if es != [] && Less(es[0].key, target) then SeekRun(es[1..], target) else es
  }

  lemma {:induction false} SeekRunSorted(es: Run, target: Key)
    requires Sorted(es)
    ensures Sorted(SeekRun(es, target))
  {
    if es != [] && Less(es[0].key, target) { SeekRunSorted(es[1..], target); }
  }

  /** Seeking keeps exactly the keys not below the target. */
  lemma {:induction false} SeekRunFind(es: Run, target: Key, k: Key)
    requires Sorted(es)
    ensures Find(SeekRun(es, target), k) == if Less(k, target) then None else Find(es, k)
  {
    hide Less;
    KeysOrdered();
    if es != [] && Less(es[0].key, target) {
      SeekRunFind(es[1..], target, k);
    } else if Less(k, target) {
      FindPast(es, k);
    }
  }

  function SeekAll(ls: seq<Run>, target: Key): (r: seq<Run>)
    ensures |r| == |ls|
  {
    seq(|ls|, i requires 0 <= i < |ls| => SeekRun(ls[i], target))
  }

  lemma SeekAllSorted(ls: seq<Run>, target: Key)
    requires AllSorted(ls)
    ensures AllSorted(SeekAll(ls, target))
  {
    hide Sorted;
    forall i | 0 <= i < |ls| ensures Sorted(SeekAll(ls, target)[i]) { SeekRunSorted(ls[i], target); }
  }

  lemma {:induction false} SeekAllHit(ls: seq<Run>, target: Key, k: Key)
    requires AllSorted(ls)
    ensures FirstHit(SeekAll(ls, target), k) == if Less(k, target) then None else FirstHit(ls, k)
  {
    hide Less, Sorted;
    if ls != [] {
      SeekRunFind(ls[0], target, k);
      SeekAllHit(ls[1..], target, k);
      assert SeekAll(ls, target)[1..] == SeekAll(ls[1..], target);
    }
  }

  lemma HeadFound(es: Run)
    ensures es != [] ==> Find(es, es[0].key).Some?
  {
  }

  /** Sorted lists that answer every lookup alike are the same list. */
  lemma {:induction false} SortedUnique(a: Run, b: Run)
    requires Sorted(a) && Sorted(b) && forall k :: Find(a, k) == Find(b, k)
    ensures a == b
  {
    hide Less;
    KeysOrdered();
    HeadFound(a);
    HeadFound(b);
    if a != [] && b != [] {
      if Less(a[0].key, b[0].key) { FindPast(b, a[0].key); }
      if Less(b[0].key, a[0].key) { FindPast(a, b[0].key); }
      forall k ensures Find(a[1..], k) == Find(b[1..], k) {
        if k == a[0].key {
          if |a| > 1 { assert Less(a[0].key, a[1].key); }
          if |b| > 1 { assert Less(b[0].key, b[1].key); }
          FindPast(a[1..], k);
          FindPast(b[1..], k);
        } else {
          assert Find(a, k) == Find(b, k);
        }
      }
      SortedUnique(a[1..], b[1..]);
      assert a == [a[0]] + a[1..] && b == [b[0]] + b[1..];
    }
  }

  /** Seeking every child is seeking in the merge. */
  lemma SeekMerge(ls: seq<Run>, target: Key)
    requires AllSorted(ls)
    ensures Merge(SeekAll(ls, target)) == SeekRun(Merge(ls), target)
  {
    hide Less, Sorted, AllSorted, SeekAll;
    SeekAllSorted(ls, target);
    MergeSorted(ls);
    MergeSorted(SeekAll(ls, target));
    SeekRunSorted(Merge(ls), target);
    forall k ensures Find(Merge(SeekAll(ls, target)), k) == Find(SeekRun(Merge(ls), target), k) {
      MergeLookup(SeekAll(ls, target), k);
      MergeLookup(ls, k);
      SeekAllHit(ls, target, k);
      SeekRunFind(Merge(ls), target, k);
    }
    SortedUnique(Merge(SeekAll(ls, target)), SeekRun(Merge(ls), target));
  }

  /** The iterator: children as the entries they still have to give, and a heap over them. */
  class MergeIter {
    const inputs: seq<Run>
    var rest: seq<Run>
    var hp: seq<Item>
    var currentKey: Key
    var currentVal: Option<ByteString>
    var valid: bool

    /** What the iterator still has to give, the current entry first. */
    ghost function Remaining(): Run
      reads this
    {
      Merge(rest)
    }

    ghost predicate HeapOk()
      reads this
    {
      |rest| == |inputs| && AllSorted(rest) && IsHeap(hp) && HeapOf(hp, rest)
    }

    /** Between calls the current entry is the first remaining one. */
    ghost predicate Positioned()
      reads this
    {
      && HeapOk() && AllSorted(inputs)
      && valid == (Remaining() != [])
      && (valid ==> KV(currentKey, currentVal) == Remaining()[0])
    }

    constructor (inputs: seq<Run>)
      requires AllSorted(inputs)
      ensures this.inputs == inputs && rest == inputs && hp == [] && !valid
    {
      this.inputs, rest, hp := inputs, inputs, [];
      currentKey, currentVal, valid := [], None, false;
    }

    /** Rebuilds the heap over the children as they now stand. */
    method BuildHeap(ls: seq<Run>)
      requires |ls| == |inputs| && AllSorted(ls)
      modifies this
      ensures HeapOk() && rest == ls
    {
      hide IsHeap, Less, Merge;
      rest, hp := ls, [];
      var i := 0;
      assert IsHeap([]) by { EmptyHeap(); }
      while i < |rest|
        invariant 0 <= i <= |rest| && rest == ls && IsHeap(hp)
        invariant forall x: Item :: multiset(hp)[x] == if x.idx < i && Stands(rest, x) then 1 else 0
      {
        if rest[i] != [] {
          hp := Push(hp, Item(rest[i][0].key, i));
        }
        i := i + 1;
      }
    }

    method SeekToFirst()
      requires AllSorted(inputs)
      modifies this
      ensures Positioned() && Remaining() == Merge(inputs)
    {
      BuildHeap(inputs);
      FindSmallest();
    }

    method Seek(target: Key)
      requires AllSorted(inputs)
      modifies this
      ensures Positioned() && Remaining() == SeekRun(Merge(inputs), target)
    {
      SeekAllSorted(inputs, target);
      BuildHeap(SeekAll(inputs, target));
      FindSmallest();
      SeekMerge(inputs, target);
    }

    method FindSmallest()
      requires HeapOk() && AllSorted(inputs)
      modifies this`currentKey, this`currentVal, this`valid
      ensures Positioned()
    {
      hide IsHeap, HeapOf, Less, Sorted, AllSorted, DropKey;
      RootIsBest(hp, rest);
      if hp == [] {
        valid := false;
        return;
      }
      HeapOnly(hp, rest, 0);
      currentKey := hp[0].key;
      currentVal := rest[hp[0].idx][0].val;
      valid := true;
    }

    /** Moves to the next key, past every child that stands at the current one. */
    method Next()
      requires Positioned()
      modifies this
      ensures Positioned()
      ensures Remaining() == if old(valid) then old(Remaining())[1..] else old(Remaining())
    {
      if !valid {
        return;
      }
      ghost var was: seq<Run> := rest;
      assert forall i :: 0 <= i < |was| && was[i] != [] ==> !Less(was[i][0].key, currentKey) by { CurrentIsLeast(was); }
      PopAll(was);
      FindSmallest();
      MergeStep(was);
    }

    /** Pops, advances and pushes back while the root stands at the current key. */
    method PopAll(ghost was: seq<Run>)
      requires HeapOk() && AllSorted(inputs) && was == rest
      requires forall i :: 0 <= i < |was| && was[i] != [] ==> !Less(was[i][0].key, currentKey)
      modifies this`rest, this`hp
      ensures HeapOk() && rest == DropKey(was, currentKey)
    {
      hide IsHeap, HeapOf, Less, Sorted, DropKey, Merge;
      while hp != [] && hp[0].key == currentKey
        invariant |rest| == |inputs| && IsHeap(hp) && HeapOf(hp, rest) && PartlyDropped(was, rest, currentKey)
        decreases TotalSize(rest)
      {
        var item, h := Pop(hp);
        PopHeap(hp, h, item, rest);
        PartlyDroppedNext(was, rest, currentKey, item.idx);
        AdvanceShrinks(rest, item.idx);
        ghost var before := rest;
        rest := rest[item.idx := rest[item.idx][1..]];
        var h' := h;
        if rest[item.idx] != [] {
          h' := Push(h, Item(rest[item.idx][0].key, item.idx));
        }
        PushHeap(h, h', before, rest, item);
        hp := h';
      }
      AllDropped(hp, was, rest, currentKey);
      DropKeySorted(was, currentKey);
    }
  }

  lemma EmptyHeap()
    ensures IsHeap([])
  {
  }

  lemma CurrentIsLeast(ls: seq<Run>)
    requires Merge(ls) != []
    ensures forall i :: 0 <= i < |ls| && ls[i] != [] ==> !Less(ls[i][0].key, Merge(ls)[0].key)
  {
    forall i | 0 <= i < |ls| && ls[i] != [] ensures !Less(ls[i][0].key, Merge(ls)[0].key) {
      BestIsLeast(ls, |ls|, i);
    }
  }

  lemma MergeStep(ls: seq<Run>)
    requires Merge(ls) != []
    ensures Merge(DropKey(ls, Merge(ls)[0].key)) == Merge(ls)[1..]
  {
  }
}
