/**
 The sharded LRU cache of decompressed blocks (internal/sstable/cache.go).
 */
module BlockCache {
  import opened Bytes

  const NUM_SHARDS: nat := 4

  datatype Item = Item(file: nat, off: nat, data: ByteString)

  type Index = map<nat, map<nat, ByteString>>

  function Find(items: Index, file: nat, off: nat): Option<ByteString> {
    if file in items && off in items[file] then Some(items[file][off]) else None
  }

  function Sizes(order: seq<Item>): nat {
    if order == [] then 0 else Sizes(order[..|order| - 1]) + |order[|order| - 1].data|
  }

  predicate Same(i: Item, file: nat, off: nat) {
    i.file == file && i.off == off
  }

  /** The order without the block. */
  function Minus(order: seq<Item>, file: nat, off: nat): seq<Item> {
    if order == [] then []
    else
      var rest := Minus(order[..|order| - 1], file, off);
      if Same(order[|order| - 1], file, off) then rest else rest + [order[|order| - 1]]
  }

  /** Oldest blocks leave until the rest fits. */
  function Evicted(order: seq<Item>, cap: nat): seq<Item> {
    if Sizes(order) > cap && order != [] then Evicted(order[..|order| - 1], cap) else order
  }

  /** What stays is the longest beginning that fits, and so nothing leaves that could have stayed. */
  lemma {:induction false} EvictedIsLongest(order: seq<Item>, cap: nat) returns (n: nat)
    ensures n <= |order| && Evicted(order, cap) == order[..n] && Sizes(order[..n]) <= cap
    ensures forall m :: n < m <= |order| ==> Sizes(order[..m]) > cap
  {
    n := |order|;
    assert order[..n] == order;
    if Sizes(order) > cap && order != [] {
      var front := order[..|order| - 1];
      n := EvictedIsLongest(front, cap);
      assert front[..n] == order[..n];
      forall m | n < m <= |order| ensures Sizes(order[..m]) > cap {
        if m < |order| { assert front[..m] == order[..m]; }
      }
    }
  }

  lemma FrontStays(item: Item, rest: seq<Item>, cap: nat)
    requires |item.data| <= cap
    ensures Evicted([item] + rest, cap) != [] && Evicted([item] + rest, cap)[0] == item
  {
    hide Evicted;
    var order := [item] + rest;
    var n := EvictedIsLongest(order, cap);
    assert order[..1] == [item] && [item][..0] == [];
    assert Sizes(order[..1]) == |item.data|;
  }

  // ---- least recently used

  /** The list after a block has been used. */
  function Use(order: seq<Item>, x: Item, cap: nat): seq<Item> {
    Evicted([x] + Minus(order, x.file, x.off), cap)
  }

  function UseAll(order: seq<Item>, xs: seq<Item>, cap: nat): seq<Item> {
    if xs == [] then order else Use(UseAll(order, xs[..|xs| - 1], cap), xs[|xs| - 1], cap)
  }

  lemma {:induction false} MinusConcat(a: seq<Item>, b: seq<Item>, file: nat, off: nat)
    ensures Minus(a + b, file, off) == Minus(a, file, off) + Minus(b, file, off)
    decreases |b|
  {
    hide Same;
    if b == [] {
      assert a + b == a;
    } else {
      MinusConcat(a, b[..|b| - 1], file, off);
      assert (a + b)[..|a + b| - 1] == a + b[..|b| - 1];
    }
  }

  lemma {:induction false} MinusSmaller(order: seq<Item>, file: nat, off: nat)
    ensures Sizes(Minus(order, file, off)) <= Sizes(order)
  {
    if order != [] {
      var rest, last := Minus(order[..|order| - 1], file, off), order[|order| - 1];
      MinusSmaller(order[..|order| - 1], file, off);
      SizesConcat(rest, [last]);
      assert [last][..0] == [];
    }
  }

  lemma PrefixStays(pre: seq<Item>, post: seq<Item>, cap: nat)
    requires Sizes(pre) <= cap
    ensures pre <= Evicted(pre + post, cap)
  {
    hide Evicted, Sizes;
    var n := EvictedIsLongest(pre + post, cap);
    assert (pre + post)[..|pre|] == pre;
  }

  /** The list with x somewhere behind blocks of no more than so much. */
  ghost predicate Behind(order: seq<Item>, x: Item, pre: seq<Item>, size: nat) {
    pre + [x] <= order && Sizes(pre) <= size
  }

  lemma UseKeeps(order: seq<Item>, x: Item, pre: seq<Item>, size: nat, y: Item, cap: nat) returns (pre': seq<Item>)
    requires Behind(order, x, pre, size) && !Same(x, y.file, y.off) && size + |y.data| + |x.data| <= cap
    ensures Behind(Use(order, y, cap), x, pre', size + |y.data|)
  {
    hide Evicted, Sizes, Minus;
    var rest := order[|pre| + 1..];
    assert order == pre + [x] + rest;
    MinusConcat(pre + [x], rest, y.file, y.off);
    MinusConcat(pre, [x], y.file, y.off);
    MinusOne(x, y.file, y.off);
    MinusSmaller(pre, y.file, y.off);
    pre' := [y] + Minus(pre, y.file, y.off);
    OneSize(x);
    OneSize(y);
    SizesConcat([y], Minus(pre, y.file, y.off));
    SizesConcat(pre', [x]);
    var post := Minus(rest, y.file, y.off);
    assert [y] + Minus(order, y.file, y.off) == (pre' + [x]) + post;
    PrefixStays(pre' + [x], post, cap);
  }

  lemma OneSize(x: Item)
    ensures Sizes([x]) == |x.data|
  {
    assert [x][..0] == [];
  }

  lemma MinusOne(x: Item, file: nat, off: nat)
    requires !Same(x, file, off)
    ensures Minus([x], file, off) == [x]
  {
    assert [x][..0] == [];
    assert Minus([x][..0], file, off) == [];
  }

  lemma {:induction false} UsesKeep(order: seq<Item>, x: Item, ys: seq<Item>, cap: nat) returns (pre: seq<Item>)
    requires [x] <= order && |x.data| + Sizes(ys) <= cap && forall i :: 0 <= i < |ys| ==> !Same(x, ys[i].file, ys[i].off)
    ensures Behind(UseAll(order, ys, cap), x, pre, Sizes(ys))
    decreases |ys|
  {
    hide Use, Same;
    if ys == [] {
      pre := [];
      assert [] + [x] == [x];
    } else {
      var n := |ys| - 1;
      var pre0 := UsesKeep(order, x, ys[..n], cap);
      pre := UseKeeps(UseAll(order, ys[..n], cap), x, pre0, Sizes(ys[..n]), ys[n], cap);
    }
  }

  /**
   Least recently used goes first: a block that has been used stays for as long as it and the blocks
   used since fit the shard together, whatever else the shard held.
   */
  lemma RecentlyUsedStays(order: seq<Item>, x: Item, ys: seq<Item>, cap: nat)
    requires |x.data| + Sizes(ys) <= cap && forall i :: 0 <= i < |ys| ==> !Same(x, ys[i].file, ys[i].off)
    ensures x in UseAll(Use(order, x, cap), ys, cap)
  {
    hide UseAll, Minus, Evicted;
    FrontStays(x, Minus(order, x.file, x.off), cap);
    var pre := UsesKeep(Use(order, x, cap), x, ys, cap);
    assert (pre + [x])[|pre|] == x;
  }

  ghost predicate Unique(order: seq<Item>) {
    forall i, j :: 0 <= i < j < |order| ==> !Same(order[i], order[j].file, order[j].off)
  }

  /** The data the list holds for a block. */
  function ListFind(order: seq<Item>, file: nat, off: nat): Option<ByteString> {
    if order == [] then None
    else
      var last := order[|order| - 1];
      if Same(last, file, off) then Some(last.data) else ListFind(order[..|order| - 1], file, off)
  }

  /** The index knows exactly the blocks in the list, with their data. */
  ghost predicate Indexed(items: Index, order: seq<Item>) {
    forall f, o :: Find(items, f, o) == ListFind(order, f, o)
  }

  lemma {:induction false} ListFindConcat(a: seq<Item>, b: seq<Item>, f: nat, o: nat)
    ensures ListFind(a + b, f, o) == if ListFind(b, f, o).Some? then ListFind(b, f, o) else ListFind(a, f, o)
    decreases |b|
  {
    hide Same;
    if b == [] {
      assert a + b == a;
    } else {
      assert (a + b)[..|a + b| - 1] == a + b[..|b| - 1];
      ListFindConcat(a, b[..|b| - 1], f, o);
    }
  }

  lemma {:induction false} ListFindMinus(order: seq<Item>, file: nat, off: nat, f: nat, o: nat)
    ensures ListFind(Minus(order, file, off), f, o) == if f == file && o == off then None else ListFind(order, f, o)
  {
    if order != [] {
      var front, last := order[..|order| - 1], order[|order| - 1];
      ListFindMinus(front, file, off, f, o);
      var rest := Minus(front, file, off);
      assert (rest + [last])[..|rest + [last]| - 1] == rest;
    }
  }

  lemma {:induction false} ListFindIndex(order: seq<Item>, f: nat, o: nat) returns (i: nat)
    requires ListFind(order, f, o).Some?
    ensures i < |order| && Same(order[i], f, o) && ListFind(order, f, o) == Some(order[i].data)
  {
    var n := |order| - 1;
    if Same(order[n], f, o) { i := n; } else { i := ListFindIndex(order[..n], f, o); }
  }

  lemma {:induction false} ListFindNone(order: seq<Item>, f: nat, o: nat)
    ensures ListFind(order, f, o).None? <==> forall i :: 0 <= i < |order| ==> !Same(order[i], f, o)
  {
    hide Same;
    if order != [] { ListFindNone(order[..|order| - 1], f, o); }
  }

  lemma {:induction false} MinusMembers(order: seq<Item>, file: nat, off: nat)
    ensures forall i :: i in Minus(order, file, off) <==> i in order && !Same(i, file, off)
  {
    if order != [] {
      MinusMembers(order[..|order| - 1], file, off);
      assert order == order[..|order| - 1] + [order[|order| - 1]];
    }
  }

  lemma {:induction false} MinusUnique(order: seq<Item>, file: nat, off: nat)
    requires Unique(order)
    ensures Unique(Minus(order, file, off))
  {
    hide Same;
    if order != [] {
      var front, last := order[..|order| - 1], order[|order| - 1];
      MinusUnique(front, file, off);
      MinusMembers(front, file, off);
      var rest := Minus(front, file, off);
      forall i | 0 <= i < |rest| ensures !Same(rest[i], last.file, last.off) {
        assert rest[i] in front;
      }
    }
  }

  lemma {:induction false} SizesConcat(a: seq<Item>, b: seq<Item>)
    ensures Sizes(a + b) == Sizes(a) + Sizes(b)
    decreases |b|
  {
    if b == [] {
      assert a + b == a;
    } else {
      SizesConcat(a, b[..|b| - 1]);
      assert (a + b)[..|a + b| - 1] == a + b[..|b| - 1];
    }
  }

  lemma {:induction false} MinusAbsent(order: seq<Item>, file: nat, off: nat)
    requires forall i :: 0 <= i < |order| ==> !Same(order[i], file, off)
    ensures Minus(order, file, off) == order
  {
    if order != [] {
      MinusAbsent(order[..|order| - 1], file, off);
      assert order == order[..|order| - 1] + [order[|order| - 1]];
    }
  }

  /** Taking a block out takes its size out. */
  lemma {:induction false} MinusSizes(order: seq<Item>, i: nat)
    requires Unique(order) && i < |order|
    ensures Sizes(order) == Sizes(Minus(order, order[i].file, order[i].off)) + |order[i].data|
  {
    var front, last := order[..|order| - 1], order[|order| - 1];
    if i == |order| - 1 {
      MinusAbsent(front, last.file, last.off);
    } else {
      MinusSizes(front, i);
      SizesConcat(Minus(front, order[i].file, order[i].off), [last]);
      assert [last][..0] == [];
    }
  }

  /** One shard: a list, most recently used first, and an index into it. */
  class Shard {
    var items: Index
    var order: seq<Item>
    var size: nat
    const cap: nat

    ghost predicate Valid()
      reads this
    {
      Unique(order) && Indexed(items, order) && size == Sizes(order) <= cap
    }

    constructor (c: nat)
      ensures Valid() && order == [] && items == map[] && cap == c
    {
      items, order, size, cap := map[], [], 0, c;
    }

    method Get(file: nat, off: nat) returns (r: Option<ByteString>)
      requires Valid()
      modifies this
      ensures Valid() && items == old(items) && r == Find(items, file, off)
      ensures order == if r.Some? then Use(old(order), Item(file, off, r.value), cap) else old(order)
    {
      hide Unique, Indexed, Minus, Sizes;
      if file in items && off in items[file] {
        r := Some(items[file][off]);
        ToFront(items, order, file, off, r.value);
        AllStay([Item(file, off, r.value)] + Minus(order, file, off), cap);
        order := [Item(file, off, r.value)] + Minus(order, file, off);
        return;
      }
      return None;
    }

    /** Removes the block used longest ago. */
    method EvictOldest()
      requires Unique(order) && Indexed(items, order) && size == Sizes(order) && order != []
      modifies this
      ensures order == old(order)[..|old(order)| - 1]
      ensures Unique(order) && Indexed(items, order) && size == Sizes(order)
    {
      hide Unique, Indexed, Minus, Sizes, Find, ListFind, Same;
      var back := order[|order| - 1];
      EvictLast(items, order);
      order := order[..|order| - 1];
      size := size - |back.data|;
      items := items[back.file := items[back.file] - {back.off}];
      if items[back.file] == map[] { items := items - {back.file}; }
    }

    /** Adds or replaces a block, then evicts from the old end. */
    method Put(file: nat, off: nat, data: ByteString)
      requires Valid()
      modifies this
      ensures Valid() && order == Use(old(order), Item(file, off, data), cap)
      ensures size <= cap && (|data| <= cap ==> Find(items, file, off) == Some(data))
      ensures forall f, o :: Find(items, f, o).Some? ==>
                Find(items, f, o) == if f == file && o == off then Some(data) else old(Find(items, f, o))
    {
      hide Unique, Indexed, Minus, Sizes, Find, ListFind, Same;
      var fileMap: map<nat, ByteString> := if file in items then items[file] else map[];
      ghost var full := [Item(file, off, data)] + Minus(order, file, off);
      PutFront(items, order, file, off, data);
      if off in fileMap {
        size := size + |data| - |fileMap[off]|;
      } else {
        size := size + |data|;
      }
      order := [Item(file, off, data)] + Minus(order, file, off);
      items := items[file := fileMap[off := data]];
      while size > cap && |order| > 0
        invariant Unique(order) && Indexed(items, order) && size == Sizes(order)
        invariant Evicted(order, cap) == Evicted(full, cap)
        decreases |order|
      {
        EvictOldest();
      }
      HeldWasHeld(old(items), old(order), items, order, file, off, data, cap);
      NewIsHeld(items, order, Item(file, off, data), Minus(old(order), file, off), cap);
    }

    /** Drops every block of a file. */
    method RemoveFile(file: nat)
      requires Valid()
      modifies this
      ensures Valid() && forall f, o :: Find(items, f, o) == if f == file then None else old(Find(items, f, o))
    {
      hide Unique, Minus, Sizes, ListFind, Find;
      if file !in items {
        NoSuchFile(items, file);
        return;
      }
      var fileMap := items[file];
      var rest := fileMap.Keys;
      RemoveStart(items, order, file);
      while rest != {}
        invariant rest <= fileMap.Keys && items == old(items) && Unique(order) && size == Sizes(order) <= cap
        invariant forall f, o :: ListFind(order, f, o) == if f == file && o !in rest then None else Find(items, f, o)
        decreases |rest|
      {
        var off :| off in rest;
        FrontSizes(order, file, off, []);
        MinusUnique(order, file, off);
        RemoveStep(items, order, file, off);
        order := Minus(order, file, off);
        size := size - |fileMap[off]|;
        rest := rest - {off};
      }
      RemoveEnd(items, file);
      items := items - {file};
    }
  }

  lemma AllStay(order: seq<Item>, cap: nat)
    requires Sizes(order) <= cap
    ensures Evicted(order, cap) == order
  {
  }

  lemma HeldWasHeld(items: Index, order: seq<Item>, items': Index, order': seq<Item>, file: nat, off: nat, data: ByteString, cap: nat)
    requires Unique(order) && Indexed(items, order) && Indexed(items', order')
    requires order' == Evicted([Item(file, off, data)] + Minus(order, file, off), cap)
    ensures forall f, o :: Find(items', f, o).Some? ==>
              Find(items', f, o) == if f == file && o == off then Some(data) else Find(items, f, o)
  {
    hide Find, ListFind, Minus, Evicted, Unique;
    forall f, o | Find(items', f, o).Some?
      ensures Find(items', f, o) == if f == file && o == off then Some(data) else Find(items, f, o)
    {
      assert Find(items', f, o) == ListFind(order', f, o) && Find(items, f, o) == ListFind(order, f, o);
      FrontUnique(order, file, off, data);
      FrontFind(order, file, off, data, f, o);
      EvictedFind([Item(file, off, data)] + Minus(order, file, off), cap, f, o);
    }
  }

  /** A block put within the capacity is the first of those that stay. */
  lemma NewIsHeld(items: Index, order: seq<Item>, item: Item, rest: seq<Item>, cap: nat)
    requires Unique(order) && Indexed(items, order) && order == Evicted([item] + rest, cap)
    ensures Sizes(order) <= cap && (|item.data| <= cap ==> Find(items, item.file, item.off) == Some(item.data))
  {
    hide Find, Sizes, Evicted;
    var n := EvictedIsLongest([item] + rest, cap);
    if |item.data| <= cap {
      FrontStays(item, rest, cap);
      ListFindNone(order, item.file, item.off);
      assert Same(order[0], item.file, item.off);
      var i := ListFindIndex(order, item.file, item.off);
      assert i == 0;
    }
  }

  lemma {:induction false} EvictedFind(order: seq<Item>, cap: nat, f: nat, o: nat)
    requires Unique(order)
    ensures ListFind(Evicted(order, cap), f, o).Some? ==> ListFind(Evicted(order, cap), f, o) == ListFind(order, f, o)
  {
    hide Same, Sizes;
    if Sizes(order) > cap && order != [] {
      FrontOf(order, f, o);
      EvictedFind(order[..|order| - 1], cap, f, o);
    }
  }

  lemma NoSuchFile(items: Index, file: nat)
    requires file !in items
    ensures forall o :: Find(items, file, o) == None
  {
  }

  lemma RemoveStart(items: Index, order: seq<Item>, file: nat)
    requires Indexed(items, order) && file in items
    ensures forall f, o :: ListFind(order, f, o) == if f == file && o !in items[file].Keys then None else Find(items, f, o)
  {
    hide ListFind;
    forall f, o ensures ListFind(order, f, o) == if f == file && o !in items[file].Keys then None else Find(items, f, o) {
      assert Find(items, f, o) == ListFind(order, f, o);
    }
  }

  lemma RemoveStep(items: Index, order: seq<Item>, file: nat, off: nat)
    requires Unique(order) && file in items && off in items[file] && ListFind(order, file, off) == Find(items, file, off)
    ensures |items[file][off]| <= Sizes(order) && Sizes(Minus(order, file, off)) + |items[file][off]| == Sizes(order)
    ensures forall f, o :: ListFind(Minus(order, file, off), f, o) == if f == file && o == off then None else ListFind(order, f, o)
  {
    hide Unique;
    var i := ListFindIndex(order, file, off);
    MinusSizes(order, i);
    forall f, o ensures ListFind(Minus(order, file, off), f, o) == if f == file && o == off then None else ListFind(order, f, o) {
      ListFindMinus(order, file, off, f, o);
    }
  }

  lemma RemoveEnd(items: Index, file: nat)
    ensures forall f, o :: Find(items - {file}, f, o) == if f == file then None else Find(items, f, o)
  {
  }

  /** What the list holds once a block has gone to the front. */
  lemma FrontFind(order: seq<Item>, file: nat, off: nat, data: ByteString, f: nat, o: nat)
    ensures ListFind([Item(file, off, data)] + Minus(order, file, off), f, o)
            == if f == file && o == off then Some(data) else ListFind(order, f, o)
  {
    hide Minus;
    ListFindConcat([Item(file, off, data)], Minus(order, file, off), f, o);
    ListFindMinus(order, file, off, f, o);
    assert [Item(file, off, data)][..0] == [];
    assert ListFind([], f, o) == None;
  }

  lemma FrontUnique(order: seq<Item>, file: nat, off: nat, data: ByteString)
    requires Unique(order)
    ensures Unique([Item(file, off, data)] + Minus(order, file, off))
  {
    hide Same, Minus;
    var rest := Minus(order, file, off);
    MinusUnique(order, file, off);
    MinusMembers(order, file, off);
    var order' := [Item(file, off, data)] + rest;
    forall i, j | 0 <= i < j < |order'| ensures !Same(order'[i], order'[j].file, order'[j].off) {
      if i == 0 { FrontDiffers(rest, j - 1, order, file, off, data); }
    }
  }

  lemma FrontDiffers(rest: seq<Item>, j: nat, order: seq<Item>, file: nat, off: nat, data: ByteString)
    requires rest == Minus(order, file, off) && j < |rest|
    ensures !Same(Item(file, off, data), rest[j].file, rest[j].off)
  {
    MinusMembers(order, file, off);
    assert rest[j] in rest;
  }

  lemma FrontSizes(order: seq<Item>, file: nat, off: nat, data: ByteString)
    requires Unique(order)
    ensures var found := ListFind(order, file, off);
            var was := if found.Some? then |found.value| else 0;
            was <= Sizes(order) && Sizes([Item(file, off, data)] + Minus(order, file, off)) + was == Sizes(order) + |data|
  {
    hide Unique;
    var rest := Minus(order, file, off);
    SizesConcat([Item(file, off, data)], rest);
    assert [Item(file, off, data)][..0] == [];
    if ListFind(order, file, off).Some? {
      var i := ListFindIndex(order, file, off);
      MinusSizes(order, i);
    } else {
      ListFindNone(order, file, off);
      MinusAbsent(order, file, off);
    }
  }

  lemma ToFront(items: Index, order: seq<Item>, file: nat, off: nat, data: ByteString)
    requires Unique(order) && Indexed(items, order) && Find(items, file, off) == Some(data)
    ensures var order' := [Item(file, off, data)] + Minus(order, file, off);
            Unique(order') && Indexed(items, order') && Sizes(order') == Sizes(order)
  {
    hide Unique, Minus, Sizes, ListFind, Find;
    FrontUnique(order, file, off, data);
    FrontSizes(order, file, off, data);
    forall f, o ensures Find(items, f, o) == ListFind([Item(file, off, data)] + Minus(order, file, off), f, o) {
      FrontFind(order, file, off, data, f, o);
    }
  }

  /** The state after a block has gone to the front, before evictions. */
  lemma PutFront(items: Index, order: seq<Item>, file: nat, off: nat, data: ByteString)
    requires Unique(order) && Indexed(items, order)
    ensures var fileMap: map<nat, ByteString> := if file in items then items[file] else map[];
            var order' := [Item(file, off, data)] + Minus(order, file, off);
            && Unique(order') && Indexed(items[file := fileMap[off := data]], order')
            && Sizes(order') + (if off in fileMap then |fileMap[off]| else 0) == Sizes(order) + |data|
            && (off in fileMap ==> |fileMap[off]| <= Sizes(order))
  {
    hide Unique, Minus, Sizes, ListFind;
    var fileMap: map<nat, ByteString> := if file in items then items[file] else map[];
    var items' := items[file := fileMap[off := data]];
    FrontUnique(order, file, off, data);
    FrontSizes(order, file, off, data);
    assert Find(items, file, off) == ListFind(order, file, off);
    forall f, o ensures Find(items', f, o) == ListFind([Item(file, off, data)] + Minus(order, file, off), f, o) {
      FrontFind(order, file, off, data, f, o);
      assert Find(items, f, o) == ListFind(order, f, o);
    }
  }

  /** Evicting the last block of the list. */
  lemma EvictLast(items: Index, order: seq<Item>)
    requires Unique(order) && Indexed(items, order) && order != []
    ensures var back, front := order[|order| - 1], order[..|order| - 1];
            && back.file in items
            && |back.data| <= Sizes(order) && Sizes(front) == Sizes(order) - |back.data| && Unique(front)
            && var inner: map<nat, ByteString> := items[back.file] - {back.off};
               (inner != map[] ==> Indexed(items[back.file := inner], front))
               && (inner == map[] ==> Indexed(items[back.file := inner] - {back.file}, front))
  {
    hide ListFind;
    var back, front := order[|order| - 1], order[..|order| - 1];
    LastFind(order);
    assert Find(items, back.file, back.off) == ListFind(order, back.file, back.off);
    var inner: map<nat, ByteString> := items[back.file] - {back.off};
    var items' := if inner == map[] then items[back.file := inner] - {back.file} else items[back.file := inner];
    forall f, o ensures Find(items', f, o) == ListFind(front, f, o) {
      assert Find(items, f, o) == ListFind(order, f, o);
      FrontOf(order, f, o);
      if f == back.file && inner == map[] { assert o !in inner; }
    }
  }

  lemma LastFind(order: seq<Item>)
    requires order != []
    ensures ListFind(order, order[|order| - 1].file, order[|order| - 1].off) == Some(order[|order| - 1].data)
  {
  }

  lemma FrontOf(order: seq<Item>, f: nat, o: nat)
    requires Unique(order) && order != []
    ensures ListFind(order[..|order| - 1], f, o)
            == if Same(order[|order| - 1], f, o) then None else ListFind(order, f, o)
  {
    var front, last := order[..|order| - 1], order[|order| - 1];
    ListFindNone(front, last.file, last.off);
    assert forall i :: 0 <= i < |front| ==> front[i] == order[i];
  }

  // ---- the cache

  /** What a block of a file reads as from disk. */
  type Disk = (nat, nat) -> Option<ByteString>

  ghost predicate Truthful(items: Index, disk: Disk) {
    forall f, o :: Find(items, f, o).Some? ==> Find(items, f, o) == disk(f, o)
  }

  lemma EmptyTruthful(disk: Disk)
    ensures Truthful(map[], disk)
  {
  }

  /** The low bits of file ^ offset * 2654435761, an odd factor that is one modulo four. */
  function ShardOf(file: nat, off: nat): (s: nat)
    ensures s < NUM_SHARDS
  {
    var a, b := file % 4, off % 4;
    2 * ((a / 2 + b / 2) % 2) + (a % 2 + b % 2) % 2
  }

  method NewShards(cap: nat) returns (r: seq<Shard>)
    ensures |r| == NUM_SHARDS && fresh(r)
    ensures forall i, j :: 0 <= i < j < |r| ==> r[i] != r[j]
    ensures forall i :: 0 <= i < |r| ==> r[i].Valid() && r[i].items == map[] && r[i].cap == cap
  {
    hide Shard.Valid;
    r := [];
    while |r| < NUM_SHARDS
      invariant |r| <= NUM_SHARDS && fresh(r)
      invariant forall i, j :: 0 <= i < j < |r| ==> r[i] != r[j]
      invariant forall i :: 0 <= i < |r| ==> r[i].Valid() && r[i].items == map[] && r[i].cap == cap
    {
      var s := new Shard(cap);
      r := r + [s];
    }
  }

  class Cache {
    const shards: seq<Shard>

    ghost predicate Valid()
      reads this, shards
    {
      && |shards| == NUM_SHARDS && (forall i, j :: 0 <= i < j < |shards| ==> shards[i] != shards[j])
      && (forall i :: 0 <= i < |shards| ==> shards[i].Valid())
    }

    /** Everything cached is what the disk holds. */
    ghost predicate Tells(disk: Disk)
      reads this, shards
    {
      forall i :: 0 <= i < |shards| ==> Truthful(shards[i].items, disk)
    }

    /** What is cached of a block. */
    ghost function Held(file: nat, off: nat): Option<ByteString>
      requires |shards| == NUM_SHARDS
      reads this, shards
    {
      Find(shards[ShardOf(file, off)].items, file, off)
    }

    /** The block fits its shard. */
    predicate Fits(file: nat, off: nat, data: ByteString)
      requires |shards| == NUM_SHARDS
    {
      |data| <= shards[ShardOf(file, off)].cap
    }

    constructor (capacity: nat, ghost disk: Disk)
      ensures Valid() && Tells(disk) && fresh(shards)
      ensures forall i :: 0 <= i < NUM_SHARDS ==> shards[i].cap == if capacity < NUM_SHARDS then 1 else capacity / NUM_SHARDS
    {
      hide Truthful, Find, Shard.Valid;
      EmptyTruthful(disk);
      var cap := if capacity / NUM_SHARDS < 1 then 1 else capacity / NUM_SHARDS;
      var fresh_ := NewShards(cap);
      shards := fresh_;
    }

    method Get(file: nat, off: nat, ghost disk: Disk) returns (r: Option<ByteString>)
      requires Valid() && Tells(disk)
      modifies shards
      ensures Valid() && Tells(disk) && (r.Some? ==> r == disk(file, off)) && r == old(Held(file, off)) == Held(file, off)
    {
      hide Unique, Indexed, Find, Minus;
      var shard := shards[ShardOf(file, off)];
      assert Truthful(shard.items, disk);
      r := shard.Get(file, off);
    }

    method Put(file: nat, off: nat, data: ByteString, ghost disk: Disk)
      requires Valid() && Tells(disk) && disk(file, off) == Some(data)
      modifies shards
      ensures Valid() && Tells(disk) && (Fits(file, off, data) ==> Held(file, off) == Some(data))
    {
      hide Unique, Indexed, Find, Minus, Evicted;
      var shard := shards[ShardOf(file, off)];
      assert Truthful(shard.items, disk);
      shard.Put(file, off, data);
    }

    /** The file's blocks are gone from every shard; nothing else is. */
    method RemoveFile(file: nat, ghost disk: Disk)
      requires Valid() && Tells(disk)
      modifies shards
      ensures Valid() && Tells(disk)
      ensures forall i, f, o :: 0 <= i < |shards| ==>
                Find(shards[i].items, f, o) == if f == file then None else old(Find(shards[i].items, f, o))
    {
      hide Unique, Indexed, Find, Sizes;
      var n := 0;
      while n < NUM_SHARDS
        invariant 0 <= n <= NUM_SHARDS && Valid() && Tells(disk)
        invariant forall i, f, o :: 0 <= i < n ==>
                    Find(shards[i].items, f, o) == if f == file then None else old(Find(shards[i].items, f, o))
        invariant forall i :: n <= i < |shards| ==> shards[i].items == old(shards[i].items)
      {
        assert Truthful(shards[n].items, disk);
        shards[n].RemoveFile(file);
        n := n + 1;
      }
    }
  }
}
