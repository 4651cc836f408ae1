/**
 The level layout: choosing overlapping files, editing a version, and the invariant that lets a
 read find the one file of a level that can hold a key (internal/lsm/level.go, manifest.go).
 */
module Levels {
  import opened Bytes
  import opened KeyOrder
  import opened SortedLists
  import opened Compaction

  const MAX_LEVELS: nat := 7

  // ---- version edits, for anything with a number and a smallest key

  /** Inserts x after every element whose key is not above its own. */
  function Insert<T>(x: T, xs: seq<T>, key: T -> Key): (r: seq<T>)
    ensures |r| == |xs| + 1
  {
    if xs == [] then [x]
    else if Less(key(x), key(xs[|xs| - 1])) then Insert(x, xs[..|xs| - 1], key) + [xs[|xs| - 1]]
    else xs + [x]
  }

  /** SortBySmallestKey. */
  function SortBy<T>(xs: seq<T>, key: T -> Key): (r: seq<T>)
    ensures |r| == |xs|
  {
    if xs == [] then [] else Insert(xs[|xs| - 1], SortBy(xs[..|xs| - 1], key), key)
  }

  /** The elements of xs without those numbered n. */
  function Without<T>(xs: seq<T>, n: nat, num: T -> nat): seq<T> {
    if xs == [] then []
    else if num(xs[0]) == n then Without(xs[1..], n, num)
    else [xs[0]] + Without(xs[1..], n, num)
  }

  /** The deletions of an edit, in order; each names a level and a file number. */
  function DeleteAll<T>(levels: seq<seq<T>>, dels: seq<(nat, nat)>, num: T -> nat): (r: seq<seq<T>>)
    requires forall d :: d in dels ==> d.0 < |levels|
    ensures |r| == |levels|
    decreases |dels|
  {
    if dels == [] then levels
    else
      var (l, n) := dels[0];
      DeleteAll(levels[l := Without(levels[l], n, num)], dels[1..], num)
  }

  /** The additions of an edit, in order; each names a level. */
  function AddAll<T>(levels: seq<seq<T>>, adds: seq<(nat, T)>): (r: seq<seq<T>>)
    requires forall a :: a in adds ==> a.0 < |levels|
    ensures |r| == |levels|
    decreases |adds|
  {
    if adds == [] then levels
    else
      var (l, x) := adds[0];
      AddAll(levels[l := levels[l] + [x]], adds[1..])
  }

  /** applyEditToMemory: delete, add, and sort every level but the first. */
  function ApplyEdit<T>(levels: seq<seq<T>>, dels: seq<(nat, nat)>, adds: seq<(nat, T)>, num: T -> nat, key: T -> Key)
    : (r: seq<seq<T>>)
    requires forall d :: d in dels ==> d.0 < |levels|
    requires forall a :: a in adds ==> a.0 < |levels|
    ensures |r| == |levels|
  {
    var edited := AddAll(DeleteAll(levels, dels, num), adds);
    seq(|levels|, l requires 0 <= l < |levels| => if l == 0 then edited[l] else SortBy(edited[l], key))
  }

  // ---- the layout of tables

  predicate Left(f: Table, g: Table) {
    Less(f.largest, g.smallest)
  }

  predicate Apart(f: Table, g: Table) {
    Left(f, g) || Left(g, f)
  }

  /** A level below the first: exact ranges, in order, none overlapping the next. */
  ghost predicate LevelOk(fs: seq<Table>) {
    && (forall i :: 0 <= i < |fs| ==> TableOk(fs[i]))
    && (forall i, j :: 0 <= i < j < |fs| ==> Left(fs[i], fs[j]))
  }

  /** A table of the first level; flushing an empty memtable leaves an empty range. */
  ghost predicate FlushedOk(t: Table) {
    TableOk(t) || (t.entries == [] && t.smallest == [] && t.largest == [])
  }

  ghost predicate LayoutOk(levels: seq<seq<Table>>) {
    && |levels| == MAX_LEVELS
    && (forall i :: 0 <= i < |levels[0]| ==> FlushedOk(levels[0][i]))
    && (forall l :: 1 <= l < |levels| ==> LevelOk(levels[l]))
  }

  lemma RangeHolds(t: Table, k: Key)
    requires TableOk(t) && Find(t.entries, k).Some?
    ensures !Less(k, t.smallest) && !Less(t.largest, k)
    ensures !Less(t.largest, t.smallest)
  {
    hide Less;
    KeysOrdered();
    var i := FindSome(t.entries, k);
    if i > 0 { assert Less(t.entries[0].key, t.entries[i].key); }
    if i < |t.entries| - 1 { assert Less(t.entries[i].key, t.entries[|t.entries| - 1].key); }
  }

  lemma RangeOrdered(t: Table)
    requires TableOk(t)
    ensures !Less(t.largest, t.smallest)
  {
    FindAt(t.entries, 0);
    RangeHolds(t, t.smallest);
  }

  /** What a lookup in the tables, first to last, finds. */
  function TablesFind(fs: seq<Table>, k: Key): Option<Option<ByteString>> {
    if fs == [] then None
    else
      var f := Find(fs[0].entries, k);
      if f.Some? then f else TablesFind(fs[1..], k)
  }

  lemma {:induction false} TablesFindConcat(a: seq<Table>, b: seq<Table>, k: Key)
    ensures TablesFind(a + b, k) == if TablesFind(a, k).Some? then TablesFind(a, k) else TablesFind(b, k)
  {
    if a == [] {
      assert a + b == b;
    } else {
      TablesFindConcat(a[1..], b, k);
      assert (a + b)[1..] == a[1..] + b;
    }
  }

  lemma {:induction false} TablesFindNone(fs: seq<Table>, k: Key)
    ensures TablesFind(fs, k).None? <==> forall f :: f in fs ==> Find(f.entries, k).None?
  {
    if fs != [] {
      TablesFindNone(fs[1..], k);
      assert forall f :: f in fs <==> f == fs[0] || f in fs[1..];
    }
  }

  lemma {:induction false} TablesFindSome(fs: seq<Table>, k: Key) returns (i: nat)
    requires TablesFind(fs, k).Some?
    ensures i < |fs| && TablesFind(fs, k) == Find(fs[i].entries, k)
    ensures Find(fs[i].entries, k).Some? && forall j :: 0 <= j < i ==> Find(fs[j].entries, k).None?
  {
    if Find(fs[0].entries, k).Some? {
      i := 0;
    } else {
      i := TablesFindSome(fs[1..], k);
      assert forall j :: 1 <= j <= i ==> fs[j] == fs[1..][j - 1];
      i := i + 1;
    }
  }

  /** In a level, the file that has the key decides, wherever it stands. */
  lemma {:induction false} LevelFindAt(fs: seq<Table>, k: Key, i: nat)
    requires LevelOk(fs) && i < |fs| && Find(fs[i].entries, k).Some?
    ensures TablesFind(fs, k) == Find(fs[i].entries, k)
  {
    hide Less, TableOk;
    KeysOrdered();
    if i > 0 {
      RangeHolds(fs[i], k);
      if Find(fs[0].entries, k).Some? {
        RangeHolds(fs[0], k);
        assert false;
      }
      LevelFindAt(fs[1..], k, i - 1);
    }
  }

  // ---- sorting a level

  function Smallest(t: Table): Key { t.smallest }
  function Num(t: Table): nat { t.num }

  lemma {:induction false} InsertMember<T>(x: T, xs: seq<T>, key: T -> Key)
    ensures forall y :: y in Insert(x, xs, key) <==> y == x || y in xs
  {
    if xs != [] && Less(key(x), key(xs[|xs| - 1])) {
      InsertMember(x, xs[..|xs| - 1], key);
      assert xs == xs[..|xs| - 1] + [xs[|xs| - 1]];
    }
  }

  /** A table apart from all of a level's goes into its place. */
  lemma {:induction false} InsertLevel(x: Table, fs: seq<Table>)
    requires LevelOk(fs) && TableOk(x) && forall f :: f in fs ==> Apart(x, f)
    ensures LevelOk(Insert(x, fs, Smallest))
  {
    hide Less, TableOk;
    KeysOrdered();
    if fs != [] {
      var last, front := fs[|fs| - 1], fs[..|fs| - 1];
      assert last in fs;
      RangeOrdered(x);
      RangeOrdered(last);
      if Less(x.smallest, last.smallest) {
        assert Left(x, last);
        InsertLevel(x, front);
        InsertMember(x, front, Smallest);
        assert forall f :: f in front ==> Left(f, last);
        LevelSnoc(Insert(x, front, Smallest), last);
      } else {
        assert Left(last, x);
        forall i | 0 <= i < |fs| ensures Left(fs[i], x) {
          if i < |fs| - 1 { LeftTransitive(fs[i], last, x); }
        }
        LevelSnoc(fs, x);
      }
    }
  }

  lemma LeftTransitive(a: Table, b: Table, d: Table)
    requires Left(a, b) && Left(b, d) && TableOk(b)
    ensures Left(a, d)
  {
    hide Less, TableOk;
    KeysOrdered();
    RangeOrdered(b);
  }

  lemma LevelSnoc(fs: seq<Table>, x: Table)
    requires LevelOk(fs) && TableOk(x) && forall f :: f in fs ==> Left(f, x)
    ensures LevelOk(fs + [x])
  {
    hide TableOk, Left;
  }

  lemma IndexOf<T>(xs: seq<T>, x: T) returns (i: nat)
    requires x in xs
    ensures i < |xs| && xs[i] == x
  {
    i :| 0 <= i < |xs| && xs[i] == x;
  }

  /** Where a table goes does not change what a lookup in the level finds. */
  lemma InsertFind(x: Table, fs: seq<Table>, k: Key)
    requires LevelOk(fs) && LevelOk(Insert(x, fs, Smallest))
    ensures TablesFind(Insert(x, fs, Smallest), k)
            == if Find(x.entries, k).Some? then Find(x.entries, k) else TablesFind(fs, k)
  {
    hide LevelOk, Insert;
    var r := Insert(x, fs, Smallest);
    InsertMember(x, fs, Smallest);
    TablesFindNone(r, k);
    TablesFindNone(fs, k);
    if Find(x.entries, k).Some? {
      var i := IndexOf(r, x);
      LevelFindAt(r, k, i);
    } else if TablesFind(fs, k).Some? {
      var j := TablesFindSome(fs, k);
      var i := IndexOf(r, fs[j]);
      LevelFindAt(r, k, i);
      LevelFindAt(fs, k, j);
    }
  }

  lemma {:induction false} SortedLevelStays(fs: seq<Table>)
    requires LevelOk(fs)
    ensures SortBy(fs, Smallest) == fs
  {
    hide Less, TableOk;
    KeysOrdered();
    if fs != [] {
      var front, last := fs[..|fs| - 1], fs[|fs| - 1];
      SortedLevelStays(front);
      if front != [] {
        var f := front[|front| - 1];
        assert Left(f, last);
        RangeOrdered(f);
      }
      assert fs == front + [last];
    }
  }

  /** Sorting a level extended by tables apart from it and from one another. */
  lemma {:induction false} SortExtended(fs: seq<Table>, outs: seq<Table>)
    requires LevelOk(fs) && LevelOk(outs)
    requires forall f, g :: f in fs && g in outs ==> Apart(f, g)
    ensures LevelOk(SortBy(fs + outs, Smallest))
    ensures forall f :: f in SortBy(fs + outs, Smallest) <==> f in fs || f in outs
    ensures forall k :: TablesFind(SortBy(fs + outs, Smallest), k)
                        == if TablesFind(outs, k).Some? then TablesFind(outs, k) else TablesFind(fs, k)
    decreases |outs|
  {
    hide Left, TableOk, Insert;
    if outs == [] {
      assert fs + outs == fs;
      SortedLevelStays(fs);
    } else {
      var front, last := outs[..|outs| - 1], outs[|outs| - 1];
      SortExtended(fs, front);
      assert (fs + outs)[..|fs + outs| - 1] == fs + front && (fs + outs)[|fs + outs| - 1] == last;
      var mid := SortBy(fs + front, Smallest);
      assert SortBy(fs + outs, Smallest) == Insert(last, mid, Smallest);
      assert last in outs;
      forall f | f in mid ensures Apart(last, f) {
        if f in front { assert Left(f, last); }
      }
      InsertLevel(last, mid);
      InsertMember(last, mid, Smallest);
      forall k ensures TablesFind(SortBy(fs + outs, Smallest), k)
                       == if TablesFind(outs, k).Some? then TablesFind(outs, k) else TablesFind(fs, k)
      {
        InsertFind(last, mid, k);
        assert outs == front + [last];
        TablesFindConcat(front, [last], k);
        assert [last][1..] == [];
        if Find(last.entries, k).Some? && TablesFind(front, k).Some? {
          LevelFindAt(outs, k, |outs| - 1);
        }
      }
      assert outs == front + [last];
    }
  }
}
