/**
 Sorted lists of entries, the common view of memtables, tables and merged runs, and the merge of
 several of them: what the merge iterator must produce.
 */
module SortedLists {
  import opened Bytes
  import opened KeyOrder

  /** An entry; no value is a tombstone. */
  datatype KV = KV(key: Key, val: Option<ByteString>)

  type Run = seq<KV>

  predicate Sorted(es: Run) {
    forall i, j :: 0 <= i < j < |es| ==> Less(es[i].key, es[j].key)
  }

  /** The value stored under k, itself perhaps a tombstone, or nothing. */
  function Find(es: Run, k: Key): Option<Option<ByteString>> {
    if es == [] then None
    else if es[0].key == k then Some(es[0].val)
    else Find(es[1..], k)
  }

  /** The first run that has k decides. */
  function FirstHit(ls: seq<Run>, k: Key): Option<Option<ByteString>> {
    if ls == [] then None
    else
      var f := Find(ls[0], k);
      if f.Some? then f else FirstHit(ls[1..], k)
  }

  predicate AllSorted(ls: seq<Run>) {
    forall i :: 0 <= i < |ls| ==> Sorted(ls[i])
  }

  lemma {:induction false} FindAt(es: Run, i: nat)
    requires Sorted(es) && i < |es|
    ensures Find(es, es[i].key) == Some(es[i].val)
  {
    KeysOrdered();
    hide Less;
    if i > 0 {
      assert Less(es[0].key, es[i].key);
      FindAt(es[1..], i - 1);
    }
  }

  lemma {:induction false} FindSome(es: Run, k: Key) returns (i: nat)
    requires Find(es, k).Some?
    ensures i < |es| && es[i].key == k && Find(es, k) == Some(es[i].val)
  {
    if es[0].key == k {
      i := 0;
    } else {
      i := FindSome(es[1..], k);
      i := i + 1;
    }
  }

  /** A key is found exactly when some entry has it. */
  lemma {:induction false} FindNone(es: Run, k: Key)
    ensures Find(es, k).None? <==> forall i :: 0 <= i < |es| ==> es[i].key != k
  {
    if es != [] {
      FindNone(es[1..], k);
      assert forall i :: 1 <= i < |es| ==> es[i] == es[1..][i - 1];
    }
  }

  lemma {:induction false} FindConcat(a: Run, b: Run, k: Key)
    ensures Find(a + b, k) == if Find(a, k).Some? then Find(a, k) else Find(b, k)
  {
    if a == [] {
      assert a + b == b;
    } else {
      FindConcat(a[1..], b, k);
      assert (a + b)[1..] == a[1..] + b;
    }
  }

  /** A sorted list whose first key is past k does not have k. */
  lemma FindPast(es: Run, k: Key)
    requires Sorted(es) && (es == [] || Less(k, es[0].key))
    ensures Find(es, k).None?
  {
    hide Less;
    KeysOrdered();
    FindNone(es, k);
  }

  // ---- merging

  /** The run with the smallest first key among the first n, the lowest of several. */
  function Best(ls: seq<Run>, n: nat): (b: Option<nat>)
    requires n <= |ls|
    ensures b.Some? ==> b.value < n && ls[b.value] != []
    ensures b.None? ==> forall i :: 0 <= i < n ==> ls[i] == []
  {
    if n == 0 then None
    else
      var b := Best(ls, n - 1);
      if ls[n - 1] == [] then b
      else if b.Some? && !Less(ls[n - 1][0].key, ls[b.value][0].key) then b
      else Some(n - 1)
  }

  lemma {:induction false} BestIsLeast(ls: seq<Run>, n: nat, i: nat)
    requires n <= |ls| && i < n && ls[i] != []
    ensures var b := Best(ls, n);
            && b.Some? && !Less(ls[i][0].key, ls[b.value][0].key)
            && (i < b.value ==> Less(ls[b.value][0].key, ls[i][0].key))
  {
    hide Less;
    KeysOrdered();
    if i < n - 1 {
      BestIsLeast(ls, n - 1, i);
    } else if Best(ls, n - 1).Some? {
      BestIsLeast(ls, n - 1, Best(ls, n - 1).value);
    }
  }

  function DropHead(es: Run, k: Key): Run {
    if es != [] && es[0].key == k then es[1..] else es
  }

  /** Every run moved past k where k is next. */
  function DropKey(ls: seq<Run>, k: Key): (r: seq<Run>)
    ensures |r| == |ls|
  {
    seq(|ls|, i requires 0 <= i < |ls| => DropHead(ls[i], k))
  }

  function TotalSize(ls: seq<Run>): nat {
    if ls == [] then 0 else |ls[0]| + TotalSize(ls[1..])
  }

  lemma {:induction false} DropKeyShrinks(ls: seq<Run>, k: Key, i: nat)
    requires i < |ls| && ls[i] != [] && ls[i][0].key == k
    ensures TotalSize(DropKey(ls, k)) < TotalSize(ls)
  {
    var d := DropKey(ls, k);
    assert d[1..] == DropKey(ls[1..], k);
    if i > 0 {
      DropKeyShrinks(ls[1..], k, i - 1);
    } else {
      DropKeyNoLarger(ls[1..], k);
    }
  }

  lemma {:induction false} DropKeyNoLarger(ls: seq<Run>, k: Key)
    ensures TotalSize(DropKey(ls, k)) <= TotalSize(ls)
  {
    if ls != [] {
      assert DropKey(ls, k)[1..] == DropKey(ls[1..], k);
      DropKeyNoLarger(ls[1..], k);
    }
  }

  /** The merge: the smallest key first, from the lowest run that has it, each key once. */
  function Merge(ls: seq<Run>): Run
    decreases TotalSize(ls)
  {
    var b := Best(ls, |ls|);
    if b.None? then []
    else
      var e := ls[b.value][0];
      DropKeyShrinks(ls, e.key, b.value);
      [e] + Merge(DropKey(ls, e.key))
  }

  lemma DropKeySorted(ls: seq<Run>, k: Key)
    requires AllSorted(ls)
    ensures AllSorted(DropKey(ls, k))
  {
    hide Less;
  }

  /** Every merged entry comes from one of the runs. */
  lemma {:induction false} MergeFromRuns(ls: seq<Run>, e: KV) returns (i: nat)
    requires e in Merge(ls)
    ensures i < |ls| && e in ls[i]
    decreases TotalSize(ls)
  {
    var b := Best(ls, |ls|).value;
    var m := ls[b][0];
    if e == m {
      i := b;
    } else {
      DropKeyShrinks(ls, m.key, b);
      i := MergeFromRuns(DropKey(ls, m.key), e);
    }
  }

  /** After the smallest key has been dropped only larger keys are left. */
  lemma DroppedAreLarger(ls: seq<Run>, i: nat, e: KV)
    requires AllSorted(ls) && Best(ls, |ls|).Some? && i < |ls|
    requires e in DropKey(ls, ls[Best(ls, |ls|).value][0].key)[i]
    ensures Less(ls[Best(ls, |ls|).value][0].key, e.key)
  {
    hide Less;
    KeysOrdered();
    var m := ls[Best(ls, |ls|).value][0].key;
    assert ls[i] != [];
    BestIsLeast(ls, |ls|, i);
    var d := DropKey(ls, m)[i];
    var j :| 0 <= j < |d| && d[j] == e;
    if ls[i][0].key == m {
      assert d[j] == ls[i][j + 1];
      assert Less(ls[i][0].key, ls[i][j + 1].key);
    } else if j > 0 {
      assert Less(ls[i][0].key, ls[i][j].key);
    }
  }

  /** The merge of sorted runs is strictly increasing. */
  lemma {:induction false} MergeSorted(ls: seq<Run>)
    requires AllSorted(ls)
    ensures Sorted(Merge(ls))
    decreases TotalSize(ls)
  {
    hide Less;
    var b := Best(ls, |ls|);
    if b.Some? {
      var m := ls[b.value][0];
      var rest := DropKey(ls, m.key);
      DropKeyShrinks(ls, m.key, b.value);
      DropKeySorted(ls, m.key);
      MergeSorted(rest);
      forall e | e in Merge(rest) ensures Less(m.key, e.key) {
        var i := MergeFromRuns(rest, e);
        DroppedAreLarger(ls, i, e);
      }
      assert Merge(ls) == [m] + Merge(rest);
    }
  }

  lemma {:induction false} FirstHitAt(ls: seq<Run>, i: nat, k: Key)
    requires i < |ls| && Find(ls[i], k).Some?
    requires forall j :: 0 <= j < i ==> Find(ls[j], k).None?
    ensures FirstHit(ls, k) == Find(ls[i], k)
  {
    if i > 0 { FirstHitAt(ls[1..], i - 1, k); }
  }

  lemma {:induction false} FirstHitNone(ls: seq<Run>, k: Key)
    ensures FirstHit(ls, k).None? <==> forall j :: 0 <= j < |ls| ==> Find(ls[j], k).None?
  {
    if ls != [] {
      FirstHitNone(ls[1..], k);
      assert forall j :: 1 <= j < |ls| ==> ls[j] == ls[1..][j - 1];
    }
  }

  /** Dropping another key changes no lookup. */
  lemma {:induction false} DropKeyHit(ls: seq<Run>, m: Key, k: Key)
    requires k != m
    ensures FirstHit(DropKey(ls, m), k) == FirstHit(ls, k)
  {
    if ls != [] {
      assert DropKey(ls, m)[1..] == DropKey(ls[1..], m);
      DropKeyHit(ls[1..], m, k);
    }
  }

  /** In the smallest key's own step the merge takes the value of the lowest run that has it. */
  lemma BestHit(ls: seq<Run>)
    requires AllSorted(ls) && Best(ls, |ls|).Some?
    ensures var e := ls[Best(ls, |ls|).value][0]; FirstHit(ls, e.key) == Some(e.val)
  {
    hide Less;
    KeysOrdered();
    var b := Best(ls, |ls|).value;
    var k := ls[b][0].key;
    forall j | 0 <= j < b ensures Find(ls[j], k).None? {
      if ls[j] != [] { BestIsLeast(ls, |ls|, j); }
      FindPast(ls[j], k);
    }
    FirstHitAt(ls, b, k);
  }

  /** A lookup in the merge finds what the first run that has the key holds, and nothing else. */
  lemma {:induction false} MergeLookup(ls: seq<Run>, k: Key)
    requires AllSorted(ls)
    ensures Find(Merge(ls), k) == FirstHit(ls, k)
    decreases TotalSize(ls)
  {
    hide Less;
    var b := Best(ls, |ls|);
    if b.None? {
      FirstHitNone(ls, k);
    } else {
      var m := ls[b.value][0];
      var rest := DropKey(ls, m.key);
      assert Merge(ls) == [m] + Merge(rest);
      if k == m.key {
        BestHit(ls);
      } else {
        DropKeyShrinks(ls, m.key, b.value);
        DropKeySorted(ls, m.key);
        MergeLookup(rest, k);
        DropKeyHit(ls, m.key, k);
        assert Merge(ls)[1..] == Merge(rest);
      }
    }
  }
}
