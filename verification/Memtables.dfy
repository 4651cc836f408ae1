/**
 Memtables and their manager: writes go to the active table, which is frozen and swapped out when
 full (internal/memtable/memtable.go, manager.go). Waiting for a flush is reported to the caller,
 who tries again after it.
 */
module Memtables {
  import opened Bytes
  import opened KeyOrder
  import opened SortedLists
  import SL = SkipList
  import opened TreeReads

  class MemTable {
    const sl: SL.SkipList
    const maxSize: int
    var frozen: bool

    ghost predicate Valid()
      reads this, sl, sl.nodes
    {
      sl.Valid()
    }

    ghost function Contents(): Run
      reads this, sl, sl.nodes
    {
      sl.Contents()
    }

    constructor (max: int)
      ensures Valid() && Contents() == [] && !frozen && maxSize == max
      ensures fresh(sl) && fresh(sl.nodes) && sl.memSize == 0
    {
      sl := new SL.SkipList();
      maxSize, frozen := max, false;
    }

    predicate Full()
      reads this, sl
    {
      frozen || sl.memSize >= maxSize
    }

    /** Refuses once frozen or full. */
    method Put(key: Key, value: Option<ByteString>, height: nat) returns (ok: bool)
      requires Valid() && 1 <= height <= SL.MAX_LEVEL
      modifies sl, sl.nodes
      ensures Valid() && ok == !old(Full())
      ensures Contents() == if ok then SL.PutRun(old(Contents()), key, value) else old(Contents())
      ensures fresh(set n | n in sl.nodes && n !in old(sl.nodes))
    {
      hide SL.PutRun, SL.ListOk, SL.Entries;
      if frozen || sl.memSize >= maxSize { return false; }
      sl.Put(key, value, height);
      return true;
    }

    method Get(key: Key) returns (hit: Hit)
      requires Valid()
      ensures hit == Find(Contents(), key)
    {
      hit := sl.Get(key);
    }
  }

  /** The two tables as values. */
  datatype Tables = Tables(active: Run, immutable: Option<Run>)

  function TablesHit(t: Tables, k: Key): Hit {
    Or(Find(t.active, k), if t.immutable.Some? then Find(t.immutable.value, k) else None)
  }

  function Write(t: Tables, k: Key, v: Option<ByteString>): Tables {
    t.(active := SL.PutRun(t.active, k, v))
  }

  /** The active table becomes the immutable one. */
  function Swap(t: Tables): Tables {
    Tables([], Some(t.active))
  }

  class Manager {
    var active: MemTable
    var immutable: MemTable?
    const maxSize: int

    ghost predicate Valid()
      reads this, active, active.sl, active.sl.nodes
      reads if immutable == null then {} else {immutable, immutable.sl}
      reads if immutable == null then {} else set n | n in immutable.sl.nodes
    {
      && active.Valid() && !active.frozen && active.maxSize == maxSize
      && (immutable != null ==>
            && immutable.Valid() && immutable != active && immutable.sl != active.sl
            && forall n :: n in immutable.sl.nodes ==> n !in active.sl.nodes)
    }

    ghost function View(): Tables
      reads this, active, active.sl, active.sl.nodes
      reads if immutable == null then {} else {immutable, immutable.sl}
      reads if immutable == null then {} else set n | n in immutable.sl.nodes
    {
      Tables(active.Contents(), if immutable == null then None else Some(immutable.Contents()))
    }

    constructor (max: int)
      ensures Valid() && View() == Tables([], None)
      ensures fresh(active) && fresh(active.sl) && fresh(active.sl.nodes)
    {
      active := new MemTable(max);
      immutable := null;
      maxSize := max;
    }

    /** Freezes the active table and opens a new one. */
    method FreezeActive()
      requires Valid() && immutable == null
      modifies this, active
      ensures Valid() && View() == Swap(old(View())) && immutable == old(active)
      ensures fresh(active) && fresh(active.sl) && fresh(active.sl.nodes)
      ensures active.sl.memSize == 0
    {
      hide SL.ListOk, SL.Entries;
      active.frozen := true;
      immutable := active;
      active := new MemTable(maxSize);
    }

    /** Writes to the active table if it takes the entry. */
    method WriteActive(key: Key, value: Option<ByteString>, height: nat) returns (ok: bool)
      requires Valid() && 1 <= height <= SL.MAX_LEVEL
      modifies active.sl, active.sl.nodes
      ensures Valid() && ok == !old(active.Full())
      ensures View() == if ok then Write(old(View()), key, value) else old(View())
    {
      hide SL.ListOk, SL.Entries, SL.PutRun;
      ghost var before := View();
      ghost var imm := if immutable == null then [] else immutable.sl.nodes;
      ghost var kept := if immutable == null then [] else immutable.Contents();
      ok := active.Put(key, value, height);
      if immutable != null {
        assert immutable.sl.nodes == imm;
        assert forall n :: n in imm ==> n !in active.sl.nodes;
        assert immutable.Valid();
        assert immutable.Contents() == kept;
      }
      assert View() == before.(active := active.Contents());
    }

    /**
     Put and Delete (a missing value): write, and swap if the table is now full; a full table is
     swapped first. False means that the writer has to wait for the immutable table's flush.
     */
    method Put(key: Key, value: Option<ByteString>, height: nat) returns (done: bool)
      requires Valid() && 1 <= height <= SL.MAX_LEVEL
      modifies this, active, active.sl, active.sl.nodes
      ensures Valid() && (done && immutable == null ==> !active.Full())
      // with room, the entry is written and the table is swapped exactly if that filled it and no other waits
      ensures !old(active.Full()) ==>
                && done && (immutable == old(immutable) || immutable == old(active))
                && (immutable == old(active) <==> old(immutable) == null && old(active).sl.memSize >= maxSize)
                && View() == if immutable == old(active) then Swap(Write(old(View()), key, value)) else Write(old(View()), key, value)
      // without room, the writer waits for the flush of the immutable table, if there is one
      ensures old(active.Full()) && old(immutable) != null ==> !done && View() == old(View())
      // and else the full table is swapped first
      ensures old(active.Full()) && old(immutable) == null ==>
                && immutable == old(active) && (done <==> maxSize > 0)
                && View() == if done then Write(Swap(old(View())), key, value) else Swap(old(View()))
    {
      hide SL.ListOk, SL.Entries, SL.PutRun;
      var ok := WriteActive(key, value, height);
      if ok {
        if active.sl.memSize >= active.maxSize && immutable == null { FreezeActive(); }
        return true;
      }
      if immutable != null { return false; }
      FreezeActive();
      ok := WriteActive(key, value, height);
      return ok;
    }

    method Get(key: Key) returns (hit: Hit)
      requires Valid()
      ensures hit == TablesHit(View(), key)
    {
      hide SL.ListOk, SL.Entries, Find;
      hit := active.Get(key);
      if hit.None? && immutable != null { hit := immutable.Get(key); }
    }

    /** The flush is done: the immutable table goes. */
    method DropImmutable()
      requires Valid()
      modifies this
      ensures Valid() && View() == old(View()).(immutable := None)
    {
      hide SL.ListOk, SL.Entries;
      immutable := null;
    }
  }
}
