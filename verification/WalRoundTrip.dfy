/**
 Reading the log gives back what was written, and reading a torn log gives back the records that
 are wholly in it.
 */
module WalRoundTrip {
  import opened Bytes
  import opened WalFormat

  /** A fragment found whole inside its block is read back. */
  lemma FragmentFields(crc: Crc, f: ByteString, p: nat, typ: Byte, payload: ByteString)
    requires |payload| < U16 && p + HEADER + |payload| <= |f|
    requires f[p..p + HEADER + |payload|] == Fragment(crc, typ, payload)
    ensures GetLE(f[p..p + 4]) == Checksum(crc, typ, payload) && GetLE(f[p + 4..p + 6]) == |payload| && f[p + 6] == typ
    ensures f[p + HEADER..p + HEADER + |payload|] == payload
  {
    hide Checksum, PutLE, GetLE;
    var s := Fragment(crc, typ, payload);
    var g := f[p..p + HEADER + |payload|];
    HeaderFields(crc, f, p, typ, payload);
    assert f[p + 6] == g[6];
    assert f[p + HEADER..p + HEADER + |payload|] == g[HEADER..];
  }

  lemma HeaderFields(crc: Crc, f: ByteString, p: nat, typ: Byte, payload: ByteString)
    requires |payload| < U16 && p + HEADER <= |f|
    requires f[p..p + HEADER] == Fragment(crc, typ, payload)[..HEADER]
    ensures GetLE(f[p..p + 4]) == Checksum(crc, typ, payload) && GetLE(f[p + 4..p + 6]) == |payload| && f[p + 6] == typ
  {
    hide Checksum, PutLE, GetLE;
    var h := f[p..p + HEADER];
    PowValues();
    RoundTripLE(Checksum(crc, typ, payload), 4);
    RoundTripLE(|payload|, 2);
    var s := Fragment(crc, typ, payload);
    assert s[..4] == PutLE(Checksum(crc, typ, payload), 4) && s[4..6] == PutLE(|payload|, 2) && s[6] == typ;
    SliceAt(f, p, p + HEADER, 0, 4);
    SliceAt(f, p, p + HEADER, 4, 6);
    assert f[p + 6] == h[6];
    SliceAt(s, 0, HEADER, 0, 4);
    SliceAt(s, 0, HEADER, 4, 6);
  }

  lemma BlockEndOf(f: ByteString, p: nat, n: nat)
    requires n <= Room(p) && p + n <= |f|
    ensures p + n <= BlockEnd(f, p) <= p + Room(p)
    ensures BlockEnd(f, p) == p + Room(p) || BlockEnd(f, p) == |f|
  {
  }

  /** Where padding was needed, the reader skips it too. */
  lemma ReadSkipsPadding(crc: Crc, f: ByteString, s: ByteString, inRecord: bool, acc: ByteString)
    requires |Padded(s)| < |f|
    ensures ReadAt(crc, f, |s|, inRecord, acc) == ReadAt(crc, f, |Padded(s)|, inRecord, acc)
  {
    hide Checksum, GetLE;
    if Room(|s|) < HEADER {
      assert BlockEnd(f, |s|) == |s| + Room(|s|);
    }
  }

  /** One whole fragment of a record under way. */
  lemma ReadFragment(crc: Crc, f: ByteString, p: nat, typ: Byte, payload: ByteString, inRecord: bool, acc: ByteString)
    requires HEADER + |payload| <= Room(p) && p + HEADER + |payload| <= |f| && 1 <= typ <= 4
    requires f[p..p + HEADER + |payload|] == Fragment(crc, typ, payload)
    requires inRecord <==> typ == MIDDLE || typ == LAST
    ensures var p' := p + HEADER + |payload|;
            ReadAt(crc, f, p, inRecord, acc)
            == if typ == FULL || typ == LAST then (Record(acc + payload), p')
               else ReadAt(crc, f, p', true, acc + payload)
  {
    hide Checksum, GetLE, Fragment;
    FragmentFields(crc, f, p, typ, payload);
    BlockEndOf(f, p, HEADER + |payload|);
  }

  lemma EmittedFragment(crc: Crc, f: ByteString, s: ByteString, rec: ByteString, first: bool)
    requires EmitOne(crc, s, rec, first) <= f
    ensures var p, n := |Padded(s)|, FragLen(s, rec);
            f[p..p + HEADER + n] == Fragment(crc, FragType(first, n == |rec|), rec[..n])
  {
    hide Fragment, Padded;
    var r := EmitOne(crc, s, rec, first);
    var p, n := |Padded(s)|, FragLen(s, rec);
    assert r == f[..|r|];
    assert f[p..p + HEADER + n] == r[p..];
  }

  /** Whatever follows it, an appended record is read back from where it was appended. */
  lemma {:induction false} ReadEmitted(crc: Crc, f: ByteString, s: ByteString, rec: ByteString, first: bool, acc: ByteString)
    requires Emit(crc, s, rec, first) <= f
    ensures |s| <= |f| && ReadAt(crc, f, |s|, !first, acc) == (Record(acc + rec), |Emit(crc, s, rec, first)|)
    decreases |rec|, if Room(|s|) == HEADER then 1 else 0
  {
    hide ReadAt, Padded, FragLen, Room, EmitOne;
    EmitExtends(crc, s, rec, first);
    var n := FragLen(s, rec);
    var s' := EmitOne(crc, s, rec, first);
    if n != |rec| {
      if n == 0 { EmptyFragment(crc, s, rec, first); }
      EmitExtends(crc, s', rec[n..], false);
    }
    EmittedFragment(crc, f, s, rec, first);
    ReadSkipsPadding(crc, f, s, !first, acc);
    ReadFragment(crc, f, |Padded(s)|, FragType(first, n == |rec|), rec[..n], !first, acc);
    if n == |rec| {
      assert rec[..n] == rec;
    } else {
      ReadEmitted(crc, f, s', rec[n..], false, acc + rec[..n]);
      assert acc + rec[..n] + rec[n..] == acc + rec;
    }
  }

  lemma ReadAtEnd(crc: Crc, f: ByteString)
    ensures ReadAll(crc, f, |f|) == ([], Eof)
  {
  }

  lemma {:induction false} ReadAllEmitted(crc: Crc, f: ByteString, s: ByteString, recs: seq<ByteString>)
    requires EmitAll(crc, s, recs) == f
    ensures |s| <= |f| && ReadAll(crc, f, |s|) == (recs, Eof)
    decreases |recs|
  {
    hide ReadAt, Emit;
    EmitAllExtends(crc, s, recs);
    if recs == [] {
      ReadAtEnd(crc, f);
    } else {
      var s' := Emit(crc, s, recs[0], true);
      EmitAllExtends(crc, s', recs[1..]);
      ReadEmitted(crc, f, s, recs[0], true, []);
      ReadAllEmitted(crc, f, s', recs[1..]);
      assert [] + recs[0] == recs[0] && [recs[0]] + recs[1..] == recs;
    }
  }

  /** Every list of records, of any lengths, is read back in full, and then the file ends. */
  lemma RoundTrip(crc: Crc, recs: seq<ByteString>)
    ensures ReadAll(crc, EmitAll(crc, [], recs), 0) == (recs, Eof)
  {
    hide EmitAll, ReadAll;
    ReadAllEmitted(crc, EmitAll(crc, [], recs), [], recs);
  }

  // ---- torn logs

  lemma TornPadding(crc: Crc, f: ByteString, s: ByteString, inRecord: bool, acc: ByteString)
    requires |s| <= |f| <= |Padded(s)|
    ensures ReadAt(crc, f, |s|, inRecord, acc) == (AtEnd(inRecord), |s|)
  {
    hide Checksum, GetLE;
  }

  /** A fragment cut short stops the reader. */
  lemma TornFragment(crc: Crc, f: ByteString, p: nat, typ: Byte, payload: ByteString, inRecord: bool, acc: ByteString)
    requires HEADER + |payload| <= Room(p) && p <= |f| < p + HEADER + |payload| && 1 <= typ <= 4
    requires f[p..] == Fragment(crc, typ, payload)[..|f| - p]
    ensures ReadAt(crc, f, p, inRecord, acc).0 in {Eof, Short}
  {
    hide Checksum, GetLE, Fragment;
    assert BlockEnd(f, p) == |f|;
    if p + HEADER <= |f| {
      var frag := Fragment(crc, typ, payload);
      assert f[p..p + HEADER] == f[p..][..HEADER] == frag[..HEADER];
      HeaderFields(crc, f, p, typ, payload);
    }
  }

  /** A record cut short anywhere is not returned, and nothing after it can be. */
  lemma {:induction false} ReadTorn(crc: Crc, f: ByteString, s: ByteString, rec: ByteString, first: bool, acc: ByteString)
    requires f < Emit(crc, s, rec, first) && s <= f
    ensures ReadAt(crc, f, |s|, !first, acc).0 in {Eof, Short}
    decreases |rec|, if Room(|s|) == HEADER then 1 else 0
  {
    hide ReadAt, Padded, FragLen, Room, EmitOne;
    var n := FragLen(s, rec);
    var s' := EmitOne(crc, s, rec, first);
    if n != |rec| {
      if n == 0 { EmptyFragment(crc, s, rec, first); }
      EmitExtends(crc, s', rec[n..], false);
    }
    var typ := FragType(first, n == |rec|);
    if |f| <= |Padded(s)| {
      TornPadding(crc, f, s, !first, acc);
    } else if |f| < |s'| {
      ReadSkipsPadding(crc, f, s, !first, acc);
      TornParts(crc, f, s, rec, first);
      TornFragment(crc, f, |Padded(s)|, typ, rec[..n], !first, acc);
    } else {
      assert s' <= f;
      EmittedFragment(crc, f, s, rec, first);
      ReadSkipsPadding(crc, f, s, !first, acc);
      ReadFragment(crc, f, |Padded(s)|, typ, rec[..n], !first, acc);
      ReadTorn(crc, f, s', rec[n..], false, acc + rec[..n]);
    }
  }

  lemma TornParts(crc: Crc, f: ByteString, s: ByteString, rec: ByteString, first: bool)
    requires |Padded(s)| < |f| < |EmitOne(crc, s, rec, first)| && f <= EmitOne(crc, s, rec, first)
    ensures var p, n := |Padded(s)|, FragLen(s, rec);
            f[p..] == Fragment(crc, FragType(first, n == |rec|), rec[..n])[..|f| - p]
  {
    hide Fragment, Padded;
  }

  lemma {:induction false} EmitAllSplit(crc: Crc, s: ByteString, a: seq<ByteString>, b: seq<ByteString>)
    ensures EmitAll(crc, s, a + b) == EmitAll(crc, EmitAll(crc, s, a), b)
    decreases |a|
  {
    hide Emit;
    if a == [] {
      assert a + b == b;
    } else {
      EmitAllSplit(crc, Emit(crc, s, a[0], true), a[1..], b);
      assert (a + b)[1..] == a[1..] + b;
    }
  }

  /** m records of the log are wholly in its first n bytes, and no more. */
  ghost predicate WholeIn(crc: Crc, s: ByteString, recs: seq<ByteString>, n: nat, m: nat) {
    && m <= |recs| && |EmitAll(crc, s, recs[..m])| <= n
    && (m < |recs| ==> n < |EmitAll(crc, s, recs[..m + 1])|)
  }

  lemma EmitAllHead(crc: Crc, s: ByteString, recs: seq<ByteString>, k: nat)
    requires k < |recs|
    ensures EmitAll(crc, s, recs[..k + 1]) == EmitAll(crc, Emit(crc, s, recs[0], true), recs[1..][..k])
  {
    hide Emit;
    assert recs[..k + 1][1..] == recs[1..][..k];
  }

  lemma {:induction false} ReadAllTorn(crc: Crc, f: ByteString, s: ByteString, recs: seq<ByteString>) returns (m: nat)
    requires s <= f <= EmitAll(crc, s, recs)
    ensures WholeIn(crc, s, recs, |f|, m)
    ensures ReadAll(crc, f, |s|).0 == recs[..m] && ReadAll(crc, f, |s|).1 in {Eof, Short}
    decreases |recs|
  {
    hide ReadAt, Emit;
    if recs == [] {
      m := 0;
      assert f == s;
      ReadAtEnd(crc, f);
    } else {
      var s' := Emit(crc, s, recs[0], true);
      EmitExtends(crc, s, recs[0], true);
      EmitAllExtends(crc, s', recs[1..]);
      if |s'| <= |f| {
        assert s' <= f;
        var k := ReadAllTorn(crc, f, s', recs[1..]);
        ReadEmitted(crc, f, s, recs[0], true, []);
        m := k + 1;
        assert [] + recs[0] == recs[0] && [recs[0]] + recs[1..][..k] == recs[..m];
        EmitAllHead(crc, s, recs, k);
        if m < |recs| { EmitAllHead(crc, s, recs, m); }
      } else {
        m := 0;
        ReadTorn(crc, f, s, recs[0], true, []);
        EmitAllHead(crc, s, recs, 0);
        assert recs[1..][..0] == [];
      }
    }
  }

  /**
   The torn tail: on any byte prefix of a log the reader returns exactly the records wholly in it,
   and then stops at the end of the file or at a short record, never at a corrupt one.
   */
  lemma TornTail(crc: Crc, recs: seq<ByteString>, n: nat) returns (m: nat)
    requires n <= |EmitAll(crc, [], recs)|
    ensures WholeIn(crc, [], recs, n, m)
    ensures var (records, last) := ReadAll(crc, EmitAll(crc, [], recs)[..n], 0); records == recs[..m] && last in {Eof, Short}
  {
    hide EmitAll, ReadAll;
    m := ReadAllTorn(crc, EmitAll(crc, [], recs)[..n], [], recs);
  }

  // ---- appending after a sync

  const PAYLOAD: nat := BLOCK - HEADER

  /** How many fragments n bytes need if each has a whole block. */
  function Frags(n: nat): (k: nat)
    ensures k >= 1
  {
    if n <= PAYLOAD then 1 else 1 + Frags(n - PAYLOAD)
  }

  /** The bytes a record of n bytes takes, at the least. */
  function Need(n: nat): nat {
    n + HEADER * Frags(n)
  }

  lemma {:induction false} FragsGrow(n: nat, m: nat)
    requires n <= m
    ensures Frags(n) <= Frags(m)
  {
    if n > PAYLOAD { FragsGrow(n - PAYLOAD, m - PAYLOAD); }
  }

  /** One fragment more carries a block's payload at most. */
  lemma NeedOne(l: nat, n: nat)
    requires l <= PAYLOAD
    ensures Need(l + n) <= HEADER + l + Need(n)
  {
    FragsGrow(l + n, PAYLOAD + n);
  }

  /** A record that is read back had at least the bytes it needs. */
  lemma {:induction false} ReadNeeds(crc: Crc, f: ByteString, p: nat, inRecord: bool, acc: ByteString)
    requires p <= |f|
    ensures var (o, p') := ReadAt(crc, f, p, inRecord, acc); o.Record? ==> |acc| <= |o.data| && Need(|o.data| - |acc|) <= |f| - p
    decreases |f| - p
  {
    hide Checksum, GetLE, Need;
    var e := BlockEnd(f, p);
    if p + HEADER > e {
      if e != |f| { ReadNeeds(crc, f, e, inRecord, acc); }
    } else {
      var length, typ := GetLE(f[p + 4..p + 6]), f[p + 6];
      var p' := p + HEADER + length;
      if length == 0 && typ == 0 {
        if e != |f| { ReadNeeds(crc, f, e, inRecord, acc); }
      } else if p' <= e {
        NeedFits(length);
        ReadNeeds(crc, f, p', true, acc + f[p + HEADER..p']);
        var (o, q) := ReadAt(crc, f, p', true, acc + f[p + HEADER..p']);
        if o.Record? { NeedOne(length, |o.data| - |acc| - length); }
      }
    }
  }

  lemma NeedFits(l: nat)
    ensures l <= PAYLOAD ==> Need(l) == HEADER + l
  {
  }

  lemma {:induction false} EmitAtLeast(crc: Crc, s: ByteString, rec: ByteString, first: bool)
    ensures |Emit(crc, s, rec, first)| >= |s| + HEADER + |rec|
    decreases |rec|, if Room(|s|) == HEADER then 1 else 0
  {
    hide Fragment, EmitOne, Padded, FragLen, Room;
    var n, s' := FragLen(s, rec), EmitOne(crc, s, rec, first);
    if n != |rec| {
      if n == 0 { EmptyFragment(crc, s, rec, first); }
      EmitAtLeast(crc, s', rec[n..], false);
    }
  }

  /** Written from the start of a block, a record takes exactly what it needs. */
  lemma {:induction false} EmitLength(crc: Crc, s: ByteString, rec: ByteString, first: bool)
    requires |s| % BLOCK == 0
    ensures |Emit(crc, s, rec, first)| == |s| + Need(|rec|)
    decreases |rec|
  {
    hide Fragment;
    var n := FragLen(s, rec);
    var s' := EmitOne(crc, s, rec, first);
    assert Padded(s) == s && Room(|s|) == BLOCK;
    if n != |rec| {
      assert |s'| == |s| + BLOCK;
      EmitLength(crc, s', rec[n..], false);
    }
  }

  lemma EmitOneShift(crc: Crc, pre: ByteString, s: ByteString, rec: ByteString, first: bool)
    requires |pre| % BLOCK == 0
    ensures FragLen(pre + s, rec) == FragLen(s, rec)
    ensures EmitOne(crc, pre + s, rec, first) == pre + EmitOne(crc, s, rec, first)
  {
    hide Fragment, Zeros, Room;
    RoomShift(|pre|, |s|);
    if Room(|s|) < HEADER {
      assert Padded(pre + s) == pre + s + Zeros(Room(|s|)) == pre + (s + Zeros(Room(|s|)));
    }
    assert Padded(pre + s) == pre + Padded(s);
    RoomShift(|pre|, |Padded(s)|);
    var n := FragLen(s, rec);
    var frag := Fragment(crc, FragType(first, n == |rec|), rec[..n]);
    assert pre + Padded(s) + frag == pre + (Padded(s) + frag);
  }

  /** Behind whole blocks a record is written as it is in a fresh log. */
  lemma {:induction false} EmitShift(crc: Crc, pre: ByteString, s: ByteString, rec: ByteString, first: bool)
    requires |pre| % BLOCK == 0
    ensures Emit(crc, pre + s, rec, first) == pre + Emit(crc, s, rec, first)
    decreases |rec|, if Room(|s|) == HEADER then 1 else 0
  {
    hide EmitOne, FragLen, Room;
    EmitOneShift(crc, pre, s, rec, first);
    var n := FragLen(s, rec);
    if n != |rec| {
      if n == 0 { EmptyFragment(crc, s, rec, first); }
      EmitShift(crc, pre, EmitOne(crc, s, rec, first), rec[n..], false);
    }
  }

  lemma RoomShift(a: nat, b: nat)
    requires a % BLOCK == 0
    ensures Room(a + b) == Room(b)
  {
  }

  lemma {:induction false} EmitAllShift(crc: Crc, pre: ByteString, s: ByteString, recs: seq<ByteString>)
    requires |pre| % BLOCK == 0
    ensures EmitAll(crc, pre + s, recs) == pre + EmitAll(crc, s, recs)
    decreases |recs|
  {
    hide Emit;
    if recs != [] {
      EmitShift(crc, pre, s, recs[0], true);
      EmitAllShift(crc, pre, Emit(crc, s, recs[0], true), recs[1..]);
    }
  }

  lemma FreshLen(rec: ByteString)
    ensures Padded([]) == [] && FragLen([], rec) == if |rec| <= PAYLOAD then |rec| else PAYLOAD
  {
  }

  /** The first fragment of a fresh record. */
  lemma FreshStart(crc: Crc, rec: ByteString)
    ensures var n, r := FragLen([], rec), Emit(crc, [], rec, true);
            && HEADER + n <= |r| && r[..HEADER + n] == Fragment(crc, FragType(true, n == |rec|), rec[..n])
            && (n == |rec| ==> r == Fragment(crc, FULL, rec))
  {
    hide Fragment, FragLen, Padded;
    FreshLen(rec);
    var n := FragLen([], rec);
    var s' := EmitOne(crc, [], rec, true);
    assert s' == Fragment(crc, FragType(true, n == |rec|), rec[..n]);
    if n == |rec| {
      assert rec[..n] == rec;
    } else {
      EmitExtends(crc, s', rec[n..], false);
    }
  }

  lemma AlignedRead(crc: Crc, f: ByteString, rec: ByteString)
    requires |f| % BLOCK == 0
    ensures ReadAt(crc, f + Emit(crc, [], rec, true), |f|, false, []).0 == Record(rec)
  {
    hide ReadAt, Emit;
    EmitShift(crc, f, [], rec, true);
    assert f + [] == f;
    ReadEmitted(crc, f + Emit(crc, [], rec, true), f, rec, true, []);
    assert [] + rec == rec;
  }

  lemma FittingRead(crc: Crc, f: ByteString, rec: ByteString)
    requires HEADER + |rec| <= Room(|f|)
    ensures ReadAt(crc, f + Emit(crc, [], rec, true), |f|, false, []).0 == Record(rec)
  {
    hide ReadAt, Emit, Fragment, FragLen, Room;
    FreshLen(rec);
    FreshStart(crc, rec);
    var r := Fragment(crc, FULL, rec);
    var g, p := f + r, |f|;
    assert Emit(crc, [], rec, true) == r;
    assert g[p..p + HEADER + |rec|] == g[p..] == r;
    ReadFragment(crc, g, p, FULL, rec, false, []);
    assert [] + rec == rec;
  }

  /**
   Sync writes a partial block and starts the next record as if at a block's start, while the
   reader keeps to the blocks of the file. A record appended after a sync, of any length, is read
   back if and only if it fits what is left of the file's block or the file ended with one.
   */
  lemma SyncedAppendReadable(crc: Crc, f: ByteString, rec: ByteString)
    ensures ReadAt(crc, f + Emit(crc, [], rec, true), |f|, false, []).0 == Record(rec)
            <==> HEADER + |rec| <= Room(|f|) || |f| % BLOCK == 0
  {
    hide ReadAt, Emit, Room;
    if |f| % BLOCK == 0 {
      AlignedRead(crc, f, rec);
    } else if HEADER + |rec| <= Room(|f|) {
      FittingRead(crc, f, rec);
    } else {
      StraddlingUnread(crc, f + Emit(crc, [], rec, true), f, rec);
    }
  }

  /** A record whose first fragment crosses the end of a block is not read. */
  lemma StraddlingUnread(crc: Crc, g: ByteString, f: ByteString, rec: ByteString)
    requires g == f + Emit(crc, [], rec, true) && |f| % BLOCK != 0 && Room(|f|) < HEADER + |rec|
    ensures ReadAt(crc, g, |f|, false, []).0 != Record(rec)
  {
    hide Fragment, Checksum, GetLE, Emit, Need, FragLen;
    var p := |f|;
    var e := BlockEnd(g, p);
    FreshLen(rec);
    FreshStart(crc, rec);
    var n := FragLen([], rec);
    assert Room(p) < HEADER + n;
    assert e == p + Room(p) < |g|;
    if p + HEADER > e {
      ReadNeeds(crc, g, e, false, []);
      EmitLength(crc, [], rec, true);
    } else {
      var r := Emit(crc, [], rec, true);
      assert g[p..p + HEADER + n] == r[..HEADER + n];
      FragmentFields(crc, g, p, FragType(true, n == |rec|), rec[..n]);
    }
  }

  // ---- a new log behind whole blocks of another

  /** Where a record is expected to go on, the first fragment of a new log stops the reader, and so does the end. */
  lemma NewLogStops(crc: Crc, pre: ByteString, next: seq<ByteString>, acc: ByteString)
    requires |pre| % BLOCK == 0
    ensures ReadAt(crc, pre + EmitAll(crc, [], next), |pre|, true, acc).0 in {Short, Corrupt}
  {
    hide Checksum, GetLE, Fragment, Emit;
    var f := pre + EmitAll(crc, [], next);
    if next != [] {
      var rec := next[0];
      var n := FragLen([], rec);
      var typ := FragType(true, n == |rec|);
      NewLogBegins(crc, next);
      assert f[|pre|..|pre| + HEADER + n] == Fragment(crc, typ, rec[..n]);
      FragmentFields(crc, f, |pre|, typ, rec[..n]);
      BlockEndOf(f, |pre|, HEADER + n);
    }
  }

  lemma NewLogBegins(crc: Crc, next: seq<ByteString>)
    requires next != []
    ensures var rec := next[0];
            var n := FragLen([], rec);
            Fragment(crc, FragType(true, n == |rec|), rec[..n]) <= EmitAll(crc, [], next)
  {
    hide Fragment, Room, FragLen;
    var s := Emit(crc, [], next[0], true);
    var one := EmitOne(crc, [], next[0], true);
    if FragLen([], next[0]) != |next[0]| { EmitExtends(crc, one, next[0][FragLen([], next[0])..], false); }
    RoomAtStart();
    EmitAllExtends(crc, s, next[1..]);
    assert Padded([]) == [];
    assert one <= s <= EmitAll(crc, [], next);
  }

  lemma RoomAtStart()
    ensures Room(0) == BLOCK && Padded([]) == []
  {
  }

  /** A record whose blocks end before it does is not read, whatever log follows. */
  lemma {:induction false} CutRecord(crc: Crc, pre: ByteString, next: seq<ByteString>, s: ByteString, rec: ByteString, first: bool,
                                     acc: ByteString)
    requires Padded(s) < pre < Emit(crc, s, rec, first) && |pre| % BLOCK == 0
    ensures |s| <= |pre + EmitAll(crc, [], next)|
    ensures ReadAt(crc, pre + EmitAll(crc, [], next), |s|, !first, acc).0 in {Short, Corrupt}
    decreases |rec|, if Room(|s|) == HEADER then 1 else 0
  {
    hide ReadAt, Padded, EmitOne, EmitAll;
    var f := pre + EmitAll(crc, [], next);
    var n, s' := FragLen(s, rec), EmitOne(crc, s, rec, first);
    CutWhere(crc, pre, s, rec, first);
    if n == 0 { EmptyFragment(crc, s, rec, first); }
    EmittedFragment(crc, f, s, rec, first);
    ReadSkipsPadding(crc, f, s, !first, acc);
    ReadFragment(crc, f, |Padded(s)|, FragType(first, false), rec[..n], !first, acc);
    if pre == s' {
      NewLogStops(crc, pre, next, acc + rec[..n]);
    } else {
      CutRecord(crc, pre, next, s', rec[n..], false, acc + rec[..n]);
    }
  }

  /** A fragment that is not the last fills its block. */
  lemma FullFragment(crc: Crc, s: ByteString, rec: ByteString, first: bool)
    requires FragLen(s, rec) < |rec|
    ensures var s' := EmitOne(crc, s, rec, first); |s'| == |Padded(s)| + Room(|Padded(s)|) && |s'| % BLOCK == 0 && Padded(s') == s'
  {
    hide Fragment, EmitOne;
    var p := |Padded(s)|;
    BoundaryAt(p);
  }

  lemma BoundaryAt(p: nat)
    ensures (p + Room(p)) % BLOCK == 0 && Room(p + Room(p)) == BLOCK
  {
  }

  /** The fragment lies wholly in the blocks, is not the last, and ends a block. */
  lemma CutWhere(crc: Crc, pre: ByteString, s: ByteString, rec: ByteString, first: bool)
    requires Padded(s) < pre < Emit(crc, s, rec, first) && |pre| % BLOCK == 0
    ensures var s' := EmitOne(crc, s, rec, first); FragLen(s, rec) < |rec| && s' <= pre && Padded(s') == s'
  {
    hide Padded, Room, EmitOne;
    var n, s' := FragLen(s, rec), EmitOne(crc, s, rec, first);
    NextBoundary(|Padded(s)|, |pre|);
    if n == |rec| { assert false; }
    FullFragment(crc, s, rec, first);
    if n == 0 { EmptyFragment(crc, s, rec, first); }
    EmitExtends(crc, s', rec[n..], false);
  }

  lemma NextBoundary(p: nat, q: nat)
    requires p < q && q % BLOCK == 0
    ensures p + Room(p) <= q
  {
  }
}
