/**
 What the checksums promise: every record a reader returns is made of fragments whose stored sums
 are right, and a log with a damaged payload is read up to the record before it.
 */
module WalDamage {
  import opened Bytes
  import opened WalFormat
  import opened WalRoundTrip

  // ---- whatever the file holds

  datatype Piece = Piece(at: nat, typ: Byte, payload: ByteString)

  /** A fragment stands at its place in the file, inside one block, with its own sum and length in front of it. */
  ghost predicate Stored(crc: Crc, f: ByteString, x: Piece) {
    && x.at + HEADER + |x.payload| <= |f| && HEADER + |x.payload| <= Room(x.at)
    && GetLE(f[x.at..x.at + 4]) == Checksum(crc, x.typ, x.payload)
    && GetLE(f[x.at + 4..x.at + 6]) == |x.payload| && f[x.at + 6] == x.typ
    && f[x.at + HEADER..x.at + HEADER + |x.payload|] == x.payload
  }

  /** The pieces of a record: one full fragment, or a first, any middle ones and a last. */
  ghost predicate Sequenced(xs: seq<Piece>, inRecord: bool)
    decreases |xs|
  {
    && xs != []
    && if |xs| == 1 then xs[0].typ == (if inRecord then LAST else FULL)
       else xs[0].typ == (if inRecord then MIDDLE else FIRST) && Sequenced(xs[1..], true)
  }

  /** The pieces follow one another from p on and end at q. */
  ghost predicate Placed(xs: seq<Piece>, p: nat, q: nat)
    decreases |xs|
  {
    if xs == [] then p <= q
    else p <= xs[0].at && xs[0].at + HEADER + |xs[0].payload| <= q && Placed(xs[1..], xs[0].at + HEADER + |xs[0].payload|, q)
  }

  function Payloads(xs: seq<Piece>): ByteString {
    if xs == [] then [] else xs[0].payload + Payloads(xs[1..])
  }

  ghost predicate AllStored(crc: Crc, f: ByteString, xs: seq<Piece>) {
    forall i :: 0 <= i < |xs| ==> Stored(crc, f, xs[i])
  }

  lemma PlacedEarlier(xs: seq<Piece>, p: nat, p': nat, q: nat)
    requires Placed(xs, p', q) && p <= p'
    ensures Placed(xs, p, q)
  {
  }

  lemma OnePiece(crc: Crc, f: ByteString, x: Piece, inRecord: bool)
    requires Stored(crc, f, x) && x.typ == (if inRecord then LAST else FULL)
    ensures var q := x.at + HEADER + |x.payload|;
            AllStored(crc, f, [x]) && Sequenced([x], inRecord) && Placed([x], x.at, q) && Payloads([x]) == x.payload
  {
    hide Stored;
    var xs := [x];
    assert xs[1..] == [] && Payloads(xs[1..]) == [];
  }

  lemma MorePieces(crc: Crc, f: ByteString, x: Piece, xs: seq<Piece>, q: nat, inRecord: bool)
    requires Stored(crc, f, x) && x.typ == (if inRecord then MIDDLE else FIRST)
    requires AllStored(crc, f, xs) && Sequenced(xs, true) && Placed(xs, x.at + HEADER + |x.payload|, q)
    ensures AllStored(crc, f, [x] + xs) && Sequenced([x] + xs, inRecord) && Placed([x] + xs, x.at, q)
    ensures Payloads([x] + xs) == x.payload + Payloads(xs)
  {
    hide Stored;
    PlacedEnds(xs, x.at + HEADER + |x.payload|, q);
    assert ([x] + xs)[1..] == xs;
  }

  lemma {:induction false} PlacedEnds(xs: seq<Piece>, p: nat, q: nat)
    requires Placed(xs, p, q)
    ensures p <= q
  {
  }

  lemma FoundPiece(crc: Crc, f: ByteString, p: nat, length: nat, typ: Byte)
    requires p + HEADER <= |f| && p + HEADER + length <= BlockEnd(f, p)
    requires length == GetLE(f[p + 4..p + 6]) && typ == f[p + 6]
    requires GetLE(f[p..p + 4]) == Checksum(crc, typ, f[p + HEADER..p + HEADER + length])
    ensures Stored(crc, f, Piece(p, typ, f[p + HEADER..p + HEADER + length]))
  {
    hide Checksum, GetLE;
  }

  /** The pieces of a record that is returned, wherever the reader starts and whatever the file holds. */
  lemma {:induction false} ReadPieces(crc: Crc, f: ByteString, p: nat, inRecord: bool, acc: ByteString) returns (xs: seq<Piece>)
    requires p <= |f| && ReadAt(crc, f, p, inRecord, acc).0.Record?
    ensures var (o, q) := ReadAt(crc, f, p, inRecord, acc);
            AllStored(crc, f, xs) && Sequenced(xs, inRecord) && Placed(xs, p, q) && o.data == acc + Payloads(xs)
    decreases |f| - p
  {
    hide Checksum, GetLE, Stored, AllStored, Sequenced, Placed, Payloads;
    var e := BlockEnd(f, p);
    if p + HEADER > e || (GetLE(f[p + 4..p + 6]) == 0 && f[p + 6] == 0) {
      xs := ReadPieces(crc, f, e, inRecord, acc);
      PlacedEarlier(xs, p, e, ReadAt(crc, f, e, inRecord, acc).1);
    } else {
      var length, typ := GetLE(f[p + 4..p + 6]), f[p + 6];
      var p', payload := p + HEADER + length, f[p + HEADER..p + HEADER + length];
      var x := Piece(p, typ, payload);
      FoundPiece(crc, f, p, length, typ);
      if typ == FULL || typ == LAST {
        xs := [x];
        OnePiece(crc, f, x, inRecord);
      } else {
        var rest := ReadPieces(crc, f, p', true, acc + payload);
        xs := [x] + rest;
        MorePieces(crc, f, x, rest, ReadAt(crc, f, p', true, acc + payload).1, inRecord);
        assert acc + payload + Payloads(rest) == acc + (payload + Payloads(rest));
      }
    }
  }

  /**
   From any position of any file, a record that is returned is the payloads of fragments that stand
   one after another in what was read, in the order first, middle, last, each inside one block and
   each with the right sum of its type and payload in front of it.
   */
  lemma ReturnedIsChecked(crc: Crc, f: ByteString, p: nat) returns (xs: seq<Piece>)
    requires p <= |f| && ReadAt(crc, f, p, false, []).0.Record?
    ensures var (o, q) := ReadAt(crc, f, p, false, []);
            AllStored(crc, f, xs) && Sequenced(xs, false) && Placed(xs, p, q) && o.data == Payloads(xs)
  {
    hide ReadAt, AllStored, Sequenced, Placed;
    xs := ReadPieces(crc, f, p, false, []);
    assert [] + Payloads(xs) == Payloads(xs);
  }

  // ---- a log that was written and then damaged

  /** x is one of the fragments the record is written as behind s. */
  ghost predicate WrittenAs(crc: Crc, s: ByteString, rec: ByteString, first: bool, x: Piece)
    decreases |rec|, if Room(|s|) == HEADER then 1 else 0
  {
    var n := FragLen(s, rec);
    || x == Piece(|Padded(s)|, FragType(first, n == |rec|), rec[..n])
    || (n != |rec| && assert n == 0 ==> Room(|EmitOne(crc, s, rec, first)|) != HEADER && Room(|s|) == HEADER by {
                        if n == 0 { EmptyFragment(crc, s, rec, first); }
                      } WrittenAs(crc, EmitOne(crc, s, rec, first), rec[n..], false, x))
  }

  /** The file is the log up to the payload of x, and there it holds as many bytes with another sum. */
  ghost predicate DamagedAt(crc: Crc, log: ByteString, f: ByteString, x: Piece) {
    var q := x.at + HEADER;
    && q + |x.payload| <= |f| && q <= |log| && f[..q] == log[..q]
    && Checksum(crc, x.typ, f[q..q + |x.payload|]) != Checksum(crc, x.typ, x.payload)
  }

  lemma {:induction false} WrittenWhere(crc: Crc, s: ByteString, rec: ByteString, first: bool, x: Piece)
    requires WrittenAs(crc, s, rec, first, x)
    ensures |Padded(s)| <= x.at && x.at + HEADER + |x.payload| <= |Emit(crc, s, rec, first)|
    ensures HEADER + |x.payload| <= Room(x.at) && 1 <= x.typ <= 4
    decreases |rec|, if Room(|s|) == HEADER then 1 else 0
  {
    hide Fragment, Room, Padded, EmitOne;
    var n, s' := FragLen(s, rec), EmitOne(crc, s, rec, first);
    if n != |rec| {
      if n == 0 { EmptyFragment(crc, s, rec, first); }
      EmitExtends(crc, s', rec[n..], false);
      if x != Piece(|Padded(s)|, FragType(first, false), rec[..n]) { WrittenWhere(crc, s', rec[n..], false, x); }
    }
  }

  /** The header of a damaged fragment is as it was, so its sum is compared and found wrong. */
  lemma DamagedFragment(crc: Crc, f: ByteString, x: Piece, inRecord: bool, acc: ByteString)
    requires HEADER + |x.payload| <= Room(x.at) && x.at + HEADER + |x.payload| <= |f| && 1 <= x.typ <= 4
    requires f[x.at..x.at + HEADER] == Fragment(crc, x.typ, x.payload)[..HEADER]
    requires Checksum(crc, x.typ, f[x.at + HEADER..x.at + HEADER + |x.payload|]) != Checksum(crc, x.typ, x.payload)
    ensures ReadAt(crc, f, x.at, inRecord, acc) == (Corrupt, x.at)
  {
    hide Checksum, GetLE, Fragment;
    HeaderFields(crc, f, x.at, x.typ, x.payload);
    BlockEndOf(f, x.at, HEADER + |x.payload|);
  }

  lemma DamagedHeader(crc: Crc, f: ByteString, s: ByteString, rec: ByteString, first: bool)
    requires var p := |Padded(s)| + HEADER; p <= |f| && f[..p] == EmitOne(crc, s, rec, first)[..p]
    ensures var p, n := |Padded(s)|, FragLen(s, rec);
            f[p..p + HEADER] == Fragment(crc, FragType(first, n == |rec|), rec[..n])[..HEADER]
  {
    hide Fragment, Padded;
    var p, r := |Padded(s)|, EmitOne(crc, s, rec, first);
    assert f[p..p + HEADER] == f[..p + HEADER][p..] == r[..p + HEADER][p..] == r[p..][..HEADER];
  }

  lemma PrefixOf(a: ByteString, b: ByteString, f: ByteString, q: nat)
    requires a <= b && |a| <= q <= |b| && q <= |f| && f[..q] == b[..q]
    ensures a <= f
  {
    assert a == b[..|a|] == b[..q][..|a|] == f[..q][..|a|];
  }

  lemma PrefixCut(a: ByteString, b: ByteString, f: ByteString, q: nat)
    requires a <= b && q <= |a| && q <= |f| && f[..q] == b[..q]
    ensures f[..q] == a[..q]
  {
    assert a[..q] == b[..q];
  }

  lemma {:induction false} ReadDamaged(crc: Crc, f: ByteString, s: ByteString, rec: ByteString, first: bool, acc: ByteString, x: Piece)
    requires WrittenAs(crc, s, rec, first, x) && DamagedAt(crc, Emit(crc, s, rec, first), f, x)
    ensures |s| <= |f| && ReadAt(crc, f, |s|, !first, acc).0 == Corrupt
    decreases |rec|, if Room(|s|) == HEADER then 1 else 0
  {
    hide ReadAt, Padded, FragLen, Room, EmitOne, Checksum, Fragment;
    WrittenWhere(crc, s, rec, first, x);
    var n, s', r := FragLen(s, rec), EmitOne(crc, s, rec, first), Emit(crc, s, rec, first);
    var typ, q := FragType(first, n == |rec|), x.at + HEADER;
    if n != |rec| {
      if n == 0 { EmptyFragment(crc, s, rec, first); }
      EmitExtends(crc, s', rec[n..], false);
    }
    ReadSkipsPadding(crc, f, s, !first, acc);
    if x == Piece(|Padded(s)|, typ, rec[..n]) {
      PrefixCut(s', r, f, q);
      DamagedHeader(crc, f, s, rec, first);
      DamagedFragment(crc, f, x, !first, acc);
    } else {
      WrittenWhere(crc, s', rec[n..], false, x);
      PrefixOf(s', r, f, q);
      EmittedFragment(crc, f, s, rec, first);
      ReadFragment(crc, f, |Padded(s)|, typ, rec[..n], !first, acc);
      ReadDamaged(crc, f, s', rec[n..], false, acc + rec[..n], x);
    }
  }

  lemma {:induction false} ReadAllDamaged(crc: Crc, f: ByteString, s: ByteString, recs: seq<ByteString>, m: nat, x: Piece)
    requires m < |recs| && WrittenAs(crc, EmitAll(crc, s, recs[..m]), recs[m], true, x)
    requires DamagedAt(crc, EmitAll(crc, s, recs), f, x)
    ensures |s| <= |f| && ReadAll(crc, f, |s|) == (recs[..m], Corrupt)
    decreases m
  {
    hide ReadAt, Emit, Padded, Room, Checksum, WrittenAs;
    var s', q := Emit(crc, s, recs[0], true), x.at + HEADER;
    EmitExtends(crc, s, recs[0], true);
    EmitAllExtends(crc, s', recs[1..]);
    if m == 0 {
      assert recs[..0] == [];
      WrittenWhere(crc, s, recs[0], true, x);
      PrefixCut(s', EmitAll(crc, s, recs), f, q);
      ReadDamaged(crc, f, s, recs[0], true, [], x);
    } else {
      EmitAllHead(crc, s, recs, m - 1);
      EmitAllExtends(crc, s', recs[1..][..m - 1]);
      WrittenWhere(crc, EmitAll(crc, s, recs[..m]), recs[m], true, x);
      PrefixOf(s', EmitAll(crc, s, recs), f, q);
      ReadEmitted(crc, f, s, recs[0], true, []);
      ReadAllDamaged(crc, f, s', recs[1..], m - 1, x);
      assert [] + recs[0] == recs[0] && [recs[0]] + recs[1..][..m - 1] == recs[..m];
    }
  }

  /**
   A written log in which the payload of one fragment is changed, to one of the same length with
   another sum, reads back exactly the records before that fragment's and is then found corrupt,
   whatever follows the damage.
   */
  lemma DamagedLog(crc: Crc, recs: seq<ByteString>, m: nat, x: Piece, f: ByteString)
    requires m < |recs| && WrittenAs(crc, EmitAll(crc, [], recs[..m]), recs[m], true, x)
    requires DamagedAt(crc, EmitAll(crc, [], recs), f, x)
    ensures ReadAll(crc, f, 0) == (recs[..m], Corrupt)
  {
    hide EmitAll, ReadAll, WrittenAs, DamagedAt;
    ReadAllDamaged(crc, f, [], recs, m, x);
  }

  // ---- a log that ends in zeros

  lemma {:induction false} ZerosAre(w: nat)
    ensures GetLE(Zeros(w)) == 0
  {
    if w > 0 {
      assert Zeros(w)[1..] == Zeros(w - 1);
      ZerosAre(w - 1);
    }
  }

  lemma ZeroHeader(f: ByteString, p: nat)
    requires p + HEADER <= |f| && forall i :: p <= i < |f| ==> f[i] == 0
    ensures GetLE(f[p + 4..p + 6]) == 0 && f[p + 6] == 0
  {
    assert f[p + 4..p + 6] == Zeros(2);
    ZerosAre(2);
  }

  /** Zeros are passed over, block by block, to the end of the file. */
  lemma {:induction false} ReadZeros(crc: Crc, f: ByteString, p: nat)
    requires p <= |f| && forall i :: p <= i < |f| ==> f[i] == 0
    ensures ReadAt(crc, f, p, false, []).0 == Eof
    decreases |f| - p
  {
    hide Checksum, GetLE;
    var e := BlockEnd(f, p);
    if p + HEADER <= e { ZeroHeader(f, p); }
    if e != |f| { ReadZeros(crc, f, e); }
  }

  lemma {:induction false} ReadAllThenZeros(crc: Crc, f: ByteString, s: ByteString, recs: seq<ByteString>, n: nat)
    requires f == EmitAll(crc, s, recs) + Zeros(n)
    ensures |s| <= |f| && ReadAll(crc, f, |s|) == (recs, Eof)
    decreases |recs|
  {
    hide ReadAt, Emit, Zeros;
    EmitAllExtends(crc, s, recs);
    if recs == [] {
      forall i | |s| <= i < |f| ensures f[i] == 0 { ZeroAt(n, i - |s|); }
      ReadZeros(crc, f, |s|);
    } else {
      var s' := Emit(crc, s, recs[0], true);
      EmitAllExtends(crc, s', recs[1..]);
      ReadEmitted(crc, f, s, recs[0], true, []);
      ReadAllThenZeros(crc, f, s', recs[1..], n);
      assert [] + recs[0] == recs[0] && [recs[0]] + recs[1..] == recs;
    }
  }

  lemma ZeroAt(n: nat, i: nat)
    requires i < n
    ensures Zeros(n)[i] == 0
  {
  }

  /** A log followed by zeros, any number of them, is read in full and ends where they begin. */
  lemma ZeroTail(crc: Crc, recs: seq<ByteString>, n: nat)
    ensures ReadAll(crc, EmitAll(crc, [], recs) + Zeros(n), 0) == (recs, Eof)
  {
    hide EmitAll, ReadAll, Zeros;
    ReadAllThenZeros(crc, EmitAll(crc, [], recs) + Zeros(n), [], recs, n);
  }
}
