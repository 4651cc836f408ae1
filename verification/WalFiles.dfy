/**
 The log's writer and reader over a block buffer, proved to produce and to consume the stream of
 WalFormat (internal/wal/writer.go, reader.go).
 */
module WalFiles {
  import opened Bytes
  import opened WalFormat

  /** Go's copy into a slice of a buffer. */
  method CopyInto(buf: array<Byte>, off: nat, src: ByteString)
    requires off + |src| <= buf.Length
    modifies buf
    ensures buf[off..off + |src|] == src
    ensures forall i :: 0 <= i < buf.Length && !(off <= i < off + |src|) ==> buf[i] == old(buf[i])
  {
    var i := 0;
    while i < |src|
      invariant 0 <= i <= |src|
      invariant forall j :: 0 <= j < i ==> buf[off + j] == src[j]
      invariant forall j :: 0 <= j < buf.Length && !(off <= j < off + i) ==> buf[j] == old(buf[j])
    {
      buf[off + i] := src[i];
      i := i + 1;
    }
  }

  lemma FragmentParts(crc: Crc, typ: Byte, payload: ByteString, b: ByteString)
    requires |b| == HEADER + |payload| && b[..4] == PutLE(Checksum(crc, typ, payload), 4)
    requires b[4..6] == PutLE(|payload|, 2) && b[6] == typ && b[7..] == payload
    ensures b == Fragment(crc, typ, payload)
  {
    hide PutLE, Checksum;
    assert b == b[..4] + b[4..6] + [b[6]] + b[7..];
  }

  ghost predicate Extends(a: ByteString, b: ByteString) {
    a <= b
  }

  lemma ExtendsSelf(a: ByteString)
    ensures Extends(a, a)
  {
  }

  lemma ExtendsTrans(a: ByteString, b: ByteString, d: ByteString)
    requires Extends(a, b) && Extends(b, d)
    ensures Extends(a, d)
  {
  }

  class Writer {
    var file: ByteString
    const blockBuf: array<Byte>
    var blockUsed: nat
    var closed: bool
    ghost var synced: nat

    /** Since the last sync only whole blocks have been written. */
    ghost predicate Valid()
      reads this, blockBuf
    {
      && blockBuf.Length == BLOCK && blockUsed <= BLOCK
      && synced <= |file| && (|file| - synced) % BLOCK == 0
    }

    /** Everything appended so far, written or still buffered. */
    ghost function Stream(): ByteString
      requires Valid()
      reads this, blockBuf
    {
      file + blockBuf[..blockUsed]
    }

    /** The part the writer lays out in blocks: what came after the last sync. */
    ghost function Recent(): ByteString
      requires Valid()
      reads this, blockBuf
    {
      file[synced..] + blockBuf[..blockUsed]
    }

    constructor ()
      ensures Valid() && !closed && Stream() == [] && Recent() == [] && fresh(blockBuf) && synced == 0
    {
      file := [];
      blockBuf := new Byte[BLOCK](i => 0);
      blockUsed := 0;
      closed := false;
      synced := 0;
    }

    method FlushBlock()
      requires Valid() && blockUsed in {0, BLOCK}
      modifies this`file, this`blockUsed
      ensures Valid() && blockUsed == 0
      ensures Recent() == old(Recent()) && Stream() == old(Stream()) && Extends(old(file), file)
    {
      if blockUsed == 0 { return; }
      assert (|file| + BLOCK - synced) % BLOCK == 0;
      file := file + blockBuf[..blockUsed];
      blockUsed := 0;
    }

    method EmitPhysicalRecord(crc: Crc, typ: Byte, payload: ByteString)
      requires Valid() && HEADER + |payload| <= BLOCK - blockUsed
      modifies this`blockUsed, blockBuf
      ensures Valid() && blockUsed == old(blockUsed) + HEADER + |payload|
      ensures Recent() == old(Recent()) + Fragment(crc, typ, payload)
    {
      hide PutLE, Checksum, Fragment;
      ghost var before := blockBuf[..blockUsed];
      var used := blockUsed;
      CopyInto(blockBuf, used + 4, PutLE(|payload| % U16, 2));
      blockBuf[used + 6] := typ;
      CopyInto(blockBuf, used + 7, payload);
      CopyInto(blockBuf, used, PutLE(Checksum(crc, typ, payload), 4));
      blockUsed := used + HEADER + |payload|;
      ghost var b := blockBuf[used..blockUsed];
      SliceAt(blockBuf[..], used, blockUsed, 0, 4);
      SliceAt(blockBuf[..], used, blockUsed, 4, 6);
      SliceAt(blockBuf[..], used, blockUsed, 7, HEADER + |payload|);
      assert blockBuf[..][used..blockUsed] == b && b[7..] == b[7..HEADER + |payload|];
      FragmentParts(crc, typ, payload, b);
      assert blockBuf[..used] == before;
      assert blockBuf[..blockUsed] == before + b;
      assert file[synced..] + (before + b) == file[synced..] + before + b;
    }

    /** Pads the block with zeros. */
    method PadBlock()
      requires Valid()
      modifies this`blockUsed, blockBuf
      ensures Valid() && blockUsed == BLOCK && Recent() == old(Recent()) + Zeros(BLOCK - old(blockUsed))
    {
      var rem := BLOCK - blockUsed;
      ghost var before := blockBuf[..blockUsed];
      var i := 0;
      while i < rem
        invariant 0 <= i <= rem && rem == BLOCK - blockUsed
        invariant forall j :: blockUsed <= j < blockUsed + i ==> blockBuf[j] == 0
        invariant blockBuf[..blockUsed] == before
      {
        blockBuf[blockUsed + i] := 0;
        i := i + 1;
      }
      blockUsed := blockUsed + rem;
      assert blockBuf[..blockUsed] == before + Zeros(rem);
      assert file[synced..] + (before + Zeros(rem)) == file[synced..] + before + Zeros(rem);
    }

    /** Moves to a fresh block if no header fits in this one. */
    method MakeRoom() returns (rem: nat)
      requires Valid()
      modifies this`file, this`blockUsed, blockBuf
      ensures Valid() && Extends(old(file), file)
      ensures Recent() == Padded(old(Recent())) && rem == BLOCK - blockUsed == Room(|Recent()|)
    {
      hide Padded, Room;
      ghost var s := Recent();
      UsedIs(|file| - synced, blockUsed);
      rem := BLOCK - blockUsed;
      if rem < HEADER {
        if rem > 0 { PadBlock(); }
        FlushBlock();
        rem := BLOCK;
      }
      PaddedIs(s, Recent(), rem);
    }

    /** The next fragment of what is left of a record. */
    method EmitFragment(crc: Crc, rest: ByteString, first: bool) returns (frag: nat)
      requires Valid()
      modifies this`file, this`blockUsed, blockBuf
      ensures Valid() && Extends(old(file), file) && frag == FragLen(old(Recent()), rest)
      ensures Recent() == EmitOne(crc, old(Recent()), rest, first)
    {
      hide Fragment, Padded, Room;
      var rem := MakeRoom();
      var avail := rem - HEADER;
      frag := |rest|;
      if frag > avail { frag := avail; }
      EmitPhysicalRecord(crc, FragType(first, frag == |rest|), rest[..frag]);
    }

    /** Cuts a record into fragments; says false, and does nothing, once the writer is closed. */
    method Append(crc: Crc, record: ByteString) returns (ok: bool)
      requires Valid()
      modifies this`file, this`blockUsed, blockBuf
      ensures Valid() && ok == !closed && Extends(old(file), file)
      ensures Recent() == if ok then Emit(crc, old(Recent()), record, true) else old(Recent())
    {
      hide Emit, EmitOne, Room, FragLen, Extends, Writer.Valid, Writer.Recent;
      ExtendsSelf(file);
      if closed { return false; }
      ok := true;
      var left := |record|;
      var ptr := 0;
      var first := true;
      ghost var total := Emit(crc, Recent(), record, true);
      ghost var spare := Room(|Recent()|);
      assert record[0..] == record;
      while true
        invariant Valid() && 0 <= ptr && left == |record| - ptr >= 0 && Extends(old(file), file) && spare == Room(|Recent()|)
        invariant Emit(crc, Recent(), record[ptr..], first) == total
        decreases left, if spare == HEADER then 1 else 0
      {
        ghost var s := Recent();
        EmitUnfold(crc, s, record[ptr..], first);
        ghost var f := file;
        var frag := EmitFragment(crc, record[ptr..], first);
        ExtendsTrans(old(file), f, file);
        assert record[ptr..][frag..] == record[ptr + frag..];
        ptr := ptr + frag;
        left := left - frag;
        first := false;
        spare := Room(|Recent()|);
        if left <= 0 { break; }
      }
    }

    /** Writes the buffer out; the next record starts as if at the start of a block. */
    method Sync() returns (ok: bool)
      requires Valid()
      modifies this`file, this`blockUsed, this`synced
      ensures Valid() && ok == !closed
      ensures Stream() == old(Stream())
      ensures ok ==> file == Stream() && Recent() == []
    {
      if closed { return false; }
      file := file + blockBuf[..blockUsed];
      blockUsed := 0;
      synced := |file|;
      return true;
    }

    method Close()
      requires Valid()
      modifies this`file, this`blockUsed, this`closed, this`synced
      ensures Valid() && closed && (!old(closed) ==> file == old(Stream()))
    {
      if closed { return; }
      closed := true;
      file := file + blockBuf[..blockUsed];
      blockUsed := 0;
      synced := |file|;
    }
  }

  lemma UsedIs(n: nat, used: nat)
    requires n % BLOCK == 0 && used <= BLOCK
    ensures used < BLOCK ==> Room(n + used) == BLOCK - used
    ensures used == BLOCK ==> Room(n + used) == BLOCK
  {
    hide Room;
    if used < BLOCK { BlockOffset(n, used); } else { BlockAfter(n); }
  }

  /** Padding and flushing is what the stream calls Padded. */
  lemma PaddedIs(s: ByteString, s': ByteString, rem: nat)
    requires (Room(|s|) >= HEADER && s' == s && rem == Room(|s|)) || (Room(|s|) < HEADER && s' == s + Zeros(Room(|s|)) && rem == BLOCK)
    ensures s' == Padded(s) && rem == Room(|Padded(s)|)
  {
  }

  lemma EmitUnfold(crc: Crc, s: ByteString, rec: ByteString, first: bool)
    ensures var n, s' := FragLen(s, rec), EmitOne(crc, s, rec, first);
            && n <= |rec|
            && Emit(crc, s, rec, first) == (if n == |rec| then s' else Emit(crc, s', rec[n..], false))
            && (n == 0 && rec != [] ==> Room(|s|) == HEADER && Room(|s'|) == BLOCK)
  {
    hide Fragment, EmitOne, FragLen;
    if FragLen(s, rec) == 0 && rec != [] { EmptyFragment(crc, s, rec, first); }
  }

  lemma BlockEndIs(f: ByteString, start: nat, used: nat, off: nat)
    requires start % BLOCK == 0 && off < used <= BLOCK && start + used <= |f|
    requires used == BLOCK || start + used == |f|
    ensures BlockEnd(f, start + off) == start + used
  {
    hide Room;
    BlockOffset(start, off);
  }

  /** What the reader finds at a header: a fragment, padding, or something it cannot use. */
  datatype Found = Piece(typ: Byte, payload: ByteString) | Padding | Unusable(outcome: Outcome)

  function Look(crc: Crc, f: ByteString, p: nat, e: nat): Found
    requires p + HEADER <= e <= |f|
  {
    var sum, length, typ := GetLE(f[p..p + 4]), GetLE(f[p + 4..p + 6]), f[p + 6];
    if length == 0 && typ == 0 then Padding
    else if p + HEADER + length > e then Unusable(Short)
    else if sum != Checksum(crc, typ, f[p + HEADER..p + HEADER + length]) then Unusable(Corrupt)
    else Piece(typ, f[p + HEADER..p + HEADER + length])
  }

  /** One header, as the reader takes it from its block. */
  lemma ReadStep(crc: Crc, f: ByteString, p: nat, e: nat, inRecord: bool, acc: ByteString)
    requires p <= |f| && e == BlockEnd(f, p) && p + HEADER <= e
    ensures var found := Look(crc, f, p, e);
            && (found.Piece? ==> p + HEADER + |found.payload| <= e)
            && ReadAt(crc, f, p, inRecord, acc)
               == match found
                  case Padding => ReadAt(crc, f, e, inRecord, acc)
                  case Unusable(o) => (o, p)
                  case Piece(typ, payload) =>
                    var p' := p + HEADER + |payload|;
                    if typ == (if inRecord then LAST else FULL) then (Record(acc + payload), p')
                    else if typ == (if inRecord then MIDDLE else FIRST) then ReadAt(crc, f, p', true, acc + payload)
                    else (Corrupt, p')
  {
    hide Checksum, GetLE;
    if e == |f| { EndOfFile(crc, f, inRecord, acc); }
  }

  lemma EndOfFile(crc: Crc, f: ByteString, inRecord: bool, acc: ByteString)
    ensures ReadAt(crc, f, |f|, inRecord, acc) == (AtEnd(inRecord), |f|)
  {
  }

  lemma ReadNextBlock(crc: Crc, f: ByteString, p: nat, e: nat, inRecord: bool, acc: ByteString)
    requires p <= e <= |f| && p + HEADER > e
    requires e == BlockEnd(f, p) || (p == e && e % BLOCK == 0)
    ensures ReadAt(crc, f, p, inRecord, acc) == if e == |f| then (AtEnd(inRecord), p) else ReadAt(crc, f, e, inRecord, acc)
  {
    hide Checksum, GetLE;
  }

  class Reader {
    const file: ByteString
    const blockBuf: array<Byte>
    var pos: nat
    var blockUsed: nat
    var blockOff: nat
    var eof: bool

    /** The buffer holds the block of the file that ends at pos. */
    ghost predicate Valid()
      reads this, blockBuf
    {
      && blockBuf.Length == BLOCK && blockOff <= blockUsed <= BLOCK && blockUsed <= pos <= |file|
      && (pos - blockUsed) % BLOCK == 0
      && (0 < blockUsed < BLOCK ==> pos == |file|) && (blockUsed == 0 ==> pos == 0)
      && (eof ==> pos == |file|) && Buffered()
    }

    /** The buffer holds the last block read. */
    ghost predicate Buffered()
      reads this`pos, this`blockUsed, blockBuf
    {
      blockUsed <= blockBuf.Length && blockUsed <= pos <= |file| && blockBuf[..blockUsed] == file[pos - blockUsed..pos]
    }

    /** How far the file has been read. */
    ghost function At(): (p: nat)
      requires Valid()
      reads this, blockBuf
      ensures p <= |file|
    {
      pos - blockUsed + blockOff
    }

    constructor (f: ByteString)
      ensures Valid() && At() == 0 && file == f && fresh(blockBuf)
    {
      file := f;
      blockBuf := new Byte[BLOCK](i => 0);
      pos, blockUsed, blockOff, eof := 0, 0, 0, false;
    }

    /** Reads the next block, or finds the end of the file. */
    method ReadBlock() returns (more: bool)
      requires Valid() && !eof
      modifies this`pos, this`blockUsed, this`blockOff, this`eof, blockBuf
      ensures Valid() && more == (old(pos) < |file|)
      ensures more ==> At() == old(pos) && pos > old(pos) && pos == BlockEnd(file, old(pos)) && blockOff == 0
      ensures !more ==> eof && At() == old(At()) && pos == old(pos)
    {
      var n := if |file| - pos < BLOCK then |file| - pos else BLOCK;
      if n == 0 {
        eof := true;
        return false;
      }
      CopyInto(blockBuf, 0, file[pos..pos + n]);
      if n < BLOCK { eof := true; }
      pos, blockUsed, blockOff := pos + n, n, 0;
      return true;
    }

    /** A slice of the buffer is a slice of the file. */
    method Peek(lo: nat, hi: nat) returns (s: ByteString)
      requires Valid() && lo <= hi <= blockUsed
      ensures s == file[pos - blockUsed + lo..pos - blockUsed + hi]
    {
      s := blockBuf[lo..hi];
      ghost var all := blockBuf[..];
      assert s == all[lo..hi] && blockBuf[..blockUsed] == all[0..blockUsed];
      SliceAt(all, 0, blockUsed, lo, hi);
      SliceAt(file, pos - blockUsed, pos, lo, hi);
    }

    /** The fields of the header at blockOff. */
    method Header() returns (sum: nat, length: nat, typ: Byte)
      requires Valid() && blockOff + HEADER <= blockUsed
      ensures At() + HEADER <= pos
      ensures sum == GetLE(file[At()..At() + 4]) && length == GetLE(file[At() + 4..At() + 6]) && typ == file[At() + 6]
    {
      hide GetLE;
      var sumBytes := Peek(blockOff, blockOff + 4);
      var lengthBytes := Peek(blockOff + 4, blockOff + 6);
      var typByte := Peek(blockOff + 6, blockOff + 7);
      return GetLE(sumBytes), GetLE(lengthBytes), typByte[0];
    }

    /** The payload behind the header at blockOff. */
    method Payload(length: nat) returns (payload: ByteString)
      requires Valid() && blockOff + HEADER + length <= blockUsed
      ensures At() + HEADER + length <= pos && payload == file[At() + HEADER..At() + HEADER + length]
    {
      payload := Peek(blockOff + HEADER, blockOff + HEADER + length);
    }

    /** Examines the header at blockOff. */
    method Inspect(crc: Crc) returns (found: Found)
      requires Valid() && blockOff + HEADER <= blockUsed
      ensures At() + HEADER <= pos && found == Look(crc, file, At(), pos)
    {
      hide GetLE, Checksum;
      var sum, length, typ := Header();
      if length == 0 && typ == 0 { return Padding; }
      if blockOff + HEADER + length > blockUsed { return Unusable(Short); }
      var payload := Payload(length);
      if sum != Checksum(crc, typ, payload) { return Unusable(Corrupt); }
      return Piece(typ, payload);
    }

    /** Reassembles the next record from its fragments. */
    method ReadRecord(crc: Crc) returns (o: Outcome)
      requires Valid()
      modifies this`pos, this`blockUsed, this`blockOff, this`eof, blockBuf
      ensures Valid()
      ensures (o, At()) == ReadAt(crc, file, old(At()), false, [])
    {
      hide ReadAt, BlockEnd, Look, Buffered;
      var record: ByteString := [];
      var inRecord := false;
      ghost var total := ReadAt(crc, file, At(), false, []);
      while true
        invariant Valid() && ReadAt(crc, file, At(), inRecord, record) == total
        decreases |file| - pos, blockUsed - blockOff
      {
        if blockOff + HEADER > blockUsed {
          NextBlockIs(crc, file, pos, blockUsed, blockOff, inRecord, record);
          if !eof {
            var more := ReadBlock();
            if more { continue; }
          }
          return AtEnd(inRecord);
        }
        BlockEndIs(file, pos - blockUsed, blockUsed, blockOff);
        ReadStep(crc, file, At(), pos, inRecord, record);
        var found := Inspect(crc);
        if found.Padding? {
          blockOff := blockUsed;
        } else if found.Unusable? {
          return found.outcome;
        } else {
          blockOff := blockOff + HEADER + |found.payload|;
          var typ := found.typ;
          if !inRecord {
            if typ == FIRST || typ == FULL {
              record := record + found.payload;
              inRecord := typ == FIRST;
              if typ == FULL { return Record(record); }
            } else {
              return Corrupt;
            }
          } else {
            if typ == MIDDLE || typ == LAST {
              record := record + found.payload;
              if typ == LAST { return Record(record); }
            } else {
              return Corrupt;
            }
          }
        }
      }
    }
  }

  lemma NextBlockIs(crc: Crc, f: ByteString, pos: nat, used: nat, off: nat, inRecord: bool, acc: ByteString)
    requires off <= used <= BLOCK && used <= pos <= |f| && (pos - used) % BLOCK == 0 && off + HEADER > used
    requires (0 < used < BLOCK ==> pos == |f|)
    ensures var p := pos - used + off;
            ReadAt(crc, f, p, inRecord, acc) == if pos == |f| then (AtEnd(inRecord), p) else ReadAt(crc, f, pos, inRecord, acc)
  {
    hide ReadAt;
    if off < used { BlockEndIs(f, pos - used, used, off); }
    ReadNextBlock(crc, f, pos - used + off, pos, inRecord, acc);
  }
}
