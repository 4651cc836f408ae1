/**
 The write-ahead log as a byte stream: how records are cut into fragments that fit 32 KB blocks
 and how they are put together again (internal/wal/format.go, writer.go, reader.go). The checksum
 is a parameter; nothing is assumed of it but that it is a function.
 */
module WalFormat {
  import opened Bytes

  const BLOCK: nat := 32 * 1024
  const HEADER: nat := 7

  const FULL: Byte := 1
  const FIRST: Byte := 2
  const MIDDLE: Byte := 3
  const LAST: Byte := 4

  type Crc = (Byte, ByteString) -> nat

  function Checksum(crc: Crc, typ: Byte, payload: ByteString): (c: nat)
    ensures c < U32
  {
    crc(typ, payload) % U32
  }

  /** One fragment: checksum, length, type, payload. */
  function Fragment(crc: Crc, typ: Byte, payload: ByteString): (s: ByteString)
    ensures |s| == HEADER + |payload|
  {
    PutLE(Checksum(crc, typ, payload), 4) + PutLE(|payload|, 2) + [typ] + payload
  }

  function Zeros(n: nat): (s: ByteString)
    ensures |s| == n
  {
    seq(n, i => 0)
  }

  // ---- writing

  /** The bytes left in the block a stream ends in. */
  function Room(n: nat): (r: nat)
    ensures 0 < r <= BLOCK
  {
    BLOCK - n % BLOCK
  }

  lemma ModOffset(q: nat, x: nat)
    requires x < BLOCK
    ensures (q * BLOCK + x) % BLOCK == x
  {
  }

  /** An offset into the block that starts at n. */
  lemma BlockOffset(n: nat, x: nat)
    requires n % BLOCK == 0 && x < BLOCK
    ensures (n + x) % BLOCK == x && Room(n + x) == BLOCK - x
  {
    ModOffset(n / BLOCK, x);
  }

  lemma BlockAfter(n: nat)
    requires n % BLOCK == 0
    ensures (n + BLOCK) % BLOCK == 0 && Room(n + BLOCK) == BLOCK
  {
    ModOffset(n / BLOCK + 1, 0);
  }

  /** The stream, padded to the next block if no header fits in this one. */
  function Padded(s: ByteString): (r: ByteString)
    ensures s <= r && Room(|r|) >= HEADER
    ensures Room(|s|) >= HEADER ==> r == s
    ensures Room(|s|) < HEADER ==> |r| == |s| + Room(|s|) && |r| % BLOCK == 0
  {
    if Room(|s|) < HEADER then s + Zeros(Room(|s|)) else s
  }

  function FragLen(s: ByteString, rec: ByteString): (n: nat)
    ensures n <= |rec| && HEADER + n <= Room(|Padded(s)|)
  {
    var avail := Room(|Padded(s)|) - HEADER;
    if |rec| > avail then avail else |rec|
  }

  function FragType(first: bool, whole: bool): (t: Byte)
    ensures 1 <= t <= 4
  {
    if first && whole then FULL else if first then FIRST else if whole then LAST else MIDDLE
  }

  /** The stream after one more fragment of rec. */
  function EmitOne(crc: Crc, s: ByteString, rec: ByteString, first: bool): (r: ByteString)
    ensures |r| == |Padded(s)| + HEADER + FragLen(s, rec) && Padded(s) <= r
  {
    var n := FragLen(s, rec);
    Padded(s) + Fragment(crc, FragType(first, n == |rec|), rec[..n])
  }

  /** A fragment is empty only where a header ends the block, and then the next block is fresh. */
  lemma EmptyFragment(crc: Crc, s: ByteString, rec: ByteString, first: bool)
    requires FragLen(s, rec) == 0 && rec != []
    ensures Room(|Padded(s)|) == HEADER && Room(|s|) == HEADER && Room(|EmitOne(crc, s, rec, first)|) == BLOCK
  {
  }

  /** Append: the stream after all fragments of a record. Ends although fragments may be empty. */
  function Emit(crc: Crc, s: ByteString, rec: ByteString, first: bool): (r: ByteString)
    decreases |rec|, if Room(|s|) == HEADER then 1 else 0
  {
    var n := FragLen(s, rec);
    var s' := EmitOne(crc, s, rec, first);
    if n == |rec| then s'
    else
      assert n == 0 ==> Room(|s'|) != HEADER && Room(|s|) == HEADER by {
        if n == 0 { EmptyFragment(crc, s, rec, first); }
      }
      Emit(crc, s', rec[n..], false)
  }

  function EmitAll(crc: Crc, s: ByteString, recs: seq<ByteString>): ByteString
    decreases |recs|
  {
    if recs == [] then s else EmitAll(crc, Emit(crc, s, recs[0], true), recs[1..])
  }

  lemma {:induction false} EmitExtends(crc: Crc, s: ByteString, rec: ByteString, first: bool)
    ensures s <= Emit(crc, s, rec, first) && |s| < |Emit(crc, s, rec, first)|
    decreases |rec|, if Room(|s|) == HEADER then 1 else 0
  {
    hide Fragment, Padded;
    var n := FragLen(s, rec);
    var s' := EmitOne(crc, s, rec, first);
    if n != |rec| {
      if n == 0 { EmptyFragment(crc, s, rec, first); }
      EmitExtends(crc, s', rec[n..], false);
    }
  }

  lemma {:induction false} EmitAllExtends(crc: Crc, s: ByteString, recs: seq<ByteString>)
    ensures s <= EmitAll(crc, s, recs)
    decreases |recs|
  {
    if recs != [] {
      EmitExtends(crc, s, recs[0], true);
      EmitAllExtends(crc, Emit(crc, s, recs[0], true), recs[1..]);
    }
  }

  // ---- reading

  datatype Outcome = Record(data: ByteString) | Eof | Short | Corrupt

  /** The end of the block that holds position p, or of the file. */
  function BlockEnd(f: ByteString, p: nat): (e: nat)
    ensures e <= |f|
  {
    if p - p % BLOCK + BLOCK <= |f| then p - p % BLOCK + BLOCK else |f|
  }

  /** What the end of the file means to the reader. */
  function AtEnd(inRecord: bool): Outcome {
    if inRecord then Short else Eof
  }

  /** ReadRecord at position p, with a record perhaps begun: the outcome and the position after it. */
  function ReadAt(crc: Crc, f: ByteString, p: nat, inRecord: bool, acc: ByteString): (r: (Outcome, nat))
    requires p <= |f|
    ensures r.1 <= |f| && p <= r.1 && (r.0.Record? ==> p < r.1)
    decreases |f| - p
  {
    var e := BlockEnd(f, p);
    if p + HEADER > e then
      if e == |f| then (AtEnd(inRecord), p) else ReadAt(crc, f, e, inRecord, acc)
    else
      var sum, length, typ := GetLE(f[p..p + 4]), GetLE(f[p + 4..p + 6]), f[p + 6];
      if length == 0 && typ == 0 then
        if e == |f| then (AtEnd(inRecord), e) else ReadAt(crc, f, e, inRecord, acc)
      else if p + HEADER + length > e then (Short, p)
      else
        var payload := f[p + HEADER..p + HEADER + length];
        var p' := p + HEADER + length;
        if sum != Checksum(crc, typ, payload) then (Corrupt, p)
        else if !inRecord then
          if typ == FULL then (Record(acc + payload), p')
          else if typ == FIRST then ReadAt(crc, f, p', true, acc + payload)
          else (Corrupt, p')
        else if typ == LAST then (Record(acc + payload), p')
        else if typ == MIDDLE then ReadAt(crc, f, p', true, acc + payload)
        else (Corrupt, p')
  }

  /** Everything a reader returns from position p on: the records, and what stopped it. */
  function ReadAll(crc: Crc, f: ByteString, p: nat): (r: (seq<ByteString>, Outcome))
    requires p <= |f|
    ensures !r.1.Record?
    decreases |f| - p
  {
    var (o, p') := ReadAt(crc, f, p, false, []);
    if o.Record? then
      var (rest, last) := ReadAll(crc, f, p');
      ([o.data] + rest, last)
    else ([], o)
  }
}
