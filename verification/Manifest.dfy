/**
 The manifest: edits applied in memory and appended to a file, and the replay of that file
 (internal/lsm/manifest.go).
 */
module Manifest {
  import opened Bytes
  import opened KeyOrder
  import opened Levels
  import opened ManifestFormat

  type Version = seq<seq<FileMeta>>

  const EMPTY_VERSION: Version := [[], [], [], [], [], [], []]

  function MetaNum(f: FileMeta): nat { f.num }
  function MetaSmallest(f: FileMeta): Key { f.smallest }

  function Placed(adds: seq<FileMeta>): (r: seq<(nat, FileMeta)>)
    ensures |r| == |adds|
  {
    seq(|adds|, i requires 0 <= i < |adds| => (adds[i].level, adds[i]))
  }

  /** The levels an edit names exist; Go's array index panics on any other. */
  predicate InRange(e: VersionEdit) {
    (forall i :: 0 <= i < |e.dels| ==> e.dels[i].0 < MAX_LEVELS) && (forall i :: 0 <= i < |e.adds| ==> e.adds[i].level < MAX_LEVELS)
  }

  lemma PlacedInRange(e: VersionEdit)
    requires InRange(e)
    ensures forall d :: d in e.dels ==> d.0 < MAX_LEVELS
    ensures forall a :: a in Placed(e.adds) ==> a.0 < MAX_LEVELS
  {
  }

  /** applyEditToMemory on the levels. */
  function Applied(v: Version, e: VersionEdit): (r: Version)
    requires |v| == MAX_LEVELS && InRange(e)
    ensures |r| == MAX_LEVELS
  {
    PlacedInRange(e);
    ApplyEdit(v, e.dels, Placed(e.adds), MetaNum, MetaSmallest)
  }

  function Max(a: nat, b: nat): nat { if a < b then b else a }

  /** The levels and the file counter. */
  datatype State = State(levels: Version, next: nat)

  const START := State(EMPTY_VERSION, 1)

  function Step(s: State, e: VersionEdit): (r: State)
    requires |s.levels| == MAX_LEVELS && InRange(e)
    ensures |r.levels| == MAX_LEVELS
  {
    State(Applied(s.levels, e), Max(s.next, e.next))
  }

  predicate AllOk(es: seq<VersionEdit>) {
    forall i :: 0 <= i < |es| ==> InRange(es[i]) && EditFits(es[i])
  }

  function Steps(s: State, es: seq<VersionEdit>): (r: State)
    requires |s.levels| == MAX_LEVELS && AllOk(es)
    ensures |r.levels| == MAX_LEVELS
    decreases |es|
  {
    if es == [] then s else Steps(Step(s, es[0]), es[1..])
  }

  // ---- the file

  function Chunk(e: VersionEdit): ByteString {
    PutLE(|EncodeEdit(e)|, 4) + EncodeEdit(e)
  }

  function FileOf(es: seq<VersionEdit>): ByteString {
    if es == [] then [] else Chunk(es[0]) + FileOf(es[1..])
  }

  /** The replay of OpenManifest from off on; none when it fails. */
  function Replay(data: ByteString, off: nat, s: State): Option<State>
    requires |s.levels| == MAX_LEVELS && off <= |data|
    decreases |data| - off
  {
    if off + 4 > |data| then Some(s)
    else
      var n := GetLE(data[off..off + 4]);
      if off + 4 + n > |data| then Some(s)
      else
        var e := DecodeEdit(data[off + 4..off + 4 + n]);
        if e.None? || !InRange(e.value) then None
        else Replay(data, off + 4 + n, Step(s, e.value))
  }

  /** A whole edit at off is read and applied. */
  lemma ReplayChunk(data: ByteString, off: nat, s: State, e: VersionEdit)
    requires |s.levels| == MAX_LEVELS && InRange(e) && EditFits(e)
    requires off + |Chunk(e)| <= |data| && data[off..off + |Chunk(e)|] == Chunk(e)
    ensures Replay(data, off, s) == Replay(data, off + |Chunk(e)|, Step(s, e))
  {
    hide GetLE, PutLE, EncodeEdit, DecodeEdit, Step;
    var body := EncodeEdit(e);
    var g := data[off..off + |Chunk(e)|];
    PowValues();
    RoundTripLE(|body|, 4);
    EditRoundTrip(e);
    assert data[off..off + 4] == g[..4] == PutLE(|body|, 4);
    assert data[off + 4..off + 4 + |body|] == g[4..] == body;
  }

  /** A torn edit ends the replay. */
  lemma ReplayTorn(data: ByteString, off: nat, s: State, e: VersionEdit)
    requires |s.levels| == MAX_LEVELS && EditFits(e)
    requires off <= |data| < off + |Chunk(e)| && data[off..] <= Chunk(e)
    ensures Replay(data, off, s) == Some(s)
  {
    hide GetLE, PutLE, EncodeEdit, DecodeEdit, Step;
    if off + 4 <= |data| {
      var body := EncodeEdit(e);
      PowValues();
      RoundTripLE(|body|, 4);
      assert data[off..off + 4] == data[off..][..4] == PutLE(|body|, 4);
    }
  }

  /** m edits are wholly in the first n bytes of their file, and no more. */
  ghost predicate WholeEdits(es: seq<VersionEdit>, n: nat, m: nat) {
    m <= |es| && |FileOf(es[..m])| <= n && (m < |es| ==> n < |FileOf(es[..m + 1])|)
  }

  lemma FileHead(es: seq<VersionEdit>, k: nat)
    requires k < |es|
    ensures FileOf(es[..k + 1]) == Chunk(es[0]) + FileOf(es[1..][..k])
  {
    hide Chunk;
    assert es[..k + 1][1..] == es[1..][..k];
  }

  lemma {:induction false} ReplayPrefix(pre: ByteString, data: ByteString, s: State, es: seq<VersionEdit>) returns (m: nat)
    requires |s.levels| == MAX_LEVELS && AllOk(es) && pre <= data <= pre + FileOf(es)
    ensures WholeEdits(es, |data| - |pre|, m) && Replay(data, |pre|, s) == Some(Steps(s, es[..m]))
    decreases |es|
  {
    hide Chunk, Step, Replay, InRange, EditFits;
    if es == [] {
      m := 0;
      ReplayEnd(data, s);
    } else {
      var e := es[0];
      var pre' := pre + Chunk(e);
      assert pre + FileOf(es) == pre' + FileOf(es[1..]);
      if |pre'| <= |data| {
        assert pre' <= data && data[|pre|..|pre'|] == Chunk(e);
        ReplayChunk(data, |pre|, s, e);
        var k := ReplayPrefix(pre', data, Step(s, e), es[1..]);
        m := k + 1;
        FileHead(es, k);
        if m < |es| { FileHead(es, m); }
        assert es[..m][1..] == es[1..][..k];
      } else {
        m := 0;
        assert data[|pre|..] <= Chunk(e);
        ReplayTorn(data, |pre|, s, e);
        FileHead(es, 0);
        assert es[1..][..0] == [] && es[..0] == [];
      }
    }
  }

  lemma ReplayEnd(data: ByteString, s: State)
    requires |s.levels| == MAX_LEVELS
    ensures Replay(data, |data|, s) == Some(s)
  {
  }

  /**
   Replaying the first n bytes of a manifest rebuilds the levels after exactly the edits wholly in
   them; with n the whole length, after all edits.
   */
  lemma ManifestReplay(es: seq<VersionEdit>, n: nat) returns (m: nat)
    requires AllOk(es) && n <= |FileOf(es)|
    ensures WholeEdits(es, n, m) && (n == |FileOf(es)| ==> m == |es|)
    ensures Replay(FileOf(es)[..n], 0, START) == Some(Steps(START, es[..m]))
  {
    hide Replay, Steps;
    m := ReplayPrefix([], FileOf(es)[..n], START, es);
    if n == |FileOf(es)| && m < |es| {
      FilePrefix(es, m + 1);
      assert false;
    }
  }

  lemma {:induction false} FilePrefix(es: seq<VersionEdit>, m: nat)
    requires m <= |es|
    ensures |FileOf(es[..m])| <= |FileOf(es)|
    decreases |es|
  {
    hide Chunk;
    if m > 0 {
      FilePrefix(es[1..], m - 1);
      FileHead(es, m - 1);
    }
  }

  // ---- what replay does not restore

  lemma {:induction false} CounterUnmoved(s: State, es: seq<VersionEdit>)
    requires |s.levels| == MAX_LEVELS && AllOk(es)
    ensures Steps(s, es).next >= s.next
    ensures Steps(s, es).next == s.next <==> forall i :: 0 <= i < |es| ==> es[i].next <= s.next
    decreases |es|
  {
    hide InRange, EditFits;
    if es != [] {
      CounterUnmoved(Step(s, es[0]), es[1..]);
      assert forall i :: 1 <= i < |es| ==> es[i] == es[1..][i - 1];
    }
  }

  /**
   The edits of flushes and compactions carry no counter, so after a restart numbering starts
   again at one, whatever numbers live files have.
   */
  lemma CounterLost(es: seq<VersionEdit>)
    requires AllOk(es)
    ensures (forall i :: 0 <= i < |es| ==> es[i].next <= 1) <==> Steps(START, es).next == 1
  {
    CounterUnmoved(START, es);
  }

  // ---- appending behind a torn edit

  /** A replay depends only on the bytes from its offset on. */
  lemma {:induction false} ReplayShift(pre: ByteString, data: ByteString, off: nat, s: State)
    requires |s.levels| == MAX_LEVELS && off <= |data|
    ensures Replay(pre + data, |pre| + off, s) == Replay(data, off, s)
    decreases |data| - off
  {
    hide GetLE, DecodeEdit, Step, InRange;
    var all, at := pre + data, |pre| + off;
    if off + 4 <= |data| {
      assert all[at..at + 4] == data[off..off + 4];
      var n := GetLE(data[off..off + 4]);
      if off + 4 + n <= |data| {
        var body := data[off + 4..off + 4 + n];
        assert all[at + 4..at + 4 + n] == body;
        var e := DecodeEdit(body);
        if e.Some? && InRange(e.value) { ReplayShift(pre, data, off + 4 + n, Step(s, e.value)); }
      }
    }
  }

  /** Whole edits at the front of a file are replayed first, whatever follows them. */
  lemma {:induction false} ReplayFirst(es: seq<VersionEdit>, rest: ByteString, s: State)
    requires |s.levels| == MAX_LEVELS && AllOk(es)
    ensures Replay(FileOf(es) + rest, 0, s) == Replay(rest, 0, Steps(s, es))
    decreases |es|
  {
    hide Chunk, Step, Replay, InRange, EditFits;
    if es == [] {
      assert FileOf(es) + rest == rest;
    } else {
      var e, tail := es[0], FileOf(es[1..]) + rest;
      var data := Chunk(e) + tail;
      assert FileOf(es) + rest == data;
      assert data[0..0 + |Chunk(e)|] == Chunk(e);
      ReplayChunk(data, 0, s, e);
      ReplayShift(Chunk(e), tail, 0, Step(s, e));
      ReplayFirst(es[1..], rest, Step(s, e));
    }
  }

  lemma ReplayWhole(es: seq<VersionEdit>)
    requires AllOk(es)
    ensures Replay(FileOf(es), 0, START) == Some(Steps(START, es))
  {
    hide Replay, Steps, FileOf, AllOk;
    ReplayFirst(es, [], START);
    assert FileOf(es) + [] == FileOf(es);
    ReplayEnd([], Steps(START, es));
  }

  /** What a replay makes of the bytes at an offset, one edit on. */
  function ReplayOne(whole: ByteString, s: State): Option<State>
    requires |s.levels| == MAX_LEVELS
  {
    if |whole| < 4 || |whole| < 4 + GetLE(whole[..4]) then Some(s)
    else
      var n := GetLE(whole[..4]);
      var e := DecodeEdit(whole[4..4 + n]);
      if e.None? || !InRange(e.value) then None else Replay(whole, 4 + n, Step(s, e.value))
  }

  /**
   Opening does not cut a torn edit off, so later edits are written behind it. With nothing torn the
   replay gives all edits, old and new. Behind a torn edit it gives the old ones and then goes by the
   length the tear and the new bytes spell: it stops there if they are too few, fails if they do not
   decode, and otherwise takes the mixture for an edit. If the tear has its whole length prefix, the
   length is that of the torn edit.
   */
  lemma AppendAfterTear(es: seq<VersionEdit>, torn: VersionEdit, tear: ByteString, more: seq<VersionEdit>)
    requires AllOk(es) && AllOk(more) && EditFits(torn) && tear < Chunk(torn)
    ensures var r := Replay(FileOf(es) + tear + FileOf(more), 0, START);
            && (tear == [] ==> r == Some(Steps(Steps(START, es), more)))
            && r == ReplayOne(tear + FileOf(more), Steps(START, es))
            && (|tear| >= 4 ==> GetLE((tear + FileOf(more))[..4]) == |EncodeEdit(torn)|)
            && (4 <= |tear| && |tear| + |FileOf(more)| < |Chunk(torn)| ==> r == Some(Steps(START, es)))
  {
    hide Steps, Replay, GetLE, PutLE, EncodeEdit, DecodeEdit, AllOk, InRange, FileOf, Step;
    var s, whole := Steps(START, es), tear + FileOf(more);
    assert FileOf(es) + tear + FileOf(more) == FileOf(es) + whole;
    ReplayFirst(es, whole, START);
    ReplayUnfold(whole, s);
    if tear == [] {
      assert whole == FileOf(more) + [];
      ReplayFirst(more, [], s);
      ReplayEnd([], Steps(s, more));
    }
    if |tear| >= 4 {
      PowValues();
      RoundTripLE(|EncodeEdit(torn)|, 4);
      assert whole[..4] == tear[..4] == Chunk(torn)[..4] == PutLE(|EncodeEdit(torn)|, 4);
    }
  }

  lemma ReplayUnfold(whole: ByteString, s: State)
    requires |s.levels| == MAX_LEVELS
    ensures Replay(whole, 0, s) == ReplayOne(whole, s)
  {
    hide GetLE, DecodeEdit, Step, InRange;
    if |whole| >= 4 { assert whole[0..4] == whole[..4]; }
  }

  /** Everything appended behind the tear is replayed. */
  ghost predicate AllReplayed(es: seq<VersionEdit>, tear: ByteString)
    requires AllOk(es)
  {
    forall more :: AllOk(more) ==> Replay(FileOf(es) + tear + FileOf(more), 0, START) == Some(Steps(Steps(START, es), more))
  }

  function CounterEdit(n: nat): VersionEdit {
    VersionEdit([], [], n)
  }

  lemma CounterChunk(n: nat)
    requires n < U64
    ensures AllOk([CounterEdit(n)]) && FileOf([CounterEdit(n)]) == Chunk(CounterEdit(n))
    ensures |Chunk(CounterEdit(n))| == 20 && Chunk(CounterEdit(n))[0] == 16
  {
    hide PutLE;
    var e := CounterEdit(n);
    assert EncodeDels([]) == [] && EncodeAdds([]) == [];
    assert [e][1..] == [] && Chunk(e) + [] == Chunk(e);
    PutSmall(16, 4);
  }

  lemma {:induction false} TopByte(s: ByteString, i: nat)
    requires i < |s| && s[i] == 16
    ensures GetLE(s) >= 16 && (i > 0 ==> GetLE(s) >= 4096)
  {
    if i > 0 { TopByte(s[1..], i - 1); }
  }

  /** Fewer than twenty bytes hold no edit. */
  lemma ShortRest(data: ByteString, off: nat, s: State)
    requires |s.levels| == MAX_LEVELS && off <= |data| < off + 20
    ensures var r := Replay(data, off, s); r == None || r == Some(s)
  {
    hide GetLE;
    if off + 4 <= |data| {
      var n := GetLE(data[off..off + 4]);
      if off + 4 + n <= |data| && DecodeEdit(data[off + 4..off + 4 + n]).Some? {
        DecodeNeeds(data[off + 4..off + 4 + n]);
        assert false;
      }
    }
  }

  /** The counter of the edit a tear is completed to ends in a byte that the appended counter does not change. */
  lemma MixedCounter(tear: ByteString, ch: ByteString, n: nat)
    requires |tear| >= 4 && |ch| == 20 && ch[0] == 16 && 4 + n <= |tear + ch|
    requires DecodeEdit((tear + ch)[4..4 + n]).Some?
    ensures DecodeEdit((tear + ch)[4..4 + n]).value.next % 256 == if |tear| > 4 then tear[4] else 16
  {
    hide GetLE;
    var body := (tear + ch)[4..4 + n];
    DecodeNeeds(body);
    FirstByte(body[..8]);
    assert body[0..8] == body[..8];
    assert body[0] == (tear + ch)[4];
  }

  lemma FirstByte(s: ByteString)
    requires s != []
    ensures GetLE(s) % 256 == s[0]
  {
  }

  /** What can come back of an appended counter: nothing, the old one, or one ending in that byte. */
  lemma CounterBehindTear(es: seq<VersionEdit>, torn: VersionEdit, tear: ByteString, n: nat)
    requires AllOk(es) && EditFits(torn) && [] < tear < Chunk(torn) && Steps(START, es).next < n < U64
    requires AllOk([CounterEdit(n)])
    requires Replay(FileOf(es) + tear + FileOf([CounterEdit(n)]), 0, START) == Some(Steps(Steps(START, es), [CounterEdit(n)]))
    ensures |tear| >= 4 && n % 256 == if |tear| > 4 then tear[4] else 16
  {
    hide Steps, Replay, GetLE, PutLE, EncodeEdit, DecodeEdit, AllOk, InRange, FileOf, Chunk, Applied;
    var s, ch := Steps(START, es), Chunk(CounterEdit(n));
    var whole := tear + ch;
    CounterChunk(n);
    StepsOne(s, CounterEdit(n));
    AppendAfterTear(es, torn, tear, [CounterEdit(n)]);
    if |tear| < 4 {
      assert whole[..4][|tear|] == 16;
      TopByte(whole[..4], |tear|);
      assert false;
    }
    var len := GetLE(whole[..4]);
    assert |whole| >= 4 + len;
    MixedCounter(tear, ch, len);
    TornLength(torn, tear);
    var e := DecodeEdit(whole[4..4 + len]).value;
    ShortRest(whole, 4 + len, Step(s, e));
  }

  lemma TornLength(torn: VersionEdit, tear: ByteString)
    requires tear < Chunk(torn)
    ensures |tear| < 4 + |EncodeEdit(torn)|
  {
  }

  lemma StepsOne(s: State, e: VersionEdit)
    requires |s.levels| == MAX_LEVELS && AllOk([e])
    ensures InRange(e) && Steps(s, [e]) == Step(s, e)
  {
    hide EditFits, InRange, Step;
    assert [e][0] == e && [e][1..] == [];
    assert Steps(Step(s, e), []) == Step(s, e);
  }

  /** Whatever is appended is replayed if and only if no byte of a torn edit is in front of it. */
  lemma TearLosesEdits(es: seq<VersionEdit>, torn: VersionEdit, tear: ByteString)
    requires AllOk(es) && EditFits(torn) && tear < Chunk(torn) && Steps(START, es).next < U64 - 2
    ensures AllReplayed(es, tear) <==> tear == []
  {
    hide Steps, Replay, EncodeEdit, AllOk, FileOf, Chunk, EditFits;
    if tear == [] {
      forall more | AllOk(more)
        ensures Replay(FileOf(es) + tear + FileOf(more), 0, START) == Some(Steps(Steps(START, es), more))
      {
        AppendAfterTear(es, torn, tear, more);
      }
    } else if AllReplayed(es, tear) {
      var n := Steps(START, es).next + 1;
      CounterChunk(n);
      CounterChunk(n + 1);
      CounterBehindTear(es, torn, tear, n);
      CounterBehindTear(es, torn, tear, n + 1);
      assert false;
    }
  }

  // ---- inputs on which an edit is lost and on which the manifest no longer opens

  function SmallFile(num: nat): FileMeta {
    FileMeta(0, num, 0, 0, [], [])
  }

  function OneFile(): VersionEdit {
    VersionEdit([], [SmallFile(1)], 0)
  }

  function TwoFiles(): VersionEdit {
    VersionEdit([], [SmallFile(1), SmallFile(2)], 0)
  }

  lemma SmallEdits()
    ensures |EncodeEdit(OneFile())| == 52 && |EncodeEdit(TwoFiles())| == 88
    ensures AllOk([OneFile()]) && EditFits(TwoFiles())
  {
    hide PutLE;
    var a, b := [SmallFile(1)], [SmallFile(1), SmallFile(2)];
    assert a[1..] == [] && b[1..] == [SmallFile(2)] && b[1..][1..] == [];
    assert EncodeAdds([]) == [];
    assert |EncodeAdds(a)| == 36 && |EncodeAdds(b[1..])| == 36 && |EncodeAdds(b)| == 72;
  }

  /** The length of an edit of two files and no more is torn; an edit of one file written behind it is lost. */
  lemma EditLost()
    ensures var tear := Chunk(TwoFiles())[..4];
            && tear < Chunk(TwoFiles()) && Replay(tear + FileOf([OneFile()]), 0, START) == Some(START)
            && Steps(START, [OneFile()]) != START
  {
    hide Replay, GetLE, PutLE, EncodeEdit, DecodeEdit, Applied, EditFits, InRange;
    SmallEdits();
    var tear := Chunk(TwoFiles())[..4];
    AppendAfterTear([], TwoFiles(), tear, [OneFile()]);
    assert [] + tear + FileOf([OneFile()]) == tear + FileOf([OneFile()]);
    assert [OneFile()][1..] == [];
    assert |FileOf([OneFile()])| == 56;
    OneFileApplied();
  }

  lemma OneFileApplied()
    ensures InRange(OneFile()) && Applied(EMPTY_VERSION, OneFile())[0] == [SmallFile(1)]
  {
    var adds := Placed([SmallFile(1)]);
    assert adds == [(0, SmallFile(1))] && adds[1..] == [];
    assert DeleteAll(EMPTY_VERSION, [], MetaNum) == EMPTY_VERSION;
    assert AddAll(EMPTY_VERSION[0 := [] + [SmallFile(1)]], []) == EMPTY_VERSION[0 := [] + [SmallFile(1)]];
  }

  lemma {:induction false} PutZero(w: nat)
    ensures PutLE(0, w) == seq(w, i => 0)
  {
    if w > 0 {
      PutZero(w - 1);
      assert [0] + PutLE(0, w - 1) == seq(w, i => 0);
    }
  }

  lemma PutSmall(b: Byte, w: nat)
    requires w > 0
    ensures PutLE(b, w) == [b] + seq(w - 1, i => 0)
  {
    PutZero(w - 1);
  }

  lemma OneFileBytes()
    ensures var ch := Chunk(OneFile());
            |ch| == 56 && ch[0] == 52 && (forall i :: 1 <= i < 16 ==> ch[i] == 0) && forall i :: 48 <= i < 56 ==> ch[i] == 0
  {
    hide PutLE;
    SmallEdits();
    PutSmall(52, 4);
    PutZero(8);
    PutZero(4);
    var a := [SmallFile(1)];
    assert a[1..] == [] && EncodeAdds([]) == [];
    var add := EncodeAdd(SmallFile(1));
    assert EncodeAdds(a) == add;
    var mid := PutLE(0, 4) + PutLE(1, 8) + PutLE(0, 8) + PutLE(0, 8);
    assert add == mid + (PutLE(0, 4) + []) + (PutLE(0, 4) + []);
    var head := PutLE(52, 4) + (PutLE(0, 8) + PutLE(0, 4));
    assert Chunk(OneFile()) == head + PutLE(1, 4) + mid + PutLE(0, 4) + PutLE(0, 4);
  }

  lemma {:induction false} GetZero(s: ByteString)
    requires forall i :: 0 <= i < |s| ==> s[i] == 0
    ensures GetLE(s) == 0
  {
    if s != [] { GetZero(s[1..]); }
  }

  /**
   Five bytes of an edit are torn and the same edit is written again behind them: the mixture is taken
   for an edit, and then opening fails.
   */
  lemma OpenFails()
    ensures var tear := Chunk(OneFile())[..5];
            tear < Chunk(OneFile()) && Replay(tear + FileOf([OneFile()]), 0, START) == None
  {
    hide GetLE, PutLE, EncodeEdit, Chunk, ReplayOne, Replay;
    SmallEdits();
    OneFileBytes();
    var ch := Chunk(OneFile());
    var tear := ch[..5];
    assert [OneFile()][1..] == [] && ch + [] == ch;
    assert FileOf([OneFile()]) == ch;
    AppendAfterTear([], OneFile(), tear, [OneFile()]);
    assert [] + tear + ch == tear + ch;
    MixtureFails(ch);
  }

  lemma MixtureFails(ch: ByteString)
    requires |ch| == 56 && GetLE((ch[..5] + ch)[..4]) == 52
    requires (forall i :: 1 <= i < 16 ==> ch[i] == 0) && forall i :: 48 <= i < 56 ==> ch[i] == 0
    ensures ReplayOne(ch[..5] + ch, START) == None
  {
    hide GetLE, Step, DecodeEdit, InRange;
    var whole := ch[..5] + ch;
    Mixture(ch, whole, whole[4..56]);
    GetZero(whole[56..60]);
    assert whole[60..60] == [];
    assert DecodeEdit([]) == None by { NothingDecodes(); }
  }

  lemma NothingDecodes()
    ensures DecodeEdit([]) == None
  {
  }

  /** The mixture decodes, to an edit without files. */
  lemma Mixture(ch: ByteString, whole: ByteString, body: ByteString)
    requires |ch| == 56 && whole == ch[..5] + ch && body == whole[4..56] && forall i :: 1 <= i < 16 ==> ch[i] == 0
    ensures DecodeEdit(body).Some? && InRange(DecodeEdit(body).value)
  {
    hide GetLE;
    assert forall i :: 8 <= i < 16 ==> body[i] == whole[4 + i] == ch[i - 1] == 0;
    GetZero(body[8..12]);
    GetZero(body[12..16]);
  }

  // ---- the manifest object

  /** applyEditToMemory, loop by loop. */
  method ApplyToMemory(v: Version, e: VersionEdit) returns (r: Version)
    requires |v| == MAX_LEVELS && InRange(e)
    ensures r == Applied(v, e)
  {
    hide SortBy;
    PlacedInRange(e);
    ghost var adds := Placed(e.adds);
    r := v;
    var i := 0;
    while i < |e.dels|
      invariant 0 <= i <= |e.dels| && |r| == MAX_LEVELS
      invariant DeleteAll(v, e.dels, MetaNum) == DeleteAll(r, e.dels[i..], MetaNum)
    {
      var (l, n) := e.dels[i];
      var files := DropNumber(r[l], n);
      assert e.dels[i..][0] == e.dels[i] && e.dels[i..][1..] == e.dels[i + 1..];
      r := r[l := files];
      i := i + 1;
    }
    ghost var deleted := r;
    i := 0;
    assert adds[0..] == adds;
    while i < |e.adds|
      invariant 0 <= i <= |e.adds| && |r| == MAX_LEVELS
      invariant AddAll(deleted, adds) == AddAll(r, adds[i..])
    {
      var f := e.adds[i];
      assert adds[i..][0] == (f.level, f) && adds[i..][1..] == adds[i + 1..];
      r := r[f.level := r[f.level] + [f]];
      i := i + 1;
    }
    ghost var edited := r;
    var l := 1;
    while l < MAX_LEVELS
      invariant 1 <= l <= MAX_LEVELS && |r| == MAX_LEVELS
      invariant forall m :: 0 <= m < MAX_LEVELS ==> r[m] == if 1 <= m < l then SortBy(edited[m], MetaSmallest) else edited[m]
    {
      if |r[l]| > 1 {
        r := r[l := SortBy(r[l], MetaSmallest)];
      } else {
        SortShort(r[l]);
      }
      l := l + 1;
    }
  }

  lemma SortShort(fs: seq<FileMeta>)
    requires |fs| <= 1
    ensures SortBy(fs, MetaSmallest) == fs
  {
    if |fs| == 1 { assert fs[..0] == []; }
  }

  method DropNumber(fs: seq<FileMeta>, n: nat) returns (r: seq<FileMeta>)
    ensures r == Without(fs, n, MetaNum)
  {
    r := [];
    var i := 0;
    assert r + Without(fs[0..], n, MetaNum) == Without(fs, n, MetaNum);
    while i < |fs|
      invariant 0 <= i <= |fs| && r + Without(fs[i..], n, MetaNum) == Without(fs, n, MetaNum)
    {
      assert fs[i..][1..] == fs[i + 1..];
      if fs[i].num != n {
        assert r + ([fs[i]] + Without(fs[i + 1..], n, MetaNum)) == r + [fs[i]] + Without(fs[i + 1..], n, MetaNum);
        r := r + [fs[i]];
      }
      i := i + 1;
    }
    assert r + [] == r;
  }

  lemma {:induction false} StepsSnoc(s: State, es: seq<VersionEdit>, e: VersionEdit)
    requires |s.levels| == MAX_LEVELS && AllOk(es) && InRange(e) && EditFits(e)
    ensures AllOk(es + [e]) && Steps(s, es + [e]) == Step(Steps(s, es), e)
    ensures FileOf(es + [e]) == FileOf(es) + Chunk(e)
    decreases |es|
  {
    hide Step, Chunk, InRange, EditFits;
    if es == [] {
      assert es + [e] == [e] && [e][1..] == [];
      assert Steps(Step(s, e), [e][1..]) == Step(s, e);
      assert Chunk(e) + [] == Chunk(e);
    } else {
      StepsSnoc(Step(s, es[0]), es[1..], e);
      assert (es + [e])[1..] == es[1..] + [e];
    }
  }

  class ManifestFile {
    var file: ByteString
    var current: Version
    var nextFileNum: nat
    ghost var edits: seq<VersionEdit>

    /** The file is that of the edits, and memory holds the levels after them. */
    ghost predicate Valid()
      reads this
    {
      && AllOk(edits) && file == FileOf(edits)
      && current == Steps(START, edits).levels && Steps(START, edits).next <= nextFileNum
    }

    constructor ()
      ensures Valid() && edits == [] && nextFileNum == 1
    {
      file, current, nextFileNum := [], EMPTY_VERSION, 1;
      edits := [];
    }

    /** OpenManifest on an intact file: its edits are replayed and later ones go behind them. */
    constructor Reopen(data: ByteString, ghost es: seq<VersionEdit>)
      requires AllOk(es) && data == FileOf(es)
      ensures Valid() && edits == es && current == Steps(START, es).levels && nextFileNum == Steps(START, es).next
    {
      hide Replay, Steps, FileOf, AllOk;
      ReplayWhole(es);
      var ok, s := Open(data);
      file, current, nextFileNum := data, s.levels, s.next;
      edits := es;
    }

    /** Appends the edit to the file and applies it in memory. */
    method Apply(e: VersionEdit)
      requires Valid() && InRange(e) && EditFits(e)
      modifies this
      ensures Valid() && edits == old(edits) + [e]
      ensures |old(current)| == MAX_LEVELS && current == Applied(old(current), e)
      ensures nextFileNum == Max(old(nextFileNum), e.next)
    {
      hide EditFits, InRange, Steps, FileOf, Applied;
      StepsSnoc(START, edits, e);
      var data := EncodeEdit(e);
      file := file + PutLE(|data|, 4);
      file := file + data;
      assert old(file) + PutLE(|data|, 4) + data == old(file) + Chunk(e);
      current := ApplyToMemory(current, e);
      if e.next > nextFileNum { nextFileNum := e.next; }
      edits := edits + [e];
    }

    method NextFileNumber() returns (num: nat)
      requires Valid()
      modifies this
      ensures Valid() && num == old(nextFileNum) && nextFileNum == num + 1
      ensures file == old(file) && current == old(current) && edits == old(edits)
    {
      num := nextFileNum;
      nextFileNum := nextFileNum + 1;
    }
  }

  /** OpenManifest's loop over the file; false when it returns an error or panics. */
  method Open(data: ByteString) returns (ok: bool, s: State)
    ensures var r := Replay(data, 0, START); ok == r.Some? && (ok ==> s == r.value)
  {
    hide Step, DecodeEdit, GetLE;
    s := START;
    var off := 0;
    while off < |data|
      invariant 0 <= off <= |data| && |s.levels| == MAX_LEVELS
      invariant Replay(data, off, s) == Replay(data, 0, START)
    {
      if off + 4 > |data| { break; }
      var length := GetLE(data[off..off + 4]);
      if off + 4 + length > |data| { return true, s; }
      var e := DecodeEdit(data[off + 4..off + 4 + length]);
      if e.None? || !InRange(e.value) { return false, s; }
      StepIs(s, e.value);
      var levels := ApplyToMemory(s.levels, e.value);
      s := State(levels, if e.value.next > s.next then e.value.next else s.next);
      off := off + 4 + length;
    }
    return true, s;
  }

  lemma StepIs(s: State, e: VersionEdit)
    requires |s.levels| == MAX_LEVELS && InRange(e)
    ensures Step(s, e) == State(Applied(s.levels, e), if e.next > s.next then e.next else s.next)
  {
  }
}
