/**
 The hybrid logical clock: 48 bits of wall time, 16 bits of counter (internal/hlc/hlc.go). Wall
 readings are parameters and may go backwards.
 */
module HybridClock {
  import opened Bytes

  const SHIFT: nat := 0x1_0000
  const WALL_LIMIT: nat := 0x1_0000_0000_0000

  datatype Time = Time(wall: nat, logical: nat)

  // ---- the stamp

  /** Bitwise or. */
  function BitOr(a: nat, b: nat): nat
    decreases a + b
  {
    if a == 0 && b == 0 then 0
    else 2 * BitOr(a / 2, b / 2) + (if a % 2 == 1 || b % 2 == 1 then 1 else 0)
  }

  /** The 64-bit timestamp: wall shifted left by 16, or-ed with the counter. */
  function Stamp(t: Time): nat {
    BitOr(t.wall * SHIFT % U64, t.logical)
  }

  lemma {:induction false} BitOrZero(a: nat)
    ensures BitOr(a, 0) == a && BitOr(0, a) == a
  {
    if a > 0 { BitOrZero(a / 2); }
  }

  function Pow2(n: nat): (p: nat)
    ensures p >= 1
  {
    if n == 0 then 1 else 2 * Pow2(n - 1)
  }

  /** Or-ing into the zero low bits of a shifted number is adding. */
  lemma {:induction false} BitOrAdds(w: nat, n: nat, l: nat)
    requires l < Pow2(n)
    ensures BitOr(w * Pow2(n), l) == w * Pow2(n) + l
    decreases n
  {
    if n == 0 {
      BitOrZero(w);
    } else {
      var p := Pow2(n - 1);
      assert w * Pow2(n) == 2 * (w * p);
      BitOrAdds(w, n - 1, l / 2);
      assert (2 * (w * p)) / 2 == w * p && (2 * (w * p)) % 2 == 0;
    }
  }

  lemma BitOrDouble(x: nat, y: nat, bit: nat)
    requires bit < 2
    ensures BitOr(2 * x, 2 * y + bit) == 2 * BitOr(x, y) + bit
  {
    assert (2 * y + bit) / 2 == y && (2 * y + bit) % 2 == bit && (2 * x) / 2 == x;
  }

  /** Or-ing splits at a power of two. */
  lemma {:induction false} BitOrSplits(w: nat, n: nat, hi: nat, l: nat)
    requires l < Pow2(n)
    ensures BitOr(w * Pow2(n), hi * Pow2(n) + l) == BitOr(w, hi) * Pow2(n) + l
    decreases n
  {
    hide BitOr;
    if n > 0 {
      var p := Pow2(n - 1);
      BitOrSplits(w, n - 1, hi, l / 2);
      BitOrDouble(w * p, hi * p + l / 2, l % 2);
      Doubled(w, p);
      Doubled(hi, p);
      Doubled(BitOr(w, hi), p);
    }
  }

  lemma Doubled(w: nat, p: nat)
    ensures w * (2 * p) == 2 * (w * p)
  {
  }

  lemma ShiftIs()
    ensures Pow2(16) == SHIFT
  {
    assert Pow2(4) == 16;
    assert Pow2(8) == 16 * Pow2(4);
    assert Pow2(12) == 16 * Pow2(8);
  }

  predicate Within(t: Time) {
    t.wall < WALL_LIMIT && t.logical < SHIFT
  }

  /** While the counter fits its bits the stamp is the pair, read as one number. */
  lemma StampValue(t: Time)
    requires Within(t)
    ensures Stamp(t) == t.wall * SHIFT + t.logical
  {
    hide BitOr;
    ShiftIs();
    assert t.wall * SHIFT % U64 == t.wall * SHIFT;
    BitOrAdds(t.wall, 16, t.logical);
  }

  /** So stamps compare as the pairs do. */
  lemma StampOrder(a: Time, b: Time)
    requires Within(a) && Within(b)
    ensures Stamp(a) < Stamp(b) <==> a.wall < b.wall || (a.wall == b.wall && a.logical < b.logical)
  {
    hide Stamp;
    StampValue(a);
    StampValue(b);
  }

  /**
   The first counter value that does not fit: its stamp exceeds the one before it exactly if the
   wall time is even, and even then it is the stamp of the next millisecond.
   */
  lemma CounterOverflow(w: nat)
    requires w + 1 < WALL_LIMIT
    ensures Stamp(Time(w, SHIFT)) > Stamp(Time(w, SHIFT - 1)) <==> w % 2 == 0
    ensures w % 2 == 0 ==> Stamp(Time(w, SHIFT)) == Stamp(Time(w + 1, 0))
    ensures w % 2 == 1 ==> Stamp(Time(w, SHIFT)) == Stamp(Time(w, 0))
  {
    hide BitOr;
    ShiftIs();
    StampValue(Time(w, SHIFT - 1));
    StampValue(Time(w, 0));
    StampValue(Time(w + 1, 0));
    assert w * SHIFT % U64 == w * SHIFT;
    BitOrSplits(w, 16, 1, 0);
    OrOne(w);
  }

  lemma OrOne(w: nat)
    ensures BitOr(w, 1) == if w % 2 == 1 then w else w + 1
  {
    assert BitOr(w, 1) == 2 * BitOr(w / 2, 0) + 1;
    BitOrZero(w / 2);
  }

  // ---- the clock's steps

  function Tick(t: Time, now: int): Time {
    if now > t.wall then Time(now, 0) else Time(t.wall, (t.logical + 1) % U32)
  }

  function Max(a: nat, b: nat): nat { if a < b then b else a }

  function Merge(t: Time, now: int, remote: nat): Time {
    var rw, rl := remote / SHIFT, remote % SHIFT;
    if now > t.wall && now > rw then Time(now, 0)
    else if t.wall >= now && t.wall >= rw then
      Time(t.wall, ((if t.wall == rw then Max(t.logical, rl) else t.logical) + 1) % U32)
    else Time(rw, rl + 1)
  }

  datatype Event = Read(now: int) | Receive(now: int, remote: nat)

  function StepClock(t: Time, e: Event): Time {
    match e
    case Read(now) => Tick(t, now)
    case Receive(now, remote) => Merge(t, now, remote)
  }

  function TimeAt(t: Time, es: seq<Event>): Time {
    if es == [] then t else StepClock(TimeAt(t, es[..|es| - 1]), es[|es| - 1])
  }

  const CLOCK_START := Time(0, 0)

  /** Every state of the run fits the 64 bits. */
  ghost predicate FitsRun(es: seq<Event>) {
    forall i :: 0 <= i <= |es| ==> Within(TimeAt(CLOCK_START, es[..i]))
  }

  /** Each step moves the stamp up, past a merged one. */
  lemma StepAdvances(t: Time, e: Event)
    requires Within(t) && Within(StepClock(t, e)) && (e.Receive? ==> e.remote < U64)
    ensures Stamp(t) < Stamp(StepClock(t, e))
    ensures e.Receive? ==> e.remote < Stamp(StepClock(t, e))
  {
    hide Stamp;
    StampOrder(t, StepClock(t, e));
    StampValue(StepClock(t, e));
    if e.Receive? {
      assert e.remote == e.remote / SHIFT * SHIFT + e.remote % SHIFT;
    }
  }

  lemma {:induction false} StampsRise(es: seq<Event>, i: nat, j: nat)
    requires FitsRun(es) && i < j <= |es| && forall x :: 0 <= x < |es| && es[x].Receive? ==> es[x].remote < U64
    ensures Stamp(TimeAt(CLOCK_START, es[..i])) < Stamp(TimeAt(CLOCK_START, es[..j]))
    decreases j
  {
    hide Stamp, Within, StepClock;
    TakeStep(es, j - 1);
    assert Within(TimeAt(CLOCK_START, es[..j - 1])) && Within(TimeAt(CLOCK_START, es[..j]));
    StepAdvances(TimeAt(CLOCK_START, es[..j - 1]), es[j - 1]);
    if i < j - 1 { StampsRise(es, i, j - 1); }
  }

  lemma TakeStep(es: seq<Event>, i: nat)
    requires i < |es|
    ensures TimeAt(CLOCK_START, es[..i + 1]) == StepClock(TimeAt(CLOCK_START, es[..i]), es[i])
  {
    hide StepClock;
    assert es[..i + 1][..i] == es[..i];
  }

  /**
   As long as the counter fits, each reading of the clock exceeds every earlier reading and every
   remote timestamp merged before it, whatever the wall clock did.
   */
  lemma ClockMonotone(es: seq<Event>, i: nat, j: nat)
    requires FitsRun(es) && i < j < |es| && forall x :: 0 <= x < |es| && es[x].Receive? ==> es[x].remote < U64
    requires es[j].Read?
    ensures var reading := Stamp(TimeAt(CLOCK_START, es[..j + 1]));
            && (es[i].Read? ==> Stamp(TimeAt(CLOCK_START, es[..i + 1])) < reading)
            && (es[i].Receive? ==> es[i].remote < reading)
  {
    hide Stamp, Within, StepClock;
    StampsRise(es, i + 1, j + 1);
    TakeStep(es, i);
    assert Within(TimeAt(CLOCK_START, es[..i])) && Within(TimeAt(CLOCK_START, es[..i + 1]));
    StepAdvances(TimeAt(CLOCK_START, es[..i]), es[i]);
  }

  // ---- the stamps follow the wall clock

  /** A stamp above the last one and a merged one, whose wall time is not behind the reading. */
  ghost predicate Admissible(s: nat, t: Time, e: Event) {
    s > Stamp(t) && s / SHIFT >= e.now && (e.Receive? ==> s > e.remote)
  }

  lemma WallOf(w: nat, l: nat)
    requires l < SHIFT
    ensures (w * SHIFT + l) / SHIFT == w && (w * SHIFT + l) % SHIFT == l
  {
  }

  /** A stamp with a wall time of at least w is at least w shifted. */
  lemma WallBound(s: nat, w: nat)
    ensures s / SHIFT >= w <==> s >= w * SHIFT
  {
    assert s == s / SHIFT * SHIFT + s % SHIFT;
  }

  /**
   Each step gives the least stamp there can be: above the last one and a merged one, and with a wall
   time not behind the reading. So the counter is zero exactly when the reading has moved the wall
   time on, and otherwise the stamp is one more than the larger of the last and the merged one.
   */
  lemma StampIsLeast(t: Time, e: Event)
    requires Within(t) && Within(StepClock(t, e)) && (e.Receive? ==> e.remote < U64)
    ensures Admissible(Stamp(StepClock(t, e)), t, e)
    ensures forall s: nat :: Admissible(s, t, e) ==> s >= Stamp(StepClock(t, e))
    ensures e.now > t.wall && (e.Receive? ==> e.now > e.remote / SHIFT) ==> Stamp(StepClock(t, e)) % SHIFT == 0
  {
    hide Stamp;
    var t' := StepClock(t, e);
    StampValue(t);
    StampValue(t');
    WallOf(t.wall, t.logical);
    WallOf(t'.wall, t'.logical);
    if e.Receive? { assert e.remote == e.remote / SHIFT * SHIFT + e.remote % SHIFT; }
    forall s: nat | Admissible(s, t, e) ensures s >= Stamp(t') {
      if e.now >= 0 { WallBound(s, e.now); }
    }
  }

  /** The wall time an event brings: its reading, and that of a merged stamp. */
  ghost predicate Brings(e: Event, w: int) {
    e.now == w || (e.Receive? && e.remote / SHIFT == w)
  }

  /** w is the largest wall time in the events, or zero, where the clock starts. */
  ghost predicate IsLatest(es: seq<Event>, w: nat) {
    && (w == 0 || exists i :: 0 <= i < |es| && Brings(es[i], w))
    && forall i, x :: 0 <= i < |es| && Brings(es[i], x) ==> x <= w
  }

  lemma StepLatest(t: Time, e: Event)
    ensures var t' := StepClock(t, e);
            t.wall <= t'.wall && (t'.wall == t.wall || Brings(e, t'.wall)) && forall x :: Brings(e, x) ==> x <= t'.wall
  {
  }

  lemma {:induction false} WallIsLatest(es: seq<Event>)
    ensures IsLatest(es, TimeAt(CLOCK_START, es).wall)
  {
    hide Brings, StepClock;
    if es != [] {
      var n := |es| - 1;
      var front, e := es[..n], es[n];
      var t := TimeAt(CLOCK_START, front);
      WallIsLatest(front);
      StepLatest(t, e);
      var w := TimeAt(CLOCK_START, es).wall;
      assert forall i :: 0 <= i < n ==> front[i] == es[i];
      if w == t.wall && w != 0 {
        var i :| 0 <= i < n && Brings(front[i], w);
        assert Brings(es[i], w);
      } else if w != 0 {
        assert Brings(es[n], w);
      }
    }
  }

  /**
   After any run that fits, the wall time of the stamp is the largest of all wall readings and all
   wall times merged so far.
   */
  lemma StampFollowsWall(es: seq<Event>)
    requires FitsRun(es)
    ensures IsLatest(es, Stamp(TimeAt(CLOCK_START, es)) / SHIFT)
  {
    hide Stamp, IsLatest, TimeAt;
    var t := TimeAt(CLOCK_START, es);
    assert es[..|es|] == es;
    assert Within(t);
    StampValue(t);
    WallOf(t.wall, t.logical);
    WallIsLatest(es);
  }

  // ---- the clock object

  class Clock {
    var wall: nat
    var logical: nat

    ghost function View(): Time
      reads this
    {
      Time(wall, logical)
    }

    constructor ()
      ensures View() == CLOCK_START
    {
      wall, logical := 0, 0;
    }

    method Now(now: int) returns (ts: nat)
      modifies this
      ensures View() == Tick(old(View()), now) && ts == Stamp(View())
    {
      hide BitOr;
      if now > wall {
        wall := now;
        logical := 0;
      } else {
        logical := (logical + 1) % U32;
      }
      return BitOr(wall * SHIFT % U64, logical);
    }

    method Update(now: int, remote: nat)
      modifies this
      ensures View() == Merge(old(View()), now, remote)
    {
      var remoteWall := remote / SHIFT;
      var remoteLogical := remote % SHIFT;
      if now > wall && now > remoteWall {
        wall := now;
        logical := 0;
      } else if wall >= now && wall >= remoteWall {
        if wall == remoteWall {
          if remoteLogical > logical { logical := remoteLogical; }
        }
        logical := (logical + 1) % U32;
      } else if remoteWall >= now && remoteWall >= wall {
        wall := remoteWall;
        logical := remoteLogical + 1;
      }
    }
  }
}
