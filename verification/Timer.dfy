/** The timer table: each timer remembers the last multiple of its interval at which
    it ran. */
module Timer {

  // ---------- One timer ----------

  datatype Tick = Tick(last: int, fired: bool)

  /** The `%` of C++: it truncates toward zero. */
  function Rem(a: int, b: int): int
    requires b != 0
  {
    var m := (if a < 0 then -a else a) % (if b < 0 then -b else b);
    if a < 0 then -m else m
  }

  function Abs(x: int): int {
    if x < 0 then -x else x
  }

  /** Whether an update divides by the interval only if it is not 0. */
  predicate Divides(interval: int, last: int, now: int) {
    interval == 0 ==> now < last
  }

  /** One timer at one `update`. `now` and `last` are milliseconds. */
  function TickOf(interval: int, last: int, now: int): Tick
    requires Divides(interval, last, now)
  {
    if now >= last + interval then
      var addVal := now - last;
      Tick(last + (addVal - Rem(addVal, interval)), true)
    else if now < last then Tick(0, false)
    else Tick(last, false)
  }

  predicate Aligned(interval: int, last: int)
    requires interval > 0
  {
    last % interval == 0
  }

  lemma QuotientBounds(interval: int, x: int)
    requires interval > 0
    ensures interval * (x / interval) <= x < interval * (x / interval) + interval
  {}

  lemma MulOrder(k: int, a: int, b: int)
    requires k > 0
    ensures a < b ==> k * a + k <= k * b
  {
    if a < b {
      assert k * (b - a - 1) >= 0;
    }
  }

  lemma AbsTimes(b: int, d: int)
    ensures Abs(b * d) == Abs(b) * Abs(d)
  {
    var c, e := Abs(b), Abs(d);
    assert c * e >= 0;
    assert b * d == c * e || b * d == -(c * e) by {
      if b < 0 && d < 0 {
        assert (-b) * (-d) == b * d;
      } else if b < 0 {
        assert (-b) * d == -(b * d);
      } else if d < 0 {
        assert b * (-d) == -(b * d);
      }
    }
  }

  /** A multiple of `b` smaller than `b` is 0. */
  lemma SmallMultiple(b: int, d: int)
    requires Abs(b * d) < Abs(b)
    ensures b * d == 0
  {
    AbsTimes(b, d);
    if d != 0 {
      MulOrder(Abs(b), 0, Abs(d));
    } else {
      assert b * d == 0;
    }
  }

  lemma RemLeaves(a: int, b: int) returns (q: int)
    requires b != 0
    ensures a == b * q + Rem(a, b) && Abs(Rem(a, b)) < Abs(b)
    ensures (a >= 0 ==> Rem(a, b) >= 0) && (a <= 0 ==> Rem(a, b) <= 0)
  {
    var c := Abs(b);
    var k := Abs(a) / c;
    assert Abs(a) == c * k + Abs(a) % c;
    q := if (a < 0) == (b < 0) then k else -k;
    assert b * q == if a < 0 then -(c * k) else c * k by {
      if b < 0 {
        assert b * k == -(c * k) && b * -k == c * k;
      } else {
        assert b * -k == -(c * k);
      }
    }
  }

  /** The remainder of C++ is the one number of the sign of `a`, smaller than `b`, that
      leaves a multiple of `b`. */
  lemma RemTruncates(a: int, b: int, r: int)
    requires b != 0
    ensures r == Rem(a, b) <==>
      (exists q :: a == b * q + r) && Abs(r) < Abs(b) && (a >= 0 ==> r >= 0) && (a <= 0 ==> r <= 0)
  {
    var p := RemLeaves(a, b);
    hide Rem;
    if (exists q :: a == b * q + r) && Abs(r) < Abs(b) && (a >= 0 ==> r >= 0) && (a <= 0 ==> r <= 0) {
      var q :| a == b * q + r;
      assert b * (q - p) == Rem(a, b) - r;
      SmallMultiple(b, q - p);
    }
  }

  /** An update of a timer of any interval, also one that is not positive: whether it
      fires, and which multiple away from the last time it then comes to rest. */
  lemma TickAny(interval: int, last: int, now: int)
    requires interval == 0 ==> now < last
    ensures var t := TickOf(interval, last, now);
      && (t.fired <==> now >= last + interval)
      && (!t.fired ==> t.last == if now < last then 0 else last)
      && (t.fired ==> (exists q :: t.last == last + interval * q) && Abs(now - t.last) < Abs(interval))
      && (t.fired && now >= last ==> last <= t.last <= now)
      && (t.fired && now <= last ==> now <= t.last <= last)
  {
    if now >= last + interval {
      var r := Rem(now - last, interval);
      var q := RemLeaves(now - last, interval);
      assert TickOf(interval, last, now).last == last + interval * q;
      RemWithin(now - last, interval);
    }
  }

  lemma RemWithin(a: int, b: int)
    requires b != 0
    ensures Abs(Rem(a, b)) <= Abs(a)
  {
    var m, c := Abs(a), Abs(b);
    AbsTimes(c, m / c);
    assert m == c * (m / c) + m % c;
  }

  lemma QuotientIs(interval: int, q: int, x: int)
    requires interval > 0 && interval * q <= x < interval * q + interval
    ensures x / interval == q
  {
    QuotientBounds(interval, x);
    MulOrder(interval, x / interval, q);
    MulOrder(interval, q, x / interval);
  }

  lemma QuotientMonotone(interval: int, x: int, y: int)
    requires interval > 0 && x <= y
    ensures x / interval <= y / interval
  {
    QuotientBounds(interval, x);
    QuotientBounds(interval, y);
    MulOrder(interval, y / interval, x / interval);
  }

  /** From an aligned time, an update leaves the multiple of the interval at or below
      now, or 0 if the clock went back past `last`; it fires exactly when it moves
      forward to a later multiple. */
  lemma TickAligns(interval: int, last: int, now: int)
    requires interval > 0 && Aligned(interval, last)
    ensures var t := TickOf(interval, last, now);
      && Aligned(interval, t.last)
      && t.last == (if now < last then 0 else interval * (now / interval))
      && (t.fired <==> now / interval > last / interval)
  {
    var q := last / interval;
    AlignedIs(interval, last);
    MultipleAligned(interval, 0);
    if now >= last + interval {
      TickForward(interval, q, now);
    } else if now < last {
      QuotientMonotone(interval, now, last);
    } else {
      QuotientIs(interval, q, now);
    }
  }

  lemma AlignedIs(interval: int, last: int)
    requires interval > 0 && Aligned(interval, last)
    ensures last == interval * (last / interval)
  {}

  lemma TickForward(interval: int, q: int, now: int)
    requires interval > 0 && now >= interval * q + interval
    ensures var addVal := now - interval * q;
      && interval * q + (addVal - addVal % interval) == interval * (now / interval)
      && Aligned(interval, interval * (now / interval))
      && now / interval > q
  {
    var d := now - interval * q;
    var m := d / interval;
    assert d - d % interval == interval * m;
    assert interval * (q + m) == interval * q + interval * m;
    QuotientBounds(interval, d);
    QuotientIs(interval, q + m, now);
    QuotientIs(interval, 1, interval);
    QuotientMonotone(interval, interval, d);
    MultipleAligned(interval, q + m);
  }

  lemma MultipleAligned(interval: int, q: int)
    requires interval > 0
    ensures (interval * q) % interval == 0
  {
    QuotientIs(interval, q, interval * q);
  }

  /** A run of updates at the given times, from a newly registered timer. */
  function After(interval: int, nows: seq<int>): int
    requires interval > 0
  {
    if nows == [] then 0
    else TickOf(interval, After(interval, nows[..|nows| - 1]), nows[|nows| - 1]).last
  }

  function Fires(interval: int, nows: seq<int>): nat
    requires interval > 0
  {
    if nows == [] then 0
    else
      var front, now := nows[..|nows| - 1], nows[|nows| - 1];
      Fires(interval, front) + (if TickOf(interval, After(interval, front), now).fired then 1 else 0)
  }

  lemma {:induction false} AlwaysAligned(interval: int, nows: seq<int>)
    requires interval > 0
    ensures Aligned(interval, After(interval, nows))
    decreases |nows|
  {
    if nows != [] {
      var front := nows[..|nows| - 1];
      AlwaysAligned(interval, front);
      TickAligns(interval, After(interval, front), nows[|nows| - 1]);
    }
  }

  ghost predicate NonDecreasing(nows: seq<int>) {
    && (forall i | 0 <= i < |nows| :: nows[i] >= 0)
    && forall i, j | 0 <= i <= j < |nows| :: nows[i] <= nows[j]
  }

  /** The positive periods seen by a run of updates. */
  ghost function Periods(interval: int, nows: seq<int>): set<int>
    requires interval > 0
  {
    set i | 0 <= i < |nows| && nows[i] / interval > 0 :: nows[i] / interval
  }

  /** With a clock that does not go back, a timer fires exactly once for each
      distinct positive value of now / interval that some update sees. */
  lemma {:induction false} FiresOncePerPeriod(interval: int, nows: seq<int>)
    requires interval > 0 && NonDecreasing(nows)
    ensures Fires(interval, nows) == |Periods(interval, nows)|
    ensures nows != [] ==> After(interval, nows) == interval * (nows[|nows| - 1] / interval)
    decreases |nows|
  {
    hide TickOf, Aligned, Periods;
    if nows == [] {
      NoPeriods(interval);
    } else {
      var front, now := nows[..|nows| - 1], nows[|nows| - 1];
      FiresOncePerPeriod(interval, front);
      var last := After(interval, front);
      AlwaysAligned(interval, front);
      TickAligns(interval, last, now);
      QuotientBounds(interval, now);
      assert last <= now && last / interval == (if front == [] then 0 else front[|front| - 1] / interval) by {
        if front == [] {
          QuotientIs(interval, 0, 0);
        } else {
          var prev := front[|front| - 1];
          QuotientBounds(interval, prev);
          QuotientIs(interval, prev / interval, last);
          assert prev == nows[|front| - 1];
        }
      }
      PeriodsExtend(interval, front, now, last / interval);
      assert nows == front + [now];
    }
  }

  lemma NoPeriods(interval: int)
    requires interval > 0
    ensures |Periods(interval, [])| == 0
  {
    assert Periods(interval, []) == {};
  }

  lemma PeriodsExtend(interval: int, front: seq<int>, now: int, latest: int)
    requires interval > 0 && NonDecreasing(front + [now])
    requires latest == if front == [] then 0 else front[|front| - 1] / interval
    ensures |Periods(interval, front + [now])|
         == |Periods(interval, front)| + (if now / interval > latest then 1 else 0)
  {
    var all := front + [now];
    var p := now / interval;
    EarlierPeriods(interval, front, now, latest);
    assert all[|front|] == now;
    assert forall i | 0 <= i < |front| :: all[i] == front[i];
    if p > latest {
      assert Periods(interval, all) == Periods(interval, front) + {p};
    } else {
      if p > 0 {
        assert front[|front| - 1] / interval == p;
      }
      assert Periods(interval, all) == Periods(interval, front);
    }
  }

  lemma EarlierPeriods(interval: int, front: seq<int>, now: int, latest: int)
    requires interval > 0 && NonDecreasing(front + [now])
    requires latest == if front == [] then 0 else front[|front| - 1] / interval
    ensures forall i | 0 <= i < |front| :: front[i] / interval <= latest
    ensures 0 <= latest <= now / interval
  {
    var all := front + [now];
    assert all[|front|] == now;
    QuotientIs(interval, 0, 0);
    QuotientMonotone(interval, 0, now);
    forall i | 0 <= i < |front| ensures front[i] / interval <= latest {
      assert all[i] <= all[|front| - 1];
      QuotientMonotone(interval, front[i], front[|front| - 1]);
    }
    if front != [] {
      assert 0 <= all[|front| - 1] <= all[|front|];
      QuotientMonotone(interval, 0, front[|front| - 1]);
      QuotientMonotone(interval, front[|front| - 1], now);
    }
  }

  /** A jump back past the last run resets the timer without firing. Whatever the
      clock does after that, and however many updates do not fire, the next update that
      fires puts it right: it leaves the multiple of the interval at or below now. */
  lemma BackwardJumpRepaired(interval: int, nows: seq<int>, back: int, more: seq<int>, now: int)
    requires interval > 0 && back < After(interval, nows)
    ensures TickOf(interval, After(interval, nows), back) == Tick(0, false) && After(interval, nows + [back]) == 0
    ensures var t := TickOf(interval, After(interval, nows + [back] + more), now);
      && (t.fired ==> t.last == interval * (now / interval))
      && (t.fired <==> now / interval > After(interval, nows + [back] + more) / interval)
  {
    assert (nows + [back])[..|nows|] == nows;
    FiringAligns(interval, nows + [back] + more, now);
  }

  /** After any run, also with a clock that jumps, an update that fires leaves the
      multiple of the interval at or below now. */
  lemma FiringAligns(interval: int, nows: seq<int>, now: int)
    requires interval > 0
    ensures var t := TickOf(interval, After(interval, nows), now);
      && (t.fired ==> t.last == interval * (now / interval))
      && (t.fired <==> now / interval > After(interval, nows) / interval)
  {
    AlwaysAligned(interval, nows);
    var last := After(interval, nows);
    TickAligns(interval, last, now);
    if now < last {
      QuotientMonotone(interval, now, last);
    }
  }

  lemma TickFromReset(interval: int, now: int)
    requires interval > 0
    ensures var t := TickOf(interval, 0, now); (t.fired <==> now >= interval) && (!t.fired ==> t.last == 0)
  {}

  /** From the reset on the timer is silent and stays at 0 exactly as long as no update
      comes at the interval or later. */
  lemma {:induction false} SilentUntilFired(interval: int, nows: seq<int>, more: seq<int>)
    requires interval > 0 && After(interval, nows) == 0
    ensures Fires(interval, nows + more) >= Fires(interval, nows)
    ensures Fires(interval, nows + more) == Fires(interval, nows) <==> forall i | 0 <= i < |more| :: more[i] < interval
    ensures Fires(interval, nows + more) == Fires(interval, nows) ==> After(interval, nows + more) == 0
    decreases |more|
  {
    hide TickOf;
    if more == [] {
      assert nows + more == nows;
    } else {
      var front, now := more[..|more| - 1], more[|more| - 1];
      SilentUntilFired(interval, nows, front);
      TickFromReset(interval, now);
      assert (nows + more)[..|nows + more| - 1] == nows + front;
      assert more == front + [now];
    }
  }

  // ---------- The table ----------

  class TimerFunInfo {
    /** Whether `timeval_fun` is not NULL. */
    const callable: bool
    const interval: int
    var lastRunTime: int

    constructor (callable: bool, interval: int)
      ensures this.callable == callable && this.interval == interval && lastRunTime == 0
    {
      this.callable, this.interval, lastRunTime := callable, interval, 0;
    }
  }

  /** What one timer becomes at one update. */
  function NextOf(callable: bool, interval: int, last: int, now: int): Tick
    requires callable ==> Divides(interval, last, now)
  {
    if callable then TickOf(interval, last, now) else Tick(last, false)
  }

  class TimerControl {
    var timers: seq<TimerFunInfo>

    ghost predicate Valid()
      reads this
    {
      forall i, j | 0 <= i < j < |timers| :: timers[i] != timers[j]
    }

    /** Every timer of positive interval last ran at a multiple of it. */
    ghost predicate AllAligned()
      reads this, timers
    {
      forall i | 0 <= i < |timers| && timers[i].interval > 0 :: Aligned(timers[i].interval, timers[i].lastRunTime)
    }

    /** An update at `now` divides by no interval of 0. */
    ghost predicate Runnable(now: int)
      reads this, timers
    {
      forall i | 0 <= i < |timers| && timers[i].callable :: Divides(timers[i].interval, timers[i].lastRunTime, now)
    }

    constructor ()
      ensures Valid() && AllAligned() && timers == []
    {
      timers := [];
    }

    method Register(callable: bool, interval: int)
      requires Valid()
      modifies this`timers
      ensures Valid() && (old(AllAligned()) ==> AllAligned())
      ensures |timers| == |old(timers)| + 1 && timers[..|old(timers)|] == old(timers)
      ensures var t := timers[|old(timers)|];
        fresh(t) && t.callable == callable && t.interval == interval && t.lastRunTime == 0
    {
      var t := new TimerFunInfo(callable, interval);
      if interval > 0 {
        MultipleAligned(interval, 0);
      }
      timers := timers + [t];
    }

    /** What every timer becomes at an update. */
    ghost function Ticks(now: int): (ticks: seq<Tick>)
      requires Runnable(now)
      reads this, timers
      ensures |ticks| == |timers|
      ensures forall i | 0 <= i < |timers| ::
        ticks[i] == NextOf(timers[i].callable, timers[i].interval, timers[i].lastRunTime, now)
    {
      seq(|timers|, i requires Runnable(now) && 0 <= i < |timers| reads this, timers =>
        NextOf(timers[i].callable, timers[i].interval, timers[i].lastRunTime, now))
    }

    /** One update at time `now`; returns how many timers fired, and which. */
    method Update(now: int) returns (n: int, ghost fired: set<nat>)
      requires Valid() && Runnable(now)
      modifies timers
      ensures Valid() && (old(AllAligned()) ==> AllAligned())
      ensures forall i | 0 <= i < |timers| :: timers[i].lastRunTime == old(Ticks(now))[i].last
      ensures fired == FiredIn(old(Ticks(now)), |timers|) && n == |fired|
      ensures forall i: nat :: i in fired <==>
        i < |timers| && timers[i].callable && now >= old(timers[i].lastRunTime) + timers[i].interval
      ensures forall i | 0 <= i < |timers| && !timers[i].callable :: timers[i].lastRunTime == old(timers[i].lastRunTime)
    {
      hide NextOf, Aligned, FiredIn, Divides;
      n, fired := 0, {};
      ghost var ticks := Ticks(now);
      TicksMean(now);
      FiredInNone(ticks);
      for i := 0 to |timers|
        invariant forall j | 0 <= j < i :: timers[j].lastRunTime == ticks[j].last
        invariant forall j | 0 <= j < i && timers[j].interval > 0 &&
          old(Aligned(timers[j].interval, timers[j].lastRunTime)) ::
          Aligned(timers[j].interval, timers[j].lastRunTime)
        invariant forall j | i <= j < |timers| :: timers[j].lastRunTime == old(timers[j].lastRunTime)
        invariant fired == FiredIn(ticks, i) && n == |fired|
      {
        var called := UpdateOne(timers[i], now);
        FiredInNext(ticks, i);
        if called {
          n, fired := n + 1, fired + {i};
        }
      }
      FiredMembers(ticks);
    }

    /** When a timer ticks at an update, and that one without a function never does. */
    lemma TicksMean(now: int)
      requires Runnable(now)
      ensures forall i | 0 <= i < |timers| ::
        && (Ticks(now)[i].fired <==> timers[i].callable && now >= timers[i].lastRunTime + timers[i].interval)
        && (!timers[i].callable ==> Ticks(now)[i].last == timers[i].lastRunTime)
    {
      hide Rem;
    }
  }

  /** The timers among the first `n` that fire. */
  function FiredIn(ticks: seq<Tick>, n: nat): set<nat>
    requires n <= |ticks|
  {
    set i: nat | i < n && ticks[i].fired
  }

  lemma FiredInNone(ticks: seq<Tick>)
    ensures FiredIn(ticks, 0) == {}
  {}

  lemma FiredMembers(ticks: seq<Tick>)
    ensures forall i: nat :: i in FiredIn(ticks, |ticks|) <==> i < |ticks| && ticks[i].fired
  {}

  lemma FiredInNext(ticks: seq<Tick>, n: nat)
    requires n < |ticks|
    ensures n !in FiredIn(ticks, n)
    ensures FiredIn(ticks, n + 1) == FiredIn(ticks, n) + (if ticks[n].fired then {n} else {})
  {}

  /** The body of the update loop for one timer. */
  method UpdateOne(t: TimerFunInfo, now: int) returns (called: bool)
    requires t.callable ==> Divides(t.interval, t.lastRunTime, now)
    modifies t
    ensures Tick(t.lastRunTime, called) == NextOf(t.callable, t.interval, old(t.lastRunTime), now)
    ensures called <==> t.callable && now >= old(t.lastRunTime) + t.interval
    ensures !t.callable ==> t.lastRunTime == old(t.lastRunTime)
    ensures t.interval > 0 && old(Aligned(t.interval, t.lastRunTime)) ==> Aligned(t.interval, t.lastRunTime)
  {
    called := false;
    if !t.callable {
      return;
    }
    if t.interval > 0 && Aligned(t.interval, t.lastRunTime) {
      TickAligns(t.interval, t.lastRunTime, now);
    }
    if now >= t.lastRunTime + t.interval {
      called := true;
      var addVal := now - t.lastRunTime;
      addVal := addVal - Rem(addVal, t.interval);
      t.lastRunTime := t.lastRunTime + addVal;
    } else if now < t.lastRunTime {
      t.lastRunTime := 0;
    }
  }
}
