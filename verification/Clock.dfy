/** Fixed-width arithmetic behind the timers: the cycle counter of dtcpu, the 64-bit timestamps of
    the ADC scanner and the absolute alarm schedule of the counter-driven loops. */
module MachineInts {
  const TWO32: nat := 0x1_0000_0000
  const TWO64: nat := 0x1_0000_0000_0000_0000

  function U32(x: int): (r: nat)
    ensures r < TWO32
  {
    x % TWO32
  }

  function U64(x: int): (r: nat)
    ensures r < TWO64
  {
    x % TWO64
  }

  /** A quotient is pinned down by its bounds. */
  lemma DivBounds(x: int, d: int, q: int)
    requires d > 0 && q * d <= x < q * d + d
    ensures x / d == q
  {
    var r := x / d;
    assert r * d <= x < r * d + d;
    Cancel(r, q + 1, d);
    Cancel(q, r + 1, d);
  }

  lemma DivMod(x: nat, m: nat)
    requires m > 0
    ensures x == x / m * m + x % m && 0 <= x % m < m
  {}

  lemma Cancel(a: int, b: int, c: int)
    requires c > 0 && a * c < b * c
    ensures a < b
  {}

  lemma DivMonotone(x: int, y: int, d: int)
    requires d > 0 && x <= y
    ensures x / d <= y / d
  {
    Cancel(x / d, y / d + 1, d);
  }

  /** Reducing modulo `m` inside a difference does not change its residue. */
  lemma ModDifference(a: nat, b: nat, m: nat)
    requires m > 0
    ensures (a % m - b % m) % m == (a - b) % m
  {
    var k := a / m - b / m;
    assert a - b == (a % m - b % m) + k * m;
    ModShift(a % m - b % m, k, m);
  }

  lemma ModShift(x: int, k: int, m: nat)
    requires m > 0
    ensures (x + k * m) % m == x % m
  {
    var q := x / m;
    assert x + k * m == (q + k) * m + x % m;
    DivBounds(x + k * m, m, q + k);
  }
}

/** dtcpu: elapsed time between two marks of a free-running 32-bit cycle counter. */
module CpuClock {
  import opened MachineInts

  const MEGA: nat := 1_000_000

  /** Q32.32 microseconds per cycle, computed once. */
  function Scale(clock: nat): nat
    requires clock > 0
  {
    MEGA * TWO32 / clock
  }

  class Cpu {
    var scale: nat
    var older: nat
    var newer: nat

    constructor ()
      ensures scale == older == newer == 0
    {
      scale, older, newer := 0, 0, 0;
    }

    /** `supported`: the core has a cycle counter; the native variant always has one. */
    method SysInit(supported: bool, clock: nat) returns (ok: bool)
      requires clock > 0
      modifies this`scale
      ensures ok == supported && scale == if supported then Scale(clock) else old(scale)
    {
      if !supported { return false; }
      scale := 1_000_000 * TWO32 / clock;
      return true;
    }

    method Mark(counter: nat)
      requires counter < TWO32
      modifies this`older, this`newer
      ensures older == old(newer) && newer == counter
    {
      older := newer;
      newer := counter;
    }

    /** The marks are readings of a counter whose true, unwrapped values are `start` and `end`. */
    ghost predicate Marked(start: nat, end: nat)
      reads this
    {
      older == start % TWO32 && newer == end % TWO32 && start <= end
    }

    /** The true distance exactly when fewer than 2^32 cycles lie between the marks. */
    method ElapsedCycles(ghost start: nat, ghost end: nat) returns (cycles: nat)
      ensures cycles < TWO32
      ensures Marked(start, end) ==> (cycles == end - start <==> end - start < TWO32)
    {
      cycles := U32(newer - older);
      if Marked(start, end) { ElapsedIsTrue(start, end); }
    }

    /** From 1 MHz on, the whole microseconds between the marks or one less. */
    method ElapsedMicroseconds(ghost start: nat, ghost end: nat, ghost clock: nat) returns (us: nat)
      ensures us == Micros(U32(newer - older), scale)
      ensures Marked(start, end) && end - start < TWO32 && clock >= MEGA && scale == Scale(clock) ==>
                (end - start) * MEGA / clock - 1 <= us <= (end - start) * MEGA / clock
    {
      us := U64(U32(newer - older) * scale) / TWO32;
      if Marked(start, end) && end - start < TWO32 && clock >= MEGA && scale == Scale(clock) {
        ElapsedIsTrue(start, end);
        MicrosBound(end - start, clock);
      }
    }
  }

  /** The 64-bit product shifted right by 32. */
  function Micros(cycles: nat, scale: nat): nat { U64(cycles * scale) / TWO32 }

  /** Unsigned subtraction gives the true distance, also across a counter wrap, exactly when fewer
      than 2^32 cycles have passed. */
  lemma ElapsedIsTrue(start: nat, end: nat)
    requires start <= end
    ensures U32(end % TWO32 - start % TWO32) == end - start <==> end - start < TWO32
  {
    ModDifference(end, start, TWO32);
  }

  /** The product never overflows 64 bits for any cycle count exactly when the clock is at least
      one megahertz. */
  lemma NoOverflowIff(clock: nat)
    requires clock > 0
    ensures (forall cycles :: 0 <= cycles < TWO32 ==> cycles * Scale(clock) < TWO64) <==> clock >= MEGA
  {
    var q := Scale(clock);
    if clock >= MEGA {
      forall cycles | 0 <= cycles < TWO32
        ensures cycles * q < TWO64
      {
        Fits(cycles, clock);
      }
    } else {
      ScaleAtLeast(clock);
      assert (TWO32 - 1) * q >= (TWO32 - 1) * (TWO32 + 2) by {
        ProductAtMost(TWO32 - 1, TWO32 - 1, TWO32 + 2, q);
      }
    }
  }

  lemma Fits(cycles: nat, clock: nat)
    requires clock >= MEGA && cycles < TWO32
    ensures cycles * Scale(clock) < TWO64 && Micros(cycles, Scale(clock)) == cycles * Scale(clock) / TWO32
  {
    ScaleAtMost(clock);
    ProductAtMost(cycles, TWO32 - 1, Scale(clock), TWO32);
  }

  lemma ProductAtMost(a: nat, b: nat, c: nat, d: nat)
    requires a <= b && c <= d
    ensures a * c <= b * d
  {
    assert a * c <= b * c <= b * d;
  }

  lemma ScaleAtMost(clock: nat)
    requires clock >= MEGA
    ensures Scale(clock) <= TWO32
  {
    var q := Scale(clock);
    assert q * clock <= MEGA * TWO32;
    if q > TWO32 {
      ProductAtMost(TWO32 + 1, q, MEGA, clock);
    }
  }

  lemma ScaleAtLeast(clock: nat)
    requires 0 < clock < MEGA
    ensures Scale(clock) >= TWO32 + 2
  {
    var q := Scale(clock);
    assert MEGA * TWO32 < (q + 1) * clock;
    ProductAtMost(q + 1, q + 1, clock, MEGA - 1);
    Cancel(TWO32 + 4294, q + 1, MEGA - 1);
  }

  /** Error bound: never above the true number of whole microseconds, and at most one below. */
  lemma MicrosBound(cycles: nat, clock: nat)
    requires clock >= MEGA && cycles < TWO32
    ensures cycles * MEGA / clock - 1 <= Micros(cycles, Scale(clock)) <= cycles * MEGA / clock
  {
    var q, exact := Scale(clock), cycles * MEGA / clock;
    Fits(cycles, clock);
    var r := Micros(cycles, q);
    assert q * clock <= MEGA * TWO32 < q * clock + clock;
    // r * clock <= cycles * MEGA
    Upper(cycles, q, clock, r);
    // cycles * MEGA < (r + 2) * clock
    Lower(cycles, q, clock, r);
    assert exact * clock <= cycles * MEGA < (exact + 1) * clock;
    Cancel(r, exact + 1, clock);
    Cancel(exact, r + 2, clock);
  }

  lemma Upper(cycles: nat, q: nat, clock: nat, r: nat)
    requires q * clock <= MEGA * TWO32 && r * TWO32 <= cycles * q
    ensures r * clock <= cycles * MEGA
  {
    assert r * TWO32 * clock <= cycles * q * clock by { ProductAtMost(r * TWO32, cycles * q, clock, clock); }
    assert cycles * q * clock == cycles * (q * clock);
    assert cycles * (q * clock) <= cycles * (MEGA * TWO32) by {
      ProductAtMost(cycles, cycles, q * clock, MEGA * TWO32);
    }
    assert r * TWO32 * clock == r * clock * TWO32;
    assert cycles * (MEGA * TWO32) == cycles * MEGA * TWO32;
  }

  lemma Lower(cycles: nat, q: nat, clock: nat, r: nat)
    requires MEGA * TWO32 < q * clock + clock && cycles * q < r * TWO32 + TWO32 && cycles < TWO32 && clock > 0
    ensures cycles * MEGA < (r + 2) * clock
  {
    assert cycles * (q + 1) < (r + 2) * TWO32;
    assert cycles * (MEGA * TWO32) <= cycles * ((q + 1) * clock) by {
      ProductAtMost(cycles, cycles, MEGA * TWO32, (q + 1) * clock);
    }
    assert cycles * ((q + 1) * clock) == cycles * (q + 1) * clock;
    assert (cycles * (q + 1) + 1) * clock <= (r + 2) * TWO32 * clock by {
      ProductAtMost(cycles * (q + 1) + 1, (r + 2) * TWO32, clock, clock);
    }
    assert (r + 2) * TWO32 * clock == (r + 2) * clock * TWO32;
    assert cycles * (MEGA * TWO32) == cycles * MEGA * TWO32;
  }

  lemma MicrosMonotone(a: nat, b: nat, clock: nat)
    requires clock >= MEGA && a <= b < TWO32
    ensures Micros(a, Scale(clock)) <= Micros(b, Scale(clock))
  {
    var q := Scale(clock);
    Fits(a, clock);
    Fits(b, clock);
    ProductAtMost(a, b, q, q);
    DivMonotone(a * q, b * q, TWO32);
  }
}

/** The absolute alarm schedule shared by the counter interval and the ADC scanner. */
module AlarmSchedule {
  import opened MachineInts

  /** `unit` is 1000 for an interval in milliseconds, 1000000 for microseconds. */
  function Period(freq: nat, interval: nat, unit: nat): nat
    requires unit > 0
  {
    U32(U64(freq * interval) / unit)
  }

  class Alarm {
    var period: nat
    var next: nat

    constructor ()
      ensures period == next == 0
    {
      period, next := 0, 0;
    }

    /** The period of `start` and `activate`; refused when the interval rounds to no tick. */
    method SetPeriod(freq: nat, interval: nat, unit: nat) returns (ok: bool)
      requires unit > 0
      modifies this`period
      ensures ok <==> freq > 0 && Period(freq, interval, unit) > 0
      ensures period == if freq == 0 then old(period) else Period(freq, interval, unit)
    {
      if freq == 0 { return false; }
      period := U32(U64(freq * interval) / unit);
      return period > 0;
    }

    /** The first alarm; `started` and `accepted` are the answers of starting the counter and of setting
        the alarm. */
    method ArmFirst(now: nat, started: bool, accepted: bool) returns (ok: bool)
      requires now < TWO32
      modifies this`next
      ensures ok <==> started && accepted
      ensures next == if started then Target(now, period, 1) else old(next)
    {
      if !started { return false; }
      next := U32(now + period);
      return accepted;
    }

    /** The interrupt handler re-arms at the next absolute target. */
    method OnAlarm(ghost start: nat, ghost n: nat)
      requires next == Target(start, period, n)
      modifies this`next
      ensures next == Target(start, period, n + 1)
    {
      TargetStep(start, period, n);
      next := U32(next + period);
    }
  }

  /** The n-th alarm target, whatever the latencies of the handlers before it. */
  function Target(start: nat, period: nat, n: nat): nat { U32(start + n * period) }

  lemma TargetStep(start: nat, period: nat, n: nat)
    ensures U32(Target(start, period, n) + period) == Target(start, period, n + 1)
  {
    var x := start + n * period;
    assert start + (n + 1) * period == x + period;
    assert x + period == (x % TWO32 + period) + (x / TWO32) * TWO32;
    ModShift(x % TWO32 + period, x / TWO32, TWO32);
  }

  /** How far the n-th unwrapped target trails the ideal instant, in units of 1/unit tick. */
  function Lag(freq: nat, interval: nat, unit: nat, n: nat): int
    requires unit > 0
  {
    n * (freq * interval) - n * Period(freq, interval, unit) * unit
  }

  /** Drift-free: the schedule trails the ideal one by at least nothing and by less than n ticks
      exactly when the period fits 32 bits, and not at all exactly when the division is exact. */
  lemma DriftBound(freq: nat, interval: nat, unit: nat, n: nat)
    requires unit > 0 && n > 0 && freq * interval < TWO64
    ensures 0 <= Lag(freq, interval, unit, n)
    ensures Lag(freq, interval, unit, n) < n * unit <==> freq * interval / unit < TWO32
    ensures Lag(freq, interval, unit, n) == 0 <==> freq * interval % unit == 0 && freq * interval / unit < TWO32
  {
    var total, p := freq * interval, Period(freq, interval, unit);
    var k, r := total / unit / TWO32, total % unit;
    DivMod(total, unit);
    DivMod(total / unit, TWO32);
    LagIs(total, k, p, r, unit, n);
    RestBound(k, r, unit, n);
  }

  lemma LagIs(total: int, k: int, p: int, r: int, unit: int, n: int)
    requires total == (k * TWO32 + p) * unit + r
    ensures n * total - n * p * unit == n * (k * TWO32 * unit + r)
  {
    Regroup(k, p, r, unit);
    Spread(n, p * unit, k * TWO32 * unit + r);
    Associate(n, p, unit);
  }

  lemma Regroup(k: int, p: int, r: int, unit: int)
    ensures (k * TWO32 + p) * unit + r == p * unit + (k * TWO32 * unit + r)
  {}

  lemma Associate(n: int, p: int, unit: int)
    ensures n * p * unit == n * (p * unit)
  {}

  lemma Spread(n: int, a: int, b: int)
    ensures n * (a + b) == n * a + n * b
  {}

  /** `k` wraps of the period are missing and `r` is the remainder of the division. */
  lemma RestBound(k: nat, r: nat, unit: nat, n: nat)
    requires r < unit && n > 0
    ensures var rest := k * TWO32 * unit + r;
      && n * rest >= 0
      && (n * rest < n * unit <==> k == 0)
      && (n * rest == 0 <==> k == 0 && r == 0)
  {
    var rest := k * TWO32 * unit + r;
    if k > 0 {
      RestAtLeast(k, unit);
      Times(n, unit, rest);
    } else {
      Times(n, r + 1, unit);
      assert n * (r + 1) == n * r + n;
    }
    Times(n, 0, rest);
    if rest > 0 { Times(n, 1, rest); }
  }

  lemma RestAtLeast(k: nat, unit: nat)
    requires k > 0
    ensures k * TWO32 * unit >= unit
  {
    Times(unit, 1, k * TWO32);
  }

  lemma Times(n: nat, a: nat, b: nat)
    requires a <= b
    ensures n * a <= n * b
  {}

  // ----- which values the targets take -----

  function Pow2(k: nat): (r: nat)
    ensures r > 0
  {
    if k == 0 then 1 else 2 * Pow2(k - 1)
  }

  /** How often two divides `p`, and what is left. */
  function TwosIn(p: nat): nat
    requires p > 0
  {
    if p % 2 == 1 then 0 else 1 + TwosIn(p / 2)
  }

  function OddPart(p: nat): (q: nat)
    requires p > 0
    ensures q % 2 == 1
  {
    if p % 2 == 1 then p else OddPart(p / 2)
  }

  /** The largest power of two that divides the period. */
  function Grain(period: nat): (g: nat)
    requires period > 0
    ensures g > 0
  {
    Pow2(TwosIn(period))
  }

  lemma {:induction false} Factor(p: nat)
    requires p > 0
    ensures p == Grain(p) * OddPart(p)
  {
    if p % 2 == 0 {
      Factor(p / 2);
      Product(2, Grain(p / 2), OddPart(p / 2));
    }
  }

  lemma Product(a: int, b: int, c: int)
    ensures a * (b * c) == a * b * c
  {}

  lemma {:induction false} TwosAtMost(p: nat, k: nat)
    requires 0 < p < Pow2(k)
    ensures TwosIn(p) < k
    decreases k
  {
    if p % 2 == 0 { TwosAtMost(p / 2, k - 1); }
  }

  lemma {:induction false} Pow2Sum(a: nat, b: nat)
    ensures Pow2(a + b) == Pow2(a) * Pow2(b)
    decreases a
  {
    if a > 0 {
      Pow2Sum(a - 1, b);
      Product(2, Pow2(a - 1), Pow2(b));
    }
  }

  lemma Pow2Of32()
    ensures Pow2(32) == TWO32
  {
    assert Pow2(8) == 0x100;
    assert Pow2(16) == 0x1_0000;
    Pow2Sum(16, 16);
  }

  /** An odd factor reaches every residue modulo a power of two. */
  lemma {:induction false} Solve(q: nat, t: int, k: nat) returns (n: nat, m: int)
    requires q % 2 == 1
    ensures n > 0 && n * q - t == m * Pow2(k)
    decreases k
  {
    if k == 0 {
      n, m := 1, q - t;
    } else {
      n, m := Solve(q, t, k - 1);
      var p := Pow2(k - 1);
      if m % 2 != 0 {
        Grow(n, q, t, m, p);
        n, m := n + p, m + q;
      }
      Halve(m, p);
      m := m / 2;
    }
  }

  lemma Grow(n: int, q: int, t: int, m: int, p: int)
    requires n * q - t == m * p
    ensures (n + p) * q - t == (m + q) * p
  {}

  lemma Halve(m: int, p: int)
    requires m % 2 == 0
    ensures m * p == m / 2 * (2 * p)
  {}

  /** The largest value that is `start` modulo the grain of the period. */
  function Highest(start: nat, period: nat): int
    requires period > 0
  {
    start % Grain(period) + TWO32 - Grain(period)
  }

  /** The words that can hold multiples of the grain. */
  lemma GrainDivides(period: nat) returns (k: nat)
    requires 0 < period < TWO32
    ensures TWO32 == Grain(period) * Pow2(k)
  {
    Pow2Of32();
    TwosAtMost(period, 32);
    k := 32 - TwosIn(period);
    Pow2Sum(TwosIn(period), k);
  }

  lemma HighestIsReached(start: nat, period: nat) returns (n: nat)
    requires start < TWO32 && 0 < period < TWO32
    ensures n > 0 && Target(start, period, n) == Highest(start, period)
  {
    var g, q := Grain(period), OddPart(period);
    Factor(period);
    var k := GrainDivides(period);
    var a, r := start / g, start % g;
    DivMod(start, g);
    var m;
    n, m := Solve(q, Pow2(k) - 1 - a, k);
    Lands(g, q, Pow2(k), a, n, m);
    Reaches(start, n * period, a * g, r, TWO32 - g, m * TWO32);
    ModShift(Highest(start, period), m, TWO32);
  }

  lemma Reaches(start: int, travelled: int, grains: int, r: int, rest: int, wraps: int)
    requires start == grains + r && grains + travelled == rest + wraps
    ensures start + travelled == r + rest + wraps
  {}

  lemma Lands(g: int, q: int, w: int, a: int, n: int, m: int)
    requires n * q - (w - 1 - a) == m * w
    ensures a * g + n * (g * q) == g * w - g + m * (g * w)
  {
    assert n * q == m * w + w - 1 - a;
    Product(n, q, g);
    Product(m, w, g);
    Swap(n, g, q);
    Swap(m, g, w);
    assert n * q * g == m * w * g + w * g - g - a * g;
  }

  /** A reduced target differs from the start by a whole number of grains. */
  lemma GrainsApart(start: nat, g: int, q: int, w: int, n: nat, wraps: int)
    ensures start + n * (g * q) - wraps * (g * w) == start + (n * q - wraps * w) * g
  {
    Product(n, q, g);
    Product(wraps, w, g);
    Distribute(n * q, wraps * w, g);
    Swap(n, g, q);
    Swap(wraps, g, w);
  }

  lemma Swap(a: int, b: int, c: int)
    ensures a * (b * c) == a * (c * b)
  {}

  lemma NoneHigher(start: nat, period: nat, n: nat)
    requires 0 < period < TWO32
    ensures Target(start, period, n) <= Highest(start, period)
  {
    var g, q := Grain(period), OddPart(period);
    Factor(period);
    var k := GrainDivides(period);
    var x := start + n * period;
    var y, wraps := Target(start, period, n), x / TWO32;
    DivMod(x, TWO32);
    GrainsApart(start, g, q, Pow2(k), n, wraps);
    ModShift(start, n * q - wraps * Pow2(k), g);
    AtMostLast(y, g, Pow2(k));
  }

  lemma Distribute(a: int, b: int, c: int)
    ensures (a - b) * c == a * c - b * c
  {}

  lemma AtMostLast(y: nat, g: nat, w: nat)
    requires g > 0 && y < g * w
    ensures y <= y % g + g * w - g
  {
    DivMod(y, g);
    Cancel(y / g, w, g);
    Times(g, y / g, w - 1);
    assert g * (w - 1) == g * w - g;
  }

  /** The targets wrap at 2^32, not at the counter's own top.  For a given start and period the
      counter shows every target exactly when its top is not below the highest value that is the
      start modulo the largest power of two in the period. */
  lemma TargetsShownIff(top: nat, start: nat, period: nat)
    requires start < TWO32 && 0 < period < TWO32
    ensures (forall n: nat :: n > 0 ==> Target(start, period, n) <= top) <==> Highest(start, period) <= top
  {
    if Highest(start, period) <= top {
      forall n: nat | n > 0
        ensures Target(start, period, n) <= top
      {
        NoneHigher(start, period, n);
      }
    } else {
      var n := HighestIsReached(start, period);
    }
  }

  /** For every start and period it does so exactly when it is a full 32-bit counter. */
  lemma AllTargetsShownIff(top: nat)
    requires top < TWO32
    ensures (forall start: nat, period: nat, n: nat ::
               start <= top && 0 < period < TWO32 && n > 0 ==> Target(start, period, n) <= top)
       <==> top == TWO32 - 1
  {
    if top < TWO32 - 1 {
      assert Target(top, 1, 1) == top + 1;
    }
  }
}

/** Wrap-safe nanosecond timestamps of the ADC scanner. */
module AdcClock {
  import opened MachineInts

  const GIGA: nat := 1_000_000_000

  /** The reading of the last sample and the ticks of the turns noticed before it. */
  datatype Clock = Clock(prev: nat, base: nat)

  function Advance(c: Clock, top: nat, now: nat): Clock {
    Clock(now, if now < c.prev then U64(c.base + top + 1) else c.base)
  }

  function Ticks(c: Clock): nat { U64(c.base + c.prev) }

  function Nanos(ticks: nat, freq: nat): nat
    requires freq > 0
  {
    U64(U64(ticks / freq * GIGA) + ticks % freq * GIGA / freq)
  }

  class Timestamper {
    var counterPrev: nat
    var counterBase: nat

    constructor ()
      ensures Abs() == Clock(0, 0)
    {
      counterPrev, counterBase := 0, 0;
    }

    ghost function Abs(): Clock
      reads this
    {
      Clock(counterPrev, counterBase)
    }

    method Reset()
      modifies this
      ensures Abs() == Clock(0, 0)
    {
      counterPrev, counterBase := 0, 0;
    }

    method TicksToNs(now: nat, top: nat, freq: nat) returns (ns: nat)
      requires freq > 0
      modifies this
      ensures Abs() == Advance(old(Abs()), top, now)
      ensures ns == Nanos(Ticks(Abs()), freq)
    {
      if now < counterPrev {
        counterBase := U64(counterBase + top + 1);
      }
      counterPrev := now;
      var total := U64(counterBase + now);
      ns := U64(U64(total / freq * 1_000_000_000) + total % freq * 1_000_000_000 / freq);
    }
  }

  /** The clock after sampling at the true, unwrapped tick counts `ts` of one activation. */
  function After(top: nat, ts: seq<nat>): Clock {
    if ts == [] then Clock(0, 0)
    else Advance(After(top, ts[..|ts| - 1]), top, ts[|ts| - 1] % (top + 1))
  }

  /** The clock `c` after a list of readings. */
  function Sampled(c: Clock, top: nat, readings: seq<nat>): Clock {
    if readings == [] then c
    else Advance(Sampled(c, top, readings[..|readings| - 1]), top, readings[|readings| - 1])
  }

  /** What a counter with that top shows at the true tick counts. */
  function Readings(top: nat, ts: seq<nat>): (readings: seq<nat>)
    ensures |readings| == |ts|
  {
    seq(|ts|, i requires 0 <= i < |ts| => ts[i] % (top + 1))
  }

  lemma {:induction false} SampledIsAfter(top: nat, ts: seq<nat>)
    ensures Sampled(Clock(0, 0), top, Readings(top, ts)) == After(top, ts)
    decreases |ts|
  {
    if ts != [] {
      SampledIsAfter(top, ts[..|ts| - 1]);
      assert Readings(top, ts)[..|ts| - 1] == Readings(top, ts[..|ts| - 1]);
    }
  }

  function Last(ts: seq<nat>): nat { if ts == [] then 0 else ts[|ts| - 1] }

  /** The sampling instants never go back. */
  predicate Ordered(ts: seq<nat>) {
    ts == [] || (Ordered(ts[..|ts| - 1]) && Last(ts[..|ts| - 1]) <= Last(ts))
  }

  /** Successive samples, and the first one after the start, are less than one full turn apart. */
  predicate Close(top: nat, ts: seq<nat>) {
    ts == [] || (Close(top, ts[..|ts| - 1]) && Last(ts) <= Last(ts[..|ts| - 1]) + top)
  }

  /** From one sample to the next the counter turns over at least as often as the clock can see by
      comparing readings, and exactly as often when less than one full turn passes. */
  lemma StepTurns(m: nat, t: nat, u: nat)
    requires m > 0 && t <= u
    ensures var seen := if u % m < t % m then 1 else 0;
      u / m >= t / m + seen && (u / m == t / m + seen <==> u - t < m)
  {
    DivMonotone(t, u, m);
    assert (u / m - t / m) * m == u / m * m - t / m * m;
    WrapsMissed(m, u / m - t / m, t % m, u % m);
  }

  lemma Multiply(a: int, b: int, m: nat)
    requires a <= b
    ensures a * m <= b * m
  {}

  /** `steps` full turns were passed between the readings `r` and `s`; at most one is noticed. */
  lemma WrapsMissed(m: nat, steps: nat, r: nat, s: nat)
    requires r < m && s < m && 0 <= steps * m + s - r
    ensures var seen := if s < r then 1 else 0;
      steps >= seen && (steps == seen <==> steps * m + s - r < m)
  {
    if steps == 0 {
    } else if steps == 1 {
    } else {
      Multiply(2, steps, m);
    }
  }

  /** The turns that the clock noticed. */
  function Noticed(top: nat, ts: seq<nat>): nat {
    if ts == [] then 0
    else Noticed(top, ts[..|ts| - 1])
         + (if Last(ts) % (top + 1) < Last(ts[..|ts| - 1]) % (top + 1) then 1 else 0)
  }

  /** The clock stands at the noticed turns plus the reading; a turn once missed is never made up. */
  lemma {:induction false} AfterTracks(top: nat, ts: seq<nat>)
    requires Ordered(ts) && Last(ts) < TWO64
    ensures After(top, ts) == Clock(Last(ts) % (top + 1), Noticed(top, ts) * (top + 1))
    ensures Noticed(top, ts) <= Last(ts) / (top + 1)
    ensures Noticed(top, ts) == Last(ts) / (top + 1) <==> Close(top, ts)
    decreases |ts|
  {
    var m := top + 1;
    if ts != [] {
      var front := ts[..|ts| - 1];
      var t, u := Last(front), Last(ts);
      AfterTracks(top, front);
      StepTurns(m, t, u);
      DivMod(u, m);
      AdvanceNotices(m, Noticed(top, front), t % m, u / m, u % m);
    }
  }

  /** The clock's step in turns: `k` turns noticed so far, `q` turns really passed. */
  lemma AdvanceNotices(m: nat, k: nat, r: nat, q: nat, s: nat)
    requires r < m && s < m && k + (if s < r then 1 else 0) <= q && q * m + s < TWO64
    ensures Advance(Clock(r, k * m), m - 1, s) == Clock(s, (k + (if s < r then 1 else 0)) * m)
  {
    if s < r {
      Multiply(k + 1, q, m);
      assert (k + 1) * m == k * m + m;
    }
  }

  lemma TicksOf(m: nat, k: nat, q: nat, r: nat)
    requires r < m && k <= q && q * m + r < TWO64
    ensures Ticks(Clock(r, k * m)) == k * m + r <= q * m + r
    ensures Ticks(Clock(r, k * m)) == q * m + r <==> k == q
  {
    Multiply(k, q, m);
    if k < q {
      Multiply(k + 1, q, m);
      assert (k + 1) * m == k * m + m;
    }
  }

  /** Base plus counter never runs ahead of the true count. */
  lemma TicksAre(top: nat, ts: seq<nat>)
    requires Ordered(ts) && Last(ts) < TWO64
    ensures Ticks(After(top, ts)) == Noticed(top, ts) * (top + 1) + Last(ts) % (top + 1) <= Last(ts)
    ensures Ticks(After(top, ts)) == Last(ts) <==> Noticed(top, ts) == Last(ts) / (top + 1)
  {
    AfterTracks(top, ts);
    DivMod(Last(ts), top + 1);
    TicksOf(top + 1, Noticed(top, ts), Last(ts) / (top + 1), Last(ts) % (top + 1));
  }

  /** Exactness: base plus counter is the true tick count exactly when all samples so far were less
      than one wrap apart. */
  lemma TicksExact(top: nat, ts: seq<nat>)
    requires Ordered(ts) && Last(ts) < TWO64
    ensures Ticks(After(top, ts)) == Last(ts) <==> Close(top, ts)
  {
    TicksAre(top, ts);
    AfterTracks(top, ts);
  }

  /** Splitting off whole seconds first computes the same floor without the wide product. */
  lemma SplitFloor(ticks: nat, freq: nat)
    requires freq > 0
    ensures ticks / freq * GIGA + ticks % freq * GIGA / freq == ticks * GIGA / freq
  {
    var s, r := ticks / freq, ticks % freq;
    var q := r * GIGA / freq;
    assert ticks == s * freq + r;
    assert ticks * GIGA == s * freq * GIGA + r * GIGA;
    assert s * freq * GIGA == s * GIGA * freq;
    assert q * freq <= r * GIGA < q * freq + freq;
    assert (s * GIGA + q) * freq == s * GIGA * freq + q * freq;
    DivBounds(ticks * GIGA, freq, s * GIGA + q);
  }

  /** The returned value is the floor of ticks * 10^9 / freq exactly when that floor fits 64 bits;
      by `TicksBound` it does so up to 18446744073 seconds worth of ticks. */
  lemma NanosExact(ticks: nat, freq: nat)
    requires freq > 0
    ensures Nanos(ticks, freq) == ticks * GIGA / freq <==> ticks * GIGA / freq < TWO64
  {
    SplitFloor(ticks, freq);
    NestedU64(ticks / freq * GIGA, ticks % freq * GIGA / freq);
  }

  lemma NestedU64(a: nat, b: nat)
    ensures U64(U64(a) + b) == a + b <==> a + b < TWO64
  {}

  lemma TicksBound(ticks: nat, freq: nat)
    requires freq > 0 && ticks <= 18_446_744_073 * freq
    ensures ticks * GIGA / freq < TWO64
  {
    var most := 18_446_744_073 * freq * GIGA;
    DivMonotone(ticks * GIGA, most, freq);
    assert most == 18_446_744_073 * GIGA * freq;
    DivBounds(most, freq, 18_446_744_073 * GIGA);
  }

  /** What a scan shows: from the readings alone, the floor of its true time in nanoseconds, if no
      sample of the activation came a full turn or more after the one before it, as long as the times
      of the activation fit 64 bits; up to 1 GHz only then. */
  lemma StampExact(top: nat, ts: seq<nat>, freq: nat)
    requires freq > 0 && Ordered(ts) && Last(ts) * GIGA / freq < TWO64 && Last(ts) < TWO64
    ensures var stamp := Nanos(Ticks(Sampled(Clock(0, 0), top, Readings(top, ts))), freq);
      && (Close(top, ts) ==> stamp == Last(ts) * GIGA / freq)
      && (freq <= GIGA && stamp == Last(ts) * GIGA / freq ==> Close(top, ts))
  {
    SampledIsAfter(top, ts);
    TicksAre(top, ts);
    TicksExact(top, ts);
    var b := Ticks(After(top, ts));
    DivMonotone(b * GIGA, Last(ts) * GIGA, freq);
    NanosExact(b, freq);
    if b < Last(ts) && freq <= GIGA { NanosDiffer(b, Last(ts), freq); }
  }

  /** Up to 1 GHz different tick counts have different times. */
  lemma NanosDiffer(a: nat, b: nat, freq: nat)
    requires 0 < freq <= GIGA && a < b
    ensures a * GIGA / freq < b * GIGA / freq
  {
    var q := a * GIGA / freq;
    DivMod(a * GIGA, freq);
    assert (q + 1) * freq == q * freq + freq;
    DivMonotone((q + 1) * freq, b * GIGA, freq);
    DivBounds((q + 1) * freq, freq, q + 1);
  }

  lemma TicksMonotone(top: nat, ts: seq<nat>)
    requires |ts| >= 1 && Ordered(ts) && Last(ts) < TWO64
    ensures Ticks(After(top, ts[..|ts| - 1])) <= Ticks(After(top, ts))
  {
    var front := ts[..|ts| - 1];
    assert Last(front) <= Last(ts);
    TicksAre(top, front);
    TicksAre(top, ts);
    assert (Noticed(top, front) + 1) * (top + 1) == Noticed(top, front) * (top + 1) + top + 1;
  }

  /** Timestamps within one activation never decrease, even past missed wraps. */
  lemma TimestampsMonotone(top: nat, ts: seq<nat>, freq: nat)
    requires freq > 0 && |ts| >= 1 && Ordered(ts) && Last(ts) * GIGA / freq < TWO64 && Last(ts) < TWO64
    ensures Nanos(Ticks(After(top, ts[..|ts| - 1])), freq) <= Nanos(Ticks(After(top, ts)), freq)
  {
    TicksMonotone(top, ts);
    TicksAre(top, ts);
    var b := Ticks(After(top, ts));
    DivMonotone(b * GIGA, Last(ts) * GIGA, freq);
    NanosMonotone(Ticks(After(top, ts[..|ts| - 1])), b, freq);
  }

  lemma NanosMonotone(a: nat, b: nat, freq: nat)
    requires freq > 0 && a <= b && b * GIGA / freq < TWO64
    ensures Nanos(a, freq) <= Nanos(b, freq)
  {
    DivMonotone(a * GIGA, b * GIGA, freq);
    NanosExact(a, freq);
    NanosExact(b, freq);
  }
}
