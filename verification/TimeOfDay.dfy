/** ALT_SETTIMEOFDAY and ALT_GETTIMEOFDAY: the wall clock kept as an offset from the tick
    counter. */
module TimeOfDay {
  import opened Arithmetic
  import opened Errno

  const ALT_US := 1000000

  datatype Timeval = Timeval(sec: int, usec: int)
  datatype Timezone = Timezone(minuteswest: int, dsttime: int)

  predicate Normalised(t: Timeval) {
    0 <= t.usec < ALT_US
  }

  function Micros(t: Timeval): int {
    t.sec * ALT_US + t.usec
  }

  /** The time since reset as the code computes it: whole seconds from one quotient,
      microseconds from another. */
  function Elapsed(n: nat, rate: nat): Timeval
    requires rate > 0
  {
    Timeval(n / rate, (n * (ALT_US / rate)) % ALT_US)
  }

  function Minus(a: Timeval, b: Timeval): Timeval {
    Timeval(a.sec - b.sec, a.usec - b.usec)
  }

  function Plus(a: Timeval, b: Timeval): Timeval {
    Timeval(a.sec + b.sec, a.usec + b.usec)
  }

  /** The reading for a sum of offset and elapsed time: normalised, and never borrowed from
      below zero seconds. */
  function Reading(t: Timeval): Timeval {
    if t.usec < 0 && Micros(t) < 0 then Timeval(0, 0)
    else Timeval(Micros(t) / ALT_US, Micros(t) % ALT_US)
  }

  /** What the loops do to a sum: nothing is lost but a negative time, which reads as 0 if it
      would have to be borrowed from. */
  lemma ReadingMeans(t: Timeval)
    ensures t.usec >= 0 || Micros(t) >= 0 ==> Normalised(Reading(t)) && Micros(Reading(t)) == Micros(t)
    ensures t.usec < 0 && Micros(t) < 0 ==> Reading(t) == Timeval(0, 0)
  {
  }

  class WallClock {
    var reset: Timeval      // alt_resettime
    var zone: Timezone      // alt_timezone
    var errno: int

    constructor ()
      ensures reset == Timeval(0, 0) && zone == Timezone(0, 0)
    {
      reset, zone, errno := Timeval(0, 0), Timezone(0, 0), 0;
    }

    /** ALT_SETTIMEOFDAY. */
    method Set(t: Timeval, tz: Timezone, nticks: nat, rate: nat) returns (rc: int)
      modifies this
      ensures rate > 0 ==> rc == 0 && zone == tz && Plus(reset, Elapsed(nticks, rate)) == t && errno == old(errno)
      ensures rate == 0 ==> rc == -1 && errno == ENOSYS && reset == old(reset) && zone == old(zone)
    {
      if rate != 0 {
        reset := Timeval(t.sec - nticks / rate, t.usec - (nticks * (ALT_US / rate)) % ALT_US);
        zone := tz;
        return 0;
      }
      errno := ENOSYS;
      return -1;
    }

    /** ALT_GETTIMEOFDAY. On failure the caller's structures keep their values. */
    method Get(t0: Timeval, tz0: Timezone, nticks: nat, rate: nat) returns (rc: int, t: Timeval, tz: Timezone)
      ensures rate > 0 ==> rc == 0 && t == Reading(Plus(reset, Elapsed(nticks, rate))) && tz == zone
      ensures rate == 0 ==> rc == -ENOTSUP && t == t0 && tz == tz0
    {
      t, tz := t0, tz0;
      if rate != 0 {
        t := Timeval(reset.sec + nticks / rate, reset.usec + (nticks * (ALT_US / rate)) % ALT_US);
        ghost var raw := t;
        while t.usec < 0
          invariant Micros(t) == Micros(raw)
          invariant if raw.usec < 0 then t.usec < ALT_US && (t == raw || t.sec >= 0) else t == raw
          decreases -t.usec
        {
          if t.sec <= 0 {
            assert Micros(raw) < 0;
            t := Timeval(0, 0);
            break;
          } else {
            t := Timeval(t.sec - 1, t.usec + ALT_US);
          }
        }
        while t.usec >= ALT_US
          invariant t.usec >= 0 && Reading(t) == Reading(raw)
        {
          t := Timeval(t.sec + 1, t.usec - ALT_US);
        }
        tz := zone;
        return 0, t, tz;
      }
      return -ENOTSUP, t, tz;
    }
  }

  // ---- Exactness ------------------------------------------------------------------------

  /** The tick counter in microseconds, as far as integers allow. */
  function Exact(n: nat, rate: nat): nat
    requires rate > 0
  {
    n * (ALT_US / rate)
  }

  lemma Product(q: int, rate: int, r: int, k: int)
    ensures (q * rate + r) * k == q * (rate * k) + r * k
  {
  }

  lemma WholeAndRest(q: nat, x: nat)
    requires x < ALT_US
    ensures (q * ALT_US + x) % ALT_US == x
  {
  }

  /** For a tick rate that divides a million the two quotients agree. */
  lemma ElapsedExact(n: nat, rate: nat)
    requires rate > 0 && ALT_US % rate == 0
    ensures Micros(Elapsed(n, rate)) == Exact(n, rate)
  {
    var k, q, r := ALT_US / rate, n / rate, n % rate;
    assert n == q * rate + r && rate * k == ALT_US;
    Product(q, rate, r, k);
    assert r * k < rate * k;
    WholeAndRest(q, r * k);
  }

  lemma ReadingOfSum(t: Timeval, a: Timeval, b: Timeval)
    requires Normalised(t) && t.sec >= 0 && Normalised(a) && Normalised(b) && Micros(a) <= Micros(b)
    ensures var r := Reading(Plus(Minus(t, a), b));
      Normalised(r) && r.sec >= 0 && Micros(r) == Micros(t) + Micros(b) - Micros(a)
  {
  }

  lemma Difference(n: nat, m: nat, k: nat)
    requires n <= m
    ensures m * k - n * k == (m - n) * k >= 0
  {
  }

  /** Setting the time at tick n and reading it at tick m gives the time set plus m - n ticks,
      to the microsecond, and already normalised. */
  lemma SetThenGet(t: Timeval, n: nat, m: nat, rate: nat)
    requires rate > 0 && ALT_US % rate == 0 && Normalised(t) && t.sec >= 0 && n <= m
    ensures var r := Reading(Plus(Minus(t, Elapsed(n, rate)), Elapsed(m, rate)));
      && 0 <= r.usec < 1000000 && r.sec >= 0
      && r.sec * 1000000 + r.usec == t.sec * 1000000 + t.usec + (m - n) * (1000000 / rate)
  {
    ElapsedExact(n, rate);
    ElapsedExact(m, rate);
    Difference(n, m, ALT_US / rate);
    ReadingOfSum(t, Elapsed(n, rate), Elapsed(m, rate));
  }

  /** At the tick of the call itself the reading is the time set, whatever the rate. */
  lemma SetThenGetAtOnce(t: Timeval, n: nat, rate: nat)
    requires rate > 0 && Normalised(t)
    ensures Reading(Plus(Minus(t, Elapsed(n, rate)), Elapsed(n, rate))) == t
  {
  }

  /** Those are the only rates for which the clock tells the true time: after n ticks,
      n / rate seconds. */
  lemma ExactOnlyForDivisors(rate: nat)
    requires rate > 0
    ensures (forall n: nat :: Micros(Elapsed(n, rate)) * rate == n * 1000000) <==> 1000000 % rate == 0
  {
    if ALT_US % rate == 0 {
      forall n: nat ensures Micros(Elapsed(n, rate)) * rate == n * ALT_US {
        ElapsedExact(n, rate);
        var k := ALT_US / rate;
        DivMod(ALT_US, rate);
        Reorder(n, k, rate);
      }
    } else if rate < ALT_US {
      AfterOneSecond(rate);
    } else {
      AfterOneTick(rate);
    }
  }

  lemma Reorder(n: nat, k: nat, rate: nat)
    ensures n * k * rate == n * (k * rate)
  {
  }

  /** After one second the clock shows more than a second. */
  lemma AfterOneSecond(rate: nat)
    requires 0 < rate < ALT_US && ALT_US % rate != 0
    ensures Micros(Elapsed(rate, rate)) * rate > rate * ALT_US
  {
    var k := ALT_US / rate;
    DivideDown(ALT_US, rate);
    Scale(1, k, rate);
    var x := rate * k;
    assert 0 < x < ALT_US;
    assert Elapsed(rate, rate) == Timeval(1, x);
    assert (ALT_US + x) * rate == ALT_US * rate + x * rate;
    Scale(1, x, rate);
  }

  /** A tick shorter than a microsecond does not count. */
  lemma AfterOneTick(rate: nat)
    requires rate > ALT_US
    ensures Micros(Elapsed(1, rate)) * rate != 1 * ALT_US
  {
    assert Elapsed(1, rate) == Timeval(0, 0);
  }

  lemma ElapsedBetween(n: nat, rate: nat, x: nat)
    requires 0 < rate <= n < 2 * rate && n * (ALT_US / rate) == x
    ensures Elapsed(n, rate) == Timeval(1, x % ALT_US)
  {
    assert n / rate == 1;
  }

  /** The last tick before the microsecond product passes a million falls in the second
      after the first one ended. */
  lemma Crossing(rate: nat) returns (n: nat)
    requires 0 < rate <= ALT_US && ALT_US % rate != 0
    ensures rate <= n && n + 1 < 2 * rate
    ensures n * (ALT_US / rate) < ALT_US <= (n + 1) * (ALT_US / rate)
    ensures (n + 1) * (ALT_US / rate) == n * (ALT_US / rate) + ALT_US / rate
  {
    var k := ALT_US / rate;
    DivideDown(ALT_US, rate);
    n := (ALT_US - 1) / k;
    DivideDown(ALT_US - 1, k);
    Product(n, 1, 1, k);
    CrossingEarly(rate, k, n);
    CrossingLate(rate, k, n);
  }

  lemma DivideDown(x: nat, d: nat)
    requires d > 0
    ensures d * (x / d) <= x < d * (x / d) + d
    ensures x % d != 0 ==> d * (x / d) < x
    ensures x >= d ==> x / d >= 1
  {
  }

  lemma CrossingEarly(rate: nat, k: nat, n: nat)
    requires rate * k < ALT_US <= n * k + k
    ensures rate <= n
  {
    Product(n, 1, 1, k);
    if n < rate { Scale(n + 1, rate, k); }
  }

  lemma CrossingLate(rate: nat, k: nat, n: nat)
    requires rate > 0 && k > 0 && ALT_US < rate * k + rate && n * k < ALT_US
    ensures n + 1 < 2 * rate
  {
    Product(1, rate, rate - 1, k);
    assert (2 * rate - 1) * k == rate * k + (rate - 1) * k;
    Scale(1, k, rate - 1);
    if n + 1 >= 2 * rate { Scale(2 * rate - 1, n, k); }
  }

  /** There the microseconds wrap although the second does not change. */
  lemma StepsBack(rate: nat) returns (n: nat)
    requires 0 < rate <= ALT_US && ALT_US % rate != 0
    ensures Micros(Elapsed(n + 1, rate)) < Micros(Elapsed(n, rate))
  {
    n := Crossing(rate);
    var k := ALT_US / rate;
    var x := n * k;
    ElapsedBetween(n, rate, x);
    ElapsedBetween(n + 1, rate, x + k);
    assert k < ALT_US;
    WrapsBelow(x, k);
  }

  lemma WrapsBelow(x: nat, k: nat)
    requires x < ALT_US <= x + k && k < ALT_US
    ensures (x + k) % ALT_US < x % ALT_US
  {
  }

  lemma CoarseClock(n: nat, rate: nat)
    requires rate > ALT_US
    ensures Micros(Elapsed(n, rate)) <= Micros(Elapsed(n + 1, rate))
  {
    assert ALT_US / rate == 0;
    var p, q := n / rate, (n + 1) / rate;
    if q < p { Scale(q + 1, p, rate); }
  }

  /** The clock never runs backwards exactly for rates that divide a million, and for rates
      above a million, where it only counts seconds. */
  lemma MonotoneExactly(rate: nat)
    requires rate > 0
    ensures (forall n: nat :: Micros(Elapsed(n, rate)) <= Micros(Elapsed(n + 1, rate)))
      <==> ALT_US % rate == 0 || rate > ALT_US
  {
    if ALT_US % rate == 0 {
      forall n: nat ensures Micros(Elapsed(n, rate)) <= Micros(Elapsed(n + 1, rate)) {
        ElapsedExact(n, rate);
        ElapsedExact(n + 1, rate);
        Difference(n, n + 1, ALT_US / rate);
      }
    } else if rate > ALT_US {
      forall n: nat ensures Micros(Elapsed(n, rate)) <= Micros(Elapsed(n + 1, rate)) {
        CoarseClock(n, rate);
      }
    } else {
      var n := StepsBack(rate);
    }
  }
}
