/** The calibrated loop of alt_busy_sleep: how long it runs for a request in microseconds,
    with F clocks per microsecond and C clocks per loop iteration. */
module BusySleep {
  import opened Arithmetic

  /** US_PER_OUTER_LOOP: the microseconds that 2^32 iterations take, rounded down. */
  function OuterUs(F: nat, C: nat): nat
    requires F > 0
  {
    (C * (WORD - 1) + C) / F
  }

  predicate Calibrated(F: nat, C: nat) {
    F >= 1 && C >= 1 && C * F < 0x1_0000
  }

  /** What is left for the short loop. */
  function Rest(us: u32, F: nat, C: nat): nat
    requires F > 0
  {
    if us > OuterUs(F, C) && OuterUs(F, C) > 0 then us % OuterUs(F, C) else us
  }

  function BigLoops(us: u32, F: nat, C: nat): nat
    requires F > 0
  {
    if us > OuterUs(F, C) && OuterUs(F, C) > 0 then us / OuterUs(F, C) else 0
  }

  /** The iterations of the short loop, in the 32-bit arithmetic of the code. */
  function SmallLoops(rest: nat, F: nat, C: nat): nat
    requires C > 0
  {
    if rest > C * 0x1_0000 then (rest / C) * F % WORD else (rest * F % WORD) / C
  }

  function Iterations(us: u32, F: nat, C: nat): nat
    requires Calibrated(F, C)
  {
    BigLoops(us, F, C) * WORD + SmallLoops(Rest(us, F, C), F, C)
  }

  /** The one request for which a product needs more than 32 bits. */
  predicate Overflows(us: u32, F: nat, C: nat)
    requires F > 0
  {
    us == OuterUs(F, C) && WORD % F == 0
  }

  // ---- The loops -------------------------------------------------------------------------

  /** The nested countdown. The inner register starts at 0, so its first pass wraps around. */
  method CountDown(outer: u32) returns (iterations: nat)
    requires outer > 0
    ensures iterations == outer * WORD
  {
    var inner, left := 0, outer;
    iterations := 0;
    while left > 0
      invariant 0 <= left <= outer && inner == 0 && iterations == (outer - left) * WORD
    {
      ghost var before := iterations;
      inner := (inner + WORD - 1) % WORD;
      iterations := iterations + 1;
      while inner != 0
        invariant 0 <= inner < WORD && iterations + inner == before + WORD
        decreases inner
      {
        inner := (inner + WORD - 1) % WORD;
        iterations := iterations + 1;
      }
      left := left - 1;
    }
  }

  method Spin(count: u32) returns (iterations: nat)
    ensures iterations == count
  {
    iterations := 0;
    var left := count;
    while left > 0
      invariant 0 <= left <= count && iterations + left == count
    {
      left := left - 1;
      iterations := iterations + 1;
    }
  }

  /** alt_busy_sleep without a timer. */
  method Sleep(request: u32, F: nat, C: nat) returns (iterations: nat)
    requires Calibrated(F, C)
    ensures iterations == Iterations(request, F, C)
  {
    var us := request;
    iterations := 0;
    OuterPositive(F, C);
    if us > OuterUs(F, C) {
      var big := us / OuterUs(F, C);
      QuotientFits(us, OuterUs(F, C));
      iterations := CountDown(big);
      us := us % OuterUs(F, C);
    }
    var small;
    if us > C * 0x1_0000 {
      small := (us / C) * F % WORD;
    } else {
      small := (us * F % WORD) / C;
      QuotientFits(us * F % WORD, C);
    }
    var more := Spin(small);
    iterations := iterations + more;
  }

  lemma QuotientFits(a: nat, b: nat)
    requires b > 0
    ensures 0 <= a / b <= a && 0 <= a % b <= a
    ensures a >= b ==> a / b > 0
  {
    DivMod(a, b);
    Scale(1, b, a / b);
    if a / b == 0 { assert 0 * b == 0; }
  }

  lemma OuterPositive(F: nat, C: nat)
    requires Calibrated(F, C)
    ensures OuterUs(F, C) > 0
  {
    Scale(1, C, F);
    Scale(1, C, WORD);
    QuotientFits(C * WORD, F);
    assert C * (WORD - 1) + C == C * WORD;
  }

  // ---- How long it sleeps ------------------------------------------------------------------

  /** The time slept minus the time asked for, in clocks. */
  function Error(us: u32, F: nat, C: nat): int
    requires Calibrated(F, C)
  {
    C * Iterations(us, F, C) - F * us
  }

  /** OuterUs is the quotient of one nest of loops by F; the remainder is its rounding error. */
  lemma OuterQuotient(F: nat, C: nat)
    requires Calibrated(F, C)
    ensures C * WORD - (F - 1) <= F * OuterUs(F, C) <= C * WORD
    ensures OuterUs(F, C) > 0
  {
    OuterPositive(F, C);
    assert C * (WORD - 1) + C == C * WORD;
    DivMod(C * WORD, F);
  }

  lemma ShortProduct(rest: nat, F: nat, C: nat)
    requires Calibrated(F, C) && rest <= C * 0x1_0000
    ensures rest * F < WORD
  {
    Scale(rest, C * 0x1_0000, F);
    assert C * 0x1_0000 * F == C * F * 0x1_0000;
  }

  lemma RoundDown(x: nat, C: nat)
    requires C > 0
    ensures x - (C - 1) <= C * (x / C) <= x
  {
    DivMod(x, C);
  }

  lemma Short(rest: nat, F: nat, C: nat)
    requires Calibrated(F, C) && rest <= C * 0x1_0000
    ensures rest * F - (C - 1) * F <= C * SmallLoops(rest, F, C) <= rest * F
  {
    ShortProduct(rest, F, C);
    var p := rest * F;
    InWord(p);
    assert SmallLoops(rest, F, C) == p / C;
    RoundDown(p, C);
    Scale(1, F, C - 1);
    Weaken(p, C * (p / C), C - 1, (C - 1) * F);
  }

  lemma InWord(p: nat)
    requires p < WORD
    ensures p % WORD == p
  {
  }

  lemma Weaken(p: int, x: int, a: int, b: int)
    requires p - a <= x <= p && a <= b
    ensures p - b <= x <= p
  {
  }

  lemma Regroup(q: nat, F: nat, C: nat)
    ensures C * (q * F) == F * (q * C)
  {
  }

  lemma Expand(F: nat, a: nat, b: nat)
    ensures F * (a + b) == F * a + F * b
  {
  }

  /** The long branch computes exactly, unless its product reaches 2^32. */
  lemma Long(rest: nat, F: nat, C: nat)
    requires Calibrated(F, C) && (rest / C) * F < WORD && rest > C * 0x1_0000
    ensures F * rest - (C - 1) * F <= C * SmallLoops(rest, F, C) <= F * rest
  {
    var q, r := rest / C, rest % C;
    DivMod(rest, C);
    assert SmallLoops(rest, F, C) == q * F;
    Regroup(q, F, C);
    Expand(F, q * C, r);
    Scale(r, C - 1, F);
  }

  /** The product of the long branch is at most 2^32. */
  lemma LongProduct(rest: nat, F: nat, C: nat)
    requires Calibrated(F, C) && rest <= OuterUs(F, C)
    ensures (rest / C) * F <= WORD
    ensures (rest / C) * F == WORD ==> F * rest == C * WORD
  {
    var q := rest / C;
    OuterQuotient(F, C);
    DivMod(rest, C);
    Scale(rest, OuterUs(F, C), F);
    Scale(q * C, rest, F);
    Regroup(q, F, C);
    assert C * (q * F) <= F * rest <= C * WORD;
    if q * F > WORD { Scale(WORD + 1, q * F, C); }
  }

  /** The short loop, for what the nested loops leave over. */
  lemma SmallError(rest: nat, F: nat, C: nat)
    requires Calibrated(F, C) && rest <= OuterUs(F, C) && (rest == OuterUs(F, C) ==> WORD % F != 0)
    ensures F * rest - (C - 1) * F <= C * SmallLoops(rest, F, C) <= F * rest
  {
    if rest <= C * 0x1_0000 {
      Short(rest, F, C);
      assert F * rest == rest * F;
    } else {
      LongProduct(rest, F, C);
      if (rest / C) * F == WORD {
        MultipleOf(rest / C, F);
        LimitReached(rest, F, C);
      }
      Long(rest, F, C);
    }
  }

  lemma MultipleOf(q: nat, F: nat)
    requires F > 0
    ensures (q * F) % F == 0 && (q * F) / F == q
  {
    var p, r := (q * F) / F, (q * F) % F;
    DivMod(q * F, F);
    if p < q { Scale(p + 1, q, F); Expand(F, p, 1); }
    if q < p { Scale(q + 1, p, F); Expand(F, q, 1); }
  }

  lemma LimitReached(rest: nat, F: nat, C: nat)
    requires Calibrated(F, C) && F * rest == C * WORD
    ensures rest == OuterUs(F, C)
  {
    OuterQuotient(F, C);
    var o := OuterUs(F, C);
    if rest < o { Scale(rest + 1, o, F); Expand(F, rest, 1); }
    if o < rest { Scale(o + 1, rest, F); Expand(F, o, 1); }
  }

  lemma BigError(us: u32, F: nat, C: nat)
    requires Calibrated(F, C)
    ensures var big, rest := BigLoops(us, F, C), Rest(us, F, C);
      && 0 <= C * (big * WORD) - (F * us - F * rest) <= big * (F - 1)
      && rest <= OuterUs(F, C)
      && (rest == OuterUs(F, C) ==> us == rest && big == 0)
  {
    OuterQuotient(F, C);
    var o := OuterUs(F, C);
    if us > o {
      var big, rest := us / o, us % o;
      DivMod(us, o);
      Expand(F, big * o, rest);
      Distribute(big, F, o, C);
    }
  }

  lemma Distribute(big: nat, F: nat, o: nat, C: nat)
    requires F >= 1 && C * WORD - (F - 1) <= F * o <= C * WORD
    ensures 0 <= C * (big * WORD) - F * (big * o) <= big * (F - 1)
  {
    var gap := C * WORD - F * o;
    Scale(0, gap, big);
    Scale(gap, F - 1, big);
    assert C * (big * WORD) == big * (C * WORD);
    assert F * (big * o) == big * (F * o);
    assert big * (C * WORD) - big * (F * o) == big * gap;
  }

  /** For the one overflowing request the product wraps to 0 and there is no delay at all. */
  lemma OverflowSleepsNotAtAll(us: u32, F: nat, C: nat)
    requires Calibrated(F, C) && Overflows(us, F, C)
    ensures Iterations(us, F, C) == 0 && F * us == C * WORD
  {
    OuterQuotient(F, C);
    DivMod(WORD, F);
    var w := WORD / F;
    Regroup(w, F, C);
    assert F * (w * C) == C * WORD;
    LimitReached(w * C, F, C);
    assert us == w * C;
    MultipleOf(w, C);
    assert us / C == w;
    LargeEnough(w, F, C);
  }

  /** For instance at 16 clocks per microsecond and 9 clocks per iteration: a request of forty
      minutes returns at once. */
  lemma FortyMinutesAtOnce()
    ensures Calibrated(16, 9) && OuterUs(16, 9) == 2415919104 && Iterations(2415919104, 16, 9) == 0
  {
    OverflowSleepsNotAtAll(2415919104, 16, 9);
  }

  lemma LargeEnough(w: nat, F: nat, C: nat)
    requires Calibrated(F, C) && w * F == WORD
    ensures w * C > C * 0x1_0000
  {
    Scale(1, C, F);
    if w <= 0x1_0000 { Scale(w, 0x1_0000, F); }
    Scale(0x1_0001, w, C);
  }

  /** For every 32-bit request the sleep falls short by at most (C - 1) * F clocks and overshoots
      by at most F - 1 clocks for each nest of loops, exactly unless the request is the
      overflowing one. */
  lemma SleepBound(us: u32, F: nat, C: nat)
    requires Calibrated(F, C)
    ensures -((C - 1) * F) <= Error(us, F, C) <= BigLoops(us, F, C) * (F - 1) <==> !Overflows(us, F, C)
  {
    if Overflows(us, F, C) {
      OverflowSleepsNotAtAll(us, F, C);
      assert Error(us, F, C) == -(C * WORD);
      Scale(C - 1, C, F);
      assert C * F < C * WORD by { Scale(F, WORD - 1, C); Expand(C, WORD - 1, 1); }
    } else {
      var big, rest := BigLoops(us, F, C), Rest(us, F, C);
      BigError(us, F, C);
      SmallError(rest, F, C);
      Expand(C, big * WORD, SmallLoops(rest, F, C));
    }
  }
}
