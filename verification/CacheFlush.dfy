/** alt_dcache_flush: the addresses it flushes, in 32-bit arithmetic, for a data cache with lines
    of L bytes. L is a power of two, so that it divides the address space and the mask L - 1
    takes a remainder. */
module CacheFlush {
  import opened Arithmetic

  /** Some byte of [start, start + len) that exists lies in the line. */
  ghost predicate Touches(start: nat, len: nat, L: nat, line: nat)
    requires L > 0
  {
    exists a: nat :: start <= a < start + len && a < WORD && LineOf(a, L) == line
  }

  predicate LineSize(L: nat) {
    L > 0 && WORD % L == 0
  }

  /** The end pointer of the code. */
  function End(start: u32, len: u32): u32 {
    (start + len) % WORD
  }

  /** The bytes up to the end pointer: none if it has wrapped. */
  function Ahead(start: u32, len: u32): nat {
    if start + len < WORD then len else 0
  }

  /** The largest address that the loop pointer can take. */
  function Top(start: u32, L: nat): nat
    requires LineSize(L)
  {
    DivisorBound(L);
    WORD - L + start % L
  }

  lemma DivisorBound(L: nat)
    requires LineSize(L)
    ensures L <= WORD
  {
    DivMod(WORD, L);
    if WORD / L >= 1 { Scale(1, WORD / L, L); }
  }

  /** The loop ends. */
  predicate Ends(start: u32, len: u32, L: nat)
    requires LineSize(L)
  {
    start + len >= WORD || start + len <= Top(start, L)
  }

  /** The loop pointer after k steps. */
  function Walk(start: u32, L: nat, k: nat): u32
  {
    if k == 0 then start else (Walk(start, L, k - 1) + L) % WORD
  }

  function LineOf(a: nat, L: nat): nat
    requires L > 0
  {
    a / L
  }

  /** q is the line of a exactly if a lies between the ends of line q. */
  lemma InLine(a: nat, L: nat, q: nat)
    requires L > 0
    ensures LineOf(a, L) == q <==> q * L <= a < q * L + L
  {
    DivMod(a, L);
    var p := a / L;
    if p < q { Scale(p + 1, q, L); assert (p + 1) * L == p * L + L; }
    if q < p { Scale(q + 1, p, L); assert (q + 1) * L == q * L + L; }
  }

  /** Stepping by one line's length steps by one line. */
  lemma NextLine(a: nat, L: nat)
    requires L > 0
    ensures LineOf(a + L, L) == LineOf(a, L) + 1
  {
    InLine(a, L, LineOf(a, L));
    InLine(a + L, L, LineOf(a, L) + 1);
    assert (LineOf(a, L) + 1) * L == LineOf(a, L) * L + L;
  }

  /** The k-th address of the loop. */
  function Addr(start: nat, L: nat, k: nat): (a: nat)
    ensures a >= start
  {
    if k == 0 then start else Addr(start, L, k - 1) + L
  }

  lemma {:induction false} Steps(start: nat, L: nat, k: nat)
    requires L > 0
    ensures LineOf(Addr(start, L, k), L) == LineOf(start, L) + k
  {
    if k > 0 {
      Steps(start, L, k - 1);
      NextLine(Addr(start, L, k - 1), L);
    }
  }

  /** Addresses one line apart are in the same line or in neighbouring ones. */
  lemma OneOfTwo(x: nat, a: nat, L: nat)
    requires L > 0 && x <= a < x + L
    ensures LineOf(a, L) == LineOf(x, L) || LineOf(a, L) == LineOf(x, L) + 1
    ensures LineOf(x, L) * L == x ==> LineOf(a, L) == LineOf(x, L)
  {
    var q := LineOf(x, L);
    InLine(x, L, q);
    InLine(a, L, q);
    InLine(a, L, q + 1);
    assert (q + 1) * L == q * L + L;
  }

  lemma {:induction false} Aligned(start: nat, L: nat, k: nat)
    requires L > 0 && start % L == 0
    ensures LineOf(Addr(start, L, k), L) * L == Addr(start, L, k)
  {
    if k == 0 {
      DivMod(start, L);
    } else {
      Aligned(start, L, k - 1);
      NextLine(Addr(start, L, k - 1), L);
      var q := LineOf(Addr(start, L, k - 1), L);
      assert (q + 1) * L == q * L + L;
    }
  }

  /** The steps taken by the loop, and the step for the unaligned rest. */
  ghost predicate Stepped(flushed: seq<nat>, start: nat, len: nat, L: nat)
    requires L > 0
  {
    var n := |flushed| - (if start % L != 0 then 1 else 0);
    && n >= 0 && Addr(start, L, n) >= start + len
    && (forall k :: 0 <= k < |flushed| ==> flushed[k] == Addr(start, L, k))
    && (forall k :: 0 <= k < n ==> flushed[k] < start + len)
  }

  /** The step before a given byte. */
  lemma {:induction false} StepBefore(start: nat, L: nat, a: nat, n: nat) returns (k: nat)
    requires start <= a < Addr(start, L, n)
    ensures k < n && Addr(start, L, k) <= a < Addr(start, L, k) + L
  {
    if a < Addr(start, L, n - 1) {
      k := StepBefore(start, L, a, n - 1);
    } else {
      k := n - 1;
    }
  }

  lemma Covers(flushed: seq<nat>, start: nat, len: nat, L: nat, line: nat) returns (k: nat)
    requires L > 0 && Stepped(flushed, start, len, L) && Touches(start, len, L, line)
    ensures k < |flushed| && LineOf(flushed[k], L) == line
  {
    var n := |flushed| - (if start % L != 0 then 1 else 0);
    var a: nat :| start <= a < start + len && a < WORD && LineOf(a, L) == line;
    var q := StepBefore(start, L, a, n);
    Steps(start, L, q);
    Steps(start, L, q + 1);
    OneOfTwo(Addr(start, L, q), a, L);
    if start % L == 0 { Aligned(start, L, q); }
    k := if line == LineOf(Addr(start, L, q), L) then q else q + 1;
  }

  lemma LoopStepsTouch(flushed: seq<nat>, start: nat, len: nat, L: nat, k: nat)
    requires L > 0 && k < |flushed| && start <= flushed[k] < start + len && flushed[k] < WORD
    ensures Touches(start, len, L, LineOf(flushed[k], L))
  {
  }

  /** If the line of an address at or past the end begins before the end, the region touches it. */
  lemma ExtraStep(start: nat, len: nat, L: nat, i: nat)
    requires L > 0 && len > 0 && start + len <= i < WORD
    ensures Touches(start, len, L, LineOf(i, L)) || start + len <= LineOf(i, L) * L
  {
    var last := start + len - 1;
    InLine(i, L, LineOf(i, L));
    InLine(last, L, LineOf(i, L));
  }

  // ---- Wrap-around ------------------------------------------------------------------------

  /** Addresses with the same offset in their lines are whole lines apart. */
  lemma SameOffset(x: nat, y: nat, L: nat)
    requires L > 0 && x % L == y % L && x < y
    ensures x + L <= y
  {
    var p, q := x / L, y / L;
    DivMod(x, L);
    DivMod(y, L);
    if q <= p { Scale(q, p, L); }
    Scale(p + 1, q, L);
    assert (p + 1) * L == p * L + L;
  }

  lemma OffsetOf(q: nat, r: nat, L: nat)
    requires r < L
    ensures (q * L + r) % L == r
  {
    InLine(q * L + r, L, q);
    DivMod(q * L + r, L);
  }

  lemma StepOffset(x: nat, L: nat)
    requires L > 0
    ensures (x + L) % L == x % L
  {
    var q := x / L;
    DivMod(x, L);
    assert (q + 1) * L == q * L + L;
    OffsetOf(q + 1, x % L, L);
  }

  lemma SubtractLines(x: nat, m: nat, L: nat)
    requires L > 0 && m * L <= x
    ensures (x - m * L) % L == x % L
  {
    var q := x / L;
    InLine(x, L, q);
    if q < m { Scale(q + 1, m, L); }
    DivMod(x, L);
    assert (q - m) * L == q * L - m * L;
    OffsetOf(q - m, x % L, L);
  }

  lemma Wrapped(y: nat)
    requires y < 2 * WORD
    ensures y % WORD == if y < WORD then y else y - WORD
  {
  }

  /** A step keeps the offset, also when it wraps. */
  lemma WrapOffset(x: u32, L: nat)
    requires LineSize(L)
    ensures (x + L) % WORD % L == x % L
  {
    DivisorBound(L);
    StepOffset(x, L);
    Wrapped(x + L);
    DivMod(WORD, L);
    if x + L >= WORD { SubtractLines(x + L, WORD / L, L); }
  }

  lemma TopOffset(start: u32, L: nat)
    requires LineSize(L)
    ensures Top(start, L) < WORD && Top(start, L) % L == start % L
  {
    DivisorBound(L);
    var m := WORD / L;
    DivMod(WORD, L);
    assert (m - 1) * L == m * L - L;
    OffsetOf(m - 1, start % L, L);
  }

  /** Every address of that offset is at most the top one, and below it a step does not wrap. */
  lemma BelowTop(start: u32, L: nat, x: u32)
    requires LineSize(L) && x % L == start % L
    ensures x <= Top(start, L)
    ensures x < Top(start, L) ==> x + L <= Top(start, L) < WORD
  {
    TopOffset(start, L);
    DivisorBound(L);
    if x < Top(start, L) { SameOffset(x, Top(start, L), L); }
    if x > Top(start, L) { SameOffset(Top(start, L), x, L); }
  }

  lemma {:induction false} WalkOffset(start: u32, L: nat, k: nat)
    requires LineSize(L)
    ensures Walk(start, L, k) % L == start % L
  {
    if k > 0 {
      WalkOffset(start, L, k - 1);
      WrapOffset(Walk(start, L, k - 1), L);
    }
  }

  lemma WalkClimbs(start: u32, len: u32, L: nat, k: nat)
    requires LineSize(L) && start + len <= Top(start, L) && Walk(start, L, k) < start + len
    ensures Walk(start, L, k + 1) == Walk(start, L, k) + L
  {
    WalkOffset(start, L, k);
    BelowTop(start, L, Walk(start, L, k));
    Wrapped(Walk(start, L, k) + L);
  }

  /** The walk climbs from step k to the end. */
  lemma {:induction false} Climb(start: u32, len: u32, L: nat, k: nat) returns (n: nat)
    requires LineSize(L) && Ends(start, len, L)
    ensures Walk(start, L, n) >= End(start, len)
    decreases WORD - Walk(start, L, k)
  {
    EndAhead(start, len);
    if Walk(start, L, k) >= End(start, len) || start + len >= WORD {
      n := if start + len >= WORD then 0 else k;
    } else {
      WalkClimbs(start, len, L, k);
      n := Climb(start, len, L, k + 1);
    }
  }

  /** The loop ends exactly if the end pointer wrapped, or does not lie above every address that
      the loop pointer can take. Otherwise it flushes forever. */
  lemma LoopEndsExactly(start: u32, len: u32, L: nat)
    requires LineSize(L)
    ensures (exists k :: Walk(start, L, k) >= End(start, len)) <==> Ends(start, len, L)
  {
    if Ends(start, len, L) {
      var n := Climb(start, len, L, 0);
    } else {
      forall k: nat ensures Walk(start, L, k) < End(start, len) {
        WalkOffset(start, L, k);
        BelowTop(start, L, Walk(start, L, k));
      }
    }
  }

  /** For instance sixteen bytes in the last line of a 32-byte cache. */
  lemma LastLineNeverEnds(k: nat)
    ensures Walk(0xFFFF_FFE0, 32, k) < End(0xFFFF_FFE0, 16)
  {
    assert LineSize(32) && !Ends(0xFFFF_FFE0, 16, 32);
    LoopEndsExactly(0xFFFF_FFE0, 16, 32);
  }

  ghost predicate Covered(flushed: seq<nat>, start: nat, len: nat, L: nat)
    requires L > 0
  {
    forall line :: Touches(start, len, L, line) ==> exists k :: 0 <= k < |flushed| && LineOf(flushed[k], L) == line
  }

  lemma NothingAhead(flushed: seq<nat>, start: nat, L: nat)
    requires L > 0 && Stepped(flushed, start, 0, L)
    ensures flushed == if start % L != 0 then [start] else []
  {
    var n := |flushed| - (if start % L != 0 then 1 else 0);
    assert Addr(start, L, 0) == start;
  }

  /** When the end pointer wraps, at most the line of start is flushed. */
  lemma WrappedCoverage(flushed: seq<nat>, start: u32, len: u32, L: nat)
    requires LineSize(L) && start + len >= WORD
    requires flushed == if start % L != 0 then [start] else []
    ensures Covered(flushed, start, len, L) <==> start > WORD - L
  {
    DivisorBound(L);
    var m := WORD / L;
    DivMod(WORD, L);
    assert (m - 1) * L == m * L - L;
    InLine(WORD - 1, L, m - 1);
    InLine(start, L, m - 1);
    assert Touches(start, len, L, m - 1) by { assert LineOf(WORD - 1, L) == m - 1; }
    if start > WORD - L {
      OffsetOf(m - 1, start - (WORD - L), L);
      assert flushed[0] == start;
      forall line | Touches(start, len, L, line)
        ensures LineOf(flushed[0], L) == line
      {
        var a: nat :| start <= a < start + len && a < WORD && LineOf(a, L) == line;
        InLine(a, L, m - 1);
      }
    } else if start == WORD - L {
      OffsetOf(m - 1, 0, L);
    }
  }

  /** alt_dcache_flush, when it returns. Every line that the region touches is flushed, exactly
      unless the region reaches the end of the address space from before its last line. Every
      flushed line but the last is touched; and the last is untouched only for an unaligned
      start, when it lies wholly past the end, or when there is nothing to flush. */
  method Flush(start: u32, len: u32, L: nat) returns (flushed: seq<nat>)
    requires LineSize(L) && Ends(start, len, L)
    ensures Covered(flushed, start, len, L) <==> start + len < WORD || start > WORD - L
    ensures forall k :: 0 <= k < |flushed| - 1 ==> Touches(start, len, L, LineOf(flushed[k], L))
    ensures flushed != [] && len > 0 ==> var line := LineOf(flushed[|flushed| - 1], L);
      Touches(start, len, L, line) || (start % L != 0 && start + len <= line * L)
  {
    flushed := AllSteps(start, len, L);
    if start + len >= WORD {
      NothingAhead(flushed, start, L);
      WrappedCoverage(flushed, start, len, L);
      if flushed != [] { LoopStepsTouch(flushed, start, len, L, 0); }
      return;
    }
    forall line | Touches(start, len, L, line)
      ensures exists k :: 0 <= k < |flushed| && LineOf(flushed[k], L) == line
    {
      var k := Covers(flushed, start, len, L, line);
    }
    forall k | 0 <= k < |flushed| && flushed[k] < start + len
      ensures Touches(start, len, L, LineOf(flushed[k], L))
    {
      LoopStepsTouch(flushed, start, len, L, k);
    }
    if flushed != [] && len > 0 && flushed[|flushed| - 1] >= start + len {
      ExtraStep(start, len, L, flushed[|flushed| - 1]);
    }
  }

  /** A step of a loop that ends does not wrap. */
  method Advance(start: u32, len: u32, L: nat, i: u32, ghost k: nat) returns (next: u32)
    requires LineSize(L) && Ends(start, len, L) && start <= i < End(start, len) && i == Addr(start, L, k)
    ensures next == Addr(start, L, k + 1) == i + L
  {
    AddrOffset(start, L, k);
    BelowTop(start, L, i);
    next := (i + L) % WORD;
  }

  lemma {:induction false} AddrOffset(start: nat, L: nat, k: nat)
    requires L > 0
    ensures Addr(start, L, k) % L == start % L
  {
    if k > 0 {
      AddrOffset(start, L, k - 1);
      StepOffset(Addr(start, L, k - 1), L);
    }
  }

  /** The addresses of the loop so far. */
  ghost predicate Climbing(flushed: seq<nat>, start: nat, L: nat, end: nat) {
    && (forall k :: 0 <= k < |flushed| ==> flushed[k] == Addr(start, L, k))
    && (forall k :: 0 <= k < |flushed| ==> flushed[k] < end)
  }

  lemma EndAhead(start: u32, len: u32)
    ensures if start + len < WORD then End(start, len) == start + Ahead(start, len)
            else End(start, len) < start == start + Ahead(start, len)
  {
  }

  /** The loop. */
  method LoopSteps(start: u32, len: u32, L: nat) returns (flushed: seq<nat>, i: u32)
    requires LineSize(L) && Ends(start, len, L)
    ensures i == Addr(start, L, |flushed|) >= End(start, len)
    ensures Climbing(flushed, start, L, End(start, len))
  {
    flushed := [];
    i := start;
    var end := End(start, len);
    while i < end
      invariant i == Addr(start, L, |flushed|)
      invariant Climbing(flushed, start, L, end)
      decreases end - i
    {
      flushed := flushed + [i];
      i := Advance(start, len, L, i, |flushed| - 1);
    }
  }

  method AllSteps(start: u32, len: u32, L: nat) returns (flushed: seq<nat>)
    requires LineSize(L) && Ends(start, len, L)
    ensures Stepped(flushed, start, Ahead(start, len), L)
    ensures forall k :: 0 <= k < |flushed| ==> flushed[k] < WORD
  {
    var i;
    flushed, i := LoopSteps(start, len, L);
    EndAhead(start, len);
    if start % L != 0 {
      flushed := flushed + [i];
    }
  }
}
