/** Numerals: what a string of digits in a base denotes, and the shortest one for a number. */
module Numerals {
  import opened Arithmetic

  function Pow(b: nat, k: nat): (p: nat)
    ensures b > 0 ==> p > 0
  {
    if k == 0 then 1 else b * Pow(b, k - 1)
  }

  /** The number that digits denote, most significant first. */
  function Value(ds: seq<nat>, b: nat): nat
  {
    if ds == [] then 0 else Value(ds[..|ds| - 1], b) * b + ds[|ds| - 1]
  }

  predicate Below(ds: seq<nat>, b: nat) {
    forall i :: 0 <= i < |ds| ==> ds[i] < b
  }

  lemma ValueAppend(ds: seq<nat>, d: nat, b: nat)
    ensures Value(ds + [d], b) == Value(ds, b) * b + d
    ensures Value([d], b) == d
  {
    assert (ds + [d])[..|ds|] == ds && [d][..0] == [];
  }

  /** The shortest numeral of v. */
  function Digits(v: nat, b: nat): (ds: seq<nat>)
    requires b >= 2
    ensures |ds| >= 1 && Below(ds, b) && (|ds| > 1 ==> ds[0] != 0)
    ensures |ds| == 1 ==> ds == [v]
  {
    if v < b then [v]
    else
      LastDigit(v, b);
      var q, r := v / b, v % b;
      Digits(q, b) + [r]
  }

  lemma LastDigit(v: nat, b: nat)
    requires b >= 2
    ensures v == v / b * b + v % b && 0 <= v % b < b
    ensures v >= b ==> 1 <= v / b < v
  {
  }

  /** Reading the numeral back gives the number. */
  lemma {:induction false} DigitsValue(v: nat, b: nat)
    requires b >= 2
    ensures Value(Digits(v, b), b) == v
  {
    if v < b {
      ValueAppend([], v, b);
    } else {
      LastDigit(v, b);
      var q, r := v / b, v % b;
      DigitsValue(q, b);
      ValueAppend(Digits(q, b), r, b);
      assert Digits(v, b) == Digits(q, b) + [r];
    }
  }

  lemma Gap(p: nat, q: nat, b: nat)
    ensures p < q ==> p * b + b <= q * b
  {
    if p < q { Scale(p + 1, q, b); }
  }

  lemma Split(p: nat, r: nat, q: nat, s: nat, b: nat)
    requires r < b && s < b && p * b + r == q * b + s
    ensures p == q && r == s
  {
    Gap(p, q, b);
    Gap(q, p, b);
  }

  /** Numerals of one length are determined by their value. */
  lemma {:induction false} SameLength(ds: seq<nat>, es: seq<nat>, b: nat)
    requires b >= 2 && |ds| == |es| && Below(ds, b) && Below(es, b) && Value(ds, b) == Value(es, b)
    ensures ds == es
  {
    if ds != [] {
      var n := |ds| - 1;
      Split(Value(ds[..n], b), ds[n], Value(es[..n], b), es[n], b);
      SameLength(ds[..n], es[..n], b);
    }
  }

  lemma {:induction false} ValueBound(ds: seq<nat>, b: nat)
    requires b >= 2 && Below(ds, b)
    ensures Value(ds, b) < Pow(b, |ds|)
  {
    if ds != [] {
      var n := |ds| - 1;
      ValueBound(ds[..n], b);
      Gap(Value(ds[..n], b), Pow(b, n), b);
    }
  }

  /** A numeral without leading zero is at least its leading power of the base. */
  lemma {:induction false} LeadingPower(ds: seq<nat>, b: nat)
    requires b >= 2 && ds != [] && ds[0] != 0
    ensures Pow(b, |ds| - 1) <= Value(ds, b)
  {
    var n := |ds| - 1;
    if n == 0 {
      assert ds[..0] == [];
    } else {
      var front := ds[..n];
      LeadingPower(front, b);
      Scale(Pow(b, n - 1), Value(front, b), b);
      assert Pow(b, n) == Pow(b, n - 1) * b;
    }
  }

  lemma {:induction false} PowMonotone(b: nat, j: nat, k: nat)
    requires b >= 1 && j <= k
    ensures Pow(b, j) <= Pow(b, k)
    decreases k
  {
    if j < k {
      PowMonotone(b, j, k - 1);
      Scale(1, b, Pow(b, k - 1));
    }
  }

  /** No numeral of v is shorter than Digits(v). */
  lemma Fewest(v: nat, ds: seq<nat>, b: nat)
    requires b >= 2 && ds != [] && Below(ds, b) && Value(ds, b) == v
    ensures |Digits(v, b)| <= |ds|
  {
    var m := |Digits(v, b)|;
    DigitsValue(v, b);
    if m > |ds| {
      LeadingPower(Digits(v, b), b);
      ValueBound(ds, b);
      PowMonotone(b, |ds|, m - 1);
    }
  }

  /** The only numeral of v without leading zero is Digits(v). */
  lemma Unique(v: nat, ds: seq<nat>, b: nat)
    requires b >= 2 && ds != [] && Below(ds, b) && Value(ds, b) == v
    requires |ds| == 1 || ds[0] != 0
    ensures ds == Digits(v, b)
  {
    Fewest(v, ds, b);
    DigitsValue(v, b);
    if |ds| > |Digits(v, b)| {
      LeadingPower(ds, b);
      ValueBound(Digits(v, b), b);
      PowMonotone(b, |Digits(v, b)|, |ds| - 1);
    }
    SameLength(ds, Digits(v, b), b);
  }

  /** n zeros in front. */
  function Zeros(n: nat): (r: seq<nat>)
    ensures |r| == n && forall i :: 0 <= i < n ==> r[i] == 0
  {
    seq(n, i => 0)
  }

  lemma {:induction false} ZerosValue(n: nat, ds: seq<nat>, b: nat)
    ensures Value(Zeros(n) + ds, b) == Value(ds, b)
    decreases n + |ds|
  {
    var all := Zeros(n) + ds;
    if ds != [] {
      assert all[..|all| - 1] == Zeros(n) + ds[..|ds| - 1];
      ZerosValue(n, ds[..|ds| - 1], b);
    } else if n > 0 {
      assert all[..|all| - 1] == Zeros(n - 1) + [];
      ZerosValue(n - 1, [], b);
      assert Value(all, b) == 0 * b + 0;
    }
  }

  /** The character of a digit, 'a' or 'A' upwards from ten. */
  function DigitChar(d: nat, upper: bool): char
    requires d < 16
  {
    if d < 10 then ('0' as int + d) as char
    else ((if upper then 'A' else 'a') as int + d - 10) as char
  }

  function Text(ds: seq<nat>, upper: bool): (s: string)
    requires Below(ds, 16)
    ensures |s| == |ds| && forall i :: 0 <= i < |s| ==> s[i] == DigitChar(ds[i], upper)
  {
    seq(|ds|, i requires 0 <= i < |ds| => DigitChar(ds[i], upper))
  }

  /** The text of a number: its shortest numeral. */
  function Numeral(v: nat, b: nat, upper: bool): (s: string)
    requires 2 <= b <= 16
    ensures |s| == |Digits(v, b)|
  {
    Text(Digits(v, b), upper)
  }

  function Repeat(c: char, n: nat): (s: string)
    ensures |s| == n && forall i :: 0 <= i < n ==> s[i] == c
  {
    seq(n, i => c)
  }
}
