/** alt_log_private_printf: the integer printer, and the state machine that reads formats. */
module LogPrintf {
  import opened Arithmetic
  import opened Numerals

  /** The conversion a format selects. width is -1 when none is given. */
  datatype Fmt = Fmt(zero: bool, width: int, base: nat, signed: bool, upper: bool)

  predicate Printable(f: Fmt) {
    f.base == 8 || f.base == 10 || f.base == 16
  }

  function Pad(n: int): nat { if n < 0 then 0 else n }

  predicate Negative(v: u32, f: Fmt) {
    f.signed && v >= 0x8000_0000
  }

  function Magnitude(v: u32, f: Fmt): nat {
    if Negative(v, f) then WORD - v else v
  }

  /** What an integer conversion prints. */
  function Render(v: u32, f: Fmt): string
    requires Printable(f)
  {
    var sign := if Negative(v, f) then "-" else "";
    var body := Numeral(Magnitude(v, f), f.base, f.upper);
    var pad := Pad(f.width - |body| - |sign|);
    if f.zero then sign + Repeat('0', pad) + body else Repeat(' ', pad) + sign + body
  }

  /** alt_log_repchar. */
  method RepChar(c: char, count: int) returns (out: string)
    ensures out == Repeat(c, Pad(count))
  {
    var r := count;
    out := "";
    while r > 0
      invariant out == Repeat(c, |out|) && |out| == if count < 0 then 0 else count - r
      invariant count >= 0 ==> 0 <= r <= count
    {
      r := r - 1;
      out := out + [c];
    }
  }

  /** Quotient and remainder of the C operators on unsigned values. */
  method Div(a: nat, b: nat) returns (q: nat, r: nat)
    requires b > 0
    ensures a == q * b + r && r < b
    ensures a < b ==> q == 0 && r == a
  {
    q, r := a / b, a % b;
  }

  /** The digit count and the largest place value that still divides into v. The product stays
      within v, so the 32-bit variable of the C code cannot wrap. */
  method CountDigits(v: u32, base: nat) returns (count: nat, p: u32)
    requires 2 <= base <= 16
    ensures count == |Digits(v, base)| && p == Pow(base, count - 1) && p > 0
  {
    p, count := 1, 1;
    var shrink: nat, rem: nat := Div(v, base);
    ghost var w: nat := v;
    while shrink > 0
      invariant w == shrink * base + rem && rem < base
      invariant count >= 1 && p == Pow(base, count - 1)
      invariant count + |Digits(w, base)| - 1 == |Digits(v, base)|
      decreases w
    {
      DigitsStep(shrink, base, rem, w);
      PlaceFits(v, base, count);
      p := base * p;
      count := count + 1;
      w := shrink;
      shrink, rem := Div(shrink, base);
    }
    OneDigit(w, base);
  }

  lemma DigitsStep(q: nat, base: nat, r: nat, w: nat)
    requires base >= 2 && w == q * base + r && r < base && q > 0
    ensures q < w && |Digits(w, base)| == |Digits(q, base)| + 1
  {
    Scale(2, base, q);
    Scale(1, q, base);
    LastDigit(w, base);
    Split(w / base, w % base, q, r, base);
  }

  lemma PlaceFits(v: nat, base: nat, count: nat)
    requires base >= 2 && 1 <= count < |Digits(v, base)|
    ensures Pow(base, count) <= v
  {
    DigitsValue(v, base);
    LeadingPower(Digits(v, base), base);
    PowMonotone(base, count, |Digits(v, base)| - 1);
  }

  lemma OneDigit(w: nat, base: nat)
    requires base >= 2 && w < base
    ensures |Digits(w, base)| == 1
  {
  }

  lemma Place(x: nat, base: nat, p: nat, d: nat, rest: nat, v: nat)
    requires v == d * p + rest && rest < p && v < base * p
    ensures d < base
    ensures (x * base + d) * p + rest == x * (base * p) + v
  {
    if d >= base { Scale(base, d, p); }
    assert (x * base + d) * p == x * (base * p) + d * p;
  }

  lemma NextPlace(base: nat, k: nat, q: nat, r: nat)
    requires base >= 2 && k >= 1 && q * base + r == Pow(base, k - 1) && r < base
    ensures q == if k == 1 then 0 else Pow(base, k - 2)
  {
    if k == 1 {
      Split(q, r, 0, 1, base);
    } else {
      Split(q, r, Pow(base, k - 2), 0, base);
    }
  }

  /** The digits in ds are printed, k are to come; v is what they denote and p the place value
      of the first. */
  ghost predicate Printing(value: nat, base: nat, ds: seq<nat>, k: nat, v: nat, p: nat)
    requires base >= 2
  {
    && |ds| + k == |Digits(value, base)| && Below(ds, base)
    && p == (if k == 0 then 0 else Pow(base, k - 1))
    && v < Pow(base, k) && Value(ds, base) * Pow(base, k) + v == value
  }

  lemma PrintingBegins(value: nat, base: nat)
    requires base >= 2
    ensures Printing(value, base, [], |Digits(value, base)|, value, Pow(base, |Digits(value, base)| - 1))
  {
    DigitsValue(value, base);
    ValueBound(Digits(value, base), base);
    assert Value([], base) * Pow(base, |Digits(value, base)|) == 0;
  }

  lemma PrintingStep(value: nat, base: nat, ds: seq<nat>, k: nat, v: nat, p: nat, d: nat, rest: nat, q: nat, r: nat)
    requires base >= 2 && Printing(value, base, ds, k, v, p) && p != 0
    requires v == d * p + rest && rest < p && p == q * base + r && r < base
    ensures d < base && Printing(value, base, ds + [d], k - 1, rest, q)
  {
    Place(Value(ds, base), base, p, d, rest, v);
    ValueAppend(ds, d, base);
    NextPlace(base, k, q, r);
  }

  /** The loop that prints: one place value at a time, from the largest. */
  method PrintDigits(value: u32, base: nat, count: nat, place: u32, upper: bool) returns (out: string)
    requires 2 <= base <= 16 && count == |Digits(value, base)| && place == Pow(base, count - 1)
    ensures out == Numeral(value, base, upper)
  {
    var v: nat, p: nat := value, place;
    out := "";
    ghost var ds: seq<nat>, k := [], count;
    PrintingBegins(value, base);
    while p != 0
      invariant Printing(value, base, ds, k, v, p)
      invariant Below(ds, 16) && out == Text(ds, upper)
      decreases k
    {
      var d, rest := Div(v, p);
      var q, r := Div(p, base);
      PrintingStep(value, base, ds, k, v, p, d, rest, q, r);
      out := out + [DigitChar(d, upper)];
      ds := ds + [d];
      v, p, k := rest, q, k - 1;
    }
    DigitsValue(value, base);
    assert k == 0;
    SameLength(ds, Digits(value, base), base);
  }

  /** ~v + 1 on 32 bits. */
  method Negate(v: u32) returns (r: u32)
    requires v > 0
    ensures r == WORD - v
  {
    r := (WORD - 1 - v + 1) % WORD;
  }

  /** What comes before the digits. */
  method Lead(zero: bool, sign: bool, width: int, count: nat) returns (out: string)
    ensures var s := if sign then "-" else "";
      var pad := Pad(width - count - |s|);
      out == if zero then s + Repeat('0', pad) else Repeat(' ', pad) + s
  {
    var before := width - count;
    out := "";
    if sign { before := before - 1; }
    if zero {
      if sign { out := "-"; }
      var pad := RepChar('0', before);
      out := out + pad;
    } else {
      out := RepChar(' ', before);
      if sign { out := out + "-"; }
      assert !sign ==> out + "" == out;
    }
  }

  /** doIntegerPrint. */
  method IntegerPrint(value: u32, f: Fmt) returns (out: string)
    requires Printable(f)
    ensures out == Render(value, f)
  {
    var v, sign := value, false;
    if f.signed && v >= 0x8000_0000 {
      v := Negate(v);
      sign := true;
    }
    var count, p := CountDigits(v, f.base);
    var lead := Lead(f.zero, sign, f.width, count);
    var body := PrintDigits(v, f.base, count, p, f.upper);
    out := lead + body;
  }

  // ---- What the printed text is worth --------------------------------------------------

  /** The number an argument stands for. */
  function Denoted(v: u32, f: Fmt): int {
    if Negative(v, f) then v - WORD else v
  }

  function DigitOf(c: char): nat {
    if '0' <= c <= '9' then c as int - '0' as int
    else if 'a' <= c <= 'f' then c as int - 'a' as int + 10
    else if 'A' <= c <= 'F' then c as int - 'A' as int + 10
    else 0
  }

  function ReadDigits(s: string): (ds: seq<nat>)
    ensures |ds| == |s|
  {
    seq(|s|, i requires 0 <= i < |s| => DigitOf(s[i]))
  }

  /** Reading an integer: blanks, an optional sign, digits. */
  function ReadInt(s: string, b: nat): int {
    if s != "" && s[0] == ' ' then ReadInt(s[1..], b)
    else if s != "" && s[0] == '-' then 0 - Value(ReadDigits(s[1..]), b)
    else Value(ReadDigits(s), b)
  }

  lemma DigitRoundTrip(d: nat, upper: bool)
    requires d < 16
    ensures DigitOf(DigitChar(d, upper)) == d
    ensures DigitChar(d, upper) != ' ' && DigitChar(d, upper) != '-'
  {
  }

  lemma TextRoundTrip(ds: seq<nat>, upper: bool)
    requires Below(ds, 16)
    ensures ReadDigits(Text(ds, upper)) == ds
    ensures forall i :: 0 <= i < |ds| ==> Text(ds, upper)[i] != ' ' && Text(ds, upper)[i] != '-'
  {
    forall i | 0 <= i < |ds| ensures DigitOf(Text(ds, upper)[i]) == ds[i]
      && Text(ds, upper)[i] != ' ' && Text(ds, upper)[i] != '-' {
      DigitRoundTrip(ds[i], upper);
    }
  }

  lemma {:induction false} SkipBlanks(n: nat, s: string, b: nat)
    ensures ReadInt(Repeat(' ', n) + s, b) == ReadInt(s, b)
  {
    if n == 0 {
      assert Repeat(' ', 0) + s == s;
    } else {
      assert (Repeat(' ', n) + s)[1..] == Repeat(' ', n - 1) + s;
      SkipBlanks(n - 1, s, b);
    }
  }

  lemma PaddedDigits(zeros: nat, ds: seq<nat>, upper: bool)
    requires Below(ds, 16) && ds != []
    ensures var s := Repeat('0', zeros) + Text(ds, upper);
      ReadDigits(s) == Zeros(zeros) + ds && s != "" && s[0] != ' ' && s[0] != '-'
  {
    TextRoundTrip(ds, upper);
    var s, t := Repeat('0', zeros) + Text(ds, upper), Zeros(zeros) + ds;
    forall i | 0 <= i < |s|
      ensures DigitOf(s[i]) == t[i]
    {
      if i >= zeros { assert s[i] == Text(ds, upper)[i - zeros]; DigitRoundTrip(ds[i - zeros], upper); }
    }
  }

  lemma ReadPadded(zeros: nat, v: nat, b: nat, upper: bool, sign: string)
    requires 2 <= b <= 16 && (sign == "" || sign == "-")
    ensures ReadInt(sign + (Repeat('0', zeros) + Numeral(v, b, upper)), b) == if sign == "" then v else 0 - v
  {
    PaddedDigits(zeros, Digits(v, b), upper);
    ZerosValue(zeros, Digits(v, b), b);
    DigitsValue(v, b);
    ReadSigned(Repeat('0', zeros) + Numeral(v, b, upper), b, sign);
  }

  lemma ReadSigned(s: string, b: nat, sign: string)
    requires s != "" && s[0] != ' ' && s[0] != '-' && (sign == "" || sign == "-")
    ensures ReadInt(sign + s, b) == if sign == "" then Value(ReadDigits(s), b) else 0 - Value(ReadDigits(s), b)
  {
    if sign == "" {
      assert sign + s == s;
    } else {
      assert (sign + s)[1..] == s;
    }
  }

  lemma RenderShape(v: u32, f: Fmt) returns (blanks: nat, zeros: nat)
    requires Printable(f)
    ensures Render(v, f) == Repeat(' ', blanks) + ((if Negative(v, f) then "-" else "")
      + (Repeat('0', zeros) + Numeral(Magnitude(v, f), f.base, f.upper)))
  {
    var body := Numeral(Magnitude(v, f), f.base, f.upper);
    var sign := if Negative(v, f) then "-" else "";
    var pad := Pad(f.width - |body| - |sign|);
    blanks, zeros := if f.zero then 0 else pad, if f.zero then pad else 0;
    Shape(f.zero, sign, pad, body);
  }

  lemma Shape(zero: bool, sign: string, pad: nat, body: string)
    ensures zero ==> sign + Repeat('0', pad) + body == Repeat(' ', 0) + (sign + (Repeat('0', pad) + body))
    ensures !zero ==> Repeat(' ', pad) + sign + body == Repeat(' ', pad) + (sign + (Repeat('0', 0) + body))
  {
    assert Repeat('0', 0) + body == body;
  }

  /** Whatever the width and padding, the text printed for a 32-bit value reads back as the
      number it denotes, the most negative one included. */
  lemma RenderReadsBack(v: u32, f: Fmt)
    requires Printable(f)
    ensures ReadInt(Render(v, f), f.base) == Denoted(v, f)
  {
    var blanks, zeros := RenderShape(v, f);
    var sign := if Negative(v, f) then "-" else "";
    ReadPadded(zeros, Magnitude(v, f), f.base, f.upper, sign);
    SkipBlanks(blanks, sign + (Repeat('0', zeros) + Numeral(Magnitude(v, f), f.base, f.upper)), f.base);
  }

  /** It is as wide as asked, or as its sign and its shortest numeral need. */
  lemma RenderWidth(v: u32, f: Fmt, ds: seq<nat>)
    requires Printable(f) && ds != [] && Below(ds, f.base) && Value(ds, f.base) == Magnitude(v, f)
    ensures var need := |Digits(Magnitude(v, f), f.base)| + (if Negative(v, f) then 1 else 0);
      |Render(v, f)| == (if f.width > need then f.width else need)
    ensures |Digits(Magnitude(v, f), f.base)| <= |ds|
  {
    Fewest(Magnitude(v, f), ds, f.base);
  }
}
