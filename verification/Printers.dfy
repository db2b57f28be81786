/** The other integer printers of the repository, each proved to print the text that
    alt_log_private_printf prints for the matching conversion. */
module Printers {
  import opened Arithmetic
  import opened Numerals
  import opened LogPrintf
  import opened LogFormat

  // ---- alt_printf, %x --------------------------------------------------------------------

  /** (v & (0xF << shift)) >> shift, for a shift of 4 * k bits. */
  function Nibble(v: nat, k: nat): (d: nat)
    ensures d < 16
  {
    v / Pow(16, k) % 16
  }

  lemma DivDiv(v: nat, p: nat)
    requires p > 0
    ensures v / (16 * p) == v / p / 16
  {
    var q, r := v / p, v % p;
    var s, t := q / 16, q % 16;
    Recombine(p, s, t);
    Scale(t, 15, p);
    Quotient(v, 16 * p, s, p * t + r);
  }

  lemma Recombine(p: nat, s: nat, t: nat)
    ensures p * (16 * s + t) == (16 * p) * s + p * t
  {
  }

  lemma Quotient(v: nat, d: nat, q: nat, r: nat)
    requires d > 0 && v == d * q + r && r < d
    ensures v / d == q
  {
    var q', r' := v / d, v % d;
    Split(q', r', q, r, d);
  }

  /** The part of v above nibble k, and that nibble, make the part above nibble k - 1. */
  lemma NibbleStep(v: nat, k: nat)
    ensures v / Pow(16, k) == v / Pow(16, k + 1) * 16 + Nibble(v, k)
  {
    DivDiv(v, Pow(16, k));
  }

  lemma WordNibbles(v: u32)
    ensures v / Pow(16, 8) == 0 && v / Pow(16, 0) == v
  {
    assert Pow(16, 8) == WORD by {
      assert Pow(16, 1) == 16 && Pow(16, 2) == 256 && Pow(16, 4) == 65536 && Pow(16, 6) == 0x100_0000;
    }
  }

  /** The %x branch of alt_printf: it prints what alt_log prints for "%x". */
  method AltPrintHex(v: u32) returns (out: string)
    ensures Suits(Parse("%x"), [IntArg(v)]) && out == RenderAll(Parse("%x"), [IntArg(v)])
  {
    out := HexDigits(v);
    LogHex(v);
  }

  /** The search for the first digit to print; k is digit_shift / 4. */
  method LeadingNibble(v: u32) returns (k: nat)
    requires v > 0
    ensures k <= 7 && v / Pow(16, k + 1) == 0 && Nibble(v, k) != 0
  {
    k := 7;
    WordNibbles(v);
    NibbleStep(v, 7);
    while Nibble(v, k) == 0
      invariant 0 <= k <= 7 && v / Pow(16, k + 1) == 0 && v / Pow(16, k) == Nibble(v, k)
      decreases k
    {
      if k == 0 { assert false; }
      NibbleStep(v, k - 1);
      k := k - 1;
    }
  }

  method HexDigits(v: u32) returns (out: string)
    ensures out == Numeral(v, 16, false)
  {
    if v == 0 {
      assert Digits(0, 16) == [0];
      return "0";
    }
    var k: int := LeadingNibble(v);
    WordNibbles(v);
    out := "";
    ghost var ds: seq<nat> := [];
    while k >= 0
      invariant -1 <= k <= 7 && Below(ds, 16) && out == Text(ds, false)
      invariant Value(ds, 16) == v / Pow(16, k + 1)
      invariant if ds == [] then k >= 0 && Nibble(v, k) != 0 else ds[0] != 0
    {
      var digit := Nibble(v, k);
      NibbleStep(v, k);
      ValueAppend(ds, digit, 16);
      ds := ds + [digit];
      out := out + [if digit <= 9 then ('0' as int + digit) as char else ('a' as int + digit - 10) as char];
      k := k - 1;
    }
    Unique(v, ds, 16);
  }

  // ---- dword2decimal -----------------------------------------------------------------------

  lemma TenDigits(v: u32)
    ensures |Digits(v, 10)| <= 10
  {
    DigitsValue(v, 10);
    assert Pow(10, 10) == 10_000_000_000;
    if |Digits(v, 10)| > 10 {
      LeadingPower(Digits(v, 10), 10);
      PowMonotone(10, 10, |Digits(v, 10)| - 1);
    }
  }

  function Reverse(s: string): (r: string)
    ensures |r| == |s| && forall i :: 0 <= i < |s| ==> r[i] == s[|s| - 1 - i]
  {
    if s == "" then "" else [s[|s| - 1]] + Reverse(s[..|s| - 1])
  }

  /** dword2decimal prints what alt_log prints for "%u". */
  method Dword2Decimal(number: u32) returns (out: string, used: nat)
    ensures Suits(Parse("%u"), [IntArg(number)]) && out == RenderAll(Parse("%u"), [IntArg(number)])
    ensures used <= 10
  {
    out, used := DecimalDigits(number);
    LogDecimal(number);
  }

  /** used: the entries of the eleven-character buffer that it fills. */
  method DecimalDigits(number: u32) returns (out: string, used: nat)
    ensures out == Numeral(number, 10, false) && used <= 10
  {
    var buffer := new char[11];
    var i: nat, value: nat := 0, number;
    TenDigits(number);
    if value == 0 {
      assert Digits(0, 10) == [0];
      return "0", 0;
    }
    ghost var low: seq<nat> := [];      // the digits peeled off, most significant first
    while value > 0
      invariant i == |low| && i <= 10 && Below(low, 10)
      invariant Digits(number, 10) == if value > 0 then Digits(value, 10) + low else low
      invariant Reverse(buffer[..i]) == Text(low, false)
      decreases value
    {
      var q, r := Div(value, 10);
      Peel(value, q, r, low);
      ghost var were := buffer[..i];
      buffer[i] := ('0' as int + r) as char;
      assert buffer[..i + 1] == were + [DigitChar(r, false)];
      ReverseStep(were, DigitChar(r, false));
      TextFront(r, low);
      i := i + 1;
      low := [r] + low;
      value := q;
    }
    used := i;
    out := FromBuffer(buffer, i);
  }

  lemma ReverseStep(s: string, c: char)
    ensures Reverse(s + [c]) == [c] + Reverse(s)
  {
    assert (s + [c])[..|s|] == s;
  }

  lemma TextFront(d: nat, ds: seq<nat>)
    requires d < 10 && Below(ds, 10)
    ensures Below([d] + ds, 10) && Text([d] + ds, false) == [DigitChar(d, false)] + Text(ds, false)
  {
  }

  /** The buffer is printed from its end. */
  method FromBuffer(buffer: array<char>, used: nat) returns (out: string)
    requires used <= buffer.Length
    ensures out == Reverse(buffer[..used])
  {
    var i := used;
    out := "";
    assert "" + Reverse(buffer[..used]) == Reverse(buffer[..used]);
    while i > 0
      invariant 0 <= i <= used && out + Reverse(buffer[..i]) == Reverse(buffer[..used])
    {
      i := i - 1;
      assert buffer[..i + 1] == buffer[..i] + [buffer[i]];
      assert (buffer[..i] + [buffer[i]])[..i] == buffer[..i];
      Regroup3(out, [buffer[i]], Reverse(buffer[..i]));
      out := out + [buffer[i]];
    }
    assert out + "" == out;
  }

  lemma Peel(value: nat, q: nat, r: nat, low: seq<nat>)
    requires value > 0 && value == q * 10 + r && r < 10
    ensures q < value
    ensures Digits(value, 10) + low == if q > 0 then Digits(q, 10) + ([r] + low) else [r] + low
  {
    assert value / 10 == q && value % 10 == r;
  }

  // ---- long_word2ascii ---------------------------------------------------------------------

  /** HEX2ASCII, for a nibble. */
  function Hex2Ascii(h: nat): char
    requires h < 16
  {
    if h == 0x0A then 'A' else if h == 0x0B then 'B' else if h == 0x0C then 'C'
    else if h == 0x0D then 'D' else if h == 0x0E then 'E' else if h == 0x0F then 'F'
    else (0x30 + h) as char
  }

  lemma HexDigit(h: nat)
    requires h < 16
    ensures Hex2Ascii(h) == DigitChar(h, true)
  {
  }

  lemma TextAppend(ds: seq<nat>, d: nat, upper: bool)
    requires Below(ds, 16) && d < 16
    ensures Text(ds + [d], upper) == Text(ds, upper) + [DigitChar(d, upper)]
  {
  }

  /** One line of long_word2ascii. */
  method PutNibble(v: u32, k: nat, soFar: string, ghost ds: seq<nat>) returns (out: string, ghost es: seq<nat>)
    requires Below(ds, 16) && soFar == Text(ds, true) && Value(ds, 16) == v / Pow(16, k + 1)
    ensures Below(es, 16) && out == Text(es, true) && Value(es, 16) == v / Pow(16, k) && |es| == |ds| + 1
  {
    var d := Nibble(v, k);
    NibbleStep(v, k);
    ValueAppend(ds, d, 16);
    HexDigit(d);
    out := soFar + [Hex2Ascii(d)];
    es := ds + [d];
    TextAppend(ds, d, true);
  }

  /** long_word2ascii prints what alt_log prints for "%08X". */
  method LongWord2Ascii(v: u32) returns (out: string)
    ensures Suits(Parse("%08X"), [IntArg(v)]) && out == RenderAll(Parse("%08X"), [IntArg(v)])
  {
    ghost var ds: seq<nat> := [];
    WordNibbles(v);
    out, ds := PutNibble(v, 7, "", ds);
    out, ds := PutNibble(v, 6, out, ds);
    out, ds := PutNibble(v, 5, out, ds);
    out, ds := PutNibble(v, 4, out, ds);
    out, ds := PutNibble(v, 3, out, ds);
    out, ds := PutNibble(v, 2, out, ds);
    out, ds := PutNibble(v, 1, out, ds);
    out, ds := PutNibble(v, 0, out, ds);
    PaddedHex(v, ds);
    LogPadded(v);
  }

  /** A numeral of fixed length is the shortest one with zeros in front. */
  lemma PaddedHex(v: u32, ds: seq<nat>)
    requires |ds| == 8 && Below(ds, 16) && Value(ds, 16) == v
    ensures Text(ds, true) == Render(v, Fmt(true, 8, 16, false, true))
  {
    var short := Digits(v, 16);
    Fewest(v, ds, 16);
    DigitsValue(v, 16);
    var zeros := 8 - |short|;
    ZerosValue(zeros, short, 16);
    SameLength(ds, Zeros(zeros) + short, 16);
    TextOfPadded(zeros, short);
    assert "" + Repeat('0', zeros) == Repeat('0', zeros);
  }

  lemma TextOfPadded(zeros: nat, ds: seq<nat>)
    requires Below(ds, 16)
    ensures Below(Zeros(zeros) + ds, 16)
    ensures Text(Zeros(zeros) + ds, true) == Repeat('0', zeros) + Text(ds, true)
  {
  }

  // ---- Agreement -----------------------------------------------------------------------------

  lemma Bare(v: u32, base: nat, upper: bool)
    requires base == 8 || base == 10 || base == 16
    ensures Render(v, Fmt(false, -1, base, false, upper)) == Numeral(v, base, upper)
  {
    assert Repeat(' ', 0) + "" + Numeral(v, base, upper) == Numeral(v, base, upper);
  }

  lemma ParseBare(letter: char)
    requires KindOf(letter) == Number
    ensures Parse("%" + [letter]) == [Conversion(false, -1, letter)]
  {
    var fmt := "%" + [letter];
    assert fmt[1..] == "" + ([letter] + "");
    SpecConcat(false, "", letter, "");
  }

  lemma PrintfBare(fmt: string, letter: char, v: u32)
    requires KindOf(letter) == Number && fmt == "%" + [letter]
    ensures Suits(Parse(fmt), [IntArg(v)])
    ensures RenderAll(Parse(fmt), [IntArg(v)]) == Render(v, FmtOf(Conversion(false, -1, letter)))
  {
    ParseBare(letter);
    OnePiece(Conversion(false, -1, letter), v);
  }

  lemma OnePiece(p: Piece, v: u32)
    requires TakesArg(p) && KindOf(p.letter) == Number
    ensures Suits([p], [IntArg(v)]) && RenderAll([p], [IntArg(v)]) == Render(v, FmtOf(p))
  {
    assert [p][1..] == [] && [IntArg(v)][1..] == [];
    assert Suits([], []) && RenderAll([], []) == "";
    assert Render(v, FmtOf(p)) + "" == Render(v, FmtOf(p));
  }

  /** The three formats whose output the other printers reproduce. */
  lemma LogHex(v: u32)
    ensures Suits(Parse("%x"), [IntArg(v)]) && RenderAll(Parse("%x"), [IntArg(v)]) == Numeral(v, 16, false)
  {
    PrintfBare("%x", 'x', v);
    Bare(v, 16, false);
  }

  lemma LogDecimal(v: u32)
    ensures Suits(Parse("%u"), [IntArg(v)]) && RenderAll(Parse("%u"), [IntArg(v)]) == Numeral(v, 10, false)
  {
    PrintfBare("%u", 'u', v);
    Bare(v, 10, false);
  }

  lemma LogPadded(v: u32)
    ensures Suits(Parse("%08X"), [IntArg(v)])
    ensures RenderAll(Parse("%08X"), [IntArg(v)]) == Render(v, Fmt(true, 8, 16, false, true))
  {
    PrintfOne(true, 8, 'X', v);
    Eight();
  }

  lemma Eight()
    ensures "%" + ("0" + (Numeral(8, 10, false) + (['X'] + ""))) == "%08X"
  {
    assert Digits(8, 10) == [8] && Numeral(8, 10, false) == "8";
  }
}
