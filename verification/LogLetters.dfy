/** What alt_log_private_printf prints for each conversion letter, said about the printed text
    itself: its digits, its sign, its padding, and the number that it reads back as. */
module LogLetters {
  import opened Arithmetic
  import opened Numerals
  import opened LogPrintf
  import opened LogFormat

  /** A conversion as it is written in a format; width 0 stands for none. */
  function Written(zero: bool, w: nat, letter: char): string {
    "%" + ((if zero then "0" else "") + ((if w > 0 then Numeral(w, 10, false) else "") + [letter]))
  }

  lemma WrittenParses(zero: bool, w: nat, letter: char, rest: string)
    requires !InSpec(letter) && letter != '%'
    ensures Parse(Written(zero, w, letter) + rest)
      == [Conversion(zero, if w > 0 then w else -1, letter)] + Parse(rest)
  {
    if w > 0 {
      FormatRoundTrip(zero, w, letter, rest);
      Associate(if zero then "0" else "", Numeral(w, 10, false), letter, rest);
    } else {
      BareParses(zero, letter, rest);
      Associate(if zero then "0" else "", "", letter, rest);
    }
  }

  lemma Associate(flag: string, width: string, letter: char, rest: string)
    ensures ("%" + (flag + (width + [letter]))) + rest == "%" + (flag + (width + ([letter] + rest)))
  {
  }

  lemma BareParses(zero: bool, letter: char, rest: string)
    requires !InSpec(letter) && letter != '%'
    ensures Parse("%" + ((if zero then "0" else "") + ("" + ([letter] + rest)))) == [Conversion(zero, -1, letter)] + Parse(rest)
  {
    var body := "" + ([letter] + rest);
    SpecConcat(zero, "", letter, rest);
    if zero { ZeroParses(body); } else { FlaglessParses(body); }
  }

  lemma ZeroParses(body: string)
    ensures Parse("%" + ("0" + body)) == ParseSpec(true, body)
  {
    SpecStep('0', body);
  }

  lemma FlaglessParses(body: string)
    requires body != "" && body[0] != '%' && body[0] != '0'
    ensures Parse("%" + ("" + body)) == ParseSpec(false, body)
  {
    assert "" + body == [body[0]] + body[1..] == body;
    SpecStep(body[0], body[1..]);
  }

  /** The letters that print integers, with their bases and digits. */
  predicate IntLetter(letter: char) {
    letter == 'd' || letter == 'i' || letter == 'u' || letter == 'o' || letter == 'x' || letter == 'X'
  }

  function Base(letter: char): nat {
    if letter == 'o' then 8 else if letter == 'x' || letter == 'X' then 16 else 10
  }

  predicate DigitFor(letter: char, c: char) {
    || '0' <= c <= '7'
    || (letter != 'o' && '8' <= c <= '9')
    || (letter == 'x' && 'a' <= c <= 'f')
    || (letter == 'X' && 'A' <= c <= 'F')
  }

  /** The number that a 32-bit argument stands for: signed for d and i only. */
  function Number(letter: char, v: u32): int {
    if (letter == 'd' || letter == 'i') && v >= 0x8000_0000 then v - 0x1_0000_0000 else v
  }

  /** The digits of the text of a magnitude. */
  ghost predicate DigitsOf(digits: string, letter: char, n: nat) {
    && digits != "" && (|digits| > 1 ==> digits[0] != '0')
    && (forall i :: 0 <= i < |digits| ==> DigitFor(letter, digits[i]))
    && Value(ReadDigits(digits), Base(letter)) == n
  }

  /** blanks, sign and digits; or sign, zeros and digits; as wide as asked. */
  function Laid(zero: bool, w: nat, sign: string, digits: string): string {
    var pad := if w > |sign| + |digits| then w - |sign| - |digits| else 0;
    if zero then sign + Repeat('0', pad) + digits else Repeat(' ', pad) + sign + digits
  }

  lemma NumeralDigits(letter: char, n: nat)
    requires IntLetter(letter)
    ensures DigitsOf(Numeral(n, Base(letter), letter == 'X'), letter, n)
  {
    var base, upper := Base(letter), letter == 'X';
    var ds := Digits(n, base);
    DigitsValue(n, base);
    TextRoundTrip(ds, upper);
    forall i | 0 <= i < |ds|
      ensures DigitFor(letter, Text(ds, upper)[i])
    {
      DigitCharFor(letter, ds[i]);
    }
    if |ds| > 1 { DigitRoundTrip(ds[0], upper); }
  }

  lemma DigitCharFor(letter: char, d: nat)
    requires IntLetter(letter) && d < Base(letter)
    ensures DigitFor(letter, DigitChar(d, letter == 'X'))
  {
  }

  /** What an integer conversion prints, for every value, flag and width: a minus sign exactly for
      a negative number of d or i, the shortest digits in the base of the letter, and blanks in
      front, or zeros after the sign if the flag asks for them. */
  lemma LetterPrints(zero: bool, w: nat, letter: char, v: u32) returns (digits: string)
    requires IntLetter(letter)
    ensures var fmt, n := Written(zero, w, letter), Number(letter, v);
      && Suits(Parse(fmt), [IntArg(v)])
      && RenderAll(Parse(fmt), [IntArg(v)]) == Laid(zero, w, if n < 0 then "-" else "", digits)
      && DigitsOf(digits, letter, if n < 0 then -n else n)
  {
    var n := Number(letter, v);
    IntPrints(zero, w, letter, v);
    digits := Numeral(if n < 0 then -n else n, Base(letter), letter == 'X');
    NumeralDigits(letter, if n < 0 then -n else n);
  }

  lemma IntPrints(zero: bool, w: nat, letter: char, v: u32)
    requires IntLetter(letter)
    ensures var fmt, n := Written(zero, w, letter), Number(letter, v);
      && Suits(Parse(fmt), [IntArg(v)])
      && RenderAll(Parse(fmt), [IntArg(v)]) == Laid(zero, w, if n < 0 then "-" else "",
                                                    Numeral(if n < 0 then -n else n, Base(letter), letter == 'X'))
  {
    var p := Conversion(zero, if w > 0 then w else -1, letter);
    WrittenParses(zero, w, letter, "");
    OneArg(Written(zero, w, letter), p, IntArg(v));
    RendersAs(p, v);
  }

  /** The integer printer, for a letter. */
  lemma RendersAs(p: Piece, v: u32)
    requires p.Conversion? && IntLetter(p.letter) && p.width >= -1
    ensures var n := Number(p.letter, v);
      RenderArg(p, IntArg(v)) == Laid(p.zero, if p.width > 0 then p.width else 0, if n < 0 then "-" else "",
                                      Numeral(if n < 0 then -n else n, Base(p.letter), p.letter == 'X'))
  {
    SelectedFmt(p, v);
    RenderLaid(v, FmtOf(p));
  }

  lemma SelectedFmt(p: Piece, v: u32)
    requires p.Conversion? && IntLetter(p.letter)
    ensures var f, n := FmtOf(p), Number(p.letter, v);
      && f.zero == p.zero && f.width == p.width && f.base == Base(p.letter) && f.upper == (p.letter == 'X')
      && Magnitude(v, f) == (if n < 0 then -n else n) && (Negative(v, f) <==> n < 0)
  {
  }

  lemma RenderLaid(v: u32, f: Fmt)
    requires Printable(f) && f.width >= -1
    ensures Render(v, f) == Laid(f.zero, if f.width > 0 then f.width else 0, if Negative(v, f) then "-" else "",
                                 Numeral(Magnitude(v, f), f.base, f.upper))
  {
    var sign := if Negative(v, f) then "-" else "";
    var body := Numeral(Magnitude(v, f), f.base, f.upper);
    var pad := Pad(f.width - |body| - |sign|);
    SamePad(f.width, |sign|, |body|);
    if f.zero {
      assert Render(v, f) == sign + Repeat('0', pad) + body;
    } else {
      assert Render(v, f) == Repeat(' ', pad) + sign + body;
    }
  }

  lemma SamePad(width: int, m: nat, n: nat)
    requires width >= -1
    ensures var w := if width > 0 then width else 0; Pad(width - n - m) == if w > m + n then w - m - n else 0
  {
  }

  /** d and i print the signed number: it reads back in base 10 as v below 2^31, else as
      v - 2^32. u, o, x and X read back as v in bases 10, 8, 16 and 16. */
  lemma LetterReadsBack(zero: bool, w: nat, letter: char, v: u32)
    requires IntLetter(letter)
    ensures var fmt := Written(zero, w, letter);
      && Suits(Parse(fmt), [IntArg(v)])
      && var text := RenderAll(Parse(fmt), [IntArg(v)]);
         && (letter == 'd' || letter == 'i' ==> ReadInt(text, 10) == if v < 0x8000_0000 then v else v - 0x1_0000_0000)
         && (letter == 'u' ==> ReadInt(text, 10) == v)
         && (letter == 'o' ==> ReadInt(text, 8) == v)
         && (letter == 'x' || letter == 'X' ==> ReadInt(text, 16) == v)
  {
    var digits := LetterPrints(zero, w, letter, v);
    var n := Number(letter, v);
    LaidReadsBack(zero, w, if n < 0 then "-" else "", digits, letter, if n < 0 then -n else n);
  }

  lemma LaidReadsBack(zero: bool, w: nat, sign: string, digits: string, letter: char, n: nat)
    requires DigitsOf(digits, letter, n) && (sign == "" || sign == "-")
    ensures ReadInt(Laid(zero, w, sign, digits), Base(letter)) == if sign == "" then n else 0 - n
  {
    var pad := if w > |sign| + |digits| then w - |sign| - |digits| else 0;
    if zero {
      ZerosReadBack(pad, sign, digits, letter, n);
    } else {
      BlanksReadBack(pad, sign, digits, letter, n);
    }
  }

  lemma ZerosReadBack(pad: nat, sign: string, digits: string, letter: char, n: nat)
    requires DigitsOf(digits, letter, n) && (sign == "" || sign == "-")
    ensures ReadInt(sign + Repeat('0', pad) + digits, Base(letter)) == if sign == "" then n else 0 - n
  {
    var body := Repeat('0', pad) + digits;
    assert sign + Repeat('0', pad) + digits == sign + body;
    assert ReadDigits(body) == Zeros(pad) + ReadDigits(digits);
    ZerosValue(pad, ReadDigits(digits), Base(letter));
    assert body[0] == if pad > 0 then '0' else digits[0];
    ReadSigned(body, Base(letter), sign);
  }

  lemma BlanksReadBack(pad: nat, sign: string, digits: string, letter: char, n: nat)
    requires DigitsOf(digits, letter, n) && (sign == "" || sign == "-")
    ensures ReadInt(Repeat(' ', pad) + sign + digits, Base(letter)) == if sign == "" then n else 0 - n
  {
    assert Repeat(' ', pad) + sign + digits == Repeat(' ', pad) + (sign + digits);
    SkipBlanks(pad, sign + digits, Base(letter));
    ReadSigned(digits, Base(letter), sign);
  }

  // ---- The other letters -----------------------------------------------------------------

  function Blanks(w: nat, n: nat): string {
    Repeat(' ', if w > n then w - n else 0)
  }

  lemma CharPrints(zero: bool, w: nat, c: char)
    ensures var fmt := Written(zero, w, 'c');
      Suits(Parse(fmt), [CharArg(c)]) && RenderAll(Parse(fmt), [CharArg(c)]) == Blanks(w, 1) + [c]
  {
    var p := Conversion(zero, if w > 0 then w else -1, 'c');
    WrittenParses(zero, w, 'c', "");
    OneArg(Written(zero, w, 'c'), p, CharArg(c));
  }

  lemma StringPrints(zero: bool, w: nat, s: string)
    ensures var fmt := Written(zero, w, 's');
      Suits(Parse(fmt), [StrArg(s)]) && RenderAll(Parse(fmt), [StrArg(s)]) == Blanks(w, |s|) + s
  {
    var p := Conversion(zero, if w > 0 then w else -1, 's');
    WrittenParses(zero, w, 's', "");
    OneArg(Written(zero, w, 's'), p, StrArg(s));
  }

  lemma OneArg(fmt: string, p: Piece, a: Arg)
    requires TakesArg(p) && Matches(p, a) && Parse(fmt + "") == [p] + Parse("")
    ensures Suits(Parse(fmt), [a]) && RenderAll(Parse(fmt), [a]) == RenderArg(p, a)
  {
    assert fmt + "" == fmt && [p] + [] == [p] && [p][1..] == [] && [a][1..] == [];
    assert Suits([], []) && RenderAll([], []) == "";
    assert RenderArg(p, a) + "" == RenderArg(p, a);
  }

  /** Text without '%' prints as it stands, whatever follows it. */
  lemma {:induction false} PlainPrints(s: string, rest: string, args: seq<Arg>)
    requires '%' !in s && Suits(Parse(rest), args)
    ensures Suits(Parse(s + rest), args) && RenderAll(Parse(s + rest), args) == s + RenderAll(Parse(rest), args)
  {
    if s == "" {
      assert s + rest == rest;
    } else {
      PlainPrints(s[1..], rest, args);
      Uncons(s, rest);
      LiteralFirst(s[0], s[1..] + rest, args);
      Uncons(s, RenderAll(Parse(rest), args));
    }
  }

  lemma Uncons(s: string, t: string)
    requires s != ""
    ensures s + t == [s[0]] + (s[1..] + t)
  {
  }

  lemma LiteralFirst(c: char, rest: string, args: seq<Arg>)
    requires c != '%' && Suits(Parse(rest), args)
    ensures Suits(Parse([c] + rest), args) && RenderAll(Parse([c] + rest), args) == [c] + RenderAll(Parse(rest), args)
  {
    assert ([c] + rest)[1..] == rest;
    assert ([Literal(c)] + Parse(rest))[1..] == Parse(rest);
  }

  /** Two percent signs print one. */
  lemma PercentPrints(rest: string, args: seq<Arg>)
    requires Suits(Parse(rest), args)
    ensures Suits(Parse("%%" + rest), args) && RenderAll(Parse("%%" + rest), args) == "%" + RenderAll(Parse(rest), args)
  {
    assert ("%%" + rest)[2..] == rest;
    assert ([Literal('%')] + Parse(rest))[1..] == Parse(rest);
  }

  /** A conversion prints what it prints alone, and the rest of the format goes on with the
      arguments after its own. */
  lemma ConversionFirst(zero: bool, w: nat, letter: char, a: Arg, rest: string, args: seq<Arg>)
    requires TakesArg(Conversion(zero, w, letter)) && Matches(Conversion(zero, w, letter), a)
    requires Suits(Parse(rest), args)
    ensures var fmt := Written(zero, w, letter);
      && Suits(Parse(fmt), [a]) && Suits(Parse(fmt + rest), [a] + args)
      && RenderAll(Parse(fmt + rest), [a] + args) == RenderAll(Parse(fmt), [a]) + RenderAll(Parse(rest), args)
  {
    var fmt, p := Written(zero, w, letter), Conversion(zero, if w > 0 then w else -1, letter);
    WrittenParses(zero, w, letter, "");
    WrittenParses(zero, w, letter, rest);
    OneArg(fmt, p, a);
    assert ([p] + Parse(rest))[1..] == Parse(rest) && ([a] + args)[1..] == args;
  }

  /** Any other letter prints nothing and takes no argument. */
  lemma UnknownPrintsNothing(zero: bool, w: nat, letter: char, rest: string, args: seq<Arg>)
    requires !IntLetter(letter) && letter !in "cs.l%0123456789" && Suits(Parse(rest), args)
    ensures var fmt := Written(zero, w, letter) + rest;
      Suits(Parse(fmt), args) && RenderAll(Parse(fmt), args) == RenderAll(Parse(rest), args)
  {
    assert forall c: char :: c == '.' || c == 'l' || c == '%' || c == 'c' || c == 's' ==> c in "cs.l%0123456789";
    NoDigit(letter);
    WrittenParses(zero, w, letter, rest);
    var p := Conversion(zero, if w > 0 then w else -1, letter);
    assert ([p] + Parse(rest))[1..] == Parse(rest);
    assert "" + RenderAll(Parse(rest), args) == RenderAll(Parse(rest), args);
  }

  lemma NoDigit(c: char)
    requires c !in "cs.l%0123456789"
    ensures !IsDigit(c)
  {
    var all := "cs.l%0123456789";
    assert all[5] == '0' && all[6] == '1' && all[7] == '2' && all[8] == '3' && all[9] == '4';
    assert all[10] == '5' && all[11] == '6' && all[12] == '7' && all[13] == '8' && all[14] == '9';
  }

  /** A precision and the modifier l change nothing. */
  lemma ModifiersIgnored(w: nat, modifiers: string, letter: char, rest: string)
    requires w > 0 && !InSpec(letter) && letter != '%'
    requires modifiers != "" && (modifiers[0] == '.' || modifiers[0] == 'l')
    requires forall j :: 0 <= j < |modifiers| ==> InSpec(modifiers[j])
    requires '.' == modifiers[0] || forall j :: 0 <= j < |modifiers| ==> modifiers[j] == 'l'
    ensures Parse("%" + ((Numeral(w, 10, false) + modifiers) + ([letter] + rest)))
      == Parse(Written(false, w, letter) + rest)
  {
    var spec := Numeral(w, 10, false);
    WidthOfNumeral(Digits(w, 10));
    DigitsValue(w, 10);
    LeadingNonZero(w);
    ModifiedWidth(spec, modifiers);
    SpecConcat(false, spec + modifiers, letter, rest);
    var body := (spec + modifiers) + ([letter] + rest);
    assert body[0] == spec[0] && ("%" + body)[1..] == body;
    WrittenParses(false, w, letter, rest);
  }

  lemma {:induction false} ModifiedWidth(spec: string, modifiers: string)
    requires '.' !in spec && (modifiers == "" || modifiers[0] == '.' || forall j :: 0 <= j < |modifiers| ==> modifiers[j] == 'l')
    ensures Width(spec + modifiers) == Width(spec)
    decreases |modifiers|
  {
    if modifiers == "" {
      assert spec + modifiers == spec;
    } else {
      var n := |modifiers| - 1;
      assert spec + modifiers == (spec + modifiers[..n]) + [modifiers[n]];
      WidthStep(spec + modifiers[..n], modifiers[n]);
      if n > 0 { assert (spec + modifiers[..n])[|spec|] == modifiers[0]; }
      ModifiedWidth(spec, modifiers[..n]);
    }
  }

  /** A conversion that the format breaks off prints nothing. */
  lemma BrokenOffPrintsNothing(spec: string)
    requires forall j :: 0 <= j < |spec| ==> InSpec(spec[j])
    ensures Parse("%" + spec) == []
  {
    if spec != "" {
      var zero := spec[0] == '0';
      var rest := spec[if zero then 1 else 0..];
      SpecRunExtent(rest, |rest|);
      assert ("%" + spec)[1..] == spec;
      assert zero ==> ("%" + spec)[2..] == rest;
    }
  }

  /** For instance -1. */
  method MinusOne() returns (out: string)
    ensures out == "-1"
  {
    var digits := LetterPrints(false, 0, 'd', 0xFFFF_FFFF);
    assert Written(false, 0, 'd') == "%d";
    out := Printf("%d", [IntArg(0xFFFF_FFFF)]);
    OnlyOne(digits);
  }

  lemma OnlyOne(digits: string)
    requires DigitsOf(digits, 'd', 1)
    ensures digits == "1" && Laid(false, 0, "-", digits) == "-1"
  {
    var ds := ReadDigits(digits);
    assert Below(ds, 10);
    Unique(1, ds, 10);
    assert Digits(1, 10) == [1];
    assert digits[0] == '1';
    assert Repeat(' ', 0) + "-" + "1" == "-1";
  }
}
