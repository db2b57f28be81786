/** The three-state format machine of alt_log_private_printf, against a grammar of formats:
    literals, and conversions '%' ['0'] {digit | '.' | 'l'} letter. */
module LogFormat {
  import opened Arithmetic
  import opened Numerals
  import opened LogPrintf

  /** What va_arg delivers. */
  datatype Arg = IntArg(v: u32) | CharArg(c: char) | StrArg(s: string)

  datatype Piece = Literal(c: char) | Conversion(zero: bool, width: int, letter: char)

  predicate IsDigit(c: char) { '0' <= c <= '9' }
  predicate InSpec(c: char) { c == '.' || IsDigit(c) || c == 'l' }

  /** How far the characters between '%' and the conversion letter go. */
  function SpecRun(s: string): (n: nat)
    ensures n <= |s|
  {
    if s != "" && InSpec(s[0]) then 1 + SpecRun(s[1..]) else 0
  }

  /** The digits of the width: those before the first '.'. */
  function WidthDigits(spec: string): (ds: seq<nat>)
  {
    if spec == "" then []
    else
      var front, c := spec[..|spec| - 1], spec[|spec| - 1];
      if IsDigit(c) && '.' !in front then WidthDigits(front) + [DigitOf(c)] else WidthDigits(front)
  }

  function Width(spec: string): int {
    if WidthDigits(spec) == [] then -1 else Value(WidthDigits(spec), 10)
  }

  /** The pieces of a format. A conversion that the format breaks off is dropped. */
  function Parse(fmt: string): seq<Piece>
    decreases |fmt|
  {
    if fmt == "" then []
    else if fmt[0] != '%' then [Literal(fmt[0])] + Parse(fmt[1..])
    else if |fmt| == 1 then []
    else if fmt[1] == '%' then [Literal('%')] + Parse(fmt[2..])
    else ParseSpec(fmt[1] == '0', fmt[if fmt[1] == '0' then 2 else 1..])
  }

  function ParseSpec(zero: bool, s: string): seq<Piece>
    decreases |s|
  {
    var n := SpecRun(s);
    if n == |s| then []
    else [Conversion(zero, Width(s[..n]), s[n])] + Parse(s[n + 1..])
  }

  /** What a conversion letter prints. An unknown letter prints nothing. */
  datatype Kind = Number | Character | Words | Unknown

  function KindOf(letter: char): Kind {
    if letter == 'd' || letter == 'i' || letter == 'u' || letter == 'o' || letter == 'x' || letter == 'X' then Number
    else if letter == 'c' then Character
    else if letter == 's' then Words
    else Unknown
  }

  function FmtOf(p: Piece): Fmt
    requires p.Conversion?
  {
    Fmt(p.zero, p.width,
        if p.letter == 'o' then 8 else if p.letter == 'x' || p.letter == 'X' then 16 else 10,
        p.letter == 'd' || p.letter == 'i', p.letter == 'X')
  }

  predicate TakesArg(p: Piece) {
    p.Conversion? && KindOf(p.letter) != Unknown
  }

  predicate Matches(p: Piece, a: Arg)
    requires TakesArg(p)
  {
    KindOf(p.letter) == match a
      case IntArg(_) => Number
      case CharArg(_) => Character
      case StrArg(_) => Words
  }

  /** The arguments suffice, in number and kind. */
  ghost predicate Suits(pieces: seq<Piece>, args: seq<Arg>)
  {
    if pieces == [] then true
    else if TakesArg(pieces[0]) then args != [] && Matches(pieces[0], args[0]) && Suits(pieces[1..], args[1..])
    else Suits(pieces[1..], args)
  }

  function RenderArg(p: Piece, a: Arg): string
    requires TakesArg(p) && Matches(p, a)
  {
    if a.IntArg? then Render(a.v, FmtOf(p))
    else if a.CharArg? then Repeat(' ', Pad(p.width - 1)) + [a.c]
    else Repeat(' ', Pad(p.width - |a.s|)) + a.s
  }

  /** What a format prints. */
  ghost function RenderAll(pieces: seq<Piece>, args: seq<Arg>): string
    requires Suits(pieces, args)
  {
    if pieces == [] then ""
    else if TakesArg(pieces[0]) then RenderArg(pieces[0], args[0]) + RenderAll(pieces[1..], args[1..])
    else (if pieces[0].Literal? then [pieces[0].c] else "") + RenderAll(pieces[1..], args)
  }

  lemma {:induction false} SpecRunExtent(s: string, n: nat)
    requires n <= |s| && (forall i :: 0 <= i < n ==> InSpec(s[i])) && (n == |s| || !InSpec(s[n]))
    ensures SpecRun(s) == n
  {
    if n > 0 { SpecRunExtent(s[1..], n - 1); }
  }

  // ---- The machine ----------------------------------------------------------------------

  datatype State = Chars | FirstFmtChar | OtherFmtChar

  /** The variables of the loop: state, fmtLeadingZero, fmtBeforeDecimal, fmtAfterDecimal. */
  datatype Machine = Machine(state: State, zero: bool, before: int, after: int)

  /** One conversion letter: print what it asks for, from the next argument. */
  method PrintArg(p: Piece, a: Arg) returns (out: string)
    requires TakesArg(p) && Matches(p, a)
    ensures out == RenderArg(p, a)
  {
    if KindOf(p.letter) == Number {
      out := IntegerPrint(a.v, FmtOf(p));
    } else if p.letter == 'c' {
      out := RepChar(' ', p.width - 1);
      out := out + [a.c];
    } else {
      out := RepChar(' ', p.width - |a.s|);
      out := out + a.s;
    }
  }

  method Convert(p: Piece, args: seq<Arg>, soFar: string, ghost rest: seq<Piece>, ghost due: seq<Piece>)
    returns (out: string, left: seq<Arg>)
    requires p.Conversion? && due == [p] + rest && Suits(due, args)
    ensures Suits(rest, left) && out + RenderAll(rest, left) == soFar + RenderAll(due, args)
  {
    assert due[0] == p && due[1..] == rest;
    if TakesArg(p) {
      var printed := PrintArg(p, args[0]);
      out, left := soFar + printed, args[1..];
      Regroup3(soFar, printed, RenderAll(rest, left));
    } else {
      out, left := soFar, args;
      assert "" + RenderAll(rest, left) == RenderAll(rest, left);
    }
  }

  lemma Regroup3(a: string, b: string, c: string)
    ensures (a + b) + c == a + (b + c)
  {
  }

  /** A character between '%' and the letter: a digit of one of the two widths, or neither. */
  method SpecChar(ghost spec: string, c: char, before: int, after: int) returns (b: int, a: int)
    requires InSpec(c) && before == Width(spec) && (after >= 0 <==> '.' in spec)
    ensures b == Width(spec + [c]) && (a >= 0 <==> '.' in spec + [c])
  {
    b, a := before, after;
    WidthStep(spec, c);
    if c == '.' {
      a := 0;
    } else if IsDigit(c) {
      if a < 0 {
        b := if b < 0 then 0 else b * 10;
        b := b + DigitOf(c);
      } else {
        a := a * 10 + DigitOf(c);
      }
    }
  }

  /** What the machine knows of the characters read since '%' and the flag '0'. */
  ghost predicate Reading(spec: string, m: Machine) {
    && (forall j :: 0 <= j < |spec| ==> InSpec(spec[j]))
    && m.before == Width(spec) && (m.after >= 0 <==> '.' in spec)
  }

  /** todo are the pieces still to come when the machine has the characters in tail to read. */
  ghost predicate At(m: Machine, spec: string, tail: string, todo: seq<Piece>)
  {
    match m.state
    case Chars => todo == Parse(tail)
    case FirstFmtChar => spec == "" && m == Machine(FirstFmtChar, false, -1, -1) && todo == Parse("%" + tail)
    case OtherFmtChar => Reading(spec, m) && todo == ParseSpec(m.zero, spec + tail)
  }

  /** In state pfState_otherFmtChar, a character that continues the conversion. */
  method MoreSpec(from: Machine, c: char, ghost read: string, ghost tail: string) returns (m: Machine)
    requires from.state.OtherFmtChar? && Reading(read, from) && InSpec(c)
    ensures m.state.OtherFmtChar? && m.zero == from.zero && Reading(read + [c], m)
    ensures (read + [c]) + tail == read + ([c] + tail)
  {
    var b, a := SpecChar(read, c, from.before, from.after);
    m := from.(before := b, after := a);
  }

  /** In state pfState_otherFmtChar, the letter that ends it. */
  method Letter(from: Machine, c: char, arguments: seq<Arg>, soFar: string,
                ghost read: string, ghost tail: string, ghost due: seq<Piece>)
    returns (args: seq<Arg>, out: string)
    requires Reading(read, from) && !InSpec(c)
    requires due == ParseSpec(from.zero, read + ([c] + tail)) && Suits(due, arguments)
    ensures Suits(Parse(tail), args) && out + RenderAll(Parse(tail), args) == soFar + RenderAll(due, arguments)
  {
    SpecConcat(from.zero, read, c, tail);
    out, args := Convert(Conversion(from.zero, from.before, c), arguments, soFar, Parse(tail), due);
  }

  /** One pass of the loop. */
  method OneChar(from: Machine, c: char, arguments: seq<Arg>, soFar: string,
                 ghost read: string, ghost tail: string, ghost due: seq<Piece>)
    returns (m: Machine, args: seq<Arg>, out: string, ghost spec: string, ghost todo: seq<Piece>)
    requires At(from, read, [c] + tail, due) && Suits(due, arguments)
    ensures At(m, spec, tail, todo) && Suits(todo, args)
    ensures out + RenderAll(todo, args) == soFar + RenderAll(due, arguments)
  {
    m, args, out, spec := from, arguments, soFar, read;
    if m.state.Chars? {
      if c == '%' {
        m, spec := Machine(FirstFmtChar, false, -1, -1), "";
        todo := due;
      } else {
        LiteralStep(c, tail, args, out);
        out := out + [c];
        todo := Parse(tail);
      }
    } else if m.state.FirstFmtChar? && c == '%' {
      assert "%" + ([c] + tail) == "%%" + tail;
      PercentStep(tail, args, out);
      out := out + [c];
      m := m.(state := Chars);
      todo := Parse(tail);
    } else if m.state.FirstFmtChar? && c == '0' {
      SpecStep(c, tail);
      m := m.(zero := true, state := OtherFmtChar);
      assert "" + tail == tail;
      todo := due;
    } else {
      if m.state.FirstFmtChar? {
        SpecStep(c, tail);
        m := m.(state := OtherFmtChar);
        assert "" + ([c] + tail) == [c] + tail;
      }
      if InSpec(c) {
        m := MoreSpec(m, c, spec, tail);
        spec, todo := spec + [c], due;
      } else {
        args, out := Letter(m, c, args, out, spec, tail, due);
        m := m.(state := Chars);
        todo := Parse(tail);
      }
    }
  }

  /** alt_log_private_printf. */
  method Printf(fmt: string, arguments: seq<Arg>) returns (out: string)
    requires Suits(Parse(fmt), arguments)
    ensures out == RenderAll(Parse(fmt), arguments)
  {
    var m, args, i := Machine(Chars, false, 0, 0), arguments, 0;
    ghost var spec, todo := "", Parse(fmt);
    out := "";
    assert fmt[0..] == fmt;
    while i < |fmt|
      invariant i <= |fmt| && At(m, spec, fmt[i..], todo) && Suits(todo, args)
      invariant out + RenderAll(todo, args) == RenderAll(Parse(fmt), arguments)
    {
      assert fmt[i..] == [fmt[i]] + fmt[i + 1..];
      m, args, out, spec, todo := OneChar(m, fmt[i], args, out, spec, fmt[i + 1..], todo);
      i := i + 1;
    }
    assert fmt[i..] == "";
    BrokenOff(m, spec, todo);
    assert out + "" == out;
  }

  /** A conversion without its letter prints nothing. */
  lemma BrokenOff(m: Machine, spec: string, todo: seq<Piece>)
    requires At(m, spec, "", todo)
    ensures todo == []
  {
    assert spec + "" == spec && "%" + "" == "%";
    if m.state.OtherFmtChar? { SpecRunExtent(spec, |spec|); }
  }

  lemma WidthStep(spec: string, c: char)
    ensures Width(spec + [c]) ==
      if IsDigit(c) && '.' !in spec then (if Width(spec) < 0 then 0 else Width(spec) * 10) + DigitOf(c)
      else Width(spec)
  {
    assert (spec + [c])[..|spec|] == spec;
    if IsDigit(c) && '.' !in spec {
      ValueAppend(WidthDigits(spec), DigitOf(c), 10);
    }
  }

  lemma SpecConcat(zero: bool, spec: string, letter: char, rest: string)
    requires !InSpec(letter) && forall j :: 0 <= j < |spec| ==> InSpec(spec[j])
    ensures ParseSpec(zero, spec + ([letter] + rest)) == [Conversion(zero, Width(spec), letter)] + Parse(rest)
  {
    var s := spec + ([letter] + rest);
    SpecRunExtent(s, |spec|);
    assert s[..|spec|] == spec && s[|spec| + 1..] == rest;
  }

  lemma LiteralStep(c: char, rest: string, args: seq<Arg>, out: string)
    requires c != '%' && Suits(Parse([c] + rest), args)
    ensures Suits(Parse(rest), args)
    ensures out + RenderAll(Parse([c] + rest), args) == (out + [c]) + RenderAll(Parse(rest), args)
  {
    LiteralPiece(c, Parse(rest), args, out);
    assert ([c] + rest)[1..] == rest;
  }

  lemma LiteralPiece(c: char, rest: seq<Piece>, args: seq<Arg>, out: string)
    requires Suits([Literal(c)] + rest, args)
    ensures Suits(rest, args)
    ensures out + RenderAll([Literal(c)] + rest, args) == (out + [c]) + RenderAll(rest, args)
  {
    assert ([Literal(c)] + rest)[1..] == rest;
  }

  lemma PercentStep(rest: string, args: seq<Arg>, out: string)
    requires Suits(Parse("%%" + rest), args)
    ensures Suits(Parse(rest), args)
    ensures out + RenderAll(Parse("%%" + rest), args) == (out + "%") + RenderAll(Parse(rest), args)
  {
    assert ("%%" + rest)[2..] == rest;
    LiteralPiece('%', Parse(rest), args, out);
  }

  lemma SpecStep(c: char, rest: string)
    requires c != '%'
    ensures Parse("%" + ([c] + rest)) == if c == '0' then ParseSpec(true, rest) else ParseSpec(false, [c] + rest)
  {
    var fmt := "%" + ([c] + rest);
    assert fmt[1..] == [c] + rest && fmt[2..] == rest;
  }

  // ---- Formats that ask for a width -----------------------------------------------------

  /** A width written in decimal is the width the machine uses. */
  lemma {:induction false} WidthOfNumeral(ds: seq<nat>)
    requires Below(ds, 10)
    ensures WidthDigits(Text(ds, false)) == ds
    ensures forall i :: 0 <= i < |ds| ==> IsDigit(Text(ds, false)[i])
  {
    if ds != [] {
      var n := |ds| - 1;
      WidthOfNumeral(ds[..n]);
      assert Text(ds, false)[..n] == Text(ds[..n], false);
      DigitRoundTrip(ds[n], false);
    }
  }

  /** Written out, '%', an optional '0', a width and a letter select just that conversion. */
  lemma FormatRoundTrip(zero: bool, w: nat, letter: char, rest: string)
    requires w > 0 && !InSpec(letter)
    ensures Parse("%" + ((if zero then "0" else "") + (Numeral(w, 10, false) + ([letter] + rest))))
      == [Conversion(zero, w, letter)] + Parse(rest)
  {
    var body := Numeral(w, 10, false) + ([letter] + rest);
    SpecRoundTrip(zero, w, letter, rest);
    LeadingNonZero(w);
    assert body[0] == Numeral(w, 10, false)[0];
    var all := "%" + ((if zero then "0" else "") + body);
    assert if zero then all[1] == '0' && all[2..] == body else all[1..] == body;
  }

  lemma SpecRoundTrip(zero: bool, w: nat, letter: char, rest: string)
    requires !InSpec(letter)
    ensures ParseSpec(zero, Numeral(w, 10, false) + ([letter] + rest)) == [Conversion(zero, w, letter)] + Parse(rest)
  {
    WidthOfNumeral(Digits(w, 10));
    DigitsValue(w, 10);
    SpecConcat(zero, Numeral(w, 10, false), letter, rest);
  }

  lemma LeadingNonZero(w: nat)
    requires w > 0
    ensures Numeral(w, 10, false)[0] != '0' && Numeral(w, 10, false)[0] != '%'
  {
    if |Digits(w, 10)| == 1 { assert Digits(w, 10) == [w]; }
    DigitRoundTrip(Digits(w, 10)[0], false);
  }

  /** So such a format prints its argument in the width and base it names. */
  lemma PrintfOne(zero: bool, w: nat, letter: char, v: u32)
    requires w > 0 && KindOf(letter) == Number
    ensures var fmt := "%" + ((if zero then "0" else "") + (Numeral(w, 10, false) + ([letter] + "")));
      Suits(Parse(fmt), [IntArg(v)])
      && RenderAll(Parse(fmt), [IntArg(v)]) == Render(v, FmtOf(Conversion(zero, w, letter)))
  {
    FormatRoundTrip(zero, w, letter, "");
    var p := Conversion(zero, w, letter);
    assert [p] + [] == [p] && [p][1..] == [] && [IntArg(v)][1..] == [];
    assert Suits([], []) && RenderAll([], []) == "";
    assert Render(v, FmtOf(p)) + "" == Render(v, FmtOf(p));
  }
}
