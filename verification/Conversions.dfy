/** What each conversion of sprintf prints, in terms of the argument alone: the digits by
    position, the padding by count, and how flags, width, precision, star and length marks of a
    directive take part, for directives anywhere in a format. */
module Conversions {
  import opened Arithmetic
  import opened Common
  import opened Syscalls

  // ---------------------------------------------------------------- numerals

  /** The text is the number in the base, highest digit first and without leading zero. */
  predicate IsNumeral(text: string, n: nat, base: nat)
    requires 2 <= base <= 16
  {
    && |text| > 0
    && (forall c | c in text :: c in "0123456789abcdef")
    && (|text| == 1 ==> n < base && text[0] == "0123456789abcdef"[n])
    && (|text| > 1 ==> n >= base && IsNumeral(text[..|text| - 1], n / base, base)
                       && text[|text| - 1] == "0123456789abcdef"[n % base])
  }

  lemma HexDigit(d: nat)
    requires d < 16
    ensures DigitChar(d) == "0123456789abcdef"[d]
  {
  }

  lemma {:induction false} DigitsAreIt(n: nat, base: nat)
    requires 2 <= base <= 16
    ensures IsNumeral(Digits(n, base), n, base)
  {
    var upper := Upper(n, base);
    Unfold(n, base);
    Division(n, base);
    HexDigit(n % base);
    hide DigitChar, Digits;
    if n >= base {
      DigitsAreIt(n / base, base);
      assert Digits(n, base)[..|Digits(n, base)| - 1] == upper;
      assert |upper| > 0;
    }
  }

  /** The core, filled up with the pad character to the width, on the left. */
  predicate IsPadded(text: string, core: string, width: int, padc: char) {
    && |text| == (if width > |core| then width else |core|)
    && text[|text| - |core|..] == core
    && (forall i | 0 <= i < |text| - |core| :: text[i] == padc)
  }

  lemma PaddedIs(core: string, width: int, padc: char)
    ensures IsPadded(Repeat(padc, width - |core|) + core, core, width, padc)
  {
    RepeatAll(padc, width - |core|);
  }

  /** text is the number, padded on the left; the flag '-' pads with that character, too. */
  ghost predicate PrintsNumber(text: string, n: nat, base: nat, width: int, padc: char)
    requires 2 <= base <= 16
  {
    exists core :: IsNumeral(core, n, base) && IsPadded(text, core, width, padc)
  }

  lemma NumberPrinted(n: nat, base: nat, width: int, padc: char)
    requires 2 <= base <= 16
    ensures PrintsNumber(NumText(n, base, width, padc), n, base, width, padc)
  {
    DigitsAreIt(n, base);
    PaddedIs(Digits(n, base), width, padc);
    hide IsNumeral, IsPadded, Digits, Repeat;
  }

  // ---------------------------------------------------------------- conversions

  /** The argument as an unsigned number of the width that the length marks ask for. */
  function Unsigned(v: int, ls: nat): nat {
    if ls == 0 then v % 0x1_0000_0000 else v % 0x1_0000_0000_0000_0000
  }

  /** What a conversion prints of its argument: the low 32 or 64 bits unsigned in base 10, 8 or 16;
      a pointer as 0x and 64 bits in base 16; a signed number in base 10 after its sign, the
      padding standing between the two; the low byte as a character; a string up to the
      precision, padded on the right for the flag '-' and else on the left. */
  ghost predicate Prints(c: char, arg: Arg, width: int, precision: int, padc: char, ls: nat, text: string) {
    match c
    case 'u' => PrintsNumber(text, Unsigned(arg.num, ls), 10, width, padc)
    case 'o' => PrintsNumber(text, Unsigned(arg.num, ls), 8, width, padc)
    case 'x' => PrintsNumber(text, Unsigned(arg.num, ls), 16, width, padc)
    case 'p' => |text| > 2 && text[..2] == "0x" && PrintsNumber(text[2..], Unsigned(arg.num, 1), 16, width, padc)
    case 'd' =>
      var u, half := Unsigned(arg.num, ls), if ls == 0 then 0x8000_0000 else 0x8000_0000_0000_0000;
      if u < half then PrintsNumber(text, u, 10, width, padc)
      else |text| > 1 && text[0] == '-' && PrintsNumber(text[1..], 2 * half - u, 10, width, padc)
    case 'c' => |text| == 1 && text[0] as int == arg.num % 256
    case 's' =>
      var s := if arg.text == None then "(null)" else arg.text.value;
      var shown := if 0 <= precision < |s| then s[..precision] else s;
      if padc == '-' then
        && |text| == (if width > |shown| then width else |shown|) && text[..|shown|] == shown
        && (forall i | |shown| <= i < |text| :: text[i] == ' ')
      else IsPadded(text, shown, width, padc)
    case '%' => text == "%"
    case _ => false
  }

  lemma LowHalf(v: int)
    ensures var u := v % TWO_32;
            Signed32(v) == if u < 0x8000_0000 then u else u - 0x1_0000_0000
  {
    var q, u := v / TWO_32, v % TWO_32;
    assert v == TWO_32 * q + u;
    if u < TWO_31 {
      ModUnique(v + TWO_31, TWO_32, q, u + TWO_31);
    } else {
      ModUnique(v + TWO_31, TWO_32, q + 1, u - TWO_31);
    }
  }

  lemma SignedNumber(v: Long, ls: nat)
    ensures var u, half := Unsigned(v, ls), if ls == 0 then 0x8000_0000 else 0x8000_0000_0000_0000;
            GetInt(v, ls) == if u < half then u else u - 2 * half
  {
    assert IsLong(v);
    if ls == 0 {
      LowHalf(v);
      hide Signed32;
    } else if v >= 0 {
      ModUnique(v, TWO_64, 0, v);
    } else {
      ModUnique(v, TWO_64, -1, v + TWO_64);
    }
  }

  /** What a number prints as after its sign. */
  lemma SignPrinted(v: int, width: int, padc: char)
    ensures var text := SignedText(v, width, padc);
            if v >= 0 then PrintsNumber(text, v, 10, width, padc)
            else |text| > 1 && text[0] == '-' && PrintsNumber(text[1..], -v, 10, width, padc)
  {
    var n := if v < 0 then -v else v;
    NumberPrinted(n, 10, width, padc);
    var text := NumText(n, 10, width, padc);
    assert |text| > 0 && ("-" + text)[1..] == text;
    hide NumText, PrintsNumber;
  }

  lemma SignedPrinted(d: Directive, arg: Arg)
    ensures Prints('d', arg, d.width, d.precision, d.padc, d.lflag,
                   SignedText(GetInt(arg.num, d.lflag), d.width, d.padc))
  {
    SignedNumber(arg.num, d.lflag);
    SignPrinted(GetInt(arg.num, d.lflag), d.width, d.padc);
    hide GetInt, SignedText, PrintsNumber;
  }

  lemma RightPadded(shown: string, width: int)
    ensures var text := shown + Repeat(' ', width - |shown|);
            && |text| == (if width > |shown| then width else |shown|) && text[..|shown|] == shown
            && (forall i | |shown| <= i < |text| :: text[i] == ' ')
  {
    RepeatAll(' ', width - |shown|);
    hide Repeat;
  }

  lemma StringPrinted(d: Directive, arg: Arg)
    ensures Prints('s', arg, d.width, d.precision, d.padc, d.lflag,
                   StringText(TextOf(arg.text), d.width, d.precision, d.padc))
  {
    var s := TextOf(arg.text);
    var shown := if 0 <= d.precision < |s| then s[..d.precision] else s;
    PaddedIs(shown, d.width, d.padc);
    RightPadded(shown, d.width);
    hide Repeat, IsPadded;
  }

  lemma UnsignedPrinted(c: char, base: nat, d: Directive, arg: Arg)
    requires (c == 'u' && base == 10) || (c == 'o' && base == 8) || (c == 'x' && base == 16)
    ensures Prints(c, arg, d.width, d.precision, d.padc, d.lflag,
                   NumText(GetUint(arg.num, d.lflag), base, d.width, d.padc))
  {
    NumberPrinted(GetUint(arg.num, d.lflag), base, d.width, d.padc);
    hide NumText, PrintsNumber;
  }

  lemma PointerPrinted(d: Directive, arg: Arg)
    ensures Prints('p', arg, d.width, d.precision, d.padc, d.lflag,
                   "0x" + NumText(GetUint(arg.num, 1), 16, d.width, d.padc))
  {
    var p := NumText(GetUint(arg.num, 1), 16, d.width, d.padc);
    NumberPrinted(GetUint(arg.num, 1), 16, d.width, d.padc);
    assert |p| > 0 && ("0x" + p)[2..] == p && ("0x" + p)[..2] == "0x";
    hide NumText, PrintsNumber;
  }

  lemma CharPrinted(d: Directive, arg: Arg)
    ensures Prints('c', arg, d.width, d.precision, d.padc, d.lflag, [(arg.num % 256) as char])
  {
  }

  /** Every conversion prints what it should; an unknown character is no conversion. */
  lemma ConversionPrints(c: char, d: Directive, arg: Arg)
    ensures Converted(c, d, arg).Some? <==> c in "csduopx%"
    ensures Converted(c, d, arg).Some? ==>
              Prints(c, arg, d.width, d.precision, d.padc, d.lflag, Converted(c, d, arg).value)
  {
    hide Prints, NumText, StringText, SignedText, GetInt, GetUint;
    match c {
      case 'c' => CharPrinted(d, arg);
      case 's' => StringPrinted(d, arg);
      case 'd' => SignedPrinted(d, arg);
      case 'u' => UnsignedPrinted('u', 10, d, arg);
      case 'o' => UnsignedPrinted('o', 8, d, arg);
      case 'x' => UnsignedPrinted('x', 16, d, arg);
      case 'p' => PointerPrinted(d, arg);
      case '%' => PercentPrinted(d, arg);
      case _ =>
    }
  }

  lemma PercentPrinted(d: Directive, arg: Arg)
    ensures Prints('%', arg, d.width, d.precision, d.padc, d.lflag, "%")
  {
  }

  // ---------------------------------------------------------------- directives

  predicate AreFlags(flags: string) {
    forall i | 0 <= i < |flags| :: flags[i] == '0' || flags[i] == '-'
  }

  /** A precision of zero is written as no precision. */
  function PrecisionText(precision: nat): string {
    if precision == 0 then "" else "." + Digits(precision, 10)
  }

  /** No digit, so that a number before it ends. */
  predicate Stops(s: string) {
    s != "" && !IsDigit(s[0])
  }

  lemma NumberEnds(n: nat, more: string)
    requires n > 0 && Stops(more)
    ensures Number(Digits(n, 10) + more, 0) == (n, more)
    ensures IsDigit((Digits(n, 10) + more)[0]) && (Digits(n, 10) + more)[0] != '0'
  {
    NumberOfDigits(n, more);
    DigitsAreDecimal(n);
    DigitsAreNumeral(n, 10);
    hide Digits;
  }

  lemma {:induction false} FlagsPad(flags: string, more: string, d: Directive, args: nat -> Arg)
    requires AreFlags(flags)
    ensures Flags(flags + more, d, args) == Flags(more, d.(padc := if flags == "" then d.padc else PadOf(flags)), args)
  {
    if flags == "" {
      assert flags + more == more;
    } else {
      assert (flags + more)[1..] == flags[1..] + more;
      FlagsPad(flags[1..], more, d.(padc := flags[0]), args);
    }
  }

  lemma FlagsWidth(width: nat, more: string, d: Directive, args: nat -> Arg)
    requires Stops(more)
    ensures Flags(WidthText(width) + more, d, args) == Flags(more, if width == 0 then d else Sized(d, width), args)
  {
    if width == 0 {
      assert WidthText(width) + more == more;
    } else {
      NumberEnds(width, more);
      FlagsNumber(Digits(width, 10) + more, d, args);
      hide Flags, Number, Digits;
    }
  }

  lemma DotTaken(s: string, d: Directive, args: nat -> Arg)
    requires s != "" && s[0] == '.'
    ensures Flags(s, d, args) == Flags(s[1..], if d.width < 0 then d.(width := 0) else d, args)
  {
    hide Number, Sized;
  }

  lemma FlagsPrecision(precision: nat, more: string, d: Directive, args: nat -> Arg)
    requires Stops(more)
    ensures Flags(PrecisionText(precision) + more, d, args)
         == Flags(more, if precision == 0 then d
                        else d.(width := if d.width < 0 then 0 else d.width, precision := precision), args)
  {
    if precision == 0 {
      assert PrecisionText(precision) + more == more;
    } else {
      var number := Digits(precision, 10) + more;
      assert PrecisionText(precision) + more == "." + number;
      DotTaken("." + number, d, args);
      assert ("." + number)[1..] == number;
      NumberEnds(precision, more);
      FlagsNumber(number, if d.width < 0 then d.(width := 0) else d, args);
      hide Flags, Number, Digits;
    }
  }

  lemma {:induction false} FlagsLong(ls: nat, more: string, d: Directive, args: nat -> Arg)
    ensures Flags(Repeat('l', ls) + more, d, args) == Flags(more, d.(lflag := d.lflag + ls), args)
  {
    if ls == 0 {
      assert Repeat('l', ls) + more == more;
    } else {
      assert (Repeat('l', ls) + more)[1..] == Repeat('l', ls - 1) + more;
      FlagsLong(ls - 1, more, d.(lflag := d.lflag + 1), args);
    }
  }

  predicate IsConversion(c: char) {
    c in "csduopx%"
  }

  lemma FlagsEnd(c: char, rest: string, d: Directive, args: nat -> Arg)
    requires IsConversion(c)
    ensures Flags([c] + rest, d, args) == (d, [c] + rest)
  {
  }

  /** The end of a directive: precision, length marks and conversion. */
  function DirectiveEnd(precision: nat, ls: nat, c: char, rest: string): string {
    PrecisionText(precision) + (Repeat('l', ls) + ([c] + rest))
  }

  lemma EndStops(precision: nat, ls: nat, c: char, rest: string)
    requires IsConversion(c)
    ensures Stops(Repeat('l', ls) + ([c] + rest)) && Stops(DirectiveEnd(precision, ls, c, rest))
  {
  }

  lemma EndRead(precision: nat, ls: nat, c: char, rest: string, d: Directive, args: nat -> Arg)
    requires IsConversion(c)
    ensures Flags(DirectiveEnd(precision, ls, c, rest), d, args)
         == ((if precision == 0 then d else d.(width := if d.width < 0 then 0 else d.width, precision := precision))
             .(lflag := d.lflag + ls), [c] + rest)
  {
    EndStops(precision, ls, c, rest);
    var e := if precision == 0 then d else d.(width := if d.width < 0 then 0 else d.width, precision := precision);
    FlagsPrecision(precision, Repeat('l', ls) + ([c] + rest), d, args);
    FlagsLong(ls, [c] + rest, e, args);
    FlagsEnd(c, rest, e.(lflag := e.lflag + ls), args);
    hide Flags, PrecisionText, Repeat;
  }

  /** What flags, width and precision come to, for a directive that starts at argument k. */
  function Asked(flags: string, width: nat, precision: nat, ls: nat, k: nat): Directive {
    Directive(PadOf(flags), if width == 0 && precision == 0 then -1 else width,
              if precision == 0 then -1 else precision, ls, k)
  }

  lemma AskedNext(flags: string, width: nat, precision: nat, ls: nat, k: nat)
    ensures Asked(flags, width, precision, ls, k).used == k
  {
  }

  lemma DirectiveRead(flags: string, width: nat, precision: nat, ls: nat, c: char, rest: string, args: nat -> Arg,
                      k: nat)
    requires AreFlags(flags) && IsConversion(c)
    ensures Flags(flags + (WidthText(width) + DirectiveEnd(precision, ls, c, rest)), Start(k), args)
         == (Asked(flags, width, precision, ls, k), [c] + rest)
  {
    hide Flags, DirectiveEnd, WidthText, Digits, IsConversion, AreFlags, PadOf;
    var end := DirectiveEnd(precision, ls, c, rest);
    var d := Start(k).(padc := if flags == "" then ' ' else PadOf(flags));
    EndStops(precision, ls, c, rest);
    FlagsPad(flags, WidthText(width) + end, Start(k), args);
    FlagsWidth(width, end, d, args);
    EndRead(precision, ls, c, rest, if width == 0 then d else Sized(d, width), args);
    NoFlags();
  }

  lemma NoFlags()
    ensures PadOf("") == ' '
  {
  }

  /** The same with a star for the width, which takes argument k. */
  function Starred(flags: string, width: int, precision: nat, ls: nat, k: nat): Directive {
    Directive(PadOf(flags), if precision > 0 && width < 0 then 0 else width,
              if precision == 0 then -1 else precision, ls, k + 1)
  }

  lemma StarTaken(s: string, d: Directive, args: nat -> Arg)
    requires s != "" && s[0] == '*'
    ensures Flags(s, d, args) == Flags(s[1..], Sized(d.(used := d.used + 1), args(d.used).num), args)
  {
    hide Number, Sized;
  }

  lemma StarRead(flags: string, precision: nat, ls: nat, c: char, rest: string, args: nat -> Arg, k: nat)
    requires AreFlags(flags) && IsConversion(c)
    ensures Flags(flags + ("*" + DirectiveEnd(precision, ls, c, rest)), Start(k), args)
         == (Starred(flags, args(k).num, precision, ls, k), [c] + rest)
  {
    hide Flags, DirectiveEnd, IsConversion, AreFlags, PadOf;
    var end := DirectiveEnd(precision, ls, c, rest);
    var d := Start(k).(padc := if flags == "" then ' ' else PadOf(flags));
    FlagsPad(flags, "*" + end, Start(k), args);
    StarTaken("*" + end, d, args);
    assert ("*" + end)[1..] == end;
    EndRead(precision, ls, c, rest, Sized(d.(used := k + 1), args(k).num), args);
    NoFlags();
  }

  lemma Directed(s: string, d: Directive, c: char, rest: string, args: nat -> Arg, k: nat) returns (text: string)
    requires IsConversion(c) && Flags(s, Start(k), args) == (d, [c] + rest)
    ensures Formatted("%" + s, args, k) == text + Formatted(rest, args, if c == '%' then d.used else d.used + 1)
    ensures Prints(c, args(d.used), d.width, d.precision, d.padc, d.lflag, text)
  {
    ConversionPrints(c, d, args(d.used));
    hide Flags, Converted, Formatted, Prints;
    text := Converted(c, d, args(d.used)).value;
    assert ("%" + s)[1..] == s && ([c] + rest)[1..] == rest;
    DirectiveStep("%" + s, args, k, d, [c] + rest, Some(text));
  }

  /** A directive with flags, a width and a precision, both optional, and length marks prints
      what its conversion makes of the next argument, and the format goes on behind it. */
  lemma DirectivePrints(flags: string, width: nat, precision: nat, ls: nat, c: char, rest: string, args: nat -> Arg,
                        k: nat) returns (text: string)
    requires AreFlags(flags) && IsConversion(c)
    ensures Formatted("%" + (flags + (WidthText(width) + DirectiveEnd(precision, ls, c, rest))), args, k)
         == text + Formatted(rest, args, if c == '%' then k else k + 1)
    ensures var d := Asked(flags, width, precision, ls, k);
            Prints(c, args(k), d.width, d.precision, d.padc, d.lflag, text)
  {
    DirectiveRead(flags, width, precision, ls, c, rest, args, k);
    AskedNext(flags, width, precision, ls, k);
    hide Flags, DirectiveEnd, WidthText, PadOf, AreFlags, IsConversion, Formatted, Prints, Asked;
    var s := flags + (WidthText(width) + DirectiveEnd(precision, ls, c, rest));
    text := Directed(s, Asked(flags, width, precision, ls, k), c, rest, args, k);
  }

  /** A star takes the width from an argument of its own. */
  lemma StarPrints(flags: string, precision: nat, ls: nat, c: char, rest: string, args: nat -> Arg, k: nat)
      returns (text: string)
    requires AreFlags(flags) && IsConversion(c)
    ensures Formatted("%" + (flags + ("*" + DirectiveEnd(precision, ls, c, rest))), args, k)
         == text + Formatted(rest, args, if c == '%' then k + 1 else k + 2)
    ensures var d := Starred(flags, args(k).num, precision, ls, k);
            Prints(c, args(k + 1), d.width, d.precision, d.padc, d.lflag, text)
  {
    StarRead(flags, precision, ls, c, rest, args, k);
    hide Flags, DirectiveEnd, PadOf, AreFlags, IsConversion, Formatted, Prints;
    var s := flags + ("*" + DirectiveEnd(precision, ls, c, rest));
    text := Directed(s, Starred(flags, args(k).num, precision, ls, k), c, rest, args, k);
  }

  /** A percent sign before anything that is no flag, number, mark or conversion is printed itself,
      and the format goes on right behind it. */
  lemma UnknownPrints(c: char, rest: string, args: nat -> Arg, k: nat)
    requires !IsConversion(c) && !IsDigit(c) && c !in "-*.#l"
    ensures Formatted("%" + ([c] + rest), args, k) == "%" + Formatted([c] + rest, args, k)
  {
    var s := [c] + rest;
    assert ("%" + s)[1..] == s;
    assert Flags(s, Start(k), args) == (Start(k), s);
    ConversionPrints(c, Start(k), args(k));
    hide Flags, Converted, Formatted, Prints;
    DirectiveStep("%" + s, args, k, Start(k), s, None);
  }

  /** Text without a percent sign is printed as it is, and a format ends with its last character. */
  lemma {:induction false} LiteralPrints(text: string, rest: string, args: nat -> Arg, k: nat)
    requires '%' !in text
    ensures Formatted(text + rest, args, k) == text + Formatted(rest, args, k)
    ensures Formatted("", args, k) == ""
  {
    EndOfFormat(args, k);
    hide Formatted;
    if text == "" {
      assert text + rest == rest;
    } else {
      assert (text + rest)[0] == text[0] && (text + rest)[1..] == text[1..] + rest;
      LiteralStep(text + rest, args, k);
      LiteralPrints(text[1..], rest, args, k);
      Assoc([text[0]], text[1..], Formatted(rest, args, k));
    }
  }

  // ---------------------------------------------------------------- reading

  /** atol skips spaces, takes one sign of either kind, and reads the digits; it gives no number
      only where the digits before the sign is applied exceed the largest long. */
  lemma AtolReads(k: nat, sign: string, n: nat)
    requires (sign == "" || sign == "-" || sign == "+") && n <= LONG_MAX + 1
    ensures Parsed(Repeat(' ', k) + (sign + Digits(n, 10)))
         == if n > 0x7FFF_FFFF_FFFF_FFFF then None else if sign == "-" then Some(0 - n as int) else Some(n)
  {
    var digits := Digits(n, 10);
    var s := sign + digits;
    DigitsAreDecimal(n);
    SkippedSpaces(k, s);
    assert s[0] != ' ' && Skipped(s) == s;
    assert digits + "" == digits;
    TotalOfDigits(n, "");
    assert Total("", n) == Some(n);
    assert sign == "" ==> s == digits;
    assert sign != "" ==> s[0] == sign[0] && s[1..] == digits;
    hide Digits, Total, Skipped, Repeat;
  }
}
