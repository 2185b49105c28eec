/** Number printing and parsing in the bare-metal runtime: printnum, the
    vprintfmt interpreter behind sprintf, and atol.  A C string is the Dafny
    string of the characters before its NUL. */
module Syscalls {

  import opened Arithmetic
  import opened Bits
  import opened Common

  const LONG_MAX := 0x7FFF_FFFF_FFFF_FFFF
  const LONG_MIN := -0x8000_0000_0000_0000

  predicate IsLong(v: int) {
    LONG_MIN <= v <= LONG_MAX
  }

  type Long = v: int | IsLong(v)

  /** One variadic argument: what reading the slot as a number or as a string
      pointer gives; no string is the null pointer. */
  datatype Arg = Arg(num: Long, text: Option<string>)

  function Signed32(v: int): int {
    (v + TWO_31) % TWO_32 - TWO_31
  }

  // -------------------------------------------------------------- digits

  function DigitChar(d: nat): char
    requires d < 36
  {
    if d >= 10 then (d + ('a' as int - 10)) as char else (d + '0' as int) as char
  }

  lemma Division(n: nat, base: nat)
    requires base >= 2
    ensures n == n / base * base + n % base
    ensures n < base ==> n / base == 0 && n % base == n
    ensures n >= base ==> 0 < n / base < n
  {
    var q := n / base;
    assert n == base * q + n % base;
    if n < base { ModUnique(n, base, 0, n); }
    if q > 0 { MulMono(2, base, q); }
  }

  function Digits(n: nat, base: nat): (text: string)
    requires 2 <= base <= 36
    ensures text != ""
  {
    Division(n, base);
    (if n < base then "" else Digits(n / base, base)) + [DigitChar(n % base)]
  }

  function Repeat(c: char, n: int): (text: string)
    ensures |text| == if n < 0 then 0 else n
  {
    if n <= 0 then "" else [c] + Repeat(c, n - 1)
  }

  function NumText(num: nat, base: nat, width: int, padc: char): string
    requires 2 <= base <= 36
  {
    Repeat(padc, width - |Digits(num, base)|) + Digits(num, base)
  }

  function DigitValue(c: char): nat {
    if 'a' <= c <= 'z' then c as int - 'a' as int + 10 else if '0' <= c <= '9' then c as int - '0' as int else 0
  }

  function Value(text: string, base: nat): nat {
    if text == "" then 0 else Value(text[..|text| - 1], base) * base + DigitValue(text[|text| - 1])
  }

  lemma DigitValueOf(d: nat)
    requires d < 36
    ensures DigitValue(DigitChar(d)) == d && (DigitChar(d) == '0' <==> d == 0)
  {
  }

  lemma ValueSnoc(text: string, c: char, base: nat)
    ensures Value(text + [c], base) == Value(text, base) * base + DigitValue(c)
  {
    assert (text + [c])[..|text|] == text;
  }

  /** The digits are the base's numeral of the number, with no leading zero. */
  lemma {:induction false} DigitsAreNumeral(n: nat, base: nat)
    requires 2 <= base <= 36
    ensures Value(Digits(n, base), base) == n
    ensures Digits(n, base)[0] == '0' ==> n == 0 && |Digits(n, base)| == 1
    ensures forall i :: 0 <= i < |Digits(n, base)| ==> DigitValue(Digits(n, base)[i]) < base
  {
    Unfold(n, base);
    Division(n, base);
    if n >= base {
      DigitsAreNumeral(n / base, base);
    } else {
      assert Value("", base) == 0;
    }
    NumeralStep(Upper(n, base), n / base, n % base, base);
  }

  lemma NumeralStep(upper: string, q: nat, r: nat, base: nat)
    requires r < base <= 36 && Value(upper, base) == q
    requires upper == "" <==> q == 0
    requires upper != "" ==> upper[0] != '0'
    requires forall i :: 0 <= i < |upper| ==> DigitValue(upper[i]) < base
    ensures var text := upper + [DigitChar(r)];
            Value(text, base) == q * base + r && (text[0] == '0' ==> q == r == 0 && |text| == 1)
            && forall i :: 0 <= i < |text| ==> DigitValue(text[i]) < base
  {
    DigitValueOf(r);
    ValueSnoc(upper, DigitChar(r), base);
  }

  /** The digits above the last one. */
  function Upper(n: nat, base: nat): string
    requires 2 <= base <= 36
  {
    if n < base then "" else Digits(n / base, base)
  }

  lemma Unfold(n: nat, base: nat)
    requires 2 <= base <= 36
    ensures Digits(n, base) == Upper(n, base) + [DigitChar(n % base)]
  {
  }

  function Pow10(k: nat): (p: nat)
    ensures p > 0
  {
    if k == 0 then 1 else 10 * Pow10(k - 1)
  }

  lemma {:induction false} DigitsSize(n: nat)
    ensures n < Pow10(|Digits(n, 10)|)
  {
    if n >= 10 { DigitsSize(n / 10); }
  }

  // -------------------------------------------------------------- printf

  datatype Directive = Directive(padc: char, width: int, precision: int, lflag: nat, used: nat)

  predicate IsDigit(c: char) {
    '0' <= c <= '9'
  }

  /** The decimal number a text starts with, and what follows it. */
  function Number(s: string, p: nat): (r: (nat, string))
    ensures |r.1| <= |s|
    ensures s != "" && IsDigit(s[0]) ==> |r.1| < |s|
  {
    if s != "" && IsDigit(s[0]) then Number(s[1..], p * 10 + (s[0] as int - '0' as int)) else (p, s)
  }

  function Sized(d: Directive, p: int): Directive {
    if d.width < 0 then d.(width := p, precision := -1) else d.(precision := p)
  }

  /** Flags, widths and length marks, up to the conversion character. */
  function Flags(s: string, d: Directive, args: nat -> Arg): (r: (Directive, string))
    ensures |r.1| <= |s|
    decreases |s|
  {
    if s == "" then (d, s)
    else
      var c := s[0];
      if c == '-' || c == '0' then Flags(s[1..], d.(padc := c), args)
      else if IsDigit(c) then Flags(Number(s, 0).1, Sized(d, Number(s, 0).0), args)
      else if c == '*' then Flags(s[1..], Sized(d.(used := d.used + 1), args(d.used).num), args)
      else if c == '.' then Flags(s[1..], if d.width < 0 then d.(width := 0) else d, args)
      else if c == '#' then Flags(s[1..], d, args)
      else if c == 'l' then Flags(s[1..], d.(lflag := d.lflag + 1), args)
      else (d, s)
  }

  function GetInt(arg: Long, lflag: nat): Long {
    if lflag == 0 then Signed32(arg) else arg
  }

  function GetUint(arg: int, lflag: nat): nat {
    arg % (if lflag == 0 then TWO_32 else TWO_64)
  }

  function SignedText(v: int, width: int, padc: char): string {
    if v < 0 then "-" + NumText(-v, 10, width, padc) else NumText(v, 10, width, padc)
  }

  function StringText(s: string, width: int, precision: int, padc: char): string {
    var shown := if 0 <= precision < |s| then s[..precision] else s;
    if padc != '-' then Repeat(padc, width - |shown|) + shown else shown + Repeat(' ', width - |shown|)
  }

  /** A null string pointer prints as a word of its own. */
  function TextOf(text: Option<string>): string {
    if text.Some? then text.value else "(null)"
  }

  /** What a conversion prints; None when the character is not one. */
  function Converted(c: char, d: Directive, arg: Arg): Option<string> {
    match c
    case 'c' => Some([(arg.num % 256) as char])
    case 's' => Some(StringText(TextOf(arg.text), d.width, d.precision, d.padc))
    case 'd' => Some(SignedText(GetInt(arg.num, d.lflag), d.width, d.padc))
    case 'u' => Some(NumText(GetUint(arg.num, d.lflag), 10, d.width, d.padc))
    case 'o' => Some(NumText(GetUint(arg.num, d.lflag), 8, d.width, d.padc))
    case 'p' => Some("0x" + NumText(GetUint(arg.num, 1), 16, d.width, d.padc))
    case 'x' => Some(NumText(GetUint(arg.num, d.lflag), 16, d.width, d.padc))
    case '%' => Some("%")
    case _ => None
  }

  function Start(k: nat): Directive {
    Directive(' ', -1, -1, 0, k)
  }

  function Formatted(s: string, args: nat -> Arg, k: nat): string
    decreases |s|
  {
    if s == "" then ""
    else if s[0] != '%' then [s[0]] + Formatted(s[1..], args, k)
    else
      var (d, rest) := Flags(s[1..], Start(k), args);
      if rest != "" && Converted(rest[0], d, args(d.used)).Some? then
        Converted(rest[0], d, args(d.used)).value
        + Formatted(rest[1..], args, if rest[0] == '%' then d.used else d.used + 1)
      else "%" + Formatted(s[1..], args, d.used)
  }

  // ------------------------------------------------------------- printing

  /** After pos divisions what is left still fits the word. */
  ghost predicate Fits(n: nat, pos: nat, num: nat) {
    n * Pow2(pos) <= num < TWO_64
  }

  lemma DigitStep(n: nat, base: nat, pos: nat, num: nat)
    requires n >= base >= 2 && Fits(n, pos, num)
    ensures n / base < n && Fits(n / base, pos + 1, num) && pos + 1 < 64
  {
    var q := n / base;
    AtMostHalf(n, base);
    assert Pow2(pos + 1) == 2 * Pow2(pos);
    hide Pow2;
    HalfProduct(n, q, Pow2(pos));
    if pos + 1 >= 64 { BeyondWord(pos + 1, q); }
  }

  lemma AtMostHalf(n: nat, base: nat)
    requires n >= base >= 2
    ensures 0 < n / base < n && 2 * (n / base) <= n
  {
    Division(n, base);
    MulMono(2, base, n / base);
  }

  lemma HalfProduct(n: nat, q: nat, p: nat)
    requires 2 * q <= n && p > 0
    ensures q * (2 * p) <= n * p
  {
    MulMono(2 * q, n, p);
    assert q * (2 * p) == p * (2 * q);
  }

  lemma BeyondWord(pos: nat, n: nat)
    requires pos >= 64 && n >= 1
    ensures n * Pow2(pos) >= TWO_64
  {
    Pow2SixtyFour();
    Pow2Mono(64, pos);
    hide Pow2;
    MulMono(1, n, Pow2(pos));
  }

  type Digit = d: nat | d < 36

  /** The stored digits, last one first. */
  function Shown(digs: seq<Digit>): (text: string)
    ensures |text| == |digs|
  {
    if digs == [] then "" else [DigitChar(digs[|digs| - 1])] + Shown(digs[..|digs| - 1])
  }

  lemma NothingShown(num: nat)
    requires num < TWO_64
    ensures Shown([]) == "" && Fits(num, 0, num)
  {
  }

  lemma ShownSnoc(digs: seq<Digit>, d: Digit)
    ensures Shown(digs + [d]) == [DigitChar(d)] + Shown(digs)
  {
    assert (digs + [d])[..|digs|] == digs;
  }

  method PrintNum(num: nat, base: nat, width: int, padc: char) returns (out: string)
    requires 2 <= base <= 36 && num < TWO_64
    ensures out == NumText(num, base, width, padc)
  {
    hide Fits;
    hide Digits;
    hide DigitChar;
    hide Shown;
    ghost var digits := Digits(num, base);
    var digs := new Digit[64];
    var n: nat, pos := num, 0;
    NothingShown(num);
    assert digs[..0] == [];
    while true
      invariant 0 <= pos < 64 && Fits(n, pos, num)
      invariant digits == Digits(n, base) + Shown(digs[..pos])
      decreases n
    {
      digs[pos] := n % base;
      assert digs[..pos + 1] == digs[..pos] + [digs[pos]];
      ShownSnoc(digs[..pos], digs[pos]);
      Unfold(n, base);
      Assoc(Upper(n, base), [DigitChar(digs[pos])], Shown(digs[..pos]));
      pos := pos + 1;
      if n < base { break; }
      DigitStep(n, base, pos - 1, num);
      n := n / base;
    }
    assert digits == Shown(digs[..pos]);
    out := PutRepeated(padc, width - pos);
    var text := PutDigits(digs, pos);
    out := out + text;
  }

  method PutDigits(digs: array<Digit>, count: nat) returns (out: string)
    requires count <= digs.Length
    ensures out == Shown(digs[..count])
  {
    hide DigitChar, Shown;
    out := "";
    var pos := count;
    while pos > 0
      invariant 0 <= pos <= count
      invariant out + Shown(digs[..pos]) == Shown(digs[..count])
    {
      pos := pos - 1;
      assert digs[..pos + 1] == digs[..pos] + [digs[pos]];
      ShownSnoc(digs[..pos], digs[pos]);
      Assoc(out, [DigitChar(digs[pos])], Shown(digs[..pos]));
      out := out + [DigitChar(digs[pos])];
    }
  }

  /** The padding loops: count down, one character each time. */
  method PutRepeated(c: char, n: int) returns (out: string)
    ensures out == Repeat(c, n)
  {
    out := "";
    var left := n;
    while left > 0
      invariant out + Repeat(c, left) == Repeat(c, n)
    {
      out := out + [c];
      left := left - 1;
    }
  }

  lemma LiteralStep(s: string, args: nat -> Arg, k: nat)
    requires s != "" && s[0] != '%'
    ensures Formatted(s, args, k) == [s[0]] + Formatted(s[1..], args, k)
  {
  }

  lemma DirectiveStep(s: string, args: nat -> Arg, k: nat, d: Directive, rest: string, text: Option<string>)
    requires s != "" && s[0] == '%' && Flags(s[1..], Start(k), args) == (d, rest)
    requires text == if rest == "" then None else Converted(rest[0], d, args(d.used))
    ensures Formatted(s, args, k) ==
            if text.Some?
            then text.value + Formatted(rest[1..], args, if rest[0] == '%' then d.used else d.used + 1)
            else "%" + Formatted(s[1..], args, d.used)
  {
    hide Flags;
    hide Converted;
  }

  /** The format pointer is the text it points to. */
  method Vprintfmt(format: string, args: nat -> Arg) returns (out: string)
    ensures out == Formatted(format, args, 0)
  {
    hide Formatted;
    hide Flags;
    hide Converted;
    ghost var goal := Formatted(format, args, 0);
    out := "";
    var fmt, used: nat := format, 0;
    while fmt != ""
      invariant goal == out + Formatted(fmt, args, used)
      decreases |fmt|
    {
      ghost var s := fmt;
      var ch := fmt[0];
      fmt := fmt[1..];
      if ch != '%' {
        LiteralStep(s, args, used);
        Assoc(out, [ch], Formatted(fmt, args, used));
        out := out + [ch];
      } else {
        var d, rest, text := ReadDirective(fmt, args, used);
        DirectiveStep(s, args, used, d, rest, text);
        if text.Some? {
          used := if rest[0] == '%' then d.used else d.used + 1;
          fmt := rest[1..];
          Assoc(out, text.value, Formatted(fmt, args, used));
          out := out + text.value;
        } else {
          Assoc(out, "%", Formatted(fmt, args, d.used));
          out := out + "%";
          used := d.used;
        }
      }
    }
    EndOfFormat(args, used);
  }

  lemma Assoc(a: string, b: string, c: string)
    ensures (a + b) + c == a + (b + c)
  {
  }

  lemma EndOfFormat(args: nat -> Arg, k: nat)
    ensures Formatted("", args, k) == ""
  {
  }

  method ReadNumber(s: string) returns (p: nat, rest: string)
    requires s != "" && IsDigit(s[0])
    ensures Number(s, 0) == (p, rest) && |rest| < |s|
  {
    p, rest := 0, s;
    while rest != "" && IsDigit(rest[0])
      invariant Number(s, 0) == Number(rest, p)
      decreases |rest|
    {
      p := p * 10 + (rest[0] as int - '0' as int);
      rest := rest[1..];
    }
  }

  /** The switch on the characters after a percent sign: flags and widths are
      collected until a conversion prints its argument. */
  method ReadDirective(s: string, args: nat -> Arg, used: nat)
    returns (d: Directive, fmt: string, text: Option<string>)
    ensures Flags(s, Start(used), args) == (d, fmt) && |fmt| <= |s|
    ensures text == if fmt == "" then None else Converted(fmt[0], d, args(d.used))
  {
    fmt := s;
    var padc, width, precision, lflag, k := ' ', -1, -1, 0, used;
    ghost var end := Flags(s, Start(used), args);
    while fmt != ""
      invariant end == Flags(fmt, Directive(padc, width, precision, lflag, k), args)
      decreases |fmt|
    {
      var ch := fmt[0];
      match ch {
        case '-' => padc := '-'; fmt := fmt[1..];
        case '0' => padc := '0'; fmt := fmt[1..];
        case '*' =>
          precision := args(k).num;
          k := k + 1;
          if width < 0 { width, precision := precision, -1; }
          fmt := fmt[1..];
        case '.' =>
          if width < 0 { width := 0; }
          fmt := fmt[1..];
        case '#' => fmt := fmt[1..];
        case 'l' => lflag := lflag + 1; fmt := fmt[1..];
        case _ =>
          if '1' <= ch <= '9' {
            precision, fmt := ReadNumber(fmt);
            if width < 0 { width, precision := precision, -1; }
          } else {
            break;
          }
      }
    }
    d := Directive(padc, width, precision, lflag, k);
    text := None;
    if fmt != "" { text := Convert(fmt[0], d, args(k)); }
  }

  method Convert(c: char, d: Directive, arg: Arg) returns (text: Option<string>)
    ensures text == Converted(c, d, arg)
  {
    var out := "";
    match c {
      case 'c' => text := Some([(arg.num % 256) as char]);
      case 's' =>
        var p := if arg.text.None? then "(null)" else arg.text.value;
        out := PrintString(p, d.width, d.precision, d.padc);
        text := Some(out);
      case 'd' =>
        var v := GetInt(arg.num, d.lflag);
        var num := PrintNum(if v < 0 then 0 - v as int else v as int, 10, d.width, d.padc);
        text := Some(if v < 0 then "-" + num else num);
      case 'u' =>
        out := PrintNum(GetUint(arg.num, d.lflag), 10, d.width, d.padc);
        text := Some(out);
      case 'o' =>
        out := PrintNum(GetUint(arg.num, d.lflag), 8, d.width, d.padc);
        text := Some(out);
      case 'p' =>
        out := PrintNum(GetUint(arg.num, 1), 16, d.width, d.padc);
        text := Some("0x" + out);
      case 'x' =>
        out := PrintNum(GetUint(arg.num, d.lflag), 16, d.width, d.padc);
        text := Some(out);
      case '%' => text := Some("%");
      case _ => text := None;
    }
  }

  method PrintString(s: string, width: int, precision: int, padc: char) returns (out: string)
    ensures out == StringText(s, width, precision, padc)
  {
    out := "";
    var w := width;
    if w > 0 && padc != '-' {
      w := w - (if 0 <= precision < |s| then precision else |s|);
      out := PutRepeated(padc, w);
      if w > 0 { w := 0; }
    }
    var text;
    text, w := PutChars(s, precision, w);
    var rest := PutRepeated(' ', w);
    out := out + text + rest;
  }

  /** The characters of a string up to the precision; each one takes from the width. */
  method PutChars(s: string, precision: int, width: int) returns (out: string, w: int)
    ensures out == if 0 <= precision < |s| then s[..precision] else s
    ensures w == width - |out|
  {
    out, w := "", width;
    var at, left := 0, precision;
    while at < |s| && (left < 0 || left > 0)
      invariant 0 <= at <= |s| && out == s[..at] && w == width - at
      invariant if precision < 0 then left < 0 else left == precision - at >= 0
    {
      out := out + [s[at]];
      at := at + 1;
      left := left - 1;
      w := w - 1;
    }
  }

  method Sprintf(fmt: string, args: nat -> Arg) returns (str: string, n: nat)
    ensures str == Formatted(fmt, args, 0) && n == |str|
  {
    str := Vprintfmt(fmt, args);
    n := |str|;
  }

  // -------------------------------------------------------------- parsing

  function Skipped(s: string): string {
    if s != "" && s[0] == ' ' then Skipped(s[1..]) else s
  }

  /** One character of the number; None when the C arithmetic overflows. */
  function Accumulate(res: int, c: char): Option<int> {
    var d := c as int - '0' as int;
    if IsLong(res * 10) && IsLong(res * 10 + d) then Some(res * 10 + d) else None
  }

  function Total(s: string, res: int): Option<int> {
    if s == "" then Some(res)
    else
      match Accumulate(res, s[0])
      case None => None
      case Some(next) => Total(s[1..], next)
  }

  function SignedTotal(s: string): Option<int> {
    if s != "" && s[0] == '-' then
      match Total(s[1..], 0)
      case Some(res) => if IsLong(-res) then Some(-res) else None
      case None => None
    else if s != "" && s[0] == '+' then Total(s[1..], 0)
    else Total(s, 0)
  }

  function Parsed(s: string): Option<int> {
    SignedTotal(Skipped(s))
  }

  method Atol(text: string) returns (value: Option<int>)
    ensures value == Parsed(text)
  {
    var str, res, sign := text, 0, false;
    while str != "" && str[0] == ' '
      invariant Skipped(str) == Skipped(text)
      decreases |str|
    {
      str := str[1..];
    }
    ghost var rest := str;
    if str != "" && (str[0] == '-' || str[0] == '+') {
      sign := str[0] == '-';
      str := str[1..];
    }
    ghost var digits := str;
    while str != ""
      invariant Total(digits, 0) == Total(str, res)
      decreases |str|
    {
      if !IsLong(res * 10) { return None; }
      res := res * 10;
      var d := str[0] as int - '0' as int;
      if !IsLong(res + d) { return None; }
      res := res + d;
      str := str[1..];
    }
    if sign && !IsLong(-res) { return None; }
    return Some(if sign then -res else res);
  }

  // ----------------------------------------------------------- round trip

  /** Digits are read back as the number they print, unless it is too large. */
  lemma {:induction false} TotalOfDigits(n: nat, rest: string)
    requires n <= LONG_MAX + 1
    ensures Total(Digits(n, 10) + rest, 0) == if n <= LONG_MAX then Total(rest, n) else None
  {
    var c, upper := DigitChar(n % 10), Upper(n, 10);
    Unfold(n, 10);
    assert Digits(n, 10) + rest == upper + ([c] + rest);
    assert ([c] + rest)[1..] == rest;
    if n >= 10 {
      TotalOfDigits(n / 10, [c] + rest);
    } else {
      assert upper + ([c] + rest) == [c] + rest;
    }
  }

  lemma {:induction false} TotalOfZeros(k: int, rest: string)
    ensures Total(Repeat('0', k) + rest, 0) == Total(rest, 0)
  {
    if k > 0 {
      assert (Repeat('0', k) + rest)[1..] == Repeat('0', k - 1) + rest;
      TotalOfZeros(k - 1, rest);
    } else {
      assert Repeat('0', k) + rest == rest;
    }
  }

  lemma {:induction false} SkippedSpaces(k: int, rest: string)
    ensures Skipped(Repeat(' ', k) + rest) == Skipped(rest)
  {
    if k > 0 {
      assert (Repeat(' ', k) + rest)[1..] == Repeat(' ', k - 1) + rest;
      SkippedSpaces(k - 1, rest);
    } else {
      assert Repeat(' ', k) + rest == rest;
    }
  }

  /** Once a character below the digits has been taken for one, the total
      stays far below zero. */
  lemma {:induction false} TotalBelow(s: string, res: int, p: nat)
    requires p > 0 && res < -2 * p
    requires forall i :: 0 <= i < |s| ==> s[i] <= '9'
    ensures Total(s, res).Some? ==> Total(s, res).value < -2 * (p * Pow10(|s|))
  {
    if s != "" {
      match Accumulate(res, s[0])
      case None =>
      case Some(next) =>
        assert next < -2 * (10 * p);
        TotalBelow(s[1..], next, 10 * p);
        assert 10 * p * Pow10(|s| - 1) == p * Pow10(|s|);
    } else {
      assert p * Pow10(0) == p;
    }
  }

  lemma {:induction false} DigitsAreDecimal(n: nat)
    ensures forall i :: 0 <= i < |Digits(n, 10)| ==> IsDigit(Digits(n, 10)[i])
  {
    Unfold(n, 10);
    if n >= 10 { DigitsAreDecimal(n / 10); }
  }

  lemma {:induction false} RepeatAll(c: char, n: int)
    ensures forall i :: 0 <= i < |Repeat(c, n)| ==> Repeat(c, n)[i] == c
  {
    if n > 0 { RepeatAll(c, n - 1); }
  }

  lemma {:induction false} Pow10Mono(a: nat, b: nat)
    requires a <= b
    ensures Pow10(a) <= Pow10(b)
  {
    if a < b { Pow10Mono(a, b - 1); }
  }

  /** A padding character read as a digit: nothing sensible comes out. */
  lemma JunkTotal(c: char, pads: int, n: nat)
    requires c == ' ' || c == '-'
    requires pads > 0
    ensures var t := Total(Repeat(c, pads) + Digits(n, 10), 0); t.Some? ==> t.value < 0 - n
  {
    hide Digits;
    var rest := Repeat(c, pads - 1) + Digits(n, 10);
    assert Repeat(c, pads) + Digits(n, 10) == [c] + rest && ([c] + rest)[1..] == rest;
    DigitsAreDecimal(n);
    RepeatAll(c, pads - 1);
    var first := Accumulate(0, c).value;
    TotalBelow(rest, first, 1);
    DigitsSize(n);
    Pow10Mono(|Digits(n, 10)|, |rest|);
  }

  /** No padding, or zeros: the digits are what counts. */
  lemma PlainTotal(c: char, pads: int, n: nat)
    requires n <= LONG_MAX + 1 && (pads <= 0 || c == '0')
    ensures var body := Repeat(c, pads) + Digits(n, 10);
            IsDigit(body[0]) && Total(body, 0) == if n <= LONG_MAX then Some(n) else None
  {
    var d := Digits(n, 10);
    DigitsAreDecimal(n);
    assert d + "" == d && "" + d == d;
    TotalOfDigits(n, "");
    if pads > 0 { TotalOfZeros(pads, d); }
  }

  /** The condition a caller can check before printing. */
  predicate ReadsBack(v: Long, width: int, padc: char) {
    var pads := width - |Digits(if v < 0 then -(v as int) else v, 10)|;
    && v != LONG_MIN
    && (pads <= 0 || padc == '0' || (padc == ' ' && v >= 0) || (padc == '-' && v == 0 && pads == 1))
  }

  lemma NegativeReadsBack(v: Long, width: int, padc: char)
    requires v < 0 && (padc == ' ' || padc == '0' || padc == '-')
    ensures Parsed(SignedText(v, width, padc)) == Some(v) <==> ReadsBack(v, width, padc)
  {
    assert IsLong(v);
    var n := -(v as int);
    var pads := width - |Digits(n, 10)|;
    var body := Repeat(padc, pads) + Digits(n, 10);
    assert ("-" + body)[1..] == body;
    if pads <= 0 || padc == '0' {
      PlainTotal(padc, pads, n);
    } else {
      JunkTotal(padc, pads, n);
    }
    hide Total;
    hide Digits;
    hide Repeat;
  }

  lemma RepeatHead(c: char, n: int, rest: string)
    ensures n > 0 ==> Repeat(c, n) + rest == [c] + (Repeat(c, n - 1) + rest)
    ensures n <= 0 ==> Repeat(c, n) + rest == rest
  {
  }

  lemma DashedTotal(pads: int, n: nat)
    requires pads > 0 && n <= LONG_MAX
    ensures var t := SignedTotal(Repeat('-', pads) + Digits(n, 10)); t == Some(n) <==> n == 0 && pads == 1
  {
    hide Total, Digits, Repeat;
    var d := Digits(n, 10);
    var rest := Repeat('-', pads - 1) + d;
    RepeatHead('-', pads, d);
    assert (['-'] + rest)[1..] == rest;
    if pads == 1 {
      RepeatHead('-', 0, d);
      PlainTotal('-', 0, n);
    } else {
      JunkTotal('-', pads - 1, n);
    }
  }

  lemma SpacedTotal(pads: int, n: nat)
    requires n <= LONG_MAX
    ensures Parsed(Repeat(' ', pads) + Digits(n, 10)) == Some(n)
  {
    hide Total;
    hide Digits;
    var d := Digits(n, 10);
    SkippedSpaces(pads, d);
    PlainTotal(' ', 0, n);
    assert Repeat(' ', 0) + d == d;
  }

  lemma PositiveReadsBack(v: Long, width: int, padc: char)
    requires v >= 0 && (padc == ' ' || padc == '0' || padc == '-')
    ensures Parsed(SignedText(v, width, padc)) == Some(v) <==> ReadsBack(v, width, padc)
  {
    assert IsLong(v);
    var pads := width - |Digits(v, 10)|;
    var body := Repeat(padc, pads) + Digits(v, 10);
    if pads <= 0 || padc == '0' {
      PlainTotal(padc, pads, v);
    } else if padc == ' ' {
      SpacedTotal(pads, v);
    } else {
      DashedTotal(pads, v);
      assert body[0] == '-';
    }
    hide Total;
    hide Digits;
    hide Repeat;
  }

  // ------------------------------------------------------- format strings

  /** "%<flags><width>ld": a width of zero is written as no width. */
  function LongFormat(flags: string, width: nat): string {
    "%" + flags + WidthText(width) + "ld"
  }

  function WidthText(width: nat): string {
    if width == 0 then "" else Digits(width, 10)
  }

  function PadOf(flags: string): char {
    if flags == "" then ' ' else flags[|flags| - 1]
  }

  lemma NumberStep(d: nat, rest: string, p: nat)
    requires d < 10
    ensures Number([DigitChar(d)] + rest, p) == Number(rest, 10 * p + d)
  {
    assert ([DigitChar(d)] + rest)[1..] == rest;
  }

  lemma {:induction false} NumberOfDigits(n: nat, rest: string)
    ensures Number(Digits(n, 10) + rest, 0) == Number(rest, n)
  {
    var c, upper := [DigitChar(n % 10)], Upper(n, 10);
    Unfold(n, 10);
    hide Digits, Number, DigitChar;
    Assoc(upper, c, rest);
    if n >= 10 {
      NumberOfDigits(n / 10, c + rest);
      NumberStep(n % 10, rest, n / 10);
    } else {
      assert upper + (c + rest) == c + rest;
      NumberStep(n, rest, 0);
    }
  }

  lemma NumberStops(p: nat)
    ensures Number("ld", p) == (p, "ld")
  {
  }

  lemma FlagsNumber(s: string, d: Directive, args: nat -> Arg)
    requires s != "" && IsDigit(s[0]) && s[0] != '0'
    ensures Flags(s, d, args) == Flags(Number(s, 0).1, Sized(d, Number(s, 0).0), args)
  {
    hide Number;
  }

  lemma WidthRead(width: nat, d: Directive, args: nat -> Arg)
    requires d.width == -1 && d.precision == -1
    ensures Flags(WidthText(width) + "ld", d, args)
            == (d.(width := if width == 0 then -1 else width, lflag := d.lflag + 1), "d")
  {
    hide Digits, Flags, Number;
    if width == 0 {
      assert "" + "ld" == "ld";
      LongRead(d, args);
    } else {
      var s := Digits(width, 10) + "ld";
      DigitsAreDecimal(width);
      DigitsAreNumeral(width, 10);
      NumberOfDigits(width, "ld");
      NumberStops(width);
      assert s[0] == Digits(width, 10)[0];
      FlagsNumber(s, d, args);
      LongRead(Sized(d, width), args);
    }
  }

  lemma LongRead(d: Directive, args: nat -> Arg)
    ensures Flags("ld", d, args) == (d.(lflag := d.lflag + 1), "d")
  {
    assert "ld"[1..] == "d";
    assert Flags("d", d.(lflag := d.lflag + 1), args) == (d.(lflag := d.lflag + 1), "d");
  }

  lemma {:induction false} FlagsRead(flags: string, width: nat, d: Directive, args: nat -> Arg)
    requires d.width == -1 && d.precision == -1
    requires forall i :: 0 <= i < |flags| ==> flags[i] == '0' || flags[i] == '-'
    ensures Flags(flags + WidthText(width) + "ld", d, args)
            == (d.(padc := if flags == "" then d.padc else PadOf(flags),
                   width := if width == 0 then -1 else width, lflag := d.lflag + 1), "d")
  {
    if flags == "" {
      assert flags + WidthText(width) + "ld" == WidthText(width) + "ld";
      WidthRead(width, d, args);
    } else {
      var more := flags[1..];
      assert (flags + WidthText(width) + "ld")[1..] == more + WidthText(width) + "ld";
      FlagsRead(more, width, d.(padc := flags[0]), args);
    }
  }

  /** sprintf then atol gives the number back under exactly this condition. */
  lemma PrintThenParse(flags: string, width: nat, v: Long, args: nat -> Arg)
    requires forall i :: 0 <= i < |flags| ==> flags[i] == '0' || flags[i] == '-'
    requires args(0).num == v
    ensures var text := Formatted(LongFormat(flags, width), args, 0);
            Parsed(text) == Some(v) <==> ReadsBack(v, width, PadOf(flags))
  {
    var s, padc := LongFormat(flags, width), PadOf(flags);
    var w := if width == 0 then -1 else width;
    assert s[1..] == flags + WidthText(width) + "ld";
    FlagsRead(flags, width, Start(0), args);
    var d := Directive(padc, w, -1, 1, 0);
    DirectiveStep(s, args, 0, d, "d", Some(SignedText(v, w, padc)));
    EndOfFormat(args, 1);
    assert "d"[1..] == "" && SignedText(v, w, padc) + "" == SignedText(v, w, padc);
    assert ReadsBack(v, w, padc) == ReadsBack(v, width, padc);
    if v < 0 {
      NegativeReadsBack(v, w, padc);
    } else {
      PositiveReadsBack(v, w, padc);
    }
  }
}
