/** Four-state Verilog vectors: printing one in hexadecimal and setting one
    from text.  Each bit has an aval and a bval half: 0 and 1 have bval 0,
    z is (0, 1) and x is (1, 1). */
module VecVals {

  import opened Arithmetic
  import opened Bits
  import opened Common

  type Word = x: int | 0 <= x < TWO_32

  datatype VecWord = VecWord(aval: Word, bval: Word)

  type Nibble = d: nat | d < 16

  // ------------------------------------------------------------ characters

  predicate IsDropped(c: char) {
    c == ' ' || 9 <= c as int <= 13 || c == '_'
  }

  function Lower(c: char): char {
    if 'A' <= c <= 'Z' then (c as int - ('A' as int - 'a' as int)) as char else c
  }

  /** White space and underscores go, capitals become small letters. */
  function Cleaned(s: string): string {
    if s == "" then ""
    else (if IsDropped(s[0]) then "" else [Lower(s[0])]) + Cleaned(s[1..])
  }

  /** One digit of either half; an illegal character only draws a warning. */
  function Ascii2Hex(c: char, mode: nat): Nibble {
    if mode == 0 then
      if '0' <= c <= '9' then c as int - '0' as int
      else if 'a' <= c <= 'f' then c as int - 'a' as int + 10
      else if c == 'x' then 15
      else 0
    else if mode == 1 && (c == 'x' || c == 'z') then 15
    else 0
  }

  function Hex2Ascii(aval: Nibble, bval: Nibble): char {
    if bval == 0 then
      if aval < 10 then (aval + '0' as int) as char else (aval - 10 + 'A' as int) as char
    else if bval == 15 && aval == 0 then 'Z'
    else if bval == 15 && aval == 15 then 'X'
    else 'x'
  }

  // --------------------------------------------------------------- numbers

  function DigitLimit(base: nat): nat {
    match base
    case 16 => 8
    case 10 => 9
    case 2 => 32
    case 3 => 20
    case 4 => 16
    case 5 => 13
    case 6 => 12
    case 7 => 11
    case 8 => 10
    case 9 => 10
    case _ => 8
  }

  /** One more than the mask put on each digit. */
  function MaskSize(base: nat): (m: nat)
    ensures m > 0
  {
    if base == 2 then 2 else if 3 <= base <= 4 then 4 else if 5 <= base <= 8 then 8 else 16
  }

  /** The number whose digits end at index i of s, at most n of them. */
  function DigitsValue(s: string, i: int, base: nat, mode: nat, n: nat): nat
    requires i < |s|
  {
    if n == 0 || i < 0 then 0
    else Ascii2Hex(s[i], mode) % MaskSize(base) + base * DigitsValue(s, i - 1, base, mode, n - 1)
  }

  /** Where reading at most n digits from index i stops. */
  function Left(i: int, n: nat): int {
    if i - n < -1 then -1 else i - n
  }

  lemma TakeDigit(s: string, i: nat, base: nat, mode: nat, n: nat, exact: nat, mult: nat, result: nat)
    requires i < |s| && n > 0 && result == exact % TWO_32
    ensures var d := Ascii2Hex(s[i], mode) % MaskSize(base);
            (result + d * mult) % TWO_32 == (exact + d * mult) % TWO_32
            && exact + mult * DigitsValue(s, i, base, mode, n)
               == exact + d * mult + mult * base * DigitsValue(s, i - 1, base, mode, n - 1)
  {
    var d, more := Ascii2Hex(s[i], mode) % MaskSize(base), DigitsValue(s, i - 1, base, mode, n - 1);
    assert DigitsValue(s, i, base, mode, n) == d + base * more;
    hide *;
    SameRemainder(exact + d * mult, result + d * mult, exact / TWO_32);
    Spread(mult, d, base, more);
  }

  lemma Spread(mult: nat, d: nat, base: nat, more: nat)
    ensures mult * (d + base * more) == d * mult + mult * base * more
  {
  }

  lemma SameRemainder(z: nat, y: nat, q: nat)
    requires z == TWO_32 * q + y
    ensures z % TWO_32 == y % TWO_32
  {
  }

  lemma NoDigits(s: string, i: int, base: nat, mode: nat, n: nat)
    requires i < |s| && (n == 0 || i < 0)
    ensures DigitsValue(s, i, base, mode, n) == 0
  {
  }

  /** Unsigned 32-bit arithmetic wraps; so does the running power of the base. */
  method Ascii2Int(s: string, from: int, base: nat, mode: nat) returns (result: Word, index: int)
    requires -1 <= from < |s| && 2 <= base <= 16
    ensures result == DigitsValue(s, from, base, mode, DigitLimit(base)) % TWO_32
    ensures index == Left(from, DigitLimit(base))
  {
    hide DigitsValue;
    hide MaskSize;
    hide Ascii2Hex;
    hide DigitLimit;
    result, index := 0, from;
    var digits := DigitLimit(base);
    var mult := 1;
    ghost var exact, goal := 0, DigitsValue(s, from, base, mode, digits);
    while digits > 0 && index >= 0
      invariant -1 <= index <= from && index == from - (DigitLimit(base) - digits)
      invariant 0 <= digits && exact >= 0 && mult >= 0
      invariant goal == exact + mult * DigitsValue(s, index, base, mode, digits)
      invariant result == exact % TWO_32
      decreases digits
    {
      TakeDigit(s, index, base, mode, digits, exact, mult, result);
      var d := Ascii2Hex(s[index], mode) % MaskSize(base);
      result := (result + d * mult) % TWO_32;
      exact := exact + d * mult;
      digits := digits - 1;
      index := index - 1;
      mult := mult * base;
    }
    NoDigits(s, index, base, mode, digits);
  }

  // ------------------------------------------------------------------ base

  function Find(s: string, pattern: string, at: nat): int
    requires at <= |s|
    decreases |s| - at
  {
    if at + |pattern| > |s| then -1
    else if s[at..at + |pattern|] == pattern then at
    else if at == |s| then -1
    else Find(s, pattern, at + 1)
  }

  function Dropped(s: string, n: nat): string {
    if n <= |s| then s[n..] else ""
  }

  /** The base a text announces, and the text after the announcement. */
  function BaseOf(s: string): (r: (nat, string))
    ensures 2 <= r.0 <= 16
  {
    var quote := Find(s, "'", 0);
    if quote >= 0 then
      var base :=
        if quote + 1 >= |s| then 10
        else match s[quote + 1]
             case 'b' => 2
             case 'd' => 10
             case 'h' => 16
             case 'o' => 8
             case 'x' => 16
             case _ => 10;
      (base, Dropped(s, quote + 2))
    else
      var prefix := Find(s, "0x", 0);
      if prefix >= 0 then (16, Dropped(s, prefix + 2)) else (10, s)
  }

  function WordAt(digits: string, base: nat, w: nat): VecWord {
    var i := |digits| - 1 - w * DigitLimit(base);
    VecWord(DigitsValue(digits, i, base, 0, DigitLimit(base)) % TWO_32,
            DigitsValue(digits, i, base, 1, DigitLimit(base)) % TWO_32)
  }

  // ----------------------------------------------------------------- words

  /** Hexadecimal digit k of a word, lowest first. */
  function NibbleOf(x: nat, k: nat): Nibble {
    if k == 0 then x % 16 else NibbleOf(x / 16, k - 1)
  }

  lemma DivideTwice(x: nat, p: nat)
    requires p > 0
    ensures x / 16 / p == x / (16 * p)
  {
    var q, r := x / 16 / p, x / 16 % p;
    assert x / 16 == p * q + r;
    assert x == 16 * p * q + (16 * r + x % 16);
    ModUnique(x, 16 * p, q, 16 * r + x % 16);
  }

  lemma {:induction false} NibbleShift(x: nat, k: nat)
    ensures x / Pow2(4 * k) % 16 == NibbleOf(x, k)
  {
    if k != 0 {
      Pow2Add(4, 4 * (k - 1));
      assert Pow2(4) == 16;
      hide Pow2;
      NibbleShift(x / 16, k - 1);
      DivideTwice(x, Pow2(4 * (k - 1)));
    } else {
      assert Pow2(0) == 1;
    }
  }

  /** Position p of a vector, over all its words. */
  function HexDigit(data: seq<VecWord>, p: nat): (Nibble, Nibble)
    requires p < 8 * |data|
  {
    (NibbleOf(data[p / 8].aval, p % 8), NibbleOf(data[p / 8].bval, p % 8))
  }

  function Words(width: nat): nat
    requires width > 0
  {
    (width - 1) / 32 + 1
  }

  /** How many hexadecimal digits a width needs. */
  function HexDigits(width: nat): nat {
    (width + 3) / 4
  }

  function CharAt(data: seq<VecWord>, p: nat): char
    requires p < 8 * |data|
  {
    Hex2Ascii(HexDigit(data, p).0, HexDigit(data, p).1)
  }

  /** The lowest n digits as text, highest first. */
  function Printed(data: seq<VecWord>, n: nat): (text: string)
    requires n <= 8 * |data|
    ensures |text| == n
  {
    if n == 0 then "" else [CharAt(data, n - 1)] + Printed(data, n - 1)
  }

  lemma NoneShown(data: seq<VecWord>)
    ensures Printed(data, 0) == ""
  {
  }

  lemma LastDigits(width: nat, k: nat)
    requires width > 0 && 4 * k - 4 < (width - 1) % 32 + 1 <= 4 * k
    ensures 8 * (Words(width) - 1) + k == HexDigits(width)
  {
  }

  class VecVal {
    const width: nat
    const words: nat
    const data: array<VecWord>

    ghost predicate Valid() {
      width > 0 && words == data.Length == Words(width)
    }

    constructor (w: nat)
      requires w > 0
      ensures Valid() && width == w && fresh(data)
    {
      width := w;
      words := (w - 1) / 32 + 1;
      data := new VecWord[(w - 1) / 32 + 1](_ => VecWord(0, 0));
    }

    method Set0()
      requires Valid()
      modifies data
      ensures forall i :: 0 <= i < words ==> data[i] == VecWord(0, 0)
    {
      for i := 0 to words
        invariant forall j :: 0 <= j < i ==> data[j] == VecWord(0, 0)
      {
        data[i] := VecWord(0, 0);
      }
    }

    method GetAsciiHex() returns (s: string)
      requires Valid()
      ensures s == Printed(data[..], HexDigits(width))
    {
      ghost var d := data[..];
      NoneShown(d);
      hide Printed;
      hide HexDigits;
      s := "";
      for i := 0 to words - 1
        invariant s == Printed(d, 8 * i)
      {
        s := PrintWord(s, i, 32, 8);
      }
      var widthMod32 := (width - 1) % 32 + 1;
      ghost var k := (widthMod32 + 3) / 4;
      s := PrintWord(s, words - 1, widthMod32, k);
      LastDigits(width, k);
    }

    /** The digits of the lowest bits of word i, k of them. */
    method PrintWord(s: string, i: nat, bits: nat, ghost k: nat) returns (r: string)
      requires Valid() && i < words && 4 * k - 4 < bits <= 4 * k <= 32
      requires s == Printed(data[..], 8 * i)
      ensures r == Printed(data[..], 8 * i + k)
    {
      hide Printed;
      r := s;
      var shift := 0;
      ghost var j := 0;
      while shift < bits
        invariant 0 <= j <= k && shift == 4 * j
        invariant r == Printed(data[..], 8 * i + j)
      {
        r := PrintNibble(r, i, shift, j);
        shift := shift + 4;
        j := j + 1;
      }
    }

    /** Puts the digit at a shift of word i before the text so far. */
    method PrintNibble(s: string, i: nat, shift: nat, ghost k: nat) returns (r: string)
      requires Valid() && i < words && shift == 4 * k < 32
      requires s == Printed(data[..], 8 * i + k)
      ensures r == Printed(data[..], 8 * i + k + 1)
    {
      NibbleShift(data[i].aval, k);
      NibbleShift(data[i].bval, k);
      hide Pow2;
      hide NibbleOf;
      assert (8 * i + k) / 8 == i && (8 * i + k) % 8 == k;
      r := [Hex2Ascii(data[i].aval / Pow2(shift) % 16, data[i].bval / Pow2(shift) % 16)] + s;
    }

    /** Sets the vector from text. The answer says whether the text fits; if not, the source
        stores one word past the end, where the model stops. */
    method SetHex(text: string) returns (fits: bool)
      requires Valid()
      modifies data
      ensures var (base, digits) := BaseOf(Cleaned(text));
              fits == (|digits| <= words * DigitLimit(base))
              && forall w :: 0 <= w < words ==> data[w] == WordAt(digits, base, w)
    {
      Set0();
      var s := text;
      var location := |s| - 1;
      while location >= 0
        invariant forall w :: 0 <= w < words ==> data[w] == VecWord(0, 0)
        invariant -1 <= location < |text|
        invariant s == text[..location + 1] + Cleaned(text[location + 1..])
      {
        CleanStep(text, location);
        if IsDropped(s[location]) {
          s := s[..location] + s[location + 1..];
        } else if 'A' <= s[location] <= 'Z' {
          s := s[location := Lower(s[location])];
        }
        location := location - 1;
      }
      assert s == Cleaned(text);
      var (base, digits) := BaseOf(s);
      fits := SetWords(base, digits);
    }

    /** One word for every full group of digits, from the right. */
    method SetWords(base: nat, digits: string) returns (fits: bool)
      requires Valid() && 2 <= base <= 16
      requires forall w :: 0 <= w < words ==> data[w] == VecWord(0, 0)
      modifies data
      ensures fits == (|digits| <= words * DigitLimit(base))
      ensures forall w :: 0 <= w < words ==> data[w] == WordAt(digits, base, w)
    {
      hide DigitsValue, WordAt, DigitLimit;
      ghost var limit := DigitLimit(base);
      var location := |digits| - 1;
      var word := 0;
      while location >= 0
        invariant 0 <= word <= words && -1 <= location < |digits|
        invariant location == Left(|digits| - 1, word * limit)
        invariant forall w :: 0 <= w < word && w < words ==> data[w] == WordAt(digits, base, w)
        invariant forall w :: word <= w < words ==> data[w] == VecWord(0, 0)
        decreases location + 1
      {
        WordStep(digits, base, word);
        if word >= words { return false; }
        var aval, bval, rest;
        aval, rest := Ascii2Int(digits, location, base, 0);
        bval, rest := Ascii2Int(digits, location, base, 1);
        data[word] := VecWord(aval, bval);
        location := rest;
        word := word + 1;
      }
      Fit(digits, base, word, words);
      forall w | word <= w < words ensures WordAt(digits, base, w) == VecWord(0, 0) {
        WordPastEnd(digits, base, word, w);
      }
      fits := true;
    }
  }

  lemma CleanStep(text: string, at: nat)
    requires at < |text|
    ensures Cleaned(text[at..]) == (if IsDropped(text[at]) then "" else [Lower(text[at])]) + Cleaned(text[at + 1..])
  {
    assert text[at..][1..] == text[at + 1..];
  }

  lemma Fit(digits: string, base: nat, done: nat, words: nat)
    requires 2 <= base <= 16 && done <= words && |digits| <= done * DigitLimit(base)
    ensures |digits| <= words * DigitLimit(base)
  {
    assert DigitLimit(base) > 0;
    hide DigitLimit;
    MulMono(done, words, DigitLimit(base));
  }

  lemma WordStep(digits: string, base: nat, w: nat)
    requires 2 <= base <= 16 && |digits| - 1 - w * DigitLimit(base) >= 0
    ensures DigitLimit(base) > 0
    ensures (w + 1) * DigitLimit(base) == w * DigitLimit(base) + DigitLimit(base)
    ensures var i, limit := |digits| - 1 - w * DigitLimit(base), DigitLimit(base);
            WordAt(digits, base, w) == VecWord(DigitsValue(digits, i, base, 0, limit) % TWO_32,
                                               DigitsValue(digits, i, base, 1, limit) % TWO_32)
  {
    var limit := DigitLimit(base);
    assert limit > 0;
    hide DigitLimit;
    hide DigitsValue;
    assert (w + 1) * limit == w * limit + limit;
  }

  lemma WordPastEnd(digits: string, base: nat, done: nat, w: nat)
    requires 2 <= base <= 16 && done <= w && |digits| <= done * DigitLimit(base)
    ensures WordAt(digits, base, w) == VecWord(0, 0)
  {
    assert DigitLimit(base) > 0;
    MulMono(done, w, DigitLimit(base));
  }

  // ------------------------------------------------------------ round trip

  /** What one hexadecimal digit becomes when it is printed and read: two-state,
      all-X and all-Z digits stay, every other mixture turns into X. */
  function Settled(d: (Nibble, Nibble)): (Nibble, Nibble) {
    if d.1 == 0 || d == (0, 15) then d else (15, 15)
  }

  lemma ReadChar(d: (Nibble, Nibble))
    ensures var c := Lower(Hex2Ascii(d.0, d.1));
            (Ascii2Hex(c, 0), Ascii2Hex(c, 1)) == Settled(d) && c != '\''
    ensures !IsDropped(Hex2Ascii(d.0, d.1))
  {
  }

  lemma {:induction false} PrintedAt(data: seq<VecWord>, n: nat, p: nat)
    requires p < n <= 8 * |data|
    ensures Printed(data, n)[n - 1 - p] == CharAt(data, p)
  {
    if p < n - 1 { PrintedAt(data, n - 1, p); }
  }

  lemma {:induction false} CleanedAt(s: string, i: nat)
    requires forall j :: 0 <= j < |s| ==> !IsDropped(s[j])
    requires i < |s|
    ensures |Cleaned(s)| == |s| && Cleaned(s)[i] == Lower(s[i])
  {
    if |s| > 1 { CleanedAt(s[1..], if i == 0 then 0 else i - 1); }
  }

  lemma {:induction false} NoQuote(s: string, at: nat)
    requires at <= |s| && '\'' !in s
    ensures Find(s, "'", at) == -1
    decreases |s| - at
  {
    if at < |s| {
      assert s[at..at + 1] == [s[at]];
      NoQuote(s, at + 1);
    }
  }

  /** The digits of the printed vector, as setHex is left with them. */
  lemma Announced(data: seq<VecWord>, n: nat) returns (digits: string)
    requires n <= 8 * |data|
    ensures BaseOf(Cleaned("0x" + Printed(data, n))) == (16, digits) && |digits| == n
    ensures forall p :: 0 <= p < n ==> digits[n - 1 - p] == Lower(CharAt(data, p))
  {
    var text := "0x" + Printed(data, n);
    forall j | 0 <= j < |text| ensures !IsDropped(text[j]) && Lower(text[j]) != '\'' {
      if j >= 2 {
        PrintedAt(data, n, n - 1 - (j - 2));
        ReadChar(HexDigit(data, n - 1 - (j - 2)));
      }
    }
    var s := Cleaned(text);
    forall j | 0 <= j < |text| ensures |s| == |text| && s[j] == Lower(text[j]) {
      CleanedAt(text, j);
    }
    assert s[0] == '0';
    NoQuote(s, 0);
    assert s[0..2] == "0x";
    digits := s[2..];
    forall p | 0 <= p < n ensures digits[n - 1 - p] == Lower(CharAt(data, p)) {
      PrintedAt(data, n, p);
      assert digits[n - 1 - p] == s[2 + (n - 1 - p)];
    }
  }

  /** Digit k of a word read from text. */
  lemma {:induction false} ReadNibble(s: string, i: int, mode: nat, n: nat, k: nat)
    requires i < |s| && k < n
    ensures NibbleOf(DigitsValue(s, i, 16, mode, n), k) == if k <= i then Ascii2Hex(s[i - k], mode) else 0
  {
    if i < 0 {
      ZeroNibble(k);
    } else if k != 0 {
      ReadNibble(s, i - 1, mode, n - 1, k - 1);
    }
  }

  lemma {:induction false} ZeroNibble(k: nat)
    ensures NibbleOf(0, k) == 0
  {
    if k != 0 { ZeroNibble(k - 1); }
  }

  lemma NibblePower(n: nat)
    requires n > 0
    ensures Pow2(4 * n) == 16 * Pow2(4 * (n - 1))
  {
    hide Pow2;
    Pow2Four();
    Pow2Add(4, 4 * (n - 1));
  }

  lemma Pow2Four()
    ensures Pow2(4) == 16
  {
  }

  lemma {:induction false} DigitsFit(s: string, i: int, mode: nat, n: nat)
    requires i < |s|
    ensures DigitsValue(s, i, 16, mode, n) < Pow2(4 * n)
  {
    if n == 0 || i < 0 {
    } else {
      DigitsFit(s, i - 1, mode, n - 1);
      NibblePower(n);
      hide Pow2;
    }
  }

  lemma EightDigits(s: string, i: int, mode: nat)
    requires i < |s|
    ensures DigitsValue(s, i, 16, mode, 8) % TWO_32 == DigitsValue(s, i, 16, mode, 8)
  {
    DigitsFit(s, i, mode, 8);
    assert Pow2(8) == 256;
    Pow2Add(8, 8);
    Pow2Add(16, 16);
  }

  lemma {:induction false} NibblesDetermine(x: nat, y: nat, n: nat)
    requires x < Pow2(4 * n) && y < Pow2(4 * n)
    requires forall k :: 0 <= k < n ==> NibbleOf(x, k) == NibbleOf(y, k)
    ensures x == y
  {
    if n != 0 {
      NibblePower(n);
      assert NibbleOf(x, 0) == NibbleOf(y, 0);
      forall k | 0 <= k < n - 1 ensures NibbleOf(x / 16, k) == NibbleOf(y / 16, k) {
        assert NibbleOf(x, k + 1) == NibbleOf(y, k + 1);
      }
      hide Pow2;
      NibblesDetermine(x / 16, y / 16, n - 1);
    }
  }

  function Restored(data: seq<VecWord>, width: nat): seq<VecWord>
    requires width > 0 && |data| == Words(width)
  {
    var r := BaseOf(Cleaned("0x" + Printed(data, HexDigits(width))));
    seq(|data|, w requires 0 <= w < |data| => WordAt(r.1, r.0, w))
  }

  lemma ReadBack(data: seq<VecWord>, width: nat, p: nat)
    requires width > 0 && |data| == Words(width) && p < 8 * |data|
    ensures var got := HexDigit(Restored(data, width), p);
            got == if p < HexDigits(width)
                   then (Ascii2Hex(Lower(CharAt(data, p)), 0), Ascii2Hex(Lower(CharAt(data, p)), 1))
                   else (0, 0)
  {
    var n := HexDigits(width);
    var digits := Announced(data, n);
    var w, k := p / 8, p % 8;
    var i := n - 1 - 8 * w;
    hide Cleaned;
    hide BaseOf;
    assert Restored(data, width)[w] == WordAt(digits, 16, w);
    EightDigits(digits, i, 0);
    EightDigits(digits, i, 1);
    ReadNibble(digits, i, 0, 8, k);
    ReadNibble(digits, i, 1, 8, k);
    hide DigitsValue;
    hide CharAt;
    hide Ascii2Hex;
    hide HexDigits;
    assert i - k == n - 1 - p;
    if p < n {
      assert digits[i - k] == digits[n - 1 - p] == Lower(CharAt(data, p));
    }
  }

  /** Print then set: every digit the width covers settles, every other one is
      cleared. */
  lemma PrintThenSet(data: seq<VecWord>, width: nat, p: nat)
    requires width > 0 && |data| == Words(width) && p < 8 * |data|
    ensures HexDigit(Restored(data, width), p) == if p < HexDigits(width) then Settled(HexDigit(data, p)) else (0, 0)
  {
    ReadBack(data, width, p);
    ReadChar(HexDigit(data, p));
  }

  /** Every digit of the width is two-state, all-Z or all-X, and the others are zero. */
  predicate Plain(data: seq<VecWord>, width: nat) {
    forall p :: 0 <= p < 8 * |data| ==>
      var d := HexDigit(data, p);
      if p < HexDigits(width) then d.1 == 0 || d == (0, 15) || d == (15, 15) else d == (0, 0)
  }

  /** The printed text is one that setHex accepts for a vector of that width. */
  lemma TextFits(data: seq<VecWord>, width: nat)
    requires width > 0 && |data| == Words(width)
    ensures var (base, digits) := BaseOf(Cleaned("0x" + Printed(data, HexDigits(width))));
            base == 16 && |digits| == HexDigits(width) <= Words(width) * DigitLimit(base)
  {
    var digits := Announced(data, HexDigits(width));
  }

  lemma RoundTrip(data: seq<VecWord>, width: nat)
    requires width > 0 && |data| == Words(width)
    ensures Restored(data, width) == data <==> Plain(data, width)
  {
    var back := Restored(data, width);
    hide Restored;
    forall p | 0 <= p < 8 * |data|
      ensures HexDigit(back, p) == if p < HexDigits(width) then Settled(HexDigit(data, p)) else (0, 0)
    {
      PrintThenSet(data, width, p);
    }
    hide NibbleOf;
    if Plain(data, width) {
      forall w | 0 <= w < |data| ensures back[w] == data[w] {
        SameWord(back, data, w);
      }
    }
  }

  lemma SameWord(a: seq<VecWord>, b: seq<VecWord>, w: nat)
    requires w < |a| && |a| == |b|
    requires forall p :: 0 <= p < 8 * |a| ==> HexDigit(a, p) == HexDigit(b, p)
    ensures a[w] == b[w]
  {
    hide NibbleOf;
    forall k | 0 <= k < 8
      ensures NibbleOf(a[w].aval, k) == NibbleOf(b[w].aval, k) && NibbleOf(a[w].bval, k) == NibbleOf(b[w].bval, k)
    {
      var p := 8 * w + k;
      assert p / 8 == w && p % 8 == k;
      assert HexDigit(a, p) == HexDigit(b, p);
    }
    assert Pow2(8) == 256;
    Pow2Add(8, 8);
    Pow2Add(16, 16);
    hide Pow2;
    assert Pow2(4 * 8) == TWO_32;
    NibblesDetermine(a[w].aval, b[w].aval, 8);
    NibblesDetermine(a[w].bval, b[w].bval, 8);
  }

  /** Sets a vector from the printed text of another of its width; the text always fits. */
  method Reload(from: VecVal, to: VecVal)
    requires from.Valid() && to.Valid() && from.width == to.width && from.data != to.data
    modifies to.data
    ensures to.data[..] == Restored(from.data[..], from.width)
    ensures to.data[..] == from.data[..] <==> Plain(from.data[..], from.width)
  {
    hide Restored, Plain, BaseOf, Cleaned, Printed, WordAt;
    ghost var was := from.data[..];
    var s := from.GetAsciiHex();
    TextFits(was, from.width);
    RoundTrip(was, from.width);
    var fits := to.SetHex("0x" + s);
    assert fits;
    RestoredWords(was, from.width);
    assert to.data[..] == Restored(was, from.width);
  }

  lemma RestoredWords(data: seq<VecWord>, width: nat)
    requires width > 0 && |data| == Words(width)
    ensures |Restored(data, width)| == |data|
    ensures var (base, digits) := BaseOf(Cleaned("0x" + Printed(data, HexDigits(width))));
            forall w :: 0 <= w < |data| ==> Restored(data, width)[w] == WordAt(digits, base, w)
  {
    hide WordAt, BaseOf;
  }
}
