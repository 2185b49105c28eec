/** Which base a text announces and which number its digits are, for the texts that setHex
    accepts: Verilog literals such as 8'hff, C literals such as 0xff, and plain decimals. */
module VecBases {
  import opened Common
  import opened VecVals

  lemma {:induction false} FindsQuote(prefix: string, rest: string, at: nat)
    requires '\'' !in prefix && at <= |prefix|
    ensures Find(prefix + "'" + rest, "'", at) == |prefix|
    decreases |prefix| - at
  {
    var s := prefix + "'" + rest;
    assert s[at..at + 1] == [s[at]];
    if at < |prefix| {
      assert s[at] == prefix[at];
      FindsQuote(prefix, rest, at + 1);
    }
  }

  /** After a quote character the next letter names the base, b, o, d, h or x, and any other one
      means decimal; what stands before the quote, the size, is dropped. */
  lemma QuoteAnnounces(prefix: string, c: char, digits: string)
    requires '\'' !in prefix
    ensures BaseOf(prefix + "'" + [c] + digits)
         == (if c == 'b' then 2 else if c == 'o' then 8 else if c == 'h' || c == 'x' then 16 else 10, digits)
  {
    var s := prefix + "'" + [c] + digits;
    assert s == prefix + "'" + ([c] + digits);
    FindsQuote(prefix, [c] + digits, 0);
    assert s[|prefix| + 1] == c && s[|prefix| + 2..] == digits;
    hide Find;
  }

  /** There is no place in s, from at on, where the text 0x begins. */
  predicate NoHex(s: string, at: nat) {
    forall i | at <= i < |s| - 1 :: s[i] != '0' || s[i + 1] != 'x'
  }

  lemma {:induction false} FindsNoHex(s: string, at: nat)
    requires at <= |s| && NoHex(s, at)
    ensures Find(s, "0x", at) == -1
    decreases |s| - at
  {
    if at + 2 <= |s| {
      assert s[at..at + 2][0] == s[at] && s[at..at + 2][1] == s[at + 1];
      FindsNoHex(s, at + 1);
    }
  }

  lemma {:induction false} FindsHex(prefix: string, digits: string, at: nat)
    requires at <= |prefix| && NoHex(prefix + "0", at)
    ensures Find(prefix + "0x" + digits, "0x", at) == |prefix|
    decreases |prefix| - at
  {
    var s := prefix + "0x" + digits;
    assert s[at..at + 2][0] == s[at] && s[at..at + 2][1] == s[at + 1];
    if at < |prefix| {
      assert s[at] == (prefix + "0")[at] && s[at + 1] == (prefix + "0")[at + 1];
      FindsHex(prefix, digits, at + 1);
    } else {
      assert s[at..at + 2] == "0x";
    }
  }

  /** Without a quote character the first 0x announces base 16. */
  lemma HexAnnounces(prefix: string, digits: string)
    requires '\'' !in prefix && '\'' !in digits && NoHex(prefix + "0", 0)
    ensures BaseOf(prefix + "0x" + digits) == (16, digits)
  {
    var s := prefix + "0x" + digits;
    NoQuote(s, 0);
    FindsHex(prefix, digits, 0);
    assert s[|prefix| + 2..] == digits;
    hide Find;
  }

  /** Without either, the whole text is decimal. */
  lemma NothingAnnounces(s: string)
    requires '\'' !in s && NoHex(s, 0)
    ensures BaseOf(s) == (10, s)
  {
    NoQuote(s, 0);
    FindsNoHex(s, 0);
    hide Find;
  }

  // ---------------------------------------------------------------- numbers

  predicate AreDigits(s: string, base: nat) {
    forall i | 0 <= i < |s| :: '0' <= s[i] <= '9' && s[i] as int - '0' as int < base
  }

  /** The number a text of decimal digit characters is in a base, read from the left. */
  function Numeral(s: string, base: nat): nat
    requires AreDigits(s, base)
  {
    if s == "" then 0 else Numeral(s[..|s| - 1], base) * base + (s[|s| - 1] as int - '0' as int)
  }

  lemma DigitKept(c: char, base: nat)
    requires 2 <= base <= 10 && '0' <= c <= '9' && c as int - '0' as int < base
    ensures Ascii2Hex(c, 0) % MaskSize(base) == c as int - '0' as int
    ensures Ascii2Hex(c, 1) % MaskSize(base) == 0
  {
  }

  lemma NextDigit(s: string, i: nat, base: nat, n: nat)
    requires 2 <= base <= 10 && AreDigits(s, base) && i < |s| && i + 1 <= n
    requires DigitsValue(s, i - 1, base, 0, n - 1) == Numeral(s[..i], base)
    requires DigitsValue(s, i - 1, base, 1, n - 1) == 0
    ensures DigitsValue(s, i, base, 0, n) == Numeral(s[..i + 1], base)
    ensures DigitsValue(s, i, base, 1, n) == 0
  {
    hide Ascii2Hex, MaskSize;
    DigitKept(s[i], base);
    assert s[..i + 1][..i] == s[..i];
    var d, upper := s[i] as int - '0' as int, Numeral(s[..i], base);
    assert DigitsValue(s, i, base, 0, n) == d + base * upper;
    assert Numeral(s[..i + 1], base) == upper * base + d;
    assert DigitsValue(s, i, base, 1, n) == 0 + base * 0;
  }

  lemma {:induction false} DigitsAreNumeral(s: string, i: int, base: nat, n: nat)
    requires 2 <= base <= 10 && AreDigits(s, base) && -1 <= i < |s| && i + 1 <= n
    ensures DigitsValue(s, i, base, 0, n) == Numeral(s[..i + 1], base)
    ensures DigitsValue(s, i, base, 1, n) == 0
  {
    if i >= 0 {
      hide DigitsValue, Numeral;
      DigitsAreNumeral(s, i - 1, base, n - 1);
      NextDigit(s, i, base, n);
    } else {
      NoDigits(s, i, base, 0, n);
      NoDigits(s, i, base, 1, n);
      assert s[..i + 1] == "";
    }
  }

  /** As many digits as a word takes set the lowest word to the number they are, with no bit
      unknown. */
  lemma LowWord(digits: string, base: nat)
    requires 2 <= base <= 10 && AreDigits(digits, base) && 0 < |digits| <= DigitLimit(base)
    ensures WordAt(digits, base, 0) == VecWord(Numeral(digits, base) % 0x1_0000_0000, 0)
  {
    hide DigitsValue, DigitLimit, Numeral;
    DigitsAreNumeral(digits, |digits| - 1, base, DigitLimit(base));
    assert digits[..|digits|] == digits;
    assert 0 * DigitLimit(base) == 0;
  }

  // ---------------------------------------------------------------- characters

  /** The characters of hexadecimal digits, in both directions: small letters are read, capitals
      are printed; x and z are read as all ones in the half that marks them, and x in the other
      half, too; a digit of nothing but z prints as Z, of nothing but x as X, and every other
      digit with an unknown bit as x. */
  lemma HexCharacters(d: Nibble, e: Nibble)
    ensures Ascii2Hex("0123456789abcdef"[d], 0) == d && Ascii2Hex("0123456789abcdef"[d], 1) == 0
    ensures (Ascii2Hex('x', 0), Ascii2Hex('x', 1)) == (15, 15) && (Ascii2Hex('z', 0), Ascii2Hex('z', 1)) == (0, 15)
    ensures Hex2Ascii(d, 0) == "0123456789ABCDEF"[d]
    ensures e != 0 ==> Hex2Ascii(d, e) == if (d, e) == (0, 15) then 'Z' else if (d, e) == (15, 15) then 'X' else 'x'
  {
  }

  /** Each character is cleaned by itself. */
  lemma {:induction false} CleanedParts(s: string, t: string)
    ensures Cleaned(s + t) == Cleaned(s) + Cleaned(t)
  {
    if s == "" {
      assert s + t == t;
    } else {
      assert (s + t)[1..] == s[1..] + t;
      hide IsDropped, Lower;
      CleanedParts(s[1..], t);
    }
  }

  /** The codes of the space and of the white space from tab to carriage return, and the
      underscore, are dropped; capitals become small letters, and everything else stays. */
  lemma CleanedOne(c: char)
    ensures var code := c as int;
            Cleaned([c]) == if code == 32 || 9 <= code <= 13 || c == '_' then ""
                            else if 65 <= code <= 90 then [(code + 32) as char] else [c]
  {
    assert Cleaned([c][1..]) == "";
  }

  /** A vector has one word for every 32 bits begun, and prints one digit for every four. */
  lemma Sizes(width: nat)
    requires width > 0
    ensures 32 * (Words(width) - 1) < width <= 32 * Words(width)
    ensures 4 * (HexDigits(width) - 1) < width <= 4 * HexDigits(width)
  {
  }
}
