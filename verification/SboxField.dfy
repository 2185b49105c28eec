/** The field of section 4 of FIPS 197, and the S-box as the affine image of inverses in it. */
module SboxField {
  import opened SboxTable

  /** Multiplication by x in the field of polynomials modulo x^8 + x^4 + x^3 + x + 1. */
  function TimesX(b: bv8): bv8 {
    if b < 0x80 then 2 * b else (2 * b) ^ 0x1B
  }

  /** Multiplication in the field: the sum of the shifted b over the bits of a. */
  function Times(a: bv8, b: bv8): bv8 {
    var b1 := TimesX(b);
    var b2 := TimesX(b1);
    var b3 := TimesX(b2);
    var b4 := TimesX(b3);
    var b5 := TimesX(b4);
    var b6 := TimesX(b5);
    var b7 := TimesX(b6);
    (if a & 0x01 != 0 then b else 0) ^ (if a & 0x02 != 0 then b1 else 0)
    ^ (if a & 0x04 != 0 then b2 else 0) ^ (if a & 0x08 != 0 then b3 else 0)
    ^ (if a & 0x10 != 0 then b4 else 0) ^ (if a & 0x20 != 0 then b5 else 0)
    ^ (if a & 0x40 != 0 then b6 else 0) ^ (if a & 0x80 != 0 then b7 else 0)
  }

  /** The affine map of section 5.1.1: each bit is added to the four bits before it, round the
      byte, and hexadecimal 63 is added. */
  function Affine(b: bv8): bv8 {
    b ^ ((b << 1) | (b >> 7)) ^ ((b << 2) | (b >> 6)) ^ ((b << 3) | (b >> 5)) ^ ((b << 4) | (b >> 4)) ^ 0x63
  }

  /** The inverse of the affine map, which recovers the field inverse from the table. */
  function Unaffine(s: bv8): bv8 {
    ((s << 1) | (s >> 7)) ^ ((s << 3) | (s >> 5)) ^ ((s << 6) | (s >> 2)) ^ 0x05
  }

  /** s is the affine image of the inverse of x, and of 0 for 0. */
  predicate IsInverseImage(x: bv8, s: bv8) {
    var b := Unaffine(s);
    s == Affine(b) && if x == 0 then b == 0 else Times(x, b) == 1
  }

  lemma FirstInverses(x: bv8)
    requires x & 0xC0 == 0x00
    ensures IsInverseImage(x, Sbox(x))
  {
  }

  lemma SecondInverses(x: bv8)
    requires x & 0xC0 == 0x40
    ensures IsInverseImage(x, Sbox(x))
  {
  }

  lemma ThirdInverses(x: bv8)
    requires x & 0xC0 == 0x80
    ensures IsInverseImage(x, Sbox(x))
  {
  }

  lemma FourthInverses(x: bv8)
    requires x & 0xC0 == 0xC0
    ensures IsInverseImage(x, Sbox(x))
  {
  }

  /** The table holds for every byte the affine image of its inverse in the field. */
  lemma SboxIsInverse(x: bv8)
    ensures IsInverseImage(x, Sbox(x))
  {
    hide *;
    if x & 0xC0 == 0x00 {
      FirstInverses(x);
    } else if x & 0xC0 == 0x40 {
      SecondInverses(x);
    } else if x & 0xC0 == 0x80 {
      ThirdInverses(x);
    } else {
      FourthInverses(x);
    }
  }
}
