/** Powers of two and bit strings of natural numbers. */
module Bits {
  import opened Arithmetic
  import opened Common

  function Pow2(k: nat): (p: nat)
    ensures p > 0
  {
    if k == 0 then 1 else 2 * Pow2(k - 1)
  }

  ghost predicate IsPow2(n: nat) {
    exists k: nat :: n == Pow2(k)
  }

  /** Bitwise conjunction of natural numbers. */
  function And(a: nat, b: nat): nat {
    if a == 0 || b == 0 then 0
    else (if a % 2 == 1 && b % 2 == 1 then 1 else 0) + 2 * And(a / 2, b / 2)
  }

  lemma {:induction false} AndSelf(a: nat)
    ensures And(a, a) == a
  {
    if a != 0 {
      AndSelf(a / 2);
    }
  }

  lemma Double(n: nat)
    ensures IsPow2(n) ==> IsPow2(2 * n)
    ensures n > 0 && IsPow2(2 * n) ==> IsPow2(n)
  {
    if IsPow2(n) {
      var k: nat :| n == Pow2(k);
      assert 2 * n == Pow2(k + 1);
    }
    if n > 0 && IsPow2(2 * n) {
      var k: nat :| 2 * n == Pow2(k);
      if k > 0 { assert n == Pow2(k - 1); }
    }
  }

  lemma {:induction false} EvenPower(k: nat)
    ensures Pow2(k) == 1 || Pow2(k) % 2 == 0
  {
    if k > 0 {
      var p := Pow2(k - 1);
      assert Pow2(k) == 2 * p;
    }
  }

  lemma OddPower(n: nat)
    requires n % 2 == 1 && IsPow2(n)
    ensures n == 1
  {
    var k: nat :| n == Pow2(k);
    EvenPower(k);
  }

  /** The usual power-of-two test is right: n & (n - 1) vanishes exactly on powers of two. */
  lemma {:induction false} PowerTest(n: nat)
    requires n > 0
    ensures And(n, n - 1) == 0 <==> IsPow2(n)
  {
    if n == 1 {
      assert n == Pow2(0);
    } else {
      hide IsPow2;
      if n % 2 == 0 {
        PowerTest(n / 2);
        assert (n - 1) / 2 == n / 2 - 1;
        Double(n / 2);
        assert n == 2 * (n / 2);
      } else {
        assert (n - 1) / 2 == n / 2;
        AndSelf(n / 2);
        if IsPow2(n) { OddPower(n); }
      }
    }
  }

  lemma {:induction false} Pow2Add(a: nat, b: nat)
    ensures Pow2(a + b) == Pow2(a) * Pow2(b)
  {
    if a != 0 {
      Pow2Add(a - 1, b);
    }
  }

  lemma {:induction false} Pow2Mono(a: nat, b: nat)
    requires a <= b
    ensures Pow2(a) <= Pow2(b)
    decreases b
  {
    if a < b {
      Pow2Mono(a, b - 1);
    }
  }

  lemma Pow2SixtyFour()
    ensures Pow2(64) == TWO_64
  {
    hide Pow2;
    Pow2Eight();
    Pow2Add(8, 8);
    Pow2Add(16, 16);
    Pow2Add(32, 32);
  }

  lemma Pow2Eight()
    ensures Pow2(8) == 256
  {
    assert Pow2(4) == 16;
  }

  // ---------------------------------------------------------------- reversal

  /** The low m bits of x in reverse order. */
  function Rev(x: nat, m: nat): (r: nat)
    ensures r < Pow2(m)
  {
    if m == 0 then 0 else (if x % 2 == 1 then Pow2(m - 1) else 0) + Rev(x / 2, m - 1)
  }

  /** x shifted right by m. */
  function Shr(x: nat, m: nat): nat {
    if m == 0 then x else Shr(x / 2, m - 1)
  }

  lemma {:induction false} ShrMore(x: nat, m: nat)
    ensures Shr(x, m + 1) == Shr(x, m) / 2
  {
    if m != 0 { ShrMore(x / 2, m - 1); }
  }

  /** One more bit read from the top of x is one more bit at the bottom of the reversal. */
  lemma {:induction false} RevTop(x: nat, m: nat)
    ensures Rev(x, m + 1) == 2 * Rev(x, m) + Shr(x, m) % 2
  {
    if m != 0 { RevTop(x / 2, m - 1); }
  }

  /** Bit m on top of a number below 2^m: the low bits reverse as before, bit m is on. */
  lemma {:induction false} TopBit(low: nat, m: nat)
    requires low < Pow2(m)
    ensures Rev(Pow2(m) + low, m) == Rev(low, m)
    ensures Shr(Pow2(m) + low, m) == 1 && Shr(low, m) == 0
  {
    if m != 0 {
      var p := Pow2(m - 1);
      assert (2 * p + low) / 2 == p + low / 2 && (2 * p + low) % 2 == low % 2;
      TopBit(low / 2, m - 1);
    }
  }

  /** Reversing m bits twice gives them back, so bit reversal permutes 0 .. 2^m - 1. */
  lemma {:induction false} RevRev(x: nat, m: nat)
    requires x < Pow2(m)
    ensures Rev(Rev(x, m), m) == x
  {
    if m != 0 {
      var low, r := Rev(x / 2, m - 1), Rev(x, m);
      assert r == (if x % 2 == 1 then Pow2(m - 1) else 0) + low;
      assert x / 2 < Pow2(m - 1);
      RevRev(x / 2, m - 1);
      hide Pow2, Rev, Shr;
      TopBit(low, m - 1);
      RevTop(r, m - 1);
    }
  }
}
