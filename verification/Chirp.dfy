/** Bluestein's chirp identity: a transform of any length as a convolution with a chirp whose
    exponents are squares, including what the 64-bit square of the code does to it. */
module Chirp {
  import opened Arithmetic
  import opened Bits
  import opened Common
  import opened Complexes
  import opened Fourier
  import opened FourierTheory
  import opened Trigonometry

  /** i * i in unsigned 64-bit arithmetic, reduced modulo 2 n. */
  function Square(n: nat, i: nat): (e: nat)
    requires n > 0
  {
    i * i % TWO_64 % (2 * n)
  }

  function ChirpAngle(t: Trig, n: nat, e: nat): real
    requires n > 0
  {
    t.pi * e as real / n as real
  }

  /** Entry i of the chirp table. */
  function ChirpAt(t: Trig, n: nat, i: nat): Complex
    requires n > 0
  {
    t.Cis(ChirpAngle(t, n, Square(n, i)))
  }

  function Distance(k: int, j: int): nat {
    if k < j then j - k else k - j
  }

  /** The chirp-modulated input. */
  function Modulated(t: Trig, x: seq<Complex>, j: int): Complex {
    if 0 <= j < |x| then Mul(x[j], Conj(ChirpAt(t, |x|, j))) else ZERO
  }

  function ChirpTerm(t: Trig, x: seq<Complex>, k: int): int -> Complex
    requires |x| > 0
  {
    j => Mul(Modulated(t, x, j), ChirpAt(t, |x|, Distance(k, j)))
  }

  /** What the chirp, convolve, chirp sequence computes at output k. */
  function BluesteinAt(t: Trig, x: seq<Complex>, k: nat): Complex
    requires |x| > 0
  {
    Mul(Conj(ChirpAt(t, |x|, k)), Sum(ChirpTerm(t, x, k), |x|))
  }

  ghost function BluesteinAll(t: Trig, x: seq<Complex>): (y: seq<Complex>)
    ensures |y| == |x|
  {
    if x == [] then [] else seq(|x|, k requires 0 <= k < |x| => BluesteinAt(t, x, k))
  }

  lemma ChirpRoot(t: Trig, n: nat, i: nat)
    requires t.Laws() && n > 0
    ensures Conj(ChirpAt(t, n, i)) == t.Root(2 * n, i * i % TWO_64)
  {
    hide t.Root, t.Laws, t.Cis, Conj, ChirpAngle;
    CisRoot(t, n, Square(n, i));
    RootMod(t, 2 * n, i * i % TWO_64);
  }

  lemma CisRoot(t: Trig, n: nat, e: nat)
    requires n > 0
    ensures Conj(t.Cis(ChirpAngle(t, n, e))) == t.Root(2 * n, e)
  {
    HalfAngle(t, n, e);
  }

  lemma HalfAngle(t: Trig, n: nat, e: nat)
    requires n > 0
    ensures t.Angle(2 * n, e) == ChirpAngle(t, n, e)
  {
    var er, nr := e as real, n as real;
    assert (2 * n) as real == 2.0 * nr;
    assert 2.0 * t.pi * er == 2.0 * (t.pi * er);
    DivCancel(2.0, t.pi * er, nr);
  }

  lemma NoWrap(i: nat)
    requires i < TWO_32
    ensures i * i % TWO_64 == i * i
  {
    if i > 0 {
      MulMono(i, TWO_32 - 1, i);
    }
    assert i * (TWO_32 - 1) <= (TWO_32 - 1) * (TWO_32 - 1) < TWO_64;
    ModUnique(i * i, TWO_64, 0, i * i);
  }

  /** k^2 + j^2 - (k - j)^2 = 2 j k, on the circle. */
  lemma SquaresMeet(t: Trig, n: nat, k: int, j: int)
    requires t.Laws() && n > 0
    ensures var a, b, c := t.Root(2 * n, k * k), t.Root(2 * n, j * j), t.Root(2 * n, (k - j) * (k - j));
            Mul(Mul(a, b), Conj(c)) == t.Root(n, j * k)
  {
    hide Mul, t.Root, t.Laws;
    var d := (k - j) * (k - j);
    RootAdd(t, 2 * n, k * k, j * j);
    RootNeg(t, 2 * n, d);
    RootAdd(t, 2 * n, k * k + j * j, -d);
    assert k * k + j * j + -d == 2 * (j * k);
    RootScale(t, 2, n, j * k);
  }

  lemma ConjConj(a: Complex)
    ensures Conj(Conj(a)) == a
  {
  }

  lemma ChirpSummand(t: Trig, x: seq<Complex>, k: nat, j: nat)
    requires t.Laws() && k < |x| <= TWO_32 && j < |x|
    ensures Mul(Conj(ChirpAt(t, |x|, k)), ChirpTerm(t, x, k)(j)) == Term(t, x, 0, 1, |x|, k)(j)
  {
    hide Mul, t.Root, t.Laws, ChirpAt, Conj;
    var n, d := |x|, Distance(k, j);
    var a, b, c := t.Root(2 * n, k * k), t.Root(2 * n, j * j), ChirpAt(t, n, d);
    NoWrap(k);
    NoWrap(j);
    NoWrap(d);
    ChirpRoot(t, n, k);
    ChirpRoot(t, n, j);
    ChirpRoot(t, n, d);
    ConjConj(c);
    assert d * d == (k - j) * (k - j);
    SquaresMeet(t, n, k, j);
    Regroup(a, x[j], b, c);
    assert At(x, 0 + 1 * j) == x[j];
  }

  lemma Regroup(a: Complex, x: Complex, b: Complex, c: Complex)
    ensures Mul(a, Mul(Mul(x, b), c)) == Mul(x, Mul(Mul(a, b), c))
  {
    hide *;
    MulAssoc(a, Mul(x, b), c);
    MulAssoc(a, x, b);
    MulComm(a, x);
    MulAssoc(x, a, b);
    MulAssoc(x, Mul(a, b), c);
  }

  /** Up to 2^32 elements no square wraps, and Bluestein's sum is the transform. */
  lemma BluesteinIsDft(t: Trig, x: seq<Complex>, k: nat)
    requires t.Laws() && k < |x| <= TWO_32
    ensures BluesteinAt(t, x, k) == Dft(t, x, k)
  {
    hide Mul, Sum, ChirpTerm, Term, ChirpAt, t.Laws;
    var n, w := |x|, Conj(ChirpAt(t, |x|, k));
    var f, h := ChirpTerm(t, x, k), Term(t, x, 0, 1, n, k);
    forall j | 0 <= j < n
      ensures h(j) == Mul(w, f(j))
    {
      ChirpSummand(t, x, k, j);
    }
    SumMul(w, f, h, n);
  }

  // ---------------------------------------------------------------- beyond 2^32

  /** The unit impulse at a position. */
  function Impulse(n: nat, at: nat): (x: seq<Complex>)
    ensures |x| == n
  {
    seq(n, j => if j == at then ONE else ZERO)
  }

  /** The chirp sum of an impulse has one summand. */
  lemma ImpulseThrough(t: Trig, n: nat, at: nat, k: nat)
    requires at < n && k < n
    ensures BluesteinAt(t, Impulse(n, at), k)
         == Mul(Conj(ChirpAt(t, n, k)), Mul(Conj(ChirpAt(t, n, at)), ChirpAt(t, n, Distance(k, at))))
  {
    hide Mul, Sum, ChirpAt, Conj;
    var x := Impulse(n, at);
    var f := ChirpTerm(t, x, k);
    forall j | 0 <= j < n && j != at
      ensures f(j) == ZERO
    {
      MulOne(Conj(ChirpAt(t, n, j)));
      MulOne(ChirpAt(t, n, Distance(k, j)));
    }
    MulOne(Conj(ChirpAt(t, n, at)));
    SumSingle(f, n, at);
  }

  /** The transform of an impulse is a root of unity. */
  lemma ImpulseDft(t: Trig, n: nat, at: nat, k: nat)
    requires at < n && k < n
    ensures Dft(t, Impulse(n, at), k) == t.Root(n, at * k)
  {
    hide Mul, Sum, t.Root;
    var x := Impulse(n, at);
    var g := Term(t, x, 0, 1, n, k);
    forall j | 0 <= j < n && j != at
      ensures g(j) == ZERO
    {
      assert At(x, 0 + 1 * j) == ZERO;
      MulOne(t.Root(n, j * k));
    }
    assert At(x, 0 + 1 * at) == ONE;
    MulOne(t.Root(n, at * k));
    SumSingle(g, n, at);
  }

  /** The square of 2^32 wraps to zero. */
  lemma ChirpIsOne(t: Trig, n: nat, i: nat)
    requires t.Laws() && n > 0 && (i == 0 || i == TWO_32)
    ensures ChirpAt(t, n, i) == ONE
  {
    hide t.Root, t.Laws, ChirpAt;
    ChirpRoot(t, n, i);
    RootZero(t, 2 * n);
    assert i * i % TWO_64 == 0;
    ConjConj(ChirpAt(t, n, i));
  }

  /** Beyond 2^32 elements the impulse at 2^32 is transformed wrongly unless 2^64 happens to
      be a multiple of n. */
  lemma BluesteinWraps(t: Trig, n: nat)
    requires t.Laws() && n > TWO_32
    ensures BluesteinAt(t, Impulse(n, TWO_32), TWO_32) == ONE
    ensures Dft(t, Impulse(n, TWO_32), TWO_32) == t.Root(n, TWO_64)
  {
    hide Mul, t.Root, t.Laws, ChirpAt, BluesteinAt, Dft, Impulse;
    ImpulseThrough(t, n, TWO_32, TWO_32);
    ImpulseDft(t, n, TWO_32, TWO_32);
    ChirpIsOne(t, n, TWO_32);
    ChirpIsOne(t, n, 0);
    MulOne(ONE);
  }

  lemma {:induction false} DivisorOfPow2(n: nat, q: nat, k: nat)
    requires n * q == Pow2(k)
    ensures IsPow2(n)
    decreases k
  {
    if k == 0 {
      assert n == 1 by {
        assert n > 1 ==> n * q == 0 || n * q > 1;
      }
      assert n == Pow2(0);
    } else if n % 2 == 0 {
      assert n / 2 * q == Pow2(k - 1) by {
        assert n == 2 * (n / 2);
        assert n * q == 2 * (n / 2 * q);
      }
      DivisorOfPow2(n / 2, q, k - 1);
      var i: nat :| n / 2 == Pow2(i);
      assert n == Pow2(i + 1);
    } else {
      OddTimes(n, q);
      assert n * (q / 2) == Pow2(k - 1) by {
        assert q == 2 * (q / 2);
        assert n * q == 2 * (n * (q / 2));
      }
      DivisorOfPow2(n, q / 2, k - 1);
    }
  }

  lemma OddTimes(n: nat, q: nat)
    requires n % 2 == 1 && n * q % 2 == 0
    ensures q % 2 == 0
  {
    assert n * q == 2 * (n / 2 * q) + q;
  }

  /** Whether every vector of length n gets its transform from the chirp sum: for lengths
      that are not powers of two this is exactly n <= 2^32. */
  lemma BluesteinExactly(t: Trig, n: nat)
    requires t.Laws() && n > 0 && !IsPow2(n)
    ensures (forall x: seq<Complex> | |x| == n :: BluesteinAll(t, x) == DftAll(t, x)) <==> n <= TWO_32
  {
    if n <= TWO_32 {
      forall x: seq<Complex> | |x| == n
        ensures BluesteinAll(t, x) == DftAll(t, x)
      {
        SameAll(t, x);
      }
    } else {
      ImpulseDiffers(t, n);
    }
  }

  lemma ImpulseDiffers(t: Trig, n: nat)
    requires t.Laws() && n > TWO_32 && !IsPow2(n)
    ensures BluesteinAll(t, Impulse(n, TWO_32)) != DftAll(t, Impulse(n, TWO_32))
  {
    hide t.Root, t.Laws, BluesteinAt, Dft;
    var x := Impulse(n, TWO_32);
    BluesteinWraps(t, n);
    RootIsOne(t, n, TWO_64);
    if TWO_64 % n == 0 {
      Pow2SixtyFour();
      ExactQuotient(TWO_64, n);
      DivisorOfPow2(n, TWO_64 / n, 64);
    }
    assert BluesteinAll(t, x)[TWO_32] != DftAll(t, x)[TWO_32];
  }

  lemma ExactQuotient(a: nat, n: nat)
    requires n > 0 && a % n == 0
    ensures n * (a / n) == a
  {
  }

  lemma SameAll(t: Trig, x: seq<Complex>)
    requires t.Laws() && |x| <= TWO_32
    ensures BluesteinAll(t, x) == DftAll(t, x)
  {
    hide BluesteinAt, Dft, t.Laws;
    forall k | 0 <= k < |x|
      ensures BluesteinAt(t, x, k) == Dft(t, x, k)
    {
      BluesteinIsDft(t, x, k);
    }
  }

  // ---------------------------------------------------------------- as a convolution

  /** Zero-padded modulated input of length m. */
  ghost predicate IsPadded(t: Trig, x: seq<Complex>, a: seq<Complex>) {
    forall j | 0 <= j < |a| :: a[j] == Modulated(t, x, j)
  }

  /** Chirp of length m, symmetric around 0 on the circle and zero in between. */
  ghost predicate IsChirp(t: Trig, n: nat, b: seq<Complex>)
    requires n > 0
  {
    forall j | 0 <= j < n && j < |b| :: b[j] == ChirpAt(t, n, j) && (j > 0 ==> b[|b| - j] == ChirpAt(t, n, j))
  }

  /** The circular convolution of the padded input with the chirp yields the chirp sum. */
  lemma ConvolutionIsChirp(t: Trig, x: seq<Complex>, a: seq<Complex>, b: seq<Complex>, k: nat)
    requires k < |x| && |a| == |b| && |a| >= 2 * |x|
    requires IsPadded(t, x, a) && IsChirp(t, |x|, b)
    ensures Convolution(a, b, k) == Sum(ChirpTerm(t, x, k), |x|)
  {
    hide Mul, ChirpAt, Sum;
    var n, m := |x|, |a|;
    var f, g := ConvTerm(a, b, k), ChirpTerm(t, x, k);
    forall j | n <= j < m
      ensures f(j) == ZERO
    {
      MulOne(b[Back(k, j, m)]);
    }
    SumZero(f, n, m);
    forall j | 0 <= j < n
      ensures f(j) == g(j)
    {
      if j <= k {
        ModUnique(k - j, m, 0, k - j);
      } else {
        ModUnique(k - j, m, -1, k - j + m);
        assert b[m - (j - k)] == ChirpAt(t, n, j - k);
      }
    }
    SumCong(f, g, n);
  }
}
