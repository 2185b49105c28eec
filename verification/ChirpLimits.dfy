/** What an exact inverse would demand of the chirp, and that the 64-bit squares do not grant it
    beyond 2^32 elements. */
module ChirpLimits {
  import opened Arithmetic
  import opened Bits
  import opened Chirp
  import opened Common
  import opened Complexes
  import opened Fourier
  import opened FourierTheory
  import opened Trigonometry

  /** One summand of the inner product of two shifted chirps. */
  function GramTerm(t: Trig, n: nat, k: int, j: int): int -> Complex
    requires n > 0
  {
    l => Mul(Conj(ChirpAt(t, n, Distance(k, l))), ChirpAt(t, n, Distance(l, j)))
  }

  /** The inner product of the chirp shifted by k and the chirp shifted by j. */
  function Gram(t: Trig, n: nat, k: int, j: int): Complex
    requires n > 0
  {
    Sum(GramTerm(t, n, k, j), n)
  }

  /** A chirp value lies on the unit circle. */
  lemma ChirpUnit(t: Trig, n: nat, i: nat)
    requires t.Laws() && n > 0
    ensures Mul(ChirpAt(t, n, i), Conj(ChirpAt(t, n, i))) == ONE
  {
    hide t.Root, t.Laws, ChirpAt, Mul;
    var c := ChirpAt(t, n, i);
    ChirpRoot(t, n, i);
    RootNeg(t, 2 * n, i * i % TWO_64);
    ConjConj(c);
    MulComm(c, Conj(c));
  }

  lemma Rearrange(a: Complex, a': Complex, b: Complex, v: Complex, d: Complex)
    requires Mul(a, a') == ONE
    ensures Mul(Mul(Mul(a', Mul(b, v)), a), d) == Mul(b, Mul(d, v))
  {
    hide *;
    var w := Mul(b, v);
    MulComm(Mul(a', w), a);
    MulAssoc(a, a', w);
    MulOne(w);
    MulAssoc(b, v, d);
    MulComm(v, d);
  }

  /** One summand of the swapped chirp sum of what an impulse at j became. */
  lemma BackSummand(t: Trig, n: nat, j: nat, k: nat, l: nat)
    requires t.Laws() && j < n && k < n && l < n
    ensures var z := SwapAll(BluesteinAll(t, Impulse(n, j)));
            Swap(ChirpTerm(t, z, k)(l)) == Mul(Conj(ChirpAt(t, n, j)), GramTerm(t, n, k, j)(l))
  {
    hide Mul, ChirpAt, Conj, Swap, Impulse, BluesteinAt, t.Laws;
    var y := BluesteinAll(t, Impulse(n, j));
    var z, c, d := SwapAll(y), ChirpAt(t, n, l), ChirpAt(t, n, Distance(k, l));
    ImpulseThrough(t, n, j, l);
    SwapMul(Mul(z[l], Conj(c)), d);
    SwapMul(z[l], Conj(c));
    ConjConj(c);
    SwapSwap(y[l]);
    ChirpUnit(t, n, l);
    Rearrange(c, Conj(c), Conj(ChirpAt(t, n, j)), ChirpAt(t, n, Distance(l, j)), Conj(d));
  }

  lemma SwapSwap(a: Complex)
    ensures Swap(Swap(a)) == a
  {
  }

  /** Transforming an impulse forward and, with swapped parts, back: the Gram entry, turned. */
  lemma BackThrough(t: Trig, n: nat, j: nat, k: nat)
    requires t.Laws() && j < n && k < n
    ensures Swap(BluesteinAt(t, SwapAll(BluesteinAll(t, Impulse(n, j))), k))
         == Mul(Mul(ChirpAt(t, n, k), Conj(ChirpAt(t, n, j))), Gram(t, n, k, j))
  {
    hide Mul, ChirpAt, Conj, Swap, Sum, BluesteinAll, ChirpTerm, t.Laws;
    var z, a, b := SwapAll(BluesteinAll(t, Impulse(n, j))), ChirpAt(t, n, k), Conj(ChirpAt(t, n, j));
    var f := ChirpTerm(t, z, k);
    var h := (l: int) => Swap(f(l));
    SumSwap(f, h, n);
    forall l | 0 <= l < n
      ensures h(l) == Mul(b, GramTerm(t, n, k, j)(l))
    {
      BackSummand(t, n, j, k, l);
    }
    SumMul(b, GramTerm(t, n, k, j), h, n);
    MulComm(Conj(a), Sum(f, n));
    SwapMul(Sum(f, n), Conj(a));
    ConjConj(a);
    MulComm(Mul(b, Gram(t, n, k, j)), a);
    MulAssoc(a, b, Gram(t, n, k, j));
  }

  /** Moving both chirps by one changes two summands. */
  lemma GramShift(t: Trig, n: nat, k: nat, j: nat)
    requires k + 1 < n && j + 1 < n
    ensures Add(Gram(t, n, k + 1, j + 1), Mul(Conj(ChirpAt(t, n, n - 1 - k)), ChirpAt(t, n, n - 1 - j)))
         == Add(Gram(t, n, k, j), Mul(Conj(ChirpAt(t, n, k + 1)), ChirpAt(t, n, j + 1)))
  {
    hide Mul, ChirpAt, Conj, Sum;
    var f, h := GramTerm(t, n, k + 1, j + 1), GramTerm(t, n, k, j);
    SumSplit(f, h, 1, n);
    SumOne(f);
    SumLast(h, n - 1);
    AddRotate(f(0), Sum(h, n - 1), h(n - 1));
  }

  lemma SumOne(f: int -> Complex)
    ensures Sum(f, 1) == f(0)
  {
    assert Sum(f, 0) == ZERO;
  }

  lemma SumLast(f: int -> Complex, n: nat)
    ensures Sum(f, n + 1) == Add(Sum(f, n), f(n))
  {
  }

  lemma AddRotate(a: Complex, b: Complex, c: Complex)
    ensures Add(Add(a, b), c) == Add(Add(b, c), a)
  {
  }

  /** If both Gram entries vanish, two products of chirp values agree. */
  lemma GramForces(t: Trig, n: nat, a: nat, b: nat)
    requires 0 < a < n && 0 < b < n
    requires Gram(t, n, a, b) == ZERO == Gram(t, n, a - 1, b - 1)
    ensures Mul(Conj(ChirpAt(t, n, n - a)), ChirpAt(t, n, n - b)) == Mul(Conj(ChirpAt(t, n, a)), ChirpAt(t, n, b))
  {
    hide Gram, Mul, ChirpAt, Conj;
    GramShift(t, n, a - 1, b - 1);
    AddZero(Mul(Conj(ChirpAt(t, n, n - a)), ChirpAt(t, n, n - b)));
    AddZero(Mul(Conj(ChirpAt(t, n, a)), ChirpAt(t, n, b)));
  }

  lemma AddZero(a: Complex)
    ensures Add(ZERO, a) == a
  {
  }

  function Wrapped(i: nat): nat {
    i * i % TWO_64
  }

  /** The product of two chirp values as one root of unity. */
  lemma ChirpProduct(t: Trig, n: nat, a: nat, b: nat)
    requires t.Laws() && n > 0
    ensures Mul(Conj(ChirpAt(t, n, a)), ChirpAt(t, n, b)) == t.Root(2 * n, Wrapped(a) - Wrapped(b))
  {
    hide t.Root, t.Laws, ChirpAt, Mul, Conj;
    ChirpRoot(t, n, a);
    ChirpRoot(t, n, b);
    ConjConj(ChirpAt(t, n, b));
    hide Wrapped;
    var d, e: int := Wrapped(a), Wrapped(b);
    RootNeg(t, 2 * n, e);
    RootAdd(t, 2 * n, d, -e);
  }

  lemma RootsAgree(t: Trig, n: nat, x: int, y: int)
    requires t.Laws() && n > 0 && t.Root(n, x) == t.Root(n, y)
    ensures (x - y) % n == 0
  {
    hide t.Root, t.Laws, Mul;
    RootNeg(t, n, y);
    RootAdd(t, n, x, -y);
    RootIsOne(t, n, x - y);
  }

  /** What the wrapped squares of neighbours differ by. */
  lemma NeighbourSquares(m: nat)
    requires m < TWO_31 * TWO_32
    ensures Wrapped(m + 1) - Wrapped(m) == 2 * m + 1 || Wrapped(m + 1) - Wrapped(m) == 2 * m + 1 - TWO_64
  {
    var s := m * m;
    assert (m + 1) * (m + 1) == s + 2 * m + 1;
    Wraps(s, 2 * m + 1);
  }

  lemma Wraps(s: nat, d: nat)
    requires d <= TWO_64
    ensures (s + d) % TWO_64 - s % TWO_64 == d || (s + d) % TWO_64 - s % TWO_64 == d - TWO_64
  {
  }

  /** The squares of 2^32 - 1 and 2^32 against those of their distances from n: they differ by
      2 n less 2^64 or 2^65. */
  lemma SquareGap(n: nat)
    requires TWO_32 < n <= TWO_31 * TWO_32
    ensures var gap := Wrapped(n - TWO_32 + 1) - Wrapped(n - TWO_32) - (Wrapped(TWO_32 - 1) - Wrapped(TWO_32));
            gap == 2 * n - TWO_64 || gap == 2 * n - 2 * TWO_64
  {
    assert Wrapped(TWO_32 - 1) == TWO_64 - 2 * TWO_32 + 1 && Wrapped(TWO_32) == 0;
    hide Wrapped;
    NeighbourSquares(n - TWO_32);
  }

  lemma GapDivides(n: nat, gap: int)
    requires n > 0 && gap % (2 * n) == 0 && (gap == 2 * n - TWO_64 || gap == 2 * n - 2 * TWO_64)
    ensures IsPow2(n)
  {
    Pow2SixtyFour();
    var q := gap / (2 * n);
    assert gap == 2 * n * q by {
      ExactMultiple(gap, 2 * n);
    }
    var r := if gap == 2 * n - TWO_64 then 2 * (1 - q) else 1 - q;
    assert n * r == TWO_64 by {
      hide *;
      assert 2 * n * q == 2 * (n * q);
      if gap == 2 * n - TWO_64 {
        assert n * (2 * (1 - q)) == 2 * (n - n * q);
      } else {
        assert n * (1 - q) == n - n * q;
      }
    }
    if r < 0 { MulMono(r, 0, n); }
    DivisorOfPow2(n, r, 64);
  }

  lemma ExactMultiple(a: int, n: nat)
    requires n > 0 && a % n == 0
    ensures a == n * (a / n)
  {
  }

  /** Between 2^32 and 2^63 elements, unless n is a power of two, one of two neighbouring Gram
      entries off the diagonal is not zero. */
  lemma GramFails(t: Trig, n: nat)
    requires t.Laws() && TWO_32 < n <= TWO_31 * TWO_32 && !IsPow2(n)
    ensures Gram(t, n, TWO_32 - 1, TWO_32) != ZERO || Gram(t, n, TWO_32 - 2, TWO_32 - 1) != ZERO
  {
    hide Gram, t.Root, t.Laws, Mul, ChirpAt, Conj, IsPow2, Wrapped;
    if Gram(t, n, TWO_32 - 1, TWO_32) == ZERO == Gram(t, n, TWO_32 - 2, TWO_32 - 1) {
      var a, b, m := TWO_32 - 1, TWO_32, n - TWO_32;
      GramForces(t, n, a, b);
      ChirpProduct(t, n, m + 1, m);
      ChirpProduct(t, n, a, b);
      RootsAgree(t, 2 * n, Wrapped(m + 1) - Wrapped(m), Wrapped(a) - Wrapped(b));
      SquareGap(n);
      GapDivides(n, Wrapped(m + 1) - Wrapped(m) - (Wrapped(a) - Wrapped(b)));
      assert false;
    }
  }

  /** An impulse that comes back as a multiple of itself has no Gram entry off the diagonal. */
  lemma BackMeansOrthogonal(t: Trig, n: nat, j: nat, k: nat)
    requires t.Laws() && j < n && k < n && Swap(BluesteinAt(t, SwapAll(BluesteinAll(t, Impulse(n, j))), k)) == ZERO
    ensures Gram(t, n, k, j) == ZERO
  {
    hide Gram, t.Laws, Mul, ChirpAt, Conj, BluesteinAt, BluesteinAll, Impulse;
    var c, d := ChirpAt(t, n, k), ChirpAt(t, n, j);
    BackThrough(t, n, j, k);
    NoZeroDivisors(Mul(c, Conj(d)), Gram(t, n, k, j));
    ChirpUnit(t, n, k);
    ChirpUnit(t, n, j);
    MulOne(Conj(c));
    MulOne(d);
    if Mul(c, Conj(d)) == ZERO {
      NoZeroDivisors(c, Conj(d));
      MulComm(c, Conj(c));
      assert false;
    }
  }

  /** Beyond 2^32 elements some impulse does not come back. */
  lemma ImpulseLost(t: Trig, n: nat) returns (j: nat, k: nat)
    requires t.Laws() && TWO_32 < n <= TWO_31 * TWO_32 && !IsPow2(n)
    ensures j < n && k < n && k != j
    ensures Swap(BluesteinAt(t, SwapAll(BluesteinAll(t, Impulse(n, j))), k)) != ZERO
  {
    hide Gram, t.Laws, BluesteinAt, BluesteinAll, Impulse, IsPow2;
    GramFails(t, n);
    if Gram(t, n, TWO_32 - 1, TWO_32) != ZERO {
      k, j := TWO_32 - 1, TWO_32;
    } else {
      k, j := TWO_32 - 2, TWO_32 - 1;
    }
    if Swap(BluesteinAt(t, SwapAll(BluesteinAll(t, Impulse(n, j))), k)) == ZERO {
      BackMeansOrthogonal(t, n, j, k);
    }
  }

  // ---------------------------------------------------------------- convolution

  /** The impulse at 0 is transformed to ones. */
  lemma FirstImpulse(t: Trig, n: nat, l: nat)
    requires t.Laws() && l < n
    ensures BluesteinAt(t, Impulse(n, 0), l) == ONE
  {
    hide BluesteinAt, Mul, ChirpAt, Conj, Impulse, t.Laws;
    var c := ChirpAt(t, n, l);
    ImpulseThrough(t, n, 0, l);
    ChirpIsOne(t, n, 0);
    ConjOne();
    MulOne(c);
    ChirpUnit(t, n, l);
    MulComm(c, Conj(c));
  }

  lemma ConjOne()
    ensures Conj(ONE) == ONE
  {
  }

  /** Convolving with the impulse at 0 changes nothing. */
  lemma NeutralConvolution(x: seq<Complex>, k: nat)
    requires k < |x|
    ensures Convolution(x, Impulse(|x|, 0), k) == x[k]
  {
    hide Mul, Sum;
    var n, f := |x|, ConvTerm(x, Impulse(|x|, 0), k);
    forall j | 0 <= j < n && j != k
      ensures f(j) == ZERO
    {
      SmallMod(k - j, n);
      MulOne(x[j]);
    }
    SmallMod(k - k, n);
    MulOne(x[k]);
    SumSingle(f, n, k);
  }
}
