/** The cosine and sine the FFT library calls, as functions over exact reals that obey the
    textbook laws, and the roots of unity its tables hold. */
module Trigonometry {
  import opened Arithmetic
  import opened Complexes

  datatype Trig = Trig(cos: real -> real, sin: real -> real, pi: real) {

    ghost predicate Addition(a: real, b: real) {
      && cos(a + b) == cos(a) * cos(b) - sin(a) * sin(b)
      && sin(a + b) == sin(a) * cos(b) + cos(a) * sin(b)
    }

    ghost predicate OnCircle(a: real) {
      cos(a) * cos(a) + sin(a) * sin(a) == 1.0
    }

    ghost predicate InsideTurn(a: real) {
      0.0 < a < 2.0 * pi ==> cos(a) != 1.0
    }

    /** What the C library's cos and sin satisfy before rounding: the addition formulas, the
        unit circle, the half turn, and no smaller positive period. */
    ghost predicate Laws() {
      && pi > 0.0
      && cos(0.0) == 1.0 && sin(0.0) == 0.0
      && cos(pi) == -1.0 && sin(pi) == 0.0
      && (forall a, b :: Addition(a, b))
      && (forall a :: OnCircle(a))
      && (forall a :: InsideTurn(a))
    }

    function Cis(a: real): Complex {
      Complex(cos(a), sin(a))
    }

    /** The angle of e steps out of n on the circle, computed the way the tables compute it. */
    function Angle(n: nat, e: int): real
      requires n > 0
    {
      2.0 * pi * e as real / n as real
    }

    /** exp(-2 pi i e / n): the root of unity of the forward transform of length n. */
    function Root(n: nat, e: int): Complex
      requires n > 0
    {
      Conj(Cis(Angle(n, e)))
    }
  }

  lemma CisAdd(t: Trig, a: real, b: real)
    requires t.Laws()
    ensures t.Cis(a + b) == Mul(t.Cis(a), t.Cis(b))
  {
    assert t.Addition(a, b);
  }

  lemma CisNeg(t: Trig, a: real)
    requires t.Laws()
    ensures t.Cis(-a) == Conj(t.Cis(a))
    ensures Mul(t.Cis(a), Conj(t.Cis(a))) == ONE
  {
    assert t.OnCircle(a);
    CisAdd(t, a, -a);
    assert a + -a == 0.0;
    UnitConj(t.cos(a), t.sin(a));
    InverseUnique(t.Cis(a), t.Cis(-a), Conj(t.Cis(a)));
  }

  lemma UnitConj(p: real, q: real)
    requires p * p + q * q == 1.0
    ensures Mul(Complex(p, q), Conj(Complex(p, q))) == ONE
  {
    NegProduct(p, q);
    NegProduct(q, q);
  }

  lemma NegProduct(p: real, q: real)
    ensures p * -q == -(p * q) == -(q * p)
  {
  }

  lemma InverseUnique(z: Complex, w: Complex, c: Complex)
    requires Mul(z, w) == ONE == Mul(z, c)
    ensures w == c
  {
    hide *;
    MulOne(w);
    MulAssoc(w, z, c);
    MulComm(w, z);
    MulOne(c);
  }

  lemma DivAdd(a: real, b: real, n: real)
    requires n != 0.0
    ensures (a + b) / n == a / n + b / n
  {
  }

  lemma DivCancel(c: real, a: real, n: real)
    requires n != 0.0 && c != 0.0
    ensures (c * a) / (c * n) == a / n
  {
    var q := a / n;
    assert q * n == a;
    assert q * (c * n) == c * a;
  }

  lemma AngleAdd(t: Trig, n: nat, a: int, b: int)
    requires n > 0
    ensures t.Angle(n, a + b) == t.Angle(n, a) + t.Angle(n, b)
  {
    var p := 2.0 * t.pi;
    assert (a + b) as real == a as real + b as real;
    assert p * (a + b) as real == p * a as real + p * b as real;
    DivAdd(p * a as real, p * b as real, n as real);
  }

  /** W(a+b) = W(a) W(b). */
  lemma RootAdd(t: Trig, n: nat, a: int, b: int)
    requires t.Laws() && n > 0
    ensures t.Root(n, a + b) == Mul(t.Root(n, a), t.Root(n, b))
  {
    AngleAdd(t, n, a, b);
    CisAdd(t, t.Angle(n, a), t.Angle(n, b));
    ConjMul(t.Cis(t.Angle(n, a)), t.Cis(t.Angle(n, b)));
  }

  lemma RootZero(t: Trig, n: nat)
    requires t.Laws() && n > 0
    ensures t.Root(n, 0) == ONE
  {
    assert t.Angle(n, 0) == 0.0;
  }

  lemma RootNeg(t: Trig, n: nat, a: int)
    requires t.Laws() && n > 0
    ensures t.Root(n, -a) == Conj(t.Root(n, a))
    ensures Mul(t.Root(n, a), t.Root(n, -a)) == ONE
  {
    AngleAdd(t, n, a, -a);
    assert t.Angle(n, 0) == 0.0;
    assert t.Angle(n, -a) == -t.Angle(n, a);
    CisNeg(t, t.Angle(n, a));
    RootAdd(t, n, a, -a);
    RootZero(t, n);
  }

  lemma AngleScale(t: Trig, c: nat, n: nat, a: int)
    requires n > 0 && c > 0 && c * n > 0
    ensures t.Angle(c * n, c * a) == t.Angle(n, a)
  {
    var p, cr := 2.0 * t.pi, c as real;
    var ar, nr := a as real, n as real;
    assert (c * a) as real == cr * ar;
    assert (c * n) as real == cr * nr;
    assert p * (cr * ar) == cr * (p * ar);
    DivCancel(cr, p * ar, nr);
  }

  /** W over c n at c a is W over n at a. */
  lemma RootScale(t: Trig, c: nat, n: nat, a: int)
    requires n > 0 && c > 0 && c * n > 0
    ensures t.Root(c * n, c * a) == t.Root(n, a)
  {
    AngleScale(t, c, n, a);
  }

  lemma RootHalfTurn(t: Trig)
    requires t.Laws()
    ensures t.Root(2, 1) == Neg(ONE)
  {
    assert t.Angle(2, 1) == t.pi;
  }

  /** W(n/2) = -1, stated for n = 2h. */
  lemma RootHalf(t: Trig, h: nat)
    requires t.Laws() && h > 0
    ensures t.Root(2 * h, h) == Neg(ONE)
  {
    hide *;
    RootHalfTurn(t);
    RootScale(t, h, 2, 1);
    assert h * 2 == 2 * h && h * 1 == h;
  }

  lemma RootOne(t: Trig, n: nat)
    requires t.Laws() && n > 0
    ensures t.Root(n, n) == ONE
  {
    hide *;
    RootScale(t, n, 1, 1);
    RootScale(t, 2, 1, 1);
    RootAdd(t, 2, 1, 1);
    RootHalf(t, 1);
    MulNeg(ONE, Neg(ONE));
    MulNeg(ONE, ONE);
    MulOne(ONE);
    NegNeg(ONE);
  }

  lemma NegNeg(a: Complex)
    ensures Neg(Neg(a)) == a
  {
  }

  lemma {:induction false} RootPeriod(t: Trig, n: nat, q: nat)
    requires t.Laws() && n > 0
    ensures t.Root(n, n * q) == ONE
  {
    hide *;
    if q == 0 {
      RootZero(t, n);
    } else {
      RootPeriod(t, n, q - 1);
      RootOne(t, n);
      assert n * q == n * (q - 1) + n;
      RootAdd(t, n, n * (q - 1), n);
      MulOne(ONE);
    }
  }

  /** W is periodic: only the residue of the exponent matters. */
  lemma RootMod(t: Trig, n: nat, a: int)
    requires t.Laws() && n > 0
    ensures t.Root(n, a) == t.Root(n, a % n)
  {
    hide *;
    var q := a / n;
    assert a == a % n + n * q;
    if q >= 0 {
      RootPeriod(t, n, q);
      RootAdd(t, n, a % n, n * q);
      MulOne(t.Root(n, a % n));
    } else {
      RootPeriod(t, n, -q);
      assert a % n == a + n * -q;
      RootAdd(t, n, a, n * -q);
      MulOne(t.Root(n, a));
    }
  }

  lemma RootInjective(t: Trig, n: nat, a: int)
    requires t.Laws() && 0 < a < n
    ensures t.Root(n, a) != ONE
  {
    var p, x := 2.0 * t.pi, t.Angle(n, a);
    QuotientBounds(p, a as real, n as real);
    assert t.InsideTurn(x);
  }

  lemma QuotientBounds(p: real, a: real, n: real)
    requires p > 0.0 && 0.0 < a < n
    ensures 0.0 < p * a / n < p
  {
    var x := p * a / n;
    assert x * n == p * a > 0.0;
    assert p * a < p * n;
    assert x >= p ==> x * n >= p * n;
  }

  /** exp(-2 pi i a / n) is 1 exactly for the multiples of n. */
  lemma RootIsOne(t: Trig, n: nat, a: int)
    requires t.Laws() && n > 0
    ensures t.Root(n, a) == ONE <==> a % n == 0
  {
    hide *;
    RootMod(t, n, a);
    if a % n == 0 {
      RootZero(t, n);
    } else {
      RootInjective(t, n, a % n);
    }
  }

  /** Orthogonality: the powers of a root sum to n over a period when the root is 1 and to
      zero otherwise. */
  lemma RootSum(t: Trig, n: nat, d: int, f: int -> Complex)
    requires t.Laws() && n > 0
    requires forall k | 0 <= k < n :: f(k) == t.Root(n, d * k)
    ensures Sum(f, n) == if d % n == 0 then Complex(n as real, 0.0) else ZERO
  {
    hide *;
    if d % n == 0 {
      forall k | 0 <= k < n
        ensures f(k) == ONE
      {
        assert d * k == n * (d / n * k) by {
          assert d == n * (d / n);
        }
        MultipleMod(n, d / n * k);
        RootIsOne(t, n, d * k);
      }
      SumOnes(f, n);
    } else {
      GeometricSum(t, n, d, f, n);
      RootIsOne(t, n, d);
      MultipleMod(n, d);
      assert d * n == n * d;
      RootIsOne(t, n, d * n);
      CancelFactor(t.Root(n, d), Sum(f, n));
    }
  }

  lemma CancelFactor(r: Complex, s: Complex)
    requires r != ONE && Mul(Sub(r, ONE), s) == Sub(ONE, ONE)
    ensures s == ZERO
  {
    NoZeroDivisors(Sub(r, ONE), s);
  }

  lemma {:induction false} SumOnes(f: int -> Complex, n: nat)
    requires forall k | 0 <= k < n :: f(k) == ONE
    ensures Sum(f, n) == Complex(n as real, 0.0)
  {
    if n != 0 {
      SumOnes(f, n - 1);
    }
  }

  lemma {:induction false} GeometricSum(t: Trig, n: nat, d: int, f: int -> Complex, m: nat)
    requires t.Laws() && n > 0 && m <= n
    requires forall k | 0 <= k < n :: f(k) == t.Root(n, d * k)
    ensures Mul(Sub(t.Root(n, d), ONE), Sum(f, m)) == Sub(t.Root(n, d * m), ONE)
  {
    hide Mul, t.Root, t.Laws;
    var r := t.Root(n, d);
    if m == 0 {
      RootZero(t, n);
      MulOne(Sub(r, ONE));
    } else {
      GeometricSum(t, n, d, f, m - 1);
      var w := t.Root(n, d * (m - 1));
      assert d * m == d * (m - 1) + d;
      RootAdd(t, n, d * (m - 1), d);
      MulAdd(Sub(r, ONE), Sum(f, m - 1), w);
      MulSubOne(r, w);
    }
  }

  lemma MulSubOne(r: Complex, w: Complex)
    ensures Mul(Sub(r, ONE), w) == Sub(Mul(w, r), w)
  {
  }
}
