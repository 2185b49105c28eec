/** Exact complex numbers (pairs of reals) and finite sums over them. The field laws are
    lemmas, so that the proofs about transforms can name the law they use. */
module Complexes {

  datatype Complex = Complex(re: real, im: real)

  const ZERO := Complex(0.0, 0.0)
  const ONE := Complex(1.0, 0.0)

  function Add(a: Complex, b: Complex): Complex {
    Complex(a.re + b.re, a.im + b.im)
  }

  function Sub(a: Complex, b: Complex): Complex {
    Complex(a.re - b.re, a.im - b.im)
  }

  function Neg(a: Complex): Complex {
    Complex(-a.re, -a.im)
  }

  function Mul(a: Complex, b: Complex): Complex {
    Complex(a.re * b.re - a.im * b.im, a.re * b.im + a.im * b.re)
  }

  function Conj(a: Complex): Complex {
    Complex(a.re, -a.im)
  }

  /** The real and imaginary parts exchanged: what calling a routine with its two
      arrays swapped does to every element. */
  function Swap(a: Complex): Complex {
    Complex(a.im, a.re)
  }

  function Scale(r: real, a: Complex): Complex {
    Complex(r * a.re, r * a.im)
  }

  lemma MulAssoc(a: Complex, b: Complex, c: Complex)
    ensures Mul(Mul(a, b), c) == Mul(a, Mul(b, c))
  {
  }

  lemma MulComm(a: Complex, b: Complex)
    ensures Mul(a, b) == Mul(b, a)
  {
  }

  lemma MulOne(a: Complex)
    ensures Mul(ONE, a) == a == Mul(a, ONE)
    ensures Mul(ZERO, a) == ZERO == Mul(a, ZERO)
  {
  }

  lemma MulAdd(a: Complex, b: Complex, c: Complex)
    ensures Mul(a, Add(b, c)) == Add(Mul(a, b), Mul(a, c))
  {
  }

  lemma MulNeg(a: Complex, b: Complex)
    ensures Mul(a, Neg(b)) == Neg(Mul(a, b)) == Mul(Neg(a), b)
  {
  }

  lemma ConjMul(a: Complex, b: Complex)
    ensures Conj(Mul(a, b)) == Mul(Conj(a), Conj(b))
  {
  }

  lemma SwapMul(a: Complex, b: Complex)
    ensures Swap(Mul(a, b)) == Mul(Swap(a), Conj(b))
  {
  }

  lemma ScaleMul(r: real, a: Complex)
    ensures Scale(r, a) == Mul(Complex(r, 0.0), a)
  {
  }

  /** (a b)(c d) regrouped as (a c)(b d). */
  lemma MulShuffle(a: Complex, b: Complex, c: Complex, d: Complex)
    ensures Mul(Mul(a, b), Mul(c, d)) == Mul(Mul(a, c), Mul(b, d))
  {
    hide *;
    MulAssoc(a, b, Mul(c, d));
    MulAssoc(b, c, d);
    MulComm(b, c);
    MulAssoc(c, b, d);
    MulAssoc(a, c, Mul(b, d));
  }

  lemma NoZeroDivisors(a: Complex, b: Complex)
    requires Mul(a, b) == ZERO
    ensures a == ZERO || b == ZERO
  {
    var p, q := a.re * a.re + a.im * a.im, b.re * b.re + b.im * b.im;
    var u, v := a.re * b.re - a.im * b.im, a.re * b.im + a.im * b.re;
    assert u == 0.0 && v == 0.0;
    assert p * q == u * u + v * v;
    if p != 0.0 {
      assert q == 0.0;
    }
  }

  // ---------------------------------------------------------------- sums

  function Sum(f: int -> Complex, n: nat): Complex {
    if n == 0 then ZERO else Add(Sum(f, n - 1), f(n - 1))
  }

  lemma {:induction false} SumCong(f: int -> Complex, g: int -> Complex, n: nat)
    requires forall i | 0 <= i < n :: f(i) == g(i)
    ensures Sum(f, n) == Sum(g, n)
  {
    if n != 0 {
      SumCong(f, g, n - 1);
    }
  }

  lemma {:induction false} SumAdd(f: int -> Complex, g: int -> Complex, h: int -> Complex, n: nat)
    requires forall i | 0 <= i < n :: h(i) == Add(f(i), g(i))
    ensures Sum(h, n) == Add(Sum(f, n), Sum(g, n))
  {
    if n != 0 {
      SumAdd(f, g, h, n - 1);
    }
  }

  lemma {:induction false} SumMul(c: Complex, f: int -> Complex, h: int -> Complex, n: nat)
    requires forall i | 0 <= i < n :: h(i) == Mul(c, f(i))
    ensures Sum(h, n) == Mul(c, Sum(f, n))
  {
    if n == 0 {
      MulOne(c);
    } else {
      SumMul(c, f, h, n - 1);
      assert h(n - 1) == Mul(c, f(n - 1));
      MulAdd(c, Sum(f, n - 1), f(n - 1));
    }
  }

  lemma {:induction false} SumSwap(f: int -> Complex, h: int -> Complex, n: nat)
    requires forall i | 0 <= i < n :: h(i) == Swap(f(i))
    ensures Sum(h, n) == Swap(Sum(f, n))
  {
    if n != 0 {
      SumSwap(f, h, n - 1);
    }
  }

  /** A sum of 2h terms is the sum of its even terms plus the sum of its odd terms. */
  lemma {:induction false} SumParity(f: int -> Complex, even: int -> Complex, odd: int -> Complex, h: nat)
    requires forall i | 0 <= i < h :: even(i) == f(2 * i) && odd(i) == f(2 * i + 1)
    ensures Sum(f, 2 * h) == Add(Sum(even, h), Sum(odd, h))
  {
    if h != 0 {
      SumParity(f, even, odd, h - 1);
      assert even(h - 1) == f(2 * h - 2) && odd(h - 1) == f(2 * h - 1);
      assert Sum(f, 2 * h) == Add(Add(Sum(f, 2 * h - 2), f(2 * h - 2)), f(2 * h - 1));
    }
  }

  lemma {:induction false} SumZero(f: int -> Complex, n: nat, m: nat)
    requires n <= m
    requires forall i | n <= i < m :: f(i) == ZERO
    ensures Sum(f, m) == Sum(f, n)
  {
    if n < m {
      SumZero(f, n, m - 1);
    }
  }

  lemma SumSingle(f: int -> Complex, n: nat, k: nat)
    requires k < n
    requires forall i | 0 <= i < n && i != k :: f(i) == ZERO
    ensures Sum(f, n) == f(k)
  {
    SumZero(f, 0, k);
    SumZero(f, k + 1, n);
  }

  /** Exchange of two summations. */
  lemma {:induction false} SumExchange(f: int -> int -> Complex, rows: int -> Complex,
                                       g: int -> int -> Complex, cols: int -> Complex, n: nat, m: nat)
    requires forall i, j | 0 <= i < n && 0 <= j < m :: f(i)(j) == g(j)(i)
    requires forall i | 0 <= i < n :: rows(i) == Sum(f(i), m)
    requires forall j | 0 <= j < m :: cols(j) == Sum(g(j), n)
    ensures Sum(rows, n) == Sum(cols, m)
  {
    if n == 0 {
      SumZero(cols, 0, m);
    } else {
      var cols' := j => Sum(g(j), n - 1);
      SumExchange(f, rows, g, cols', n - 1, m);
      forall j | 0 <= j < m
        ensures cols(j) == Add(cols'(j), f(n - 1)(j))
      {
        assert f(n - 1)(j) == g(j)(n - 1);
      }
      SumAdd(cols', f(n - 1), cols, m);
    }
  }

  lemma {:induction false} SumSplit(f: int -> Complex, tail: int -> Complex, d: nat, n: nat)
    requires d <= n
    requires forall i | 0 <= i < n - d :: tail(i) == f(d + i)
    ensures Sum(f, n) == Add(Sum(f, d), Sum(tail, n - d))
  {
    if d < n {
      SumSplit(f, tail, d, n - 1);
      assert tail(n - d - 1) == f(n - 1);
    }
  }

  lemma AddSwap(a: Complex, b: Complex)
    ensures Add(a, b) == Add(b, a)
  {
  }

  /** Two parts of a sum exchanged. */
  lemma SumSwapParts(f: int -> Complex, fTail: int -> Complex, g: int -> Complex, gTail: int -> Complex, n: nat, d: nat)
    requires d <= n
    requires forall i | 0 <= i < n - d :: gTail(i) == g(d + i) && gTail(i) == f(i)
    requires forall i | 0 <= i < d :: fTail(i) == f(n - d + i) && fTail(i) == g(i)
    ensures Sum(g, n) == Sum(f, n)
  {
    hide Mul, Sum;
    SumSplit(g, gTail, d, n);
    SumSplit(f, fTail, n - d, n);
    SumCong(gTail, f, n - d);
    SumCong(g, fTail, d);
    AddSwap(Sum(g, d), Sum(f, n - d));
  }
}
