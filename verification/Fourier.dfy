/** The discrete Fourier transform as the plain sum that defines it, and the splitting of
    that sum on which the radix-2 algorithm rests. */
module Fourier {
  import opened Complexes
  import opened Trigonometry

  function At(x: seq<Complex>, j: int): Complex {
    if 0 <= j < |x| then x[j] else ZERO
  }

  /** One summand of the transform of the subsequence x[off], x[off + stride], ... of length size. */
  function Term(t: Trig, x: seq<Complex>, off: int, stride: int, size: nat, k: int): int -> Complex
    requires size > 0
  {
    j => Mul(At(x, off + stride * j), t.Root(size, j * k))
  }

  /** Output k of the transform of a strided subsequence. */
  function Strided(t: Trig, x: seq<Complex>, off: int, stride: int, size: nat, k: int): Complex
    requires size > 0
  {
    Sum(Term(t, x, off, stride, size, k), size)
  }

  /** X[k] = sum over j of x[j] exp(-2 pi i j k / n). */
  function Dft(t: Trig, x: seq<Complex>, k: int): Complex
    requires |x| > 0
  {
    Strided(t, x, 0, 1, |x|, k)
  }

  lemma EvenTerm(t: Trig, x: seq<Complex>, off: int, stride: int, h: nat, k: int, j: int)
    requires t.Laws() && h > 0
    ensures Term(t, x, off, stride, 2 * h, k)(2 * j) == Term(t, x, off, 2 * stride, h, k)(j)
  {
    hide Mul, t.Root, At, t.Laws;
    assert stride * (2 * j) == 2 * stride * j;
    assert 2 * j * k == 2 * (j * k);
    RootScale(t, 2, h, j * k);
  }

  lemma OddTerm(t: Trig, x: seq<Complex>, off: int, stride: int, h: nat, k: int, j: int)
    requires t.Laws() && h > 0
    ensures Term(t, x, off, stride, 2 * h, k)(2 * j + 1)
         == Mul(t.Root(2 * h, k), Term(t, x, off + stride, 2 * stride, h, k)(j))
  {
    hide Mul, t.Root, At, t.Laws;
    var a, w := At(x, off + stride + 2 * stride * j), t.Root(h, j * k);
    assert off + stride * (2 * j + 1) == off + stride + 2 * stride * j;
    assert (2 * j + 1) * k == 2 * (j * k) + k;
    RootScale(t, 2, h, j * k);
    RootAdd(t, 2 * h, 2 * (j * k), k);
    MulAssoc(a, w, t.Root(2 * h, k));
    MulComm(Mul(a, w), t.Root(2 * h, k));
  }

  /** The even-odd split: a transform of length 2h is its even half plus its odd half turned
      by the twiddle factor. */
  lemma StridedSplit(t: Trig, x: seq<Complex>, off: int, stride: int, h: nat, k: int)
    requires t.Laws() && h > 0
    ensures Strided(t, x, off, stride, 2 * h, k)
         == Add(Strided(t, x, off, 2 * stride, h, k),
                Mul(t.Root(2 * h, k), Strided(t, x, off + stride, 2 * stride, h, k)))
  {
    hide Mul, Sum, Term, t.Root, At, t.Laws;
    var all := Term(t, x, off, stride, 2 * h, k);
    var w := t.Root(2 * h, k);
    var even, odd := Term(t, x, off, 2 * stride, h, k), Term(t, x, off + stride, 2 * stride, h, k);
    var turned := j => Mul(w, odd(j));
    forall j | 0 <= j < h
      ensures even(j) == all(2 * j) && turned(j) == all(2 * j + 1)
    {
      EvenTerm(t, x, off, stride, h, k, j);
      OddTerm(t, x, off, stride, h, k, j);
    }
    SumParity(all, even, turned, h);
    SumMul(w, odd, turned, h);
  }

  /** Outputs repeat with the length of the transform. */
  lemma StridedPeriod(t: Trig, x: seq<Complex>, off: int, stride: int, h: nat, k: int)
    requires t.Laws() && h > 0
    ensures Strided(t, x, off, stride, h, k + h) == Strided(t, x, off, stride, h, k)
  {
    hide Mul, Sum, t.Root, At, t.Laws;
    var f, g := Term(t, x, off, stride, h, k + h), Term(t, x, off, stride, h, k);
    forall j | 0 <= j < h
      ensures f(j) == g(j)
    {
      assert j * (k + h) == j * k + h * j;
      RootAdd(t, h, j * k, h * j);
      RootPeriod(t, h, j);
      MulOne(t.Root(h, j * k));
    }
    SumCong(f, g, h);
  }

  /** The butterfly: both outputs of a transform of length 2h from the same two inputs. */
  lemma Butterfly(t: Trig, x: seq<Complex>, off: int, stride: int, h: nat, k: int)
    requires t.Laws() && h > 0
    ensures var a := Strided(t, x, off, 2 * stride, h, k);
            var b := Mul(t.Root(2 * h, k), Strided(t, x, off + stride, 2 * stride, h, k));
            && Strided(t, x, off, stride, 2 * h, k) == Add(a, b)
            && Strided(t, x, off, stride, 2 * h, k + h) == Sub(a, b)
  {
    hide Mul, Strided, t.Root, t.Laws;
    var odd := Strided(t, x, off + stride, 2 * stride, h, k);
    var w := t.Root(2 * h, k);
    StridedSplit(t, x, off, stride, h, k);
    StridedSplit(t, x, off, stride, h, k + h);
    StridedPeriod(t, x, off, 2 * stride, h, k);
    StridedPeriod(t, x, off + stride, 2 * stride, h, k);
    RootAdd(t, 2 * h, k, h);
    RootHalf(t, h);
    MulNeg(w, ONE);
    MulOne(w);
    MulNeg(w, odd);
  }
}
