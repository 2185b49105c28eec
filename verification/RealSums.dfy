/** The transforms and the convolution as sums of real products of cosines, sines and samples:
    what the two arrays hold, without complex arithmetic. */
module RealSums {
  import opened Arithmetic
  import opened Common
  import opened Complexes
  import opened Fourier
  import opened FourierTheory
  import opened Trigonometry

  function Re(x: seq<Complex>, j: int): real {
    if 0 <= j < |x| then x[j].re else 0.0
  }

  function Im(x: seq<Complex>, j: int): real {
    if 0 <= j < |x| then x[j].im else 0.0
  }

  /** cos(2 pi j k / n) and sin(2 pi j k / n). */
  function CosOf(t: Trig, n: nat, j: int, k: int): real
    requires n > 0
  {
    t.cos(2.0 * t.pi * (j * k) as real / n as real)
  }

  function SinOf(t: Trig, n: nat, j: int, k: int): real
    requires n > 0
  {
    t.sin(2.0 * t.pi * (j * k) as real / n as real)
  }

  /** Real part of output k of the forward transform. */
  function ForwardRe(t: Trig, x: seq<Complex>, k: int): real
    requires |x| > 0
  {
    var n := |x|;
    RealSum(j => Re(x, j) * CosOf(t, n, j, k) + Im(x, j) * SinOf(t, n, j, k), n)
  }

  /** Imaginary part of output k of the forward transform. */
  function ForwardIm(t: Trig, x: seq<Complex>, k: int): real
    requires |x| > 0
  {
    var n := |x|;
    RealSum(j => Im(x, j) * CosOf(t, n, j, k) - Re(x, j) * SinOf(t, n, j, k), n)
  }

  /** The inverse transform changes the sign of the sine. */
  function BackwardRe(t: Trig, x: seq<Complex>, k: int): real
    requires |x| > 0
  {
    var n := |x|;
    RealSum(j => Re(x, j) * CosOf(t, n, j, k) - Im(x, j) * SinOf(t, n, j, k), n)
  }

  function BackwardIm(t: Trig, x: seq<Complex>, k: int): real
    requires |x| > 0
  {
    var n := |x|;
    RealSum(j => Im(x, j) * CosOf(t, n, j, k) + Re(x, j) * SinOf(t, n, j, k), n)
  }

  lemma {:induction false} SumIsReal(f: int -> Complex, re: int -> real, im: int -> real, n: nat)
    requires forall j | 0 <= j < n :: f(j) == Complex(re(j), im(j))
    ensures Sum(f, n) == Complex(RealSum(re, n), RealSum(im, n))
  {
    if n != 0 {
      SumIsReal(f, re, im, n - 1);
    }
  }

  lemma TimesRoot(z: Complex, c: real, s: real)
    ensures Mul(z, Complex(c, -s)) == Complex(z.re * c + z.im * s, z.im * c - z.re * s)
  {
    assert z.im * -s == -(z.im * s);
    assert z.re * -s == -(z.re * s);
  }

  lemma RootParts(t: Trig, n: nat, j: int, k: int)
    requires n > 0
    ensures t.Root(n, j * k) == Complex(CosOf(t, n, j, k), -SinOf(t, n, j, k))
  {
    assert t.Angle(n, j * k) == 2.0 * t.pi * (j * k) as real / n as real;
  }

  lemma TermParts(t: Trig, x: seq<Complex>, k: int, j: int)
    requires 0 <= j < |x|
    ensures Term(t, x, 0, 1, |x|, k)(j) ==
              Complex(Re(x, j) * CosOf(t, |x|, j, k) + Im(x, j) * SinOf(t, |x|, j, k),
                      Im(x, j) * CosOf(t, |x|, j, k) - Re(x, j) * SinOf(t, |x|, j, k))
  {
    hide t.Root, Mul, CosOf, SinOf;
    RootParts(t, |x|, j, k);
    TimesRoot(x[j], CosOf(t, |x|, j, k), SinOf(t, |x|, j, k));
  }

  /** The defining sum of the transform in real and imaginary parts. */
  lemma ForwardParts(t: Trig, x: seq<Complex>, k: nat)
    requires k < |x|
    ensures DftAll(t, x)[k] == Complex(ForwardRe(t, x, k), ForwardIm(t, x, k))
  {
    hide Term, CosOf, SinOf, Re, Im;
    var n := |x|;
    var re := j => Re(x, j) * CosOf(t, n, j, k) + Im(x, j) * SinOf(t, n, j, k);
    var im := j => Im(x, j) * CosOf(t, n, j, k) - Re(x, j) * SinOf(t, n, j, k);
    forall j | 0 <= j < n
      ensures Term(t, x, 0, 1, n, k)(j) == Complex(re(j), im(j))
    {
      TermParts(t, x, k, j);
    }
    SumIsReal(Term(t, x, 0, 1, n, k), re, im, n);
  }

  /** Two real vectors hold the forward transform of x, written as real sums. */
  ghost predicate HoldsForward(t: Trig, x: seq<Complex>, re: seq<real>, im: seq<real>) {
    && |re| == |im| == |x|
    && (forall k | 0 <= k < |x| :: re[k] == ForwardRe(t, x, k) && im[k] == ForwardIm(t, x, k))
  }

  lemma ForwardHeld(t: Trig, x: seq<Complex>, re: seq<real>, im: seq<real>)
    requires |re| == |im| == |x|
    requires forall k | 0 <= k < |x| :: DftAll(t, x)[k] == Complex(re[k], im[k])
    ensures HoldsForward(t, x, re, im)
  {
    hide DftAll, ForwardRe, ForwardIm;
    forall k | 0 <= k < |x|
      ensures re[k] == ForwardRe(t, x, k) && im[k] == ForwardIm(t, x, k)
    {
      ForwardParts(t, x, k);
      assert DftAll(t, x)[k] == Complex(re[k], im[k]);
    }
  }

  /** The inverse transform in real and imaginary parts. */
  lemma BackwardParts(t: Trig, x: seq<Complex>, k: nat)
    requires k < |x|
    ensures SwapAll(DftAll(t, SwapAll(x)))[k] == Complex(BackwardRe(t, x, k), BackwardIm(t, x, k))
  {
    hide CosOf, SinOf, RealSum, Re, Im, DftAll, SwapAll;
    var n, w := |x|, SwapAll(x);
    ForwardParts(t, w, k);
    var re := j => Im(w, j) * CosOf(t, n, j, k) - Re(w, j) * SinOf(t, n, j, k);
    var im := j => Re(w, j) * CosOf(t, n, j, k) + Im(w, j) * SinOf(t, n, j, k);
    var re' := j => Re(x, j) * CosOf(t, n, j, k) - Im(x, j) * SinOf(t, n, j, k);
    var im' := j => Im(x, j) * CosOf(t, n, j, k) + Re(x, j) * SinOf(t, n, j, k);
    forall j | 0 <= j < n
      ensures re(j) == re'(j) && im(j) == im'(j)
    {
      SwappedSample(x, j);
    }
    RealCong(re, re', n);
    RealCong(im, im', n);
  }

  lemma SwappedSample(x: seq<Complex>, j: int)
    ensures Re(SwapAll(x), j) == Im(x, j) && Im(SwapAll(x), j) == Re(x, j)
  {
  }

  // ---------------------------------------------------------------- convolution

  /** Where the circular convolution reads its second factor: i - j, plus n if that is negative. */
  function Behind(i: int, j: int, n: nat): int {
    if j <= i then i - j else n + i - j
  }

  lemma ConvolutionTerm(x: seq<Complex>, y: seq<Complex>, i: int, j: int)
    requires |x| == |y| && 0 <= i < |x| && 0 <= j < |x|
    ensures var l := Behind(i, j, |x|);
            ConvTerm(x, y, i)(j) == Complex(Re(x, j) * Re(y, l) - Im(x, j) * Im(y, l),
                                            Re(x, j) * Im(y, l) + Im(x, j) * Re(y, l))
  {
    var l := Behind(i, j, |x|);
    ModUnique(i - j, |x|, if j <= i then 0 else -1, l);
    assert Back(i, j, |x|) == l;
  }

  /** Entry i of the circular convolution: the sum over j of the products of x[j] and the entry
      of y that is j places before i, round the vector. */
  function ConvolutionRe(x: seq<Complex>, y: seq<Complex>, i: int): real {
    var n := |x|;
    RealSum(j => Re(x, j) * Re(y, Behind(i, j, n)) - Im(x, j) * Im(y, Behind(i, j, n)), n)
  }

  function ConvolutionIm(x: seq<Complex>, y: seq<Complex>, i: int): real {
    var n := |x|;
    RealSum(j => Re(x, j) * Im(y, Behind(i, j, n)) + Im(x, j) * Re(y, Behind(i, j, n)), n)
  }

  lemma ConvolutionParts(x: seq<Complex>, y: seq<Complex>, i: nat)
    requires |x| == |y| && i < |x|
    ensures ConvolutionAll(x, y)[i] == Complex(ConvolutionRe(x, y, i), ConvolutionIm(x, y, i))
  {
    hide ConvTerm, Behind, Re, Im;
    var n := |x|;
    var re := j => Re(x, j) * Re(y, Behind(i, j, n)) - Im(x, j) * Im(y, Behind(i, j, n));
    var im := j => Re(x, j) * Im(y, Behind(i, j, n)) + Im(x, j) * Re(y, Behind(i, j, n));
    forall j | 0 <= j < n
      ensures ConvTerm(x, y, i)(j) == Complex(re(j), im(j))
    {
      ConvolutionTerm(x, y, i, j);
    }
    SumIsReal(ConvTerm(x, y, i), re, im, n);
  }
}
