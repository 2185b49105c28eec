/** Facts about the defining sum itself: the swapped transform inverts it up to the factor n,
    and it turns circular convolution into a pointwise product. */
module FourierTheory {
  import opened Arithmetic
  import opened Complexes
  import opened Fourier
  import opened Trigonometry

  /** The whole transform as a vector. */
  ghost function DftAll(t: Trig, x: seq<Complex>): (y: seq<Complex>)
    ensures |y| == |x|
  {
    if x == [] then [] else seq(|x|, k => Dft(t, x, k))
  }

  ghost function SwapAll(x: seq<Complex>): (y: seq<Complex>)
    ensures |y| == |x|
    ensures forall i | 0 <= i < |x| :: y[i] == Swap(x[i])
  {
    seq(|x|, i requires 0 <= i < |x| => Swap(x[i]))
  }

  ghost function ScaleAll(r: real, x: seq<Complex>): (y: seq<Complex>)
    ensures |y| == |x|
    ensures forall i | 0 <= i < |x| :: y[i] == Scale(r, x[i])
  {
    seq(|x|, i requires 0 <= i < |x| => Scale(r, x[i]))
  }

  ghost function Product(x: seq<Complex>, y: seq<Complex>): (z: seq<Complex>)
    requires |x| == |y|
    ensures |z| == |x|
    ensures forall i | 0 <= i < |x| :: z[i] == Mul(x[i], y[i])
  {
    seq(|x|, i requires 0 <= i < |x| => Mul(x[i], y[i]))
  }

  // ---------------------------------------------------------------- inverse

  /** One summand of the inverse transform: y[k] exp(+2 pi i k j / n). */
  function InverseTerm(t: Trig, y: seq<Complex>, j: int): int -> Complex
    requires |y| > 0
  {
    k => Mul(At(y, k), t.Root(|y|, -(k * j)))
  }

  lemma SwappedTerm(t: Trig, n: nat, z: Complex, e: int)
    requires t.Laws() && n > 0
    ensures Swap(Mul(Swap(z), t.Root(n, e))) == Mul(z, t.Root(n, -e))
  {
    SwapMul(Swap(z), t.Root(n, e));
    RootNeg(t, n, e);
  }

  lemma SwappedTransform(t: Trig, y: seq<Complex>, j: int)
    requires t.Laws() && |y| > 0
    ensures Swap(Dft(t, SwapAll(y), j)) == Sum(InverseTerm(t, y, j), |y|)
  {
    hide Sum, Mul, t.Root, t.Laws;
    var f, h := Term(t, SwapAll(y), 0, 1, |y|, j), InverseTerm(t, y, j);
    forall k | 0 <= k < |y|
      ensures h(k) == Swap(f(k))
    {
      SwappedTerm(t, |y|, y[k], k * j);
      assert At(SwapAll(y), 0 + 1 * k) == Swap(y[k]);
    }
    SumSwap(f, h, |y|);
  }

  /** The double sum behind inversion, at output i: x[j] exp(-2 pi i (j - i) k / n). */
  function Cross(t: Trig, x: seq<Complex>, i: int): int -> int -> Complex
    requires |x| > 0
  {
    k => j => Mul(At(x, j), t.Root(|x|, (j - i) * k))
  }

  function CrossFlip(t: Trig, x: seq<Complex>, i: int): int -> int -> Complex
    requires |x| > 0
  {
    j => k => Mul(At(x, j), t.Root(|x|, (j - i) * k))
  }

  lemma CrossRow(t: Trig, x: seq<Complex>, i: int, k: int)
    requires t.Laws() && 0 <= k < |x|
    ensures InverseTerm(t, DftAll(t, x), i)(k) == Sum(Cross(t, x, i)(k), |x|)
  {
    hide Sum, Mul, t.Root, t.Laws;
    var n, w := |x|, t.Root(|x|, -(k * i));
    var f, h := Term(t, x, 0, 1, n, k), Cross(t, x, i)(k);
    forall j | 0 <= j < n
      ensures h(j) == Mul(w, f(j))
    {
      var r := t.Root(n, j * k);
      assert (j - i) * k == j * k + -(k * i);
      RootAdd(t, n, j * k, -(k * i));
      MulAssoc(x[j], r, w);
      MulComm(Mul(x[j], r), w);
    }
    SumMul(w, f, h, n);
    MulComm(w, Dft(t, x, k));
  }

  lemma CrossColumn(t: Trig, x: seq<Complex>, i: int, j: int)
    requires t.Laws() && 0 <= i < |x| && 0 <= j < |x|
    ensures Sum(CrossFlip(t, x, i)(j), |x|) == if i == j then Scale(|x| as real, x[i]) else ZERO
  {
    hide Sum, Mul, t.Root, t.Laws;
    var n := |x|;
    var h, roots := CrossFlip(t, x, i)(j), k => t.Root(n, (j - i) * k);
    SumMul(x[j], roots, h, n);
    RootSum(t, n, j - i, roots);
    assert (j - i) % n == 0 <==> i == j by {
      SmallMod(j - i, n);
    }
    MulComm(x[j], Complex(n as real, 0.0));
    ScaleMul(n as real, x[j]);
    MulOne(x[j]);
  }

  lemma SmallMod(d: int, n: int)
    requires -n < d < n
    ensures d % n == 0 <==> d == 0
  {
    if d > 0 {
      ModUnique(d, n, 0, d);
    } else if d < 0 {
      ModUnique(d, n, -1, d + n);
    }
  }

  /** Forward then inverse gives n times the original vector. */
  lemma InverseOfForward(t: Trig, x: seq<Complex>)
    requires t.Laws()
    ensures SwapAll(DftAll(t, SwapAll(DftAll(t, x)))) == ScaleAll(|x| as real, x)
  {
    hide Sum, Mul, t.Root, t.Laws;
    var n, y := |x|, DftAll(t, x);
    forall i | 0 <= i < n
      ensures Swap(Dft(t, SwapAll(y), i)) == Scale(n as real, x[i])
    {
      SwappedTransform(t, y, i);
      var rows := InverseTerm(t, y, i);
      var cols := j => Sum(CrossFlip(t, x, i)(j), n);
      forall k | 0 <= k < n
        ensures rows(k) == Sum(Cross(t, x, i)(k), n)
      {
        CrossRow(t, x, i, k);
      }
      SumExchange(Cross(t, x, i), rows, CrossFlip(t, x, i), cols, n, n);
      forall j | 0 <= j < n
        ensures cols(j) == if i == j then Scale(n as real, x[i]) else ZERO
      {
        CrossColumn(t, x, i, j);
      }
      SumSingle(cols, n, i);
    }
  }

  // ---------------------------------------------------------------- convolution

  /** The index j steps before i on a circle of n. */
  function Back(i: int, j: int, n: nat): (l: nat)
    requires n > 0
    ensures l < n
  {
    (i - j) % n
  }

  function ConvTerm(x: seq<Complex>, y: seq<Complex>, i: int): int -> Complex
    requires |x| == |y| > 0
  {
    j => Mul(At(x, j), y[Back(i, j, |x|)])
  }

  /** Entry i of the circular convolution: the sum over j of x[j] y[(i - j) mod n]. */
  function Convolution(x: seq<Complex>, y: seq<Complex>, i: int): Complex
    requires |x| == |y| > 0
  {
    Sum(ConvTerm(x, y, i), |x|)
  }

  ghost function ConvolutionAll(x: seq<Complex>, y: seq<Complex>): (z: seq<Complex>)
    requires |x| == |y|
    ensures |z| == |x|
  {
    if x == [] then [] else seq(|x|, i => Convolution(x, y, i))
  }

  /** The double sum behind the convolution theorem. */
  function Spread(t: Trig, x: seq<Complex>, y: seq<Complex>, k: int): int -> int -> Complex
    requires |x| == |y| > 0
  {
    i => j => Mul(Mul(At(x, j), y[Back(i, j, |x|)]), t.Root(|x|, i * k))
  }

  function SpreadFlip(t: Trig, x: seq<Complex>, y: seq<Complex>, k: int): int -> int -> Complex
    requires |x| == |y| > 0
  {
    j => i => Mul(Mul(At(x, j), y[Back(i, j, |x|)]), t.Root(|x|, i * k))
  }

  lemma SpreadSum(t: Trig, x: seq<Complex>, y: seq<Complex>, k: int, i: int)
    requires |x| == |y| && 0 <= i < |x|
    ensures Sum(Spread(t, x, y, k)(i), |x|) == Mul(Convolution(x, y, i), t.Root(|x|, i * k))
  {
    hide Sum, Mul, t.Root, Back;
    var w, f, h := t.Root(|x|, i * k), ConvTerm(x, y, i), Spread(t, x, y, k)(i);
    forall j | 0 <= j < |x|
      ensures h(j) == Mul(w, f(j))
    {
      MulComm(f(j), w);
    }
    SumMul(w, f, h, |x|);
    MulComm(w, Convolution(x, y, i));
  }

  lemma SpreadRow(t: Trig, x: seq<Complex>, y: seq<Complex>, k: int, i: int)
    requires |x| == |y| && 0 <= i < |x|
    ensures Term(t, ConvolutionAll(x, y), 0, 1, |x|, k)(i) == Sum(Spread(t, x, y, k)(i), |x|)
  {
    hide Sum, Mul, t.Root, Convolution, Spread;
    SpreadSum(t, x, y, k, i);
    assert At(ConvolutionAll(x, y), 0 + 1 * i) == Convolution(x, y, i);
  }

  lemma RootBack(t: Trig, n: nat, i: int, j: int, k: int)
    requires t.Laws() && n > 0
    ensures t.Root(n, i * k) == Mul(t.Root(n, j * k), t.Root(n, Back(i, j, n) * k))
  {
    hide Mul, t.Root, t.Laws;
    var l, q := Back(i, j, n), (i - j) / n;
    assert i * k == (j * k + l * k) + n * (q * k) by {
      assert i - j == n * q + l;
      assert (i - j) * k == n * (q * k) + l * k;
      assert (i - j) * k == i * k - j * k;
    }
    RootAdd(t, n, j * k + l * k, n * (q * k));
    MultipleMod(n, q * k);
    RootIsOne(t, n, n * (q * k));
    RootAdd(t, n, j * k, l * k);
    MulOne(t.Root(n, j * k + l * k));
  }

  lemma ShiftedTerm(t: Trig, x: seq<Complex>, y: seq<Complex>, k: int, j: int, i: int)
    requires t.Laws() && |x| == |y| && 0 <= j < |x|
    ensures SpreadFlip(t, x, y, k)(j)(i)
         == Mul(Term(t, x, 0, 1, |x|, k)(j), Term(t, y, 0, 1, |x|, k)(Back(i, j, |x|)))
  {
    hide Mul, t.Root, t.Laws, Back;
    var n, l := |x|, Back(i, j, |x|);
    RootBack(t, n, i, j, k);
    MulShuffle(x[j], y[l], t.Root(n, j * k), t.Root(n, l * k));
  }

  lemma BackIs(i: int, j: int, n: nat)
    requires 0 <= i < n && 0 <= j < n
    ensures Back(i, j, n) == if i < j then i - j + n else i - j
  {
    if i < j {
      ModUnique(i - j, n, -1, i - j + n);
    } else {
      ModUnique(i - j, n, 0, i - j);
    }
  }

  /** The two stretches of a sum whose index is shifted by j. */
  lemma BackStretches(g: int -> Complex, shifted: int -> Complex, n: nat, j: nat, i: nat)
    requires j < n && i < n && shifted(i) == g(Back(i, j, n))
    ensures shifted(i) == g(if i < j then n - j + i else i - j)
  {
    BackIs(i, j, n);
  }

  lemma SumBackParts(g: int -> Complex, gTail: int -> Complex, shifted: int -> Complex, shiftedTail: int -> Complex,
                     n: nat, j: nat)
    requires j < n && forall i | 0 <= i < n :: shifted(i) == g(if i < j then n - j + i else i - j)
    requires forall i | 0 <= i < j :: gTail(i) == g(n - j + i)
    requires forall i | 0 <= i < n - j :: shiftedTail(i) == shifted(j + i)
    ensures Sum(shifted, n) == Sum(g, n)
  {
    hide *;
    SumSwapParts(g, gTail, shifted, shiftedTail, n, j);
  }

  /** Shifting the index of a sum over a whole period leaves it unchanged. */
  lemma SumBack(g: int -> Complex, shifted: int -> Complex, n: nat, j: nat)
    requires j < n && forall i | 0 <= i < n :: shifted(i) == g(Back(i, j, n))
    ensures Sum(shifted, n) == Sum(g, n)
  {
    hide *;
    forall i | 0 <= i < n
      ensures shifted(i) == g(if i < j then n - j + i else i - j)
    {
      BackStretches(g, shifted, n, j, i);
    }
    SumBackParts(g, i => g(n - j + i), shifted, i => shifted(j + i), n, j);
  }

  lemma SpreadColumn(t: Trig, x: seq<Complex>, y: seq<Complex>, k: int, j: int)
    requires t.Laws() && |x| == |y| && 0 <= j < |x|
    ensures Sum(SpreadFlip(t, x, y, k)(j), |x|) == Mul(Term(t, x, 0, 1, |x|, k)(j), Dft(t, y, k))
  {
    hide Sum, Mul, t.Root, t.Laws, Back;
    var n, g := |x|, Term(t, y, 0, 1, |x|, k);
    var shifted := i => g(Back(i, j, n));
    forall i | 0 <= i < n
      ensures SpreadFlip(t, x, y, k)(j)(i) == Mul(Term(t, x, 0, 1, n, k)(j), shifted(i))
    {
      ShiftedTerm(t, x, y, k, j, i);
    }
    SumBack(g, shifted, n, j);
    SumMul(Term(t, x, 0, 1, n, k)(j), shifted, SpreadFlip(t, x, y, k)(j), n);
  }

  /** The convolution theorem. */
  lemma TransformOfConvolution(t: Trig, x: seq<Complex>, y: seq<Complex>)
    requires t.Laws() && |x| == |y|
    ensures DftAll(t, ConvolutionAll(x, y)) == Product(DftAll(t, x), DftAll(t, y))
  {
    hide Sum, Mul, t.Root, t.Laws;
    var n, z := |x|, ConvolutionAll(x, y);
    forall k | 0 <= k < n
      ensures Dft(t, z, k) == Mul(Dft(t, x, k), Dft(t, y, k))
    {
      var rows, a := Term(t, z, 0, 1, n, k), Term(t, x, 0, 1, n, k);
      var cols := j => Sum(SpreadFlip(t, x, y, k)(j), n);
      forall i | 0 <= i < n
        ensures rows(i) == Sum(Spread(t, x, y, k)(i), n)
      {
        SpreadRow(t, x, y, k, i);
      }
      SumExchange(Spread(t, x, y, k), rows, SpreadFlip(t, x, y, k), cols, n, n);
      forall j | 0 <= j < n
        ensures cols(j) == Mul(Dft(t, y, k), a(j))
      {
        SpreadColumn(t, x, y, k, j);
        MulComm(a(j), Dft(t, y, k));
      }
      SumMul(Dft(t, y, k), a, cols, n);
      MulComm(Dft(t, y, k), Dft(t, x, k));
    }
  }
}
