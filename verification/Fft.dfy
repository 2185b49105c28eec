/** The wrapper, Bluestein and convolution routines of the FFT library. They are mutually
    recursive; every call inside Bluestein's algorithm is at a power of two. */
module Fft {
  import opened Arithmetic
  import opened Bits
  import opened Chirp
  import opened ChirpLimits
  import opened Common
  import opened Complexes
  import opened Fourier
  import opened FourierTheory
  import opened Radix2
  import opened RealSums
  import opened Trigonometry

  const TWO_58: nat := 0x400_0000_0000_0000
  const TWO_60: nat := 0x1000_0000_0000_0000

  /** Lengths for which no size computation overflows. */
  ghost predicate Fits(n: nat) {
    n <= TWO_58 || (IsPow2(n) && n <= TWO_60)
  }

  /** What the forward transform leaves in the arrays. */
  ghost function Transformed(t: Trig, x: seq<Complex>): (y: seq<Complex>)
    ensures |y| == |x|
  {
    if |x| == 0 || IsPow2(|x|) then DftAll(t, x) else BluesteinAll(t, x)
  }

  /** What the inverse transform leaves in the arrays: the forward one on swapped arrays. */
  ghost function InverseTransformed(t: Trig, x: seq<Complex>): (y: seq<Complex>)
    ensures |y| == |x|
  {
    SwapAll(Transformed(t, SwapAll(x)))
  }

  /** What the convolution routine leaves in the output arrays. */
  ghost function Convolved(t: Trig, x: seq<Complex>, y: seq<Complex>): (z: seq<Complex>)
    requires |x| == |y|
    ensures |z| == |x|
  {
    if x == [] then [] else
      ScaleAll(1.0 / |x| as real, InverseTransformed(t, Product(Transformed(t, x), Transformed(t, y))))
  }

  /** Lengths the library transforms exactly: powers of two, and anything up to 2^32. */
  ghost predicate Exact(n: nat) {
    IsPow2(n) || n <= TWO_32
  }

  /** The forward transform of every vector of length n is the defining sum exactly for the
      lengths in Exact. */
  lemma TransformedExactly(t: Trig, n: nat)
    requires t.Laws()
    ensures (forall x: seq<Complex> | |x| == n :: Transformed(t, x) == DftAll(t, x)) <==> Exact(n)
  {
    if n > 0 && !IsPow2(n) {
      BluesteinExactly(t, n);
      forall x: seq<Complex> | |x| == n
        ensures Transformed(t, x) == BluesteinAll(t, x)
      {
      }
    }
  }

  lemma TransformedIsDft(t: Trig, x: seq<Complex>)
    requires t.Laws() && Exact(|x|)
    ensures Transformed(t, x) == DftAll(t, x)
  {
    TransformedExactly(t, |x|);
  }

  /** Calling the two transforms one after the other multiplies every element by n. */
  lemma InverseUndoesForward(t: Trig, x: seq<Complex>)
    requires t.Laws() && Exact(|x|)
    ensures InverseTransformed(t, Transformed(t, x)) == ScaleAll(|x| as real, x)
  {
    hide Transformed, DftAll, Exact, t.Laws;
    TransformedIsDft(t, x);
    TransformedIsDft(t, SwapAll(DftAll(t, x)));
    InverseOfForward(t, x);
  }

  /** The convolution routine computes the circular convolution. */
  lemma ConvolvedIsConvolution(t: Trig, x: seq<Complex>, y: seq<Complex>)
    requires t.Laws() && |x| == |y| && Exact(|x|)
    ensures Convolved(t, x, y) == ConvolutionAll(x, y)
  {
    hide Transformed, InverseTransformed, DftAll, ConvolutionAll, Product, Exact, t.Laws, Mul;
    var z := ConvolutionAll(x, y);
    TransformedIsDft(t, x);
    TransformedIsDft(t, y);
    TransformedIsDft(t, z);
    TransformOfConvolution(t, x, y);
    InverseUndoesForward(t, z);
    if x != [] {
      forall i | 0 <= i < |z|
        ensures Scale(1.0 / |x| as real, Scale(|x| as real, z[i])) == z[i]
      {
        ScaleBack(|x| as real, z[i]);
      }
    }
  }

  /** The inverse undoes the forward transform, up to the factor n, for all vectors of a length
      exactly if the length is in Exact. */
  lemma InverseExactly(t: Trig, n: nat)
    requires t.Laws() && n <= TWO_31 * TWO_32
    ensures (forall x: seq<Complex> | |x| == n :: Undone(t, x)) <==> Exact(n)
  {
    if Exact(n) {
      forall x: seq<Complex> | |x| == n
        ensures Undone(t, x)
      {
        InverseUndoesForward(t, x);
      }
    } else {
      var x := LostImpulse(t, n);
    }
  }

  ghost predicate Undone(t: Trig, x: seq<Complex>) {
    InverseTransformed(t, Transformed(t, x)) == ScaleAll(|x| as real, x)
  }

  lemma LostImpulse(t: Trig, n: nat) returns (x: seq<Complex>)
    requires t.Laws() && n <= TWO_31 * TWO_32 && !Exact(n)
    ensures |x| == n && x != [] && !Undone(t, x) && exists j | 0 <= j < n :: x == Impulse(n, j)
  {
    hide BluesteinAt, t.Laws, IsPow2;
    var j, k := ImpulseLost(t, n);
    x := Impulse(n, j);
    var y := BluesteinAll(t, x);
    assert InverseTransformed(t, Transformed(t, x))[k] == Swap(BluesteinAt(t, SwapAll(y), k));
    assert ScaleAll(n as real, x)[k] == Scale(n as real, ZERO) == ZERO;
  }

  /** The convolution routine computes the circular convolution of all pairs of vectors of a
      length exactly if the length is in Exact. */
  lemma ConvolvedExactly(t: Trig, n: nat)
    requires t.Laws() && n <= TWO_31 * TWO_32
    ensures (forall x: seq<Complex>, y: seq<Complex> | |x| == n == |y| :: Convolves(t, x, y)) <==> Exact(n)
  {
    if Exact(n) {
      forall x: seq<Complex>, y: seq<Complex> | |x| == n == |y|
        ensures Convolves(t, x, y)
      {
        ConvolvedIsConvolution(t, x, y);
      }
    } else {
      var x := LostImpulse(t, n);
      if Convolves(t, x, Impulse(n, 0)) {
        UnitConvolution(t, x);
      }
    }
  }

  ghost predicate Convolves(t: Trig, x: seq<Complex>, y: seq<Complex>)
    requires |x| == |y|
  {
    Convolved(t, x, y) == ConvolutionAll(x, y)
  }

  /** Convolving with the impulse at 0 is right only if the inverse undoes the transform. */
  lemma UnitConvolution(t: Trig, x: seq<Complex>)
    requires t.Laws() && |x| > 0 && !IsPow2(|x|) && Convolves(t, x, Impulse(|x|, 0))
    ensures Undone(t, x)
  {
    hide BluesteinAt, Convolution, t.Laws, IsPow2, Mul, Scale, Impulse, InverseTransformed;
    var n, e, y := |x|, Impulse(|x|, 0), Transformed(t, x);
    forall l | 0 <= l < n
      ensures Product(y, Transformed(t, e))[l] == y[l]
    {
      FirstImpulse(t, n, l);
      MulOne(y[l]);
    }
    assert Product(y, Transformed(t, e)) == y;
    var back := InverseTransformed(t, y);
    forall k | 0 <= k < n
      ensures back[k] == Scale(n as real, x[k])
    {
      NeutralConvolution(x, k);
      assert Convolved(t, x, e)[k] == Scale(1.0 / n as real, back[k]) == x[k];
      ScaleForth(n as real, back[k]);
    }
  }

  lemma ScaleForth(r: real, z: Complex)
    requires r != 0.0
    ensures Scale(r, Scale(1.0 / r, z)) == z
  {
    assert r * (1.0 / r) == 1.0;
  }

  lemma ScaleBack(r: real, z: Complex)
    requires r != 0.0
    ensures Scale(1.0 / r, Scale(r, z)) == z
  {
    assert 1.0 / r * r == 1.0;
  }

  // ---------------------------------------------------------------- real sums

  /** For the exact lengths the three routines leave the real sums of sines and cosines. */
  lemma RealParts(t: Trig, x: seq<Complex>, y: seq<Complex>, k: nat)
    requires t.Laws() && Exact(|x|) && |x| == |y| && k < |x|
    ensures Transformed(t, x)[k] == Complex(ForwardRe(t, x, k), ForwardIm(t, x, k))
    ensures InverseTransformed(t, x)[k] == Complex(BackwardRe(t, x, k), BackwardIm(t, x, k))
    ensures Convolved(t, x, y)[k] == Complex(ConvolutionRe(x, y, k), ConvolutionIm(x, y, k))
  {
    hide Transformed, DftAll, ConvolutionAll, Convolved, Exact, t.Laws, ForwardRe, ForwardIm, BackwardRe, BackwardIm,
      ConvolutionRe, ConvolutionIm;
    TransformedIsDft(t, x);
    TransformedIsDft(t, SwapAll(x));
    ConvolvedIsConvolution(t, x, y);
    ForwardParts(t, x, k);
    BackwardParts(t, x, k);
    ConvolutionParts(x, y, k);
  }

  ghost predicate HoldsBackward(t: Trig, x: seq<Complex>, re: seq<real>, im: seq<real>) {
    && |re| == |im| == |x|
    && (forall k | 0 <= k < |x| :: re[k] == BackwardRe(t, x, k) && im[k] == BackwardIm(t, x, k))
  }

  ghost predicate HoldsConvolution(x: seq<Complex>, y: seq<Complex>, re: seq<real>, im: seq<real>) {
    && |re| == |im| == |x|
    && (forall k | 0 <= k < |x| :: re[k] == ConvolutionRe(x, y, k) && im[k] == ConvolutionIm(x, y, k))
  }

  lemma HeldParts(t: Trig, x: seq<Complex>, y: seq<Complex>, z: seq<Complex>, re: array<real>, im: array<real>)
    requires t.Laws() && Exact(|x|) && |x| == |y| == re.Length == im.Length && View(re, im) == z
    ensures z == Transformed(t, x) ==> HoldsForward(t, x, re[..], im[..])
    ensures z == InverseTransformed(t, x) ==> HoldsBackward(t, x, re[..], im[..])
    ensures z == Convolved(t, x, y) ==> HoldsConvolution(x, y, re[..], im[..])
  {
    hide Transformed, InverseTransformed, Convolved, Exact, t.Laws, ForwardRe, ForwardIm, BackwardRe, BackwardIm,
      ConvolutionRe, ConvolutionIm;
    forall k | 0 <= k < |x|
      ensures z == Transformed(t, x) ==> re[k] == ForwardRe(t, x, k) && im[k] == ForwardIm(t, x, k)
      ensures z == InverseTransformed(t, x) ==> re[k] == BackwardRe(t, x, k) && im[k] == BackwardIm(t, x, k)
      ensures z == Convolved(t, x, y) ==> re[k] == ConvolutionRe(x, y, k) && im[k] == ConvolutionIm(x, y, k)
    {
      RealParts(t, x, y, k);
      assert z[k] == Complex(re[k], im[k]);
    }
  }

  // ---------------------------------------------------------------- code

  method Transform(t: Trig, re: array<real>, im: array<real>) returns (ok: bool)
    requires t.Laws() && re.Length == im.Length && re != im
    modifies re, im
    ensures Fits(re.Length) ==> ok
    ensures View(re, im) == if ok then Transformed(t, old(View(re, im))) else old(View(re, im))
    ensures ok && Exact(re.Length) ==> HoldsForward(t, old(View(re, im)), re[..], im[..])
    decreases if IsPow2(re.Length) then 1 else 4, 0
  {
    hide HoldsForward, HoldsBackward, HoldsConvolution;
    ghost var x := View(re, im);
    var n := re.Length;
    if n == 0 {
      HeldParts(t, x, x, x, re, im);
      return true;
    }
    PowerTest(n);
    if And(n, n - 1) == 0 {
      ok := TransformRadix2(t, re, im);
    } else {
      ok := TransformBluestein(t, re, im);
    }
    if ok && Exact(n) {
      HeldParts(t, x, x, View(re, im), re, im);
    }
  }

  method InverseTransform(t: Trig, re: array<real>, im: array<real>) returns (ok: bool)
    requires t.Laws() && re.Length == im.Length && re != im
    modifies re, im
    ensures Fits(re.Length) ==> ok
    ensures View(re, im) == if ok then InverseTransformed(t, old(View(re, im))) else old(View(re, im))
    ensures ok && Exact(re.Length) ==> HoldsBackward(t, old(View(re, im)), re[..], im[..])
    decreases if IsPow2(re.Length) then 1 else 4, 1
  {
    hide HoldsForward, HoldsBackward, HoldsConvolution;
    ghost var x := View(re, im);
    SwapView(re, im);
    ok := Transform(t, im, re);
    SwapView(re, im);
    if ok && Exact(re.Length) {
      HeldParts(t, x, x, View(re, im), re, im);
    }
  }

  /** Passing the arrays in the other order swaps every element. */
  lemma SwapView(re: array<real>, im: array<real>)
    requires re.Length == im.Length
    ensures View(im, re) == SwapAll(View(re, im))
    ensures SwapAll(View(im, re)) == View(re, im)
  {
  }

  method Copy(a: array<real>) returns (b: array<real>)
    ensures fresh(b) && b.Length == a.Length && b[..] == a[..]
  {
    b := new real[a.Length];
    for i := 0 to a.Length
      invariant b[..i] == a[..i]
    {
      b[i] := a[i];
    }
  }

  lemma SameView(re: array<real>, im: array<real>, re': array<real>, im': array<real>)
    requires re.Length == im.Length && re[..] == re'[..] && im[..] == im'[..]
    ensures View(re, im) == View(re', im')
  {
    assert forall i | 0 <= i < re.Length :: re[i] == re[..][i] && im[i] == im[..][i];
  }

  method CopyPair(re: array<real>, im: array<real>) returns (r: array<real>, i: array<real>)
    requires re.Length == im.Length
    ensures fresh(r) && fresh(i) && r != i && r.Length == i.Length == re.Length
    ensures View(r, i) == View(re, im)
  {
    r := Copy(re);
    i := Copy(im);
    SameView(re, im, r, i);
  }

  method ConvolveComplex(t: Trig, xre: array<real>, xim: array<real>, yre: array<real>, yim: array<real>,
                         outre: array<real>, outim: array<real>) returns (ok: bool)
    requires t.Laws() && outre != outim
    requires xre.Length == xim.Length == yre.Length == yim.Length == outre.Length == outim.Length
    modifies outre, outim
    ensures Fits(xre.Length) ==> ok
    ensures View(outre, outim) == if ok then Convolved(t, old(View(xre, xim)), old(View(yre, yim)))
                                  else old(View(outre, outim))
    ensures ok && Exact(xre.Length) ==>
              HoldsConvolution(old(View(xre, xim)), old(View(yre, yim)), outre[..], outim[..])
    decreases if IsPow2(xre.Length) then 2 else 5
  {
    hide Transformed, InverseTransformed, Product, ScaleAll, IsPow2, t.Laws, Exact, HoldsForward, HoldsBackward,
      HoldsConvolution;
    var n := xre.Length;
    ghost var x, y := View(xre, xim), View(yre, yim);
    if SIZE_MAX / SIZEOF_DOUBLE < n {
      return false;
    }
    var xr, xi := CopyPair(xre, xim);
    var yr, yi := CopyPair(yre, yim);
    ok := Transform(t, xr, xi);
    if !ok {
      return false;
    }
    ok := Transform(t, yr, yi);
    if !ok {
      return false;
    }
    Multiply(xr, xi, yr, yi);
    ok := InverseTransform(t, xr, xi);
    if !ok {
      return false;
    }
    Rescale(xr, xi, outre, outim);
    if Exact(n) {
      HeldParts(t, x, y, View(outre, outim), outre, outim);
    }
  }

  /** Pointwise complex product into the first pair of arrays. */
  method Multiply(xr: array<real>, xi: array<real>, yr: array<real>, yi: array<real>)
    requires xr.Length == xi.Length == yr.Length == yi.Length
    requires xr != xi && {xr, xi} !! {yr, yi}
    modifies xr, xi
    ensures View(xr, xi) == Product(old(View(xr, xi)), old(View(yr, yi)))
  {
    hide Mul;
    ghost var x, y := View(xr, xi), View(yr, yi);
    for i := 0 to xr.Length
      invariant forall j | 0 <= j < i :: View(xr, xi)[j] == Mul(x[j], y[j])
      invariant forall j | i <= j < xr.Length :: View(xr, xi)[j] == x[j]
    {
      assert View(xr, xi)[i] == x[i];
      ProductParts(xr[i], xi[i], yr[i], yi[i]);
      var temp, imag := xr[i] * yr[i] - xi[i] * yi[i], xi[i] * yr[i] + xr[i] * yi[i];
      assert Complex(temp, imag) == Mul(x[i], y[i]);
      xi[i] := imag;
      xr[i] := temp;
    }
  }

  lemma ProductParts(a: real, b: real, c: real, d: real)
    ensures Mul(Complex(a, b), Complex(c, d)) == Complex(a * c - b * d, b * c + a * d)
  {
  }

  method Rescale(xr: array<real>, xi: array<real>, outre: array<real>, outim: array<real>)
    requires xr.Length == xi.Length == outre.Length == outim.Length
    requires outre != outim && {xr, xi} !! {outre, outim}
    modifies outre, outim
    ensures xr.Length > 0 ==>
              View(outre, outim) == ScaleAll(1.0 / xr.Length as real, old(View(xr, xi)))
  {
    var n := xr.Length;
    for i := 0 to n
      invariant forall j | 0 <= j < i ::
          View(outre, outim)[j] == Scale(1.0 / n as real, View(xr, xi)[j])
    {
      Quotient(xr[i], n as real);
      Quotient(xi[i], n as real);
      hide Scale;
      outre[i] := xr[i] / n as real;
      outim[i] := xi[i] / n as real;
      assert View(outre, outim)[i] == Scale(1.0 / n as real, View(xr, xi)[i]) by {
        ScaleParts(1.0 / n as real, xr[i], xi[i]);
      }
    }
  }

  lemma Quotient(a: real, n: real)
    requires n != 0.0
    ensures a / n == 1.0 / n * a
  {
    assert 1.0 / n * a * n == a;
  }

  lemma ScaleParts(r: real, a: real, b: real)
    ensures Scale(r, Complex(a, b)) == Complex(r * a, r * b)
  {
  }

  /** The smallest power of two above 2 n, unless doubling overflows first. */
  method ConvolutionLength(n: nat) returns (found: bool, m: nat)
    ensures n <= TWO_58 ==> found && m <= TWO_60
    ensures found ==> IsPow2(m) && m / 2 > n && (m / 4 <= n || m == 2)
  {
    ghost var e: nat := 0;
    m := 1;
    while m / 2 <= n
      invariant m == Pow2(e) && (m / 4 <= n || m <= 2)
      decreases 2 * n + 2 - m
    {
      if m > SIZE_MAX / 2 {
        return false, m;
      }
      m, e := 2 * m, e + 1;
    }
    return true, m;
  }

  /** Bluestein's algorithm. The code reads entry 0 of its tables, so it needs an element. */
  method TransformBluestein(t: Trig, re: array<real>, im: array<real>) returns (ok: bool)
    requires t.Laws() && 0 < re.Length == im.Length && re != im
    modifies re, im
    ensures re.Length <= TWO_58 ==> ok
    ensures View(re, im) == if ok then BluesteinAll(t, old(View(re, im))) else old(View(re, im))
    decreases 3
  {
    hide Mul, Conj, ChirpAt, Convolved, ConvolutionAll, BluesteinAll, IsChirp, IsPadded, t.Laws;
    var n := re.Length;
    ghost var x := View(re, im);
    var found, m := ConvolutionLength(n);
    if !found || SIZE_MAX / SIZEOF_DOUBLE < n || SIZE_MAX / SIZEOF_DOUBLE < m {
      return false;
    }
    var cosTable, sinTable := ChirpTables(t, n);
    var ar, ai := Modulate(t, re, im, cosTable, sinTable, m);
    var br, bi := ChirpVector(t, cosTable, sinTable, m);
    var cr := new real[m];
    var ci := new real[m];
    ghost var a, b := View(ar, ai), View(br, bi);
    hide IsPow2;
    ok := ConvolveComplex(t, ar, ai, br, bi, cr, ci);
    if !ok {
      return false;
    }
    ConvolvedPow2(t, a, b);
    Demodulate(t, re, im, cr, ci, cosTable, sinTable);
    BluesteinOutput(t, x, a, b, View(re, im));
  }

  lemma ConvolvedPow2(t: Trig, a: seq<Complex>, b: seq<Complex>)
    requires t.Laws() && |a| == |b| && IsPow2(|a|)
    ensures Convolved(t, a, b) == ConvolutionAll(a, b)
  {
    ConvolvedIsConvolution(t, a, b);
  }

  lemma BluesteinOutput(t: Trig, x: seq<Complex>, a: seq<Complex>, b: seq<Complex>, y: seq<Complex>)
    requires |a| == |b| && |a| >= 2 * |x| > 0 && |y| == |x|
    requires IsPadded(t, x, a) && IsChirp(t, |x|, b)
    requires forall k | 0 <= k < |x| ::
        y[k] == Mul(Conj(ChirpAt(t, |x|, k)), ConvolutionAll(a, b)[k])
    ensures y == BluesteinAll(t, x)
  {
    hide Mul, Conj, ChirpAt, Sum, ChirpTerm, IsPadded, IsChirp, Convolution;
    forall k | 0 <= k < |x|
      ensures y[k] == BluesteinAt(t, x, k)
    {
      ConvolutionIsChirp(t, x, a, b, k);
    }
  }

  /** The arrays hold the chirp: cosine in one, sine in the other. */
  ghost predicate ChirpHeld(t: Trig, cosTable: array<real>, sinTable: array<real>)
    reads cosTable, sinTable
  {
    && cosTable.Length == sinTable.Length > 0
    && (forall i | 0 <= i < cosTable.Length :: Complex(cosTable[i], sinTable[i]) == ChirpAt(t, cosTable.Length, i))
  }

  method ChirpTables(t: Trig, n: nat) returns (cosTable: array<real>, sinTable: array<real>)
    requires n > 0
    ensures fresh(cosTable) && fresh(sinTable)
    ensures cosTable.Length == n && ChirpHeld(t, cosTable, sinTable)
    ensures forall i | 0 <= i < n ::
              && cosTable[i] == t.cos(ChirpAngle(t, n, Square(n, i)))
              && sinTable[i] == t.sin(ChirpAngle(t, n, Square(n, i)))
  {
    hide ChirpAngle, Square;
    cosTable := new real[n];
    sinTable := new real[n];
    for i := 0 to n
      invariant forall k | 0 <= k < i ::
          && cosTable[k] == t.cos(ChirpAngle(t, n, Square(n, k)))
          && sinTable[k] == t.sin(ChirpAngle(t, n, Square(n, k)))
    {
      var temp := i * i % TWO_64;
      temp := temp % (2 * n);
      var angle := t.pi * temp as real / n as real;
      AngleUsed(t, n, i, temp, angle);
      cosTable[i] := t.cos(angle);
      sinTable[i] := t.sin(angle);
    }
  }

  lemma AngleUsed(t: Trig, n: nat, i: nat, temp: nat, angle: real)
    requires n > 0 && temp == i * i % TWO_64 % (2 * n) && angle == t.pi * temp as real / n as real
    ensures angle == ChirpAngle(t, n, Square(n, i))
  {
  }

  lemma TimesConj(a: real, b: real, c: real, s: real)
    ensures Mul(Complex(a, b), Conj(Complex(c, s))) == Complex(a * c + b * s, -a * s + b * c)
  {
  }

  method Modulate(t: Trig, re: array<real>, im: array<real>, cosTable: array<real>, sinTable: array<real>, m: nat)
      returns (ar: array<real>, ai: array<real>)
    requires re.Length == im.Length == cosTable.Length <= m && ChirpHeld(t, cosTable, sinTable)
    ensures fresh(ar) && fresh(ai) && ar != ai && ar.Length == ai.Length == m
    ensures IsPadded(t, View(re, im), View(ar, ai))
  {
    hide Mul, Conj, ChirpAt, Modulated;
    var n := re.Length;
    ghost var x := View(re, im);
    ar := new real[m](_ => 0.0);
    ai := new real[m](_ => 0.0);
    for i := 0 to n
      invariant forall j | 0 <= j < i :: Complex(ar[j], ai[j]) == Modulated(t, x, j)
      invariant forall j | i <= j < m :: ar[j] == 0.0 && ai[j] == 0.0
    {
      var re1, im1 := re[i] * cosTable[i] + im[i] * sinTable[i], -re[i] * sinTable[i] + im[i] * cosTable[i];
      ModulatedAt(t, x, i, re[i], im[i], cosTable[i], sinTable[i]);
      ar[i], ai[i] := re1, im1;
    }
    forall j | n <= j < m ensures Modulated(t, x, j) == ZERO {
      ModulatedPast(t, x, j);
    }
  }

  lemma ModulatedAt(t: Trig, x: seq<Complex>, i: nat, a: real, b: real, c: real, s: real)
    requires i < |x| && x[i] == Complex(a, b) && ChirpAt(t, |x|, i) == Complex(c, s)
    ensures Modulated(t, x, i) == Complex(a * c + b * s, -a * s + b * c)
  {
    hide ChirpAt;
    TimesConj(a, b, c, s);
  }

  lemma ModulatedPast(t: Trig, x: seq<Complex>, j: nat)
    requires j >= |x|
    ensures Modulated(t, x, j) == ZERO
  {
  }

  lemma TableHeld(t: Trig, cosTable: array<real>, sinTable: array<real>)
    requires ChirpHeld(t, cosTable, sinTable)
    ensures cosTable.Length == sinTable.Length
    ensures forall i | 0 <= i < cosTable.Length ::
        View(cosTable, sinTable)[i] == ChirpAt(t, cosTable.Length, i)
  {
    hide ChirpAt;
  }

  lemma ChirpFilled(t: Trig, table: seq<Complex>, b: seq<Complex>)
    requires 0 < |table| && 2 * |table| <= |b|
    requires forall i | 0 <= i < |table| :: table[i] == ChirpAt(t, |table|, i)
    requires forall j | 0 <= j < |table| :: b[j] == table[j]
    requires forall j | |b| - |table| < j < |b| :: b[j] == table[|b| - j]
    ensures IsChirp(t, |table|, b)
  {
    hide ChirpAt;
  }

  /** Entry i of the tables goes to entries i and m - i. */
  method FillSymmetric(cosTable: array<real>, sinTable: array<real>, br: array<real>, bi: array<real>)
    requires 0 < cosTable.Length == sinTable.Length && 2 * cosTable.Length <= br.Length == bi.Length
    requires br != bi && {br, bi} !! {cosTable, sinTable}
    modifies br, bi
    ensures forall j | 0 <= j < cosTable.Length :: br[j] == cosTable[j] && bi[j] == sinTable[j]
    ensures forall j | br.Length - cosTable.Length < j < br.Length ::
        br[j] == cosTable[br.Length - j] && bi[j] == sinTable[br.Length - j]
  {
    var n, m := cosTable.Length, br.Length;
    br[0] := cosTable[0];
    bi[0] := sinTable[0];
    for i := 1 to n
      invariant forall j | 0 <= j < i :: br[j] == cosTable[j] && bi[j] == sinTable[j]
      invariant forall j | m - i < j < m :: br[j] == cosTable[m - j] && bi[j] == sinTable[m - j]
    {
      br[i], br[m - i] := cosTable[i], cosTable[i];
      bi[i], bi[m - i] := sinTable[i], sinTable[i];
    }
  }

  method ChirpVector(t: Trig, cosTable: array<real>, sinTable: array<real>, m: nat)
    returns (br: array<real>, bi: array<real>)
    requires cosTable.Length == sinTable.Length > 0
    requires ChirpHeld(t, cosTable, sinTable) && m >= 2 * cosTable.Length
    ensures fresh(br) && fresh(bi) && br != bi && br.Length == bi.Length == m
    ensures IsChirp(t, cosTable.Length, View(br, bi))
  {
    hide ChirpAt, IsChirp, ChirpHeld;
    TableHeld(t, cosTable, sinTable);
    ghost var table := View(cosTable, sinTable);
    br := new real[m](_ => 0.0);
    bi := new real[m](_ => 0.0);
    FillSymmetric(cosTable, sinTable, br, bi);
    ChirpFilled(t, table, View(br, bi));
  }

  method Demodulate(t: Trig, re: array<real>, im: array<real>, cr: array<real>, ci: array<real>,
                    cosTable: array<real>, sinTable: array<real>)
    requires re.Length == im.Length == cosTable.Length <= cr.Length == ci.Length && re != im
    requires {re, im} !! {cr, ci, cosTable, sinTable} && ChirpHeld(t, cosTable, sinTable)
    modifies re, im
    ensures forall k | 0 <= k < re.Length ::
        View(re, im)[k] == Mul(Conj(ChirpAt(t, re.Length, k)), View(cr, ci)[k])
  {
    hide Mul, Conj, ChirpAt;
    var n := re.Length;
    for i := 0 to n
      invariant ChirpHeld(t, cosTable, sinTable)
      invariant forall k | 0 <= k < i :: View(re, im)[k] == Mul(Conj(ChirpAt(t, n, k)), View(cr, ci)[k])
    {
      TimesConj(cr[i], ci[i], cosTable[i], sinTable[i]);
      MulComm(Complex(cr[i], ci[i]), Conj(Complex(cosTable[i], sinTable[i])));
      re[i] := cr[i] * cosTable[i] + ci[i] * sinTable[i];
      im[i] := -cr[i] * sinTable[i] + ci[i] * cosTable[i];
    }
  }
}
