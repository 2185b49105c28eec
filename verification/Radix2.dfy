/** The in-place radix-2 Cooley-Tukey transform: bit-reversal permutation followed by stages
    of butterflies over two real arrays, proved to leave the defining sum in the arrays. */
module Radix2 {
  import opened Arithmetic
  import opened Bits
  import opened Complexes
  import opened Fourier
  import opened FourierTheory
  import opened RealSums
  import opened Trigonometry

  const SIZE_MAX: nat := 0xFFFF_FFFF_FFFF_FFFF
  const SIZEOF_DOUBLE: nat := 8

  /** The complex vector held by a pair of arrays. */
  ghost function View(re: array<real>, im: array<real>): (v: seq<Complex>)
    requires re.Length == im.Length
    reads re, im
    ensures |v| == re.Length
    ensures forall i | 0 <= i < |v| :: v[i] == Complex(re[i], im[i])
  {
    seq(re.Length, i requires 0 <= i < re.Length reads re, im => Complex(re[i], im[i]))
  }

  // ---------------------------------------------------------------- stages

  /** What position p holds once blocks of the given size are transformed, with 2^m blocks in
      all: entry p % size of the transform of the subsequence with stride 2^m that starts at
      the reversed block number. */
  ghost function Out(t: Trig, x: seq<Complex>, m: nat, size: nat, p: nat): Complex
    requires size > 0
  {
    Strided(t, x, Rev(p / size, m), Pow2(m), size, p % size)
  }

  lemma OutFirst(t: Trig, x: seq<Complex>, m: nat, p: nat)
    requires t.Laws() && |x| == Pow2(m) && p < |x|
    ensures Out(t, x, m, 1, p) == x[Rev(p, m)]
  {
    assert p / 1 == p && p % 1 == 0;
    hide Rev, Mul, t.Root, t.Laws;
    var f := Term(t, x, Rev(p, m), Pow2(m), 1, 0);
    RootZero(t, 1);
    MulOne(x[Rev(p, m)]);
    assert Sum(f, 1) == Add(Sum(f, 0), f(0));
  }

  lemma OutLast(t: Trig, x: seq<Complex>, p: nat)
    requires p < |x|
    ensures Out(t, x, 0, |x|, p) == Dft(t, x, p)
  {
    ModUnique(p, |x|, 0, p);
    assert Pow2(0) == 1;
  }

  lemma BlockIndex(h: nat, b: nat, k: nat)
    requires k < h
    ensures var p := b * (2 * h) + k;
            && p / h == 2 * b && p % h == k
            && (p + h) / h == 2 * b + 1 && (p + h) % h == k
            && p / (2 * h) == b && p % (2 * h) == k
            && (p + h) / (2 * h) == b && (p + h) % (2 * h) == k + h
  {
    var p := b * (2 * h) + k;
    assert b * (2 * h) == h * (2 * b) == 2 * h * b;
    assert h * (2 * b + 1) == h * (2 * b) + h;
    ModUnique(p, h, 2 * b, k);
    ModUnique(p + h, h, 2 * b + 1, k);
    ModUnique(p, 2 * h, b, k);
    ModUnique(p + h, 2 * h, b, k + h);
  }

  lemma RevPair(b: nat, m: nat)
    ensures Rev(2 * b, m + 1) == Rev(b, m)
    ensures Rev(2 * b + 1, m + 1) == Rev(b, m) + Pow2(m)
    ensures Pow2(m + 1) == 2 * Pow2(m)
  {
    assert 2 * b / 2 == b && 2 * b % 2 == 0 && (2 * b + 1) / 2 == b && (2 * b + 1) % 2 == 1;
  }

  /** One butterfly on entry k of block b. */
  lemma OutStep(t: Trig, x: seq<Complex>, m: nat, h: nat, b: nat, k: nat)
    requires t.Laws() && k < h
    ensures var p := b * (2 * h) + k;
            var w := Mul(t.Root(2 * h, k), Out(t, x, m + 1, h, p + h));
            && Out(t, x, m, 2 * h, p) == Add(Out(t, x, m + 1, h, p), w)
            && Out(t, x, m, 2 * h, p + h) == Sub(Out(t, x, m + 1, h, p), w)
  {
    hide Rev, Pow2, Strided, Mul, t.Root, t.Laws;
    RevPair(b, m);
    BlockIndex(h, b, k);
    Butterfly(t, x, Rev(b, m), Pow2(m), h, k);
  }

  /** w is v with the block of length 2h at position i combined. */
  ghost predicate Combined(t: Trig, v: seq<Complex>, w: seq<Complex>, i: nat, h: nat)
    requires h > 0
  {
    && |v| == |w| && i + 2 * h <= |v|
    && (forall p | i <= p < i + h :: w[p] == Add(v[p], Mul(t.Root(2 * h, p - i), v[p + h])))
    && (forall p | i + h <= p < i + 2 * h :: w[p] == Sub(v[p - h], Mul(t.Root(2 * h, p - h - i), v[p])))
    && (forall p | 0 <= p < i || i + 2 * h <= p < |v| :: w[p] == v[p])
  }

  /** Positions below i belong to combined blocks of size 2h, the others to blocks of size h. */
  ghost predicate Progress(t: Trig, x: seq<Complex>, m: nat, h: nat, v: seq<Complex>, i: nat)
    requires h > 0
  {
    && |v| == |x|
    && (forall p | 0 <= p < i && p < |v| :: v[p] == Out(t, x, m, 2 * h, p))
    && (forall p | i <= p < |v| :: v[p] == Out(t, x, m + 1, h, p))
  }

  lemma BlockDone(t: Trig, x: seq<Complex>, m: nat, h: nat, v: seq<Complex>, w: seq<Complex>, b: nat, i: nat)
    requires t.Laws() && h > 0 && i == b * (2 * h)
    requires Combined(t, v, w, i, h)
    requires Progress(t, x, m, h, v, i)
    ensures Progress(t, x, m, h, w, i + 2 * h)
  {
    hide Out, Mul, t.Root, t.Laws;
    forall p | i <= p < i + 2 * h
      ensures w[p] == Out(t, x, m, 2 * h, p)
    {
      var k := if p < i + h then p - i else p - h - i;
      OutStep(t, x, m, h, b, k);
      assert v[i + k] == Out(t, x, m + 1, h, i + k);
      assert v[i + k + h] == Out(t, x, m + 1, h, i + k + h);
    }
  }

  // ---------------------------------------------------------------- code

  method ReverseBits(x: nat, n: nat) returns (result: nat)
    ensures result == Rev(x, n)
  {
    result := 0;
    var rest := x;
    for i := 0 to n
      invariant result == Rev(x, i)
      invariant rest == Shr(x, i)
    {
      RevTop(x, i);
      ShrMore(x, i);
      result, rest := 2 * result + rest % 2, rest / 2;
    }
  }

  /** The tables of a transform of length n: cosine and sine of the first n / 2 steps. */
  method TrigTables(t: Trig, n: nat) returns (cosTable: array<real>, sinTable: array<real>)
    requires n > 0
    ensures fresh(cosTable) && fresh(sinTable)
    ensures cosTable.Length == sinTable.Length == n / 2
    ensures forall i | 0 <= i < n / 2 :: Complex(cosTable[i], -sinTable[i]) == t.Root(n, i)
    ensures forall i | 0 <= i < n / 2 ::
              cosTable[i] == t.cos(t.Angle(n, i)) && sinTable[i] == t.sin(t.Angle(n, i))
  {
    cosTable := new real[n / 2];
    sinTable := new real[n / 2];
    for i := 0 to n / 2
      invariant forall k | 0 <= k < i ::
          cosTable[k] == t.cos(t.Angle(n, k)) && sinTable[k] == t.sin(t.Angle(n, k))
    {
      var angle := 2.0 * t.pi * i as real / n as real;
      assert angle == t.Angle(n, i);
      cosTable[i] := t.cos(angle);
      sinTable[i] := t.sin(angle);
    }
  }

  /** The bit-reversed addressing permutation. */
  method Permute(re: array<real>, im: array<real>, levels: nat)
    requires re.Length == im.Length == Pow2(levels) && re != im
    modifies re, im
    ensures forall p | 0 <= p < re.Length :: View(re, im)[p] == old(View(re, im))[Rev(p, levels)]
  {
    ghost var x := View(re, im);
    for i := 0 to re.Length
      invariant forall p | 0 <= p < re.Length ::
          View(re, im)[p] == if p < i || Rev(p, levels) < i then x[Rev(p, levels)] else x[p]
    {
      var j := ReverseBits(i, levels);
      RevRev(i, levels);
      forall p | 0 <= p < re.Length
        ensures Rev(Rev(p, levels), levels) == p
      {
        RevRev(p, levels);
      }
      hide Rev;
      if j > i {
        ghost var v := View(re, im);
        assert v[i] == x[i] && v[j] == x[j];
        var temp := re[i];
        re[i] := re[j];
        re[j] := temp;
        temp := im[i];
        im[i] := im[j];
        im[j] := temp;
        assert View(re, im) == v[i := x[j]][j := x[i]];
      }
    }
  }

  lemma Twiddle(re: real, im: real, c: real, s: real)
    ensures Mul(Complex(c, -s), Complex(re, im)) == Complex(re * c + im * s, -re * s + im * c)
  {
  }

  /** A single butterfly on entries j and l with twiddle factor c - i s. */
  method ButterflyAt(re: array<real>, im: array<real>, j: nat, l: nat, c: real, s: real)
    requires re.Length == im.Length && re != im
    requires j < l < re.Length
    modifies re, im
    ensures var v := old(View(re, im));
            var z := Mul(Complex(c, -s), v[l]);
            View(re, im) == v[l := Sub(v[j], z)][j := Add(v[j], z)]
  {
    hide Mul;
    ghost var v := View(re, im);
    ghost var z := Mul(Complex(c, -s), v[l]);
    var tpre := re[l] * c + im[l] * s;
    var tpim := -re[l] * s + im[l] * c;
    assert Complex(tpre, tpim) == z by {
      assert v[l] == Complex(re[l], im[l]);
      Twiddle(re[l], im[l], c, s);
    }
    re[l] := re[j] - tpre;
    im[l] := im[j] - tpim;
    re[j] := re[j] + tpre;
    im[j] := im[j] + tpim;
    assert View(re, im) == v[l := Sub(v[j], z)][j := Add(v[j], z)];
  }

  /** One block of butterflies, at position i with half length h. */
  method CombineBlock(t: Trig, re: array<real>, im: array<real>,
                      cosTable: array<real>, sinTable: array<real>, i: nat, h: nat, tableStep: nat)
    requires re.Length == im.Length && re != im && cosTable.Length == sinTable.Length
    requires {cosTable, sinTable} !! {re, im}
    requires h > 0 && i + 2 * h <= re.Length
    requires forall k | 0 <= k < h :: 0 <= k * tableStep < cosTable.Length
    requires forall k | 0 <= k < h ::
        Complex(cosTable[k * tableStep], -sinTable[k * tableStep]) == t.Root(2 * h, k)
    modifies re, im
    ensures Combined(t, old(View(re, im)), View(re, im), i, h)
  {
    hide t.Root, Mul, View, Add, Sub, Partly;
    ghost var v := View(re, im);
    var j, k := i, 0;
    NothingCombined(t, v, i, h);
    while j < i + h
      invariant i <= j <= i + h && k == (j - i) * tableStep
      invariant Partly(t, v, View(re, im), i, h, j - i)
    {
      ghost var u := View(re, im);
      ButterflyAt(re, im, j, j + h, cosTable[k], sinTable[k]);
      PartlyStep(t, v, u, View(re, im), i, h, j - i);
      NextIndex(j - i, tableStep);
      j, k := j + 1, k + tableStep;
    }
    AllCombined(t, v, View(re, im), i, h);
  }

  /** w is v with the first d butterflies of the block at position i done. */
  ghost predicate Partly(t: Trig, v: seq<Complex>, w: seq<Complex>, i: nat, h: nat, d: nat)
    requires h > 0
  {
    && |v| == |w| && i + 2 * h <= |v| && d <= h
    && (forall p | i <= p < i + d :: w[p] == Add(v[p], Mul(t.Root(2 * h, p - i), v[p + h])))
    && (forall p | i + h <= p < i + h + d :: w[p] == Sub(v[p - h], Mul(t.Root(2 * h, p - h - i), v[p])))
    && (forall p | 0 <= p < i || i + d <= p < i + h || i + h + d <= p < |v| :: w[p] == v[p])
  }

  lemma NothingCombined(t: Trig, v: seq<Complex>, i: nat, h: nat)
    requires h > 0 && i + 2 * h <= |v|
    ensures Partly(t, v, v, i, h, 0)
  {
  }

  lemma PartlyStep(t: Trig, v: seq<Complex>, u: seq<Complex>, w: seq<Complex>, i: nat, h: nat, d: nat)
    requires h > 0 && Partly(t, v, u, i, h, d) && d < h
    requires var z := Mul(t.Root(2 * h, d), u[i + d + h]);
             w == u[i + d + h := Sub(u[i + d], z)][i + d := Add(u[i + d], z)]
    ensures Partly(t, v, w, i, h, d + 1)
  {
    hide t.Root, Mul, Add, Sub;
    assert u[i + d] == v[i + d] && u[i + d + h] == v[i + d + h];
  }

  lemma AllCombined(t: Trig, v: seq<Complex>, w: seq<Complex>, i: nat, h: nat)
    requires h > 0 && Partly(t, v, w, i, h, h)
    ensures Combined(t, v, w, i, h)
  {
    hide t.Root, Mul, Add, Sub;
  }

  lemma NextIndex(k: nat, step: nat)
    ensures (k + 1) * step == k * step + step
  {
  }

  lemma TableIndex(t: Trig, n: nat, size: nat, h: nat, tableStep: nat, k: nat)
    requires size == 2 * h && n == size * tableStep && k < h && tableStep > 0
    ensures 0 <= k * tableStep < n / 2
    ensures t.Root(n, k * tableStep) == t.Root(size, k)
  {
    hide t.Root;
    MulMono(k + 1, h, tableStep);
    assert tableStep * (k + 1) == k * tableStep + tableStep;
    assert n == 2 * (tableStep * h);
    assert tableStep * size == n && tableStep * k == k * tableStep;
    RootScale(t, tableStep, size, k);
  }

  /** One stage: all blocks of the given size. */
  method Stage(t: Trig, re: array<real>, im: array<real>, cosTable: array<real>, sinTable: array<real>,
               size: nat, ghost x: seq<Complex>, ghost m: nat)
    requires t.Laws()
    requires re.Length == im.Length == |x| && re != im
    requires cosTable.Length == sinTable.Length == re.Length / 2
    requires {cosTable, sinTable} !! {re, im}
    requires size > 0 && size % 2 == 0 && re.Length == size * Pow2(m)
    requires forall i | 0 <= i < re.Length / 2 :: Complex(cosTable[i], -sinTable[i]) == t.Root(re.Length, i)
    requires forall p | 0 <= p < re.Length :: View(re, im)[p] == Out(t, x, m + 1, size / 2, p)
    modifies re, im
    ensures forall p | 0 <= p < re.Length :: View(re, im)[p] == Out(t, x, m, size, p)
  {
    hide Out, t.Root, Pow2;
    var n, h := re.Length, size / 2;
    var tableStep := n / size;
    ModUnique(n, size, Pow2(m), 0);
    forall k | 0 <= k < h
      ensures 0 <= k * tableStep < n / 2
      ensures Complex(cosTable[k * tableStep], -sinTable[k * tableStep]) == t.Root(size, k)
    {
      TableIndex(t, n, size, h, tableStep, k);
    }
    var i: nat := 0;
    ghost var b: nat := 0;
    while i < n
      invariant i == b * size && b <= Pow2(m)
      invariant Progress(t, x, m, h, View(re, im), i)
    {
      BlockFits(b, size, Pow2(m));
      ghost var v := View(re, im);
      CombineBlock(t, re, im, cosTable, sinTable, i, h, tableStep);
      BlockDone(t, x, m, h, v, View(re, im), b, i);
      i, b := i + size, b + 1;
    }
  }

  lemma BlockFits(b: nat, size: nat, blocks: nat)
    requires b <= blocks && b * size < size * blocks
    ensures b < blocks && b * size + size == (b + 1) * size <= size * blocks
  {
    assert b < blocks;
    MulMono(b + 1, blocks, size);
  }

  /** Succeeds exactly on powers of two, and then the arrays hold the transform of their
      old contents; otherwise they are untouched. */
  method TransformRadix2(t: Trig, re: array<real>, im: array<real>) returns (ok: bool)
    requires t.Laws()
    requires re.Length == im.Length && re != im
    modifies re, im
    ensures ok <==> IsPow2(re.Length) && re.Length / 2 <= SIZE_MAX / SIZEOF_DOUBLE
    ensures View(re, im) == if ok then DftAll(t, old(View(re, im))) else old(View(re, im))
    ensures ok ==> HoldsForward(t, old(View(re, im)), re[..], im[..])
  {
    hide HoldsForward;
    var n := re.Length;
    var levels := Levels(n);
    if Pow2(levels) != n {
      return false;
    }
    if SIZE_MAX / SIZEOF_DOUBLE < n / 2 {
      return false;
    }
    var cosTable, sinTable := TrigTables(t, n);
    ghost var x := View(re, im);
    Permute(re, im, levels);
    Stages(t, re, im, cosTable, sinTable, x, levels);
    ForwardHeld(t, x, re[..], im[..]);
    return true;
  }

  /** All stages, from blocks of one entry to a single block. */
  method Stages(t: Trig, re: array<real>, im: array<real>, cosTable: array<real>, sinTable: array<real>,
                ghost x: seq<Complex>, ghost levels: nat)
    requires t.Laws()
    requires re.Length == im.Length == |x| == Pow2(levels) && re != im
    requires cosTable.Length == sinTable.Length == re.Length / 2
    requires {cosTable, sinTable} !! {re, im}
    requires forall i | 0 <= i < re.Length / 2 :: Complex(cosTable[i], -sinTable[i]) == t.Root(re.Length, i)
    requires forall p | 0 <= p < re.Length :: View(re, im)[p] == x[Rev(p, levels)]
    modifies re, im
    ensures forall p | 0 <= p < re.Length :: View(re, im)[p] == Dft(t, x, p)
  {
    hide Out, t.Root, Rev, Dft, View, Pow2, t.Laws;
    var n := re.Length;
    forall p | 0 <= p < n
      ensures View(re, im)[p] == Out(t, x, levels, 1, p)
    {
      OutFirst(t, x, levels, p);
    }
    var size: nat := 2;
    ghost var m, h: nat := levels, 1;
    while size <= n
      invariant size == 2 * h && h > 0 && n == h * Pow2(m)
      invariant forall p | 0 <= p < n :: View(re, im)[p] == Out(t, x, m, h, p)
    {
      MoreLevels(n, h, m);
      m := m - 1;
      Stage(t, re, im, cosTable, sinTable, size, x, m);
      h := size;
      if size == n {
        break;
      }
      size := 2 * size;
    }
    LastLevel(n, h, m);
    forall p | 0 <= p < n
      ensures View(re, im)[p] == Dft(t, x, p)
    {
      OutLast(t, x, p);
    }
  }

  lemma MoreLevels(n: nat, h: nat, m: nat)
    requires 0 < 2 * h <= n && n == h * Pow2(m)
    ensures m > 0 && n == 2 * h * Pow2(m - 1)
  {
    assert m == 0 ==> h * Pow2(m) == h;
    if m > 0 {
      TimesPow2(h, m);
    }
  }

  lemma LastLevel(n: nat, h: nat, m: nat)
    requires 0 < n < 2 * h && n == h * Pow2(m)
    ensures m == 0 && h == n
  {
    if m > 0 {
      TimesPow2(h, m);
    }
  }

  lemma TimesPow2(size: nat, m: nat)
    requires m > 0
    ensures size * Pow2(m) == 2 * (size * Pow2(m - 1)) >= 2 * size
  {
    MulMono(1, Pow2(m - 1), if size > 0 then size else 1);
  }

  /** floor(log2 n), or 0 for n = 0. */
  method Levels(n: nat) returns (levels: nat)
    ensures Pow2(levels) == n <==> IsPow2(n)
  {
    var temp := n;
    levels := 0;
    while temp > 1
      invariant if n == 0 then temp == 0 && levels == 0 else temp > 0
      invariant Pow2(levels) * temp <= n < Pow2(levels) * (temp + 1)
    {
      HalveStep(Pow2(levels), temp);
      levels, temp := levels + 1, temp / 2;
    }
    if Pow2(levels) != n {
      PowerBetween(n, levels);
    }
  }

  lemma HalveStep(power: nat, temp: nat)
    ensures 2 * power * (temp / 2) <= power * temp
    ensures power * (temp + 1) <= 2 * power * (temp / 2 + 1)
  {
    assert power * temp == 2 * power * (temp / 2) + power * (temp % 2);
    assert power * (temp + 1) == power * temp + power;
    assert 2 * power * (temp / 2 + 1) == 2 * power * (temp / 2) + 2 * power;
    assert power * (temp % 2) <= power;
  }

  lemma PowerBetween(n: nat, k: nat)
    requires n == 0 || Pow2(k) < n < 2 * Pow2(k)
    ensures !IsPow2(n)
  {
    forall j: nat
      ensures n != Pow2(j)
    {
      if j <= k {
        Pow2Mono(j, k);
      } else {
        Pow2Mono(k + 1, j);
      }
    }
  }
}
