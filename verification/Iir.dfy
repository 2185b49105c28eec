/** The recursive (IIR) reference filter of the filter-core test, over exact
    reals: a walk of four pointers against the difference equation. */
module Iir {
  import opened Common

  /** A signal is zero before its first and after its last sample. */
  function At(x: seq<real>, i: int): real {
    if 0 <= i < |x| then x[i] else 0.0
  }

  /** The first n taps of c applied to x at time m. */
  function Taps(c: seq<real>, x: seq<real>, m: int, n: nat): real
    requires n <= |c|
  {
    if n == 0 then 0.0 else Taps(c, x, m, n - 1) + c[n - 1] * At(x, m - (n - 1))
  }

  /** y answers x through the filter b / a: at every sample the feedback taps
      of y balance the feed-forward taps of x. */
  ghost predicate Filters(b: seq<real>, a: seq<real>, x: seq<real>, y: seq<real>) {
    && |y| == |x|
    && forall m :: 0 <= m < |x| ==> Taps(a, y, m, |a|) == Taps(b, x, m, |b|)
  }

  // ---------------------------------------------------------------- sums

  lemma {:induction false} TapsCong(c: seq<real>, x: seq<real>, y: seq<real>, m: int, n: nat)
    requires n <= |c|
    requires forall i :: i <= m ==> At(x, i) == At(y, i)
    ensures Taps(c, x, m, n) == Taps(c, y, m, n)
  {
    if n != 0 { TapsCong(c, x, y, m, n - 1); }
  }

  /** Taps that reach before the first sample add nothing. */
  lemma {:induction false} TapsBefore(c: seq<real>, x: seq<real>, m: nat, k: nat, n: nat)
    requires k <= n <= |c| && m < k
    ensures Taps(c, x, m, n) == Taps(c, x, m, k)
  {
    if k < n {
      TapsBefore(c, x, m, k, n - 1);
      assert At(x, m - (n - 1)) == 0.0;
    }
  }

  /** A new last sample is seen by the first tap alone. */
  lemma {:induction false} TapsExtend(c: seq<real>, y: seq<real>, v: real, n: nat)
    requires 0 < n <= |c|
    ensures Taps(c, y + [v], |y|, n) == Taps(c, y, |y|, n) + c[0] * v
  {
    if n == 1 {
      assert Taps(c, y + [v], |y|, 0) == 0.0 && Taps(c, y, |y|, 0) == 0.0;
    } else {
      TapsExtend(c, y, v, n - 1);
    }
  }

  function Blend(p: real, s: real, q: real, t: real): real {
    p * s + q * t
  }

  function Mix(p: real, x: seq<real>, q: real, y: seq<real>): seq<real>
    requires |x| == |y|
  {
    seq(|x|, i requires 0 <= i < |x| => Blend(p, x[i], q, y[i]))
  }

  lemma MixAt(p: real, x: seq<real>, q: real, y: seq<real>, i: int)
    requires |x| == |y|
    ensures At(Mix(p, x, q, y), i) == Blend(p, At(x, i), q, At(y, i))
  {
    if !(0 <= i < |x|) { assert Blend(p, 0.0, q, 0.0) == 0.0; }
  }

  lemma BlendStep(c: real, p: real, s: real, u: real, q: real, t: real, v: real)
    ensures Blend(p, s, q, t) + c * Blend(p, u, q, v) == Blend(p, s + c * u, q, t + c * v)
  {
  }

  lemma {:induction false} TapsMix(c: seq<real>, p: real, x: seq<real>, q: real, y: seq<real>, m: int, n: nat)
    requires |x| == |y| && n <= |c|
    ensures Taps(c, Mix(p, x, q, y), m, n) == Blend(p, Taps(c, x, m, n), q, Taps(c, y, m, n))
  {
    if n == 0 {
      assert Blend(p, 0.0, q, 0.0) == 0.0;
    } else {
      hide Blend;
      hide At;
      TapsMix(c, p, x, q, y, m, n - 1);
      var i := m - (n - 1);
      MixAt(p, x, q, y, i);
      BlendStep(c[n - 1], p, Taps(c, x, m, n - 1), At(x, i), q, Taps(c, y, m, n - 1), At(y, i));
    }
  }

  lemma {:induction false} TapsDelay(c: seq<real>, d: nat, x: seq<real>, m: int, n: nat)
    requires n <= |c|
    ensures Taps(c, Delayed(d, x), m + d, n) == Taps(c, x, m, n)
  {
    if n != 0 {
      TapsDelay(c, d, x, m, n - 1);
      assert At(Delayed(d, x), m + d - (n - 1)) == At(x, m - (n - 1));
    }
  }

  function Delayed(d: nat, x: seq<real>): seq<real> {
    seq(d, _ => 0.0) + x
  }

  // ------------------------------------------------------- what it means

  lemma SameStart(x: seq<real>, u: seq<real>, n: nat)
    requires n <= |x| && n <= |u| && x[..n] == u[..n]
    ensures forall i | i < n :: At(x, i) == At(u, i)
  {
    forall i | 0 <= i < n
      ensures x[i] == u[i]
    {
      assert x[..n][i] == u[..n][i];
    }
  }

  lemma PrefixAt(y: seq<real>, past: seq<real>, m: nat)
    requires m < |y| && past == y[..m]
    ensures forall i | i <= m :: At(past + [y[m]], i) == At(y, i)
  {
  }

  /** The equation has one solution, and the part of it up to a time depends
      only on the input up to that time. */
  lemma {:induction false} Causal(b: seq<real>, a: seq<real>, x: seq<real>, y: seq<real>,
                                  u: seq<real>, v: seq<real>, n: nat)
    requires |a| > 0 && a[0] != 0.0
    requires Filters(b, a, x, y) && Filters(b, a, u, v)
    requires n <= |x| && n <= |u| && x[..n] == u[..n]
    ensures y[..n] == v[..n]
  {
    if n != 0 {
      var m := n - 1;
      assert x[..m] == x[..n][..m] && u[..m] == u[..n][..m];
      Causal(b, a, x, y, u, v, m);
      var past := y[..m];
      SameStart(x, u, n);
      TapsCong(b, x, u, m, |b|);
      assert past + [y[m]] == y[..n] && past + [v[m]] == v[..n];
      NewestIs(b, a, x, y, past, m);
      NewestIs(b, a, u, v, past, m);
      hide Taps, Filters;
      Cancel(a[0], y[m], v[m], Taps(b, x, m, |b|) - Taps(a, past, m, |a|));
    }
  }

  /** The newest output balances what the inputs and the earlier outputs contribute. */
  lemma NewestIs(b: seq<real>, a: seq<real>, x: seq<real>, y: seq<real>, past: seq<real>, m: nat)
    requires |a| > 0 && Filters(b, a, x, y) && m < |x| && past == y[..m]
    ensures a[0] * y[m] == Taps(b, x, m, |b|) - Taps(a, past, m, |a|)
  {
    assert Taps(a, y, m, |a|) == Taps(b, x, m, |b|);
    hide Taps, Filters;
    NewestTap(a, y, past, m);
  }

  lemma NewestTap(a: seq<real>, y: seq<real>, past: seq<real>, m: nat)
    requires |a| > 0 && m < |y| && past == y[..m]
    ensures Taps(a, y, m, |a|) == Taps(a, past, m, |a|) + a[0] * y[m]
  {
    PrefixAt(y, past, m);
    hide Taps, At;
    TapsCong(a, y, past + [y[m]], m, |a|);
    TapsExtend(a, past, y[m], |a|);
  }

  lemma Cancel(c: real, s: real, t: real, p: real)
    requires c != 0.0 && c * s == p && c * t == p
    ensures s == t
  {
    assert c * (s - t) == 0.0;
  }

  lemma Unique(b: seq<real>, a: seq<real>, x: seq<real>, y: seq<real>, z: seq<real>)
    requires |a| > 0 && a[0] != 0.0
    requires Filters(b, a, x, y) && Filters(b, a, x, z)
    ensures y == z
  {
    Causal(b, a, x, y, x, z, |x|);
    assert y[..|x|] == y && z[..|x|] == z;
  }

  lemma Linear(b: seq<real>, a: seq<real>, p: real, x: seq<real>, y: seq<real>,
               q: real, u: seq<real>, v: seq<real>)
    requires |x| == |u| && Filters(b, a, x, y) && Filters(b, a, u, v)
    ensures Filters(b, a, Mix(p, x, q, u), Mix(p, y, q, v))
  {
    forall m | 0 <= m < |x|
      ensures Taps(a, Mix(p, y, q, v), m, |a|) == Taps(b, Mix(p, x, q, u), m, |b|)
    {
      TapsMix(a, p, y, q, v, m, |a|);
      TapsMix(b, p, x, q, u, m, |b|);
    }
  }

  lemma TimeInvariant(b: seq<real>, a: seq<real>, d: nat, x: seq<real>, y: seq<real>)
    requires Filters(b, a, x, y)
    ensures Filters(b, a, Delayed(d, x), Delayed(d, y))
  {
    forall m | 0 <= m < d + |x|
      ensures Taps(a, Delayed(d, y), m, |a|) == Taps(b, Delayed(d, x), m, |b|)
    {
      TapsDelay(a, d, y, m - d, |a|);
      TapsDelay(b, d, x, m - d, |b|);
      if m < d {
        Silent(a, y, m - d, |a|);
        Silent(b, x, m - d, |b|);
      }
    }
  }

  lemma {:induction false} Silent(c: seq<real>, x: seq<real>, m: int, n: nat)
    requires n <= |c| && m < 0
    ensures Taps(c, x, m, n) == 0.0
  {
    if n != 0 { Silent(c, x, m, n - 1); }
  }

  /** Filtering with the two coefficient lists exchanged undoes the filter. */
  lemma ExchangedUndoes(b: seq<real>, a: seq<real>, x: seq<real>, y: seq<real>, z: seq<real>)
    requires |b| > 0 && b[0] != 0.0
    requires Filters(b, a, x, y) && Filters(a, b, y, z)
    ensures z == x
  {
    assert Filters(a, b, y, x);
    Unique(a, b, y, z, x);
  }

  lemma {:induction false} TapsIsSum(c: seq<real>, x: seq<real>, m: int, n: nat)
    requires n <= |c|
    ensures Taps(c, x, m, n) == RealSum(k => At(c, k) * At(x, m - k), n)
  {
    if n != 0 {
      TapsIsSum(c, x, m, n - 1);
    }
  }

  lemma {:induction false} FirstSplit(f: int -> real, rest: int -> real, n: nat)
    requires n > 0 && (forall k | 0 <= k < n - 1 :: rest(k) == f(k + 1))
    ensures RealSum(f, n) == f(0) + RealSum(rest, n - 1)
  {
    if n > 1 {
      FirstSplit(f, rest, n - 1);
    }
  }

  /** The difference equation at one sample: the newest output times the first feedback
      coefficient is the sum of the feed-forward products less the sum of the products with
      earlier outputs. */
  lemma Recurrence(b: seq<real>, a: seq<real>, x: seq<real>, y: seq<real>, m: nat)
    requires Filters(b, a, x, y) && m < |x| && |a| > 0
    ensures a[0] * y[m] == RealSum(k => At(b, k) * At(x, m - k), |b|)
                           - RealSum(k => At(a, k + 1) * At(y, m - 1 - k), |a| - 1)
  {
    TapsIsSum(b, x, m, |b|);
    TapsIsSum(a, y, m, |a|);
    Newest(a, y, m);
    hide Taps, At, RealSum;
  }

  lemma Newest(a: seq<real>, y: seq<real>, m: nat)
    requires |a| > 0 && m < |y|
    ensures RealSum(k => At(a, k) * At(y, m - k), |a|)
         == a[0] * y[m] + RealSum(k => At(a, k + 1) * At(y, m - 1 - k), |a| - 1)
  {
    hide RealSum;
    var f, rest := k => At(a, k) * At(y, m - k), k => At(a, k + 1) * At(y, m - 1 - k);
    forall k | 0 <= k < |a| - 1
      ensures rest(k) == f(k + 1)
    {
      SameProduct(a, y, m, k);
    }
    FirstSplit(f, rest, |a|);
    assert At(a, 0) == a[0] && At(y, m - 0) == y[m];
  }

  lemma SameProduct(a: seq<real>, y: seq<real>, m: nat, k: int)
    ensures At(a, k + 1) * At(y, m - 1 - k) == At(a, k + 1) * At(y, m - (k + 1))
  {
  }

  // ------------------------------------------------------- pointer walk

  /** The pointers are indices into the arrays they walk. */
  method DoFilter(b: array<real>, a: array<real>, filterLength: nat, input: array<real>, out: array<real>, length: nat)
    requires 1 <= filterLength <= a.Length && filterLength <= b.Length
    requires length <= input.Length && length <= out.Length
    requires a[0] != 0.0
    requires out != a && out != b && out != input
    modifies out
    ensures Filters(b[..filterLength], a[..filterLength], input[..length], out[..length])
    ensures out[length..] == old(out[length..])
  {
    ghost var bs, as_, x := b[..filterLength], a[..filterLength], input[..length];
    var a0 := a[0];
    var aEnd := filterLength - 1;
    var inAt, outAt: int := 0, -1;
    assert Filters(bs, as_, x[..0], out[..0]);
    hide Filters;
    for m := 0 to length
      invariant inAt == m && outAt == m - 1
      invariant Filters(bs, as_, x[..m], out[..m])
      invariant out[length..] == old(out[length..])
    {
      ghost var past := out[..m];
      var bMacc, inMacc := 0, inAt;
      var aMacc, outMacc := 1, outAt;
      var bAcc := input[inMacc] * b[bMacc];
      inMacc, bMacc := inMacc - 1, bMacc + 1;
      var aAcc := 0.0;
      FirstTap(bs, x, m);
      FirstTap(as_, past, m);
      while aMacc <= aEnd && outMacc >= 0
        invariant 1 <= aMacc == bMacc <= filterLength && outMacc == inMacc == m - aMacc >= -1
        invariant bAcc == Taps(bs, x, m, aMacc)
        invariant aAcc == Taps(as_, past, m, aMacc)
        decreases outMacc
      {
        bAcc := bAcc + input[inMacc] * b[bMacc];
        inMacc, bMacc := inMacc - 1, bMacc + 1;
        aAcc := aAcc + out[outMacc] * a[aMacc];
        outMacc, aMacc := outMacc - 1, aMacc + 1;
      }
      if aMacc < filterLength {
        TapsBefore(bs, x, m, aMacc, filterLength);
        TapsBefore(as_, past, m, aMacc, filterLength);
      }
      outAt := outAt + 1;
      out[outAt] := (bAcc - aAcc) / a0;
      inAt := inAt + 1;
      assert out[..m + 1] == past + [out[m]];
      Quotient(bAcc - aAcc, a0);
      hide Taps;
      Extend(bs, as_, x, past, out[m], m);
    }
    assert x[..length] == x;
  }

  lemma Quotient(s: real, c: real)
    requires c != 0.0
    ensures c * (s / c) == s
  {
  }

  lemma FirstTap(c: seq<real>, x: seq<real>, m: nat)
    requires |c| > 0
    ensures Taps(c, x, m, 1) == At(x, m) * c[0]
  {
    assert Taps(c, x, m, 0) == 0.0;
  }

  /** One more sample that balances the equation at its own time. */
  lemma Extend(b: seq<real>, a: seq<real>, x: seq<real>, y: seq<real>, v: real, m: nat)
    requires |a| > 0 && m == |y| < |x|
    requires Filters(b, a, x[..m], y)
    requires a[0] * v == Taps(b, x, m, |b|) - Taps(a, y, m, |a|)
    ensures Filters(b, a, x[..m + 1], y + [v])
  {
    var x1 := x[..m + 1];
    forall i | 0 <= i < m + 1 ensures Taps(a, y + [v], i, |a|) == Taps(b, x1, i, |b|) {
      if i < m {
        TapsCong(a, y + [v], y, i, |a|);
        TapsCong(b, x1, x[..m], i, |b|);
      } else {
        TapsExtend(a, y, v, |a|);
        TapsCong(b, x1, x, i, |b|);
      }
    }
  }
}
