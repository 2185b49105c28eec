/** Blocks of sixteen bytes as 128-bit numbers, the form in which the emulator takes and
    returns them. */
module BlockText {
  import opened Arithmetic
  import opened Common
  import opened Rounds

  /** The n low bytes of a number, most significant first. */
  function BytesOf(text: nat, n: nat): (b: seq<bv8>)
    ensures |b| == n
  {
    if n == 0 then [] else BytesOf(text / 256, n - 1) + [(text % 256) as bv8]
  }

  function NumberOf(b: seq<bv8>): nat {
    if b == [] then 0 else 256 * NumberOf(b[..|b| - 1]) + b[|b| - 1] as nat
  }

  lemma NumberAppend(b: seq<bv8>, x: bv8)
    ensures NumberOf(b + [x]) == 256 * NumberOf(b) + x as nat
  {
    assert (b + [x])[..|b|] == b;
  }

  lemma NextByte(y: bv8)
    requires y != 255
    ensures (y + 1) as nat == y as nat + 1
  {
  }

  /** Every number below 256 is the value of a byte. */
  lemma ByteFor(x: nat) returns (y: bv8)
    requires x < 256
    ensures y as nat == x
  {
    if x == 0 {
      y := 0;
    } else {
      var z := ByteFor(x - 1);
      assert z != 255;
      NextByte(z);
      y := z + 1;
    }
  }

  lemma ByteOfValue(x: nat, y: bv8)
    requires x < 256 && y as nat == x
    ensures x as bv8 == y
  {
  }

  lemma ByteNumber(x: nat)
    requires x < 256
    ensures x as bv8 as nat == x
  {
    var y := ByteFor(x);
    ByteOfValue(x, y);
  }

  lemma {:induction false} NumberOfBytes(text: nat, n: nat)
    ensures NumberOf(BytesOf(text, n)) == text % Pow256(n)
  {
    hide NumberOf;
    if n > 0 {
      NumberOfBytes(text / 256, n - 1);
      NumberAppend(BytesOf(text / 256, n - 1), (text % 256) as bv8);
      ByteNumber(text % 256);
      DivDiv256(text, Pow256(n - 1));
    } else {
      NumberOfNone();
    }
  }

  lemma NumberOfNone()
    ensures NumberOf([]) == 0
  {
  }

  lemma DivDiv256(x: nat, p: nat)
    requires p > 0
    ensures x / 256 / p == x / (256 * p)
    ensures x % (256 * p) == 256 * (x / 256 % p) + x % 256
  {
    var q, r := x / 256 / p, x / 256 % p;
    assert x / 256 == p * q + r;
    assert x == 256 * p * q + (256 * r + x % 256);
    ModUnique(x, 256 * p, q, 256 * r + x % 256);
  }

  lemma {:induction false} BytesOfNumber(b: seq<bv8>)
    ensures BytesOf(NumberOf(b), |b|) == b
  {
    if b != [] {
      var init, last := b[..|b| - 1], b[|b| - 1];
      BytesOfNumber(init);
      ModUnique(NumberOf(b), 256, NumberOf(init), last as nat);
      assert (last as nat) as bv8 == last;
      assert b == init + [last];
    }
  }

  /** The shift and mask of the emulator selects the byte. */
  lemma {:induction false} ShiftedByte(text: nat, n: nat, i: nat)
    requires i < n
    ensures BytesOf(text, n)[i] == (text / Pow256(n - 1 - i) % 256) as bv8
  {
    if i < n - 1 {
      ShiftedByte(text / 256, n - 1, i);
      DivDiv256(text, Pow256(n - 2 - i));
    }
  }

  /** x shifted left by k bytes. */
  function Shift(x: nat, k: nat): nat {
    x * Pow256(k)
  }

  /** A number is assembled byte by byte, each shifted to its place. */
  lemma NumberStep(b: seq<bv8>, p: nat)
    requires |b| == 16 && p < 16
    ensures Shift(NumberOf(b[..p + 1]), 15 - p)
         == Shift(NumberOf(b[..p]), 16 - p) + Shift(b[p] as nat, 15 - p)
  {
    hide NumberOf;
    var head, unit := NumberOf(b[..p]), Pow256(15 - p);
    assert b[..p + 1] == b[..p] + [b[p]];
    NumberAppend(b[..p], b[p]);
    assert Pow256(16 - p) == 256 * unit;
    Distribute(head, b[p] as nat, unit);
  }

  lemma Distribute(head: nat, x: nat, unit: nat)
    ensures (256 * head + x) * unit == head * (256 * unit) + x * unit
  {
  }

  lemma NumberStart(b: seq<bv8>)
    ensures Shift(NumberOf(b[..0]), 16) == 0
  {
    hide Pow256;
  }

  lemma NumberEnd(b: seq<bv8>)
    requires |b| == 16
    ensures Shift(NumberOf(b[..16]), 0) == NumberOf(b)
  {
    assert b[..16] == b;
  }

  function StateBytes(s: State): (b: seq<bv8>)
    ensures |b| == 16
  {
    seq(16, p requires 0 <= p < 16 => s.At(p / 4, p % 4))
  }

  function BytesState(b: seq<bv8>): State
    requires |b| == 16
  {
    State(Word(b[0], b[1], b[2], b[3]), Word(b[4], b[5], b[6], b[7]),
          Word(b[8], b[9], b[10], b[11]), Word(b[12], b[13], b[14], b[15]))
  }

  /** The block a number stands for; only its low 128 bits matter. */
  function ToState(text: nat): State {
    BytesState(BytesOf(text, 16))
  }

  function ToText(s: State): nat {
    NumberOf(StateBytes(s))
  }

  /** Blocks and 128-bit numbers are in bijection. */
  lemma TextRoundTrip(text: nat, s: State)
    ensures ToText(ToState(text)) == text % Pow256(16)
    ensures ToState(ToText(s)) == s
  {
    hide BytesOf, NumberOf, Pow256;
    NumberOfBytes(text, 16);
    assert StateBytes(ToState(text)) == BytesOf(text, 16) by {
      SixteenBytes(BytesOf(text, 16));
    }
    BytesOfNumber(StateBytes(s));
  }

  lemma SixteenBytes(b: seq<bv8>)
    requires |b| == 16
    ensures StateBytes(BytesState(b)) == b
  {
    var c, s := StateBytes(BytesState(b)), BytesState(b);
    assert c[0] == s.At(0, 0) && c[1] == s.At(0, 1) && c[2] == s.At(0, 2) && c[3] == s.At(0, 3);
    assert c[4] == s.At(1, 0) && c[5] == s.At(1, 1) && c[6] == s.At(1, 2) && c[7] == s.At(1, 3);
    assert c[8] == s.At(2, 0) && c[9] == s.At(2, 1) && c[10] == s.At(2, 2) && c[11] == s.At(2, 3);
    assert c[12] == s.At(3, 0) && c[13] == s.At(3, 1) && c[14] == s.At(3, 2) && c[15] == s.At(3, 3);
  }
}
