/** The AES round steps and key schedule of the emulator as functions on words and states,
    with the algebra behind the two main results: key-folded S-boxes give the same cipher, and
    every step can be undone. */
module Rounds {
  import opened SboxTable

  /** Four bytes: a row of the nested lists, which holds a column of the AES state. */
  datatype Word = Word(b0: bv8, b1: bv8, b2: bv8, b3: bv8) {
    function Byte(j: nat): bv8
      requires j < 4
    {
      if j == 0 then b0 else if j == 1 then b1 else if j == 2 then b2 else b3
    }
  }

  datatype State = State(w0: Word, w1: Word, w2: Word, w3: Word) {
    function Row(i: nat): Word
      requires i < 4
    {
      if i == 0 then w0 else if i == 1 then w1 else if i == 2 then w2 else w3
    }

    function At(i: nat, j: nat): bv8
      requires i < 4 && j < 4
    {
      Row(i).Byte(j)
    }
  }

  /** Addition in GF(2^8). Proofs about whole rounds hide it, so that they never reason about
      single bits. */
  function Plus(a: bv8, b: bv8): bv8 {
    a ^ b
  }

  function Xor(a: Word, b: Word): Word {
    Word(Plus(a.b0, b.b0), Plus(a.b1, b.b1), Plus(a.b2, b.b2), Plus(a.b3, b.b3))
  }

  function AddKey(s: State, k: State): State {
    State(Xor(s.w0, k.w0), Xor(s.w1, k.w1), Xor(s.w2, k.w2), Xor(s.w3, k.w3))
  }

  function SubWord(w: Word): Word {
    Word(Sbox(w.b0), Sbox(w.b1), Sbox(w.b2), Sbox(w.b3))
  }

  function SubBytes(s: State): State {
    State(SubWord(s.w0), SubWord(s.w1), SubWord(s.w2), SubWord(s.w3))
  }

  function ShiftRows(s: State): State {
    State(Word(s.w0.b0, s.w1.b1, s.w2.b2, s.w3.b3),
          Word(s.w1.b0, s.w2.b1, s.w3.b2, s.w0.b3),
          Word(s.w2.b0, s.w3.b1, s.w0.b2, s.w1.b3),
          Word(s.w3.b0, s.w0.b1, s.w1.b2, s.w2.b3))
  }

  function InvShiftRows(s: State): State {
    State(Word(s.w0.b0, s.w3.b1, s.w2.b2, s.w1.b3),
          Word(s.w1.b0, s.w0.b1, s.w3.b2, s.w2.b3),
          Word(s.w2.b0, s.w1.b1, s.w0.b2, s.w3.b3),
          Word(s.w3.b0, s.w2.b1, s.w1.b2, s.w0.b3))
  }

  /** Doubling in GF(2^8). */
  function Xtime(a: bv8): bv8 {
    if a & 0x80 != 0 then (a << 1) ^ 0x1B else a << 1
  }

  /** One output byte of the short form of MixColumns: the byte, plus the sum of the column,
      plus twice the sum of the byte and the next one. */
  function MixByte(a: bv8, b: bv8, c: bv8, d: bv8): bv8 {
    a ^ (a ^ b ^ c ^ d) ^ Xtime(Plus(a, b))
  }

  function MixWord(a: Word): Word {
    Word(MixByte(a.b0, a.b1, a.b2, a.b3), MixByte(a.b1, a.b2, a.b3, a.b0),
         MixByte(a.b2, a.b3, a.b0, a.b1), MixByte(a.b3, a.b0, a.b1, a.b2))
  }

  function MixColumns(s: State): State {
    State(MixWord(s.w0), MixWord(s.w1), MixWord(s.w2), MixWord(s.w3))
  }

  // ---------------------------------------------------------------- MixColumns

  /** Multiplication in GF(2^8), section 4.2 of FIPS 197, by shift and add. */
  function GfMul(c: bv8, b: bv8): bv8
    decreases c
  {
    if c == 0 then 0 else (if c & 1 == 1 then b else 0) ^ GfMul(c >> 1, Xtime(b))
  }

  function Sum4(p: bv8, q: bv8, r: bv8, s: bv8): bv8 {
    p ^ q ^ r ^ s
  }

  /** The matrix form of section 5.1.3 of FIPS 197. */
  function MatrixMix(a: Word): Word {
    Word(Sum4(GfMul(2, a.b0), GfMul(3, a.b1), a.b2, a.b3),
         Sum4(a.b0, GfMul(2, a.b1), GfMul(3, a.b2), a.b3),
         Sum4(a.b0, a.b1, GfMul(2, a.b2), GfMul(3, a.b3)),
         Sum4(GfMul(3, a.b0), a.b1, a.b2, GfMul(2, a.b3)))
  }

  function Double(a: bv8): bv8 {
    a << 1
  }

  function Reduction(a: bv8): bv8 {
    if a & 0x80 != 0 then 0x1B else 0
  }

  lemma XtimeParts(a: bv8)
    ensures Xtime(a) == Plus(Double(a), Reduction(a))
  {
  }

  lemma PartsPlus(a: bv8, b: bv8)
    ensures Double(Plus(a, b)) == Plus(Double(a), Double(b))
    ensures Reduction(Plus(a, b)) == Plus(Reduction(a), Reduction(b))
  {
  }

  lemma PlusShuffle(a: bv8, b: bv8, c: bv8, d: bv8)
    ensures Plus(Plus(a, b), Plus(c, d)) == Plus(Plus(a, c), Plus(b, d))
  {
    hide *;
    PlusAssoc(a, b, Plus(c, d));
    PlusAssoc(b, c, d);
    PlusComm(b, c);
    PlusAssoc(c, b, d);
    PlusAssoc(a, c, Plus(b, d));
  }

  lemma PlusAssoc(a: bv8, b: bv8, c: bv8)
    ensures Plus(Plus(a, b), c) == Plus(a, Plus(b, c))
  {
  }

  lemma PlusComm(a: bv8, b: bv8)
    ensures Plus(a, b) == Plus(b, a)
  {
  }

  /** Doubling is linear. */
  lemma XtimePlus(a: bv8, b: bv8)
    ensures Xtime(Plus(a, b)) == Plus(Xtime(a), Xtime(b))
  {
    hide *;
    XtimeParts(a);
    XtimeParts(b);
    XtimeParts(Plus(a, b));
    PartsPlus(a, b);
    PlusShuffle(Double(a), Double(b), Reduction(a), Reduction(b));
  }

  lemma SmallProducts(b: bv8)
    ensures GfMul(2, b) == Xtime(b) && GfMul(3, b) == Plus(b, Xtime(b))
  {
  }

  lemma MixByteIsRow(a: bv8, b: bv8, c: bv8, d: bv8)
    ensures MixByte(a, b, c, d) == Sum4(GfMul(2, a), GfMul(3, b), c, d)
  {
    hide Xtime, GfMul, Plus;
    SmallProducts(a);
    SmallProducts(b);
    XtimePlus(a, b);
    MatrixRow(a, b, c, d, Xtime(a), Xtime(b));
  }

  lemma MatrixRow(a: bv8, b: bv8, c: bv8, d: bv8, p: bv8, q: bv8)
    ensures a ^ (a ^ b ^ c ^ d) ^ Plus(p, q) == Sum4(p, Plus(b, q), c, d)
  {
  }

  lemma Sum4Rotate(p: bv8, q: bv8, r: bv8, s: bv8)
    ensures Sum4(p, q, r, s) == Sum4(s, p, q, r)
  {
  }

  /** The short form is the matrix of the standard. */
  lemma MixWordIsMatrix(a: Word)
    ensures MixWord(a) == MatrixMix(a)
  {
    hide MixByte, GfMul, Sum4;
    MixByteIsRow(a.b0, a.b1, a.b2, a.b3);
    MixByteIsRow(a.b1, a.b2, a.b3, a.b0);
    MixByteIsRow(a.b2, a.b3, a.b0, a.b1);
    MixByteIsRow(a.b3, a.b0, a.b1, a.b2);
    var g0, g1, g2, g3 := GfMul(2, a.b0), GfMul(2, a.b1), GfMul(2, a.b2), GfMul(2, a.b3);
    var h0, h1, h2, h3 := GfMul(3, a.b0), GfMul(3, a.b1), GfMul(3, a.b2), GfMul(3, a.b3);
    Sum4Rotate(g1, h2, a.b3, a.b0);
    Sum4Rotate(g2, h3, a.b0, a.b1);
    Sum4Rotate(a.b1, g2, h3, a.b0);
    Sum4Rotate(h0, a.b1, a.b2, g3);
  }

  /** m is an output byte for the column a, b, c, d, given p = xtime(a + b). */
  predicate IsMixed(m: bv8, a: bv8, b: bv8, c: bv8, d: bv8, p: bv8) {
    m == b ^ c ^ d ^ p
  }

  lemma MixedByte(a: bv8, b: bv8, c: bv8, d: bv8)
    ensures IsMixed(MixByte(a, b, c, d), a, b, c, d, Xtime(Plus(a, b)))
  {
  }

  lemma PlusLaws(a: bv8, b: bv8, c: bv8)
    ensures Plus(Plus(a, b), Plus(b, c)) == Plus(a, c)
    ensures Plus(a, c) == Plus(c, a)
    ensures Plus(Plus(a, b), b) == a
  {
  }

  lemma NeighbourSum(a: bv8, b: bv8, c: bv8, d: bv8, p: bv8, q: bv8, m: bv8, m': bv8, x: bv8)
    requires IsMixed(m, a, b, c, d, p) && IsMixed(m', b, c, d, a, q) && Plus(p, q) == x
    ensures Plus(m, m') == Plus(Plus(a, b), x)
  {
  }

  lemma SecondMix(a: bv8, b: bv8, c: bv8, d: bv8, p: bv8, q: bv8, r: bv8, s: bv8,
                  m0: bv8, m1: bv8, m2: bv8, m3: bv8, x: bv8, y: bv8, n: bv8, u: bv8)
    requires IsMixed(m0, a, b, c, d, p) && IsMixed(m1, b, c, d, a, q)
    requires IsMixed(m2, c, d, a, b, r) && IsMixed(m3, d, a, b, c, s)
    requires Plus(p, q) == x && Plus(r, s) == x && u == Plus(p, y) && IsMixed(n, m0, m1, m2, m3, u)
    ensures n == Plus(a, y)
  {
  }

  /** Mixing a column twice only adds four times the sum of opposite bytes. */
  lemma MixByteTwice(a: bv8, b: bv8, c: bv8, d: bv8)
    ensures MixByte(MixByte(a, b, c, d), MixByte(b, c, d, a), MixByte(c, d, a, b), MixByte(d, a, b, c))
         == Plus(a, Xtime(Xtime(Plus(a, c))))
  {
    hide *;
    var p, q := Xtime(Plus(a, b)), Xtime(Plus(b, c));
    var r, s := Xtime(Plus(c, d)), Xtime(Plus(d, a));
    var m0, m1 := MixByte(a, b, c, d), MixByte(b, c, d, a);
    var m2, m3 := MixByte(c, d, a, b), MixByte(d, a, b, c);
    var x := Xtime(Plus(a, c));
    MixedByte(a, b, c, d);
    MixedByte(b, c, d, a);
    MixedByte(c, d, a, b);
    MixedByte(d, a, b, c);
    MixedByte(m0, m1, m2, m3);
    PlusLaws(a, b, c);
    PlusLaws(c, d, a);
    XtimePlus(Plus(a, b), Plus(b, c));
    XtimePlus(Plus(c, d), Plus(d, a));
    NeighbourSum(a, b, c, d, p, q, m0, m1, x);
    XtimePlus(Plus(a, b), x);
    SecondMix(a, b, c, d, p, q, r, s, m0, m1, m2, m3, x, Xtime(x),
              MixByte(m0, m1, m2, m3), Xtime(Plus(m0, m1)));
  }

  function MixedTwice(a: Word): Word {
    var y, z := Xtime(Xtime(Plus(a.b0, a.b2))), Xtime(Xtime(Plus(a.b1, a.b3)));
    Word(Plus(a.b0, y), Plus(a.b1, z), Plus(a.b2, y), Plus(a.b3, z))
  }

  lemma MixWordTwice(a: Word)
    ensures MixWord(MixWord(a)) == MixedTwice(a)
  {
    hide Plus, MixByte, Xtime;
    MixByteTwice(a.b0, a.b1, a.b2, a.b3);
    MixByteTwice(a.b1, a.b2, a.b3, a.b0);
    MixByteTwice(a.b2, a.b3, a.b0, a.b1);
    MixByteTwice(a.b3, a.b0, a.b1, a.b2);
    PlusLaws(a.b0, a.b0, a.b2);
    PlusLaws(a.b1, a.b1, a.b3);
  }

  lemma OppositeSum(a: bv8, c: bv8, y: bv8)
    ensures Plus(Plus(a, y), Plus(c, y)) == Plus(a, c)
  {
  }

  lemma MixWordFour(a: Word)
    ensures MixWord(MixWord(MixWord(MixWord(a)))) == a
  {
    hide Plus, MixWord, Xtime;
    MixWordTwice(a);
    MixWordTwice(MixedTwice(a));
    var y, z := Xtime(Xtime(Plus(a.b0, a.b2))), Xtime(Xtime(Plus(a.b1, a.b3)));
    OppositeSum(a.b0, a.b2, y);
    OppositeSum(a.b1, a.b3, z);
    PlusLaws(a.b0, y, y);
    PlusLaws(a.b1, z, z);
    PlusLaws(a.b2, y, y);
    PlusLaws(a.b3, z, z);
  }

  /** Mixing four times is the identity. */
  lemma MixFour(s: State)
    ensures MixColumns(MixColumns(MixColumns(MixColumns(s)))) == s
  {
    hide MixWord;
    MixWordFour(s.w0);
    MixWordFour(s.w1);
    MixWordFour(s.w2);
    MixWordFour(s.w3);
  }

  // ---------------------------------------------------------------- key schedule

  function Rcon(i: nat): bv8 {
    if i == 0 then 0 else if i == 1 then 1 else Xtime(Rcon(i - 1))
  }

  /** SubWord of RotWord, with the round constant: section 5.2 of FIPS 197. */
  function Schedule(w: Word, c: bv8): Word {
    Word(Plus(Sbox(w.b1), c), Sbox(w.b2), Sbox(w.b3), Sbox(w.b0))
  }

  /** Word i of the expanded key, for any number of rounds. */
  function KeyWord(key: State, i: nat): Word {
    if i < 4 then key.Row(i)
    else if i % 4 == 0 then Xor(KeyWord(key, i - 4), Schedule(KeyWord(key, i - 1), Rcon(i / 4)))
    else Xor(KeyWord(key, i - 4), KeyWord(key, i - 1))
  }

  function RoundKey(key: State, r: nat): State {
    State(KeyWord(key, 4 * r), KeyWord(key, 4 * r + 1), KeyWord(key, 4 * r + 2), KeyWord(key, 4 * r + 3))
  }

  lemma XorCancel(a: Word, b: Word, c: Word)
    requires Xor(a, c) == Xor(b, c)
    ensures a == b
  {
    hide Plus;
    PlusCancel(a.b0, b.b0, c.b0);
    PlusCancel(a.b1, b.b1, c.b1);
    PlusCancel(a.b2, b.b2, c.b2);
    PlusCancel(a.b3, b.b3, c.b3);
  }

  lemma PlusCancel(a: bv8, b: bv8, c: bv8)
    requires Plus(a, c) == Plus(b, c)
    ensures a == b
  {
  }

  lemma WordDetermined(k1: State, k2: State, i: nat)
    requires i >= 4 && KeyWord(k1, i) == KeyWord(k2, i) && KeyWord(k1, i - 1) == KeyWord(k2, i - 1)
    ensures KeyWord(k1, i - 4) == KeyWord(k2, i - 4)
  {
    hide Xor, Schedule, Rcon;
    var w := KeyWord(k1, i - 1);
    XorCancel(KeyWord(k1, i - 4), KeyWord(k2, i - 4), if i % 4 == 0 then Schedule(w, Rcon(i / 4)) else w);
  }

  /** Any single round key determines the master key. */
  lemma {:induction false} RoundKeyDeterminesKey(k1: State, k2: State, r: nat)
    requires RoundKey(k1, r) == RoundKey(k2, r)
    ensures k1 == k2
  {
    hide Xor, Schedule, Rcon;
    if r > 0 {
      WordDetermined(k1, k2, 4 * r + 3);
      WordDetermined(k1, k2, 4 * r + 2);
      WordDetermined(k1, k2, 4 * r + 1);
      WordDetermined(k1, k2, 4 * r);
      RoundKeyDeterminesKey(k1, k2, r - 1);
    }
  }

  // ---------------------------------------------------------------- ciphers

  /** The stock state after i rounds. */
  function Stock(key: State, pt: State, i: nat): State {
    if i == 0 then AddKey(pt, RoundKey(key, 0))
    else AddKey(MixColumns(ShiftRows(SubBytes(Stock(key, pt, i - 1)))), RoundKey(key, i))
  }

  /** The stock ciphertext for R rounds. */
  function Cipher(key: State, pt: State, R: nat): State
    requires R > 0
  {
    AddKey(ShiftRows(SubBytes(Stock(key, pt, R - 1))), RoundKey(key, R))
  }

  /** The key-folded S-box of a round at byte position (i, j): the previous round key on the
      input, and in the last round the unshifted last key on the output. */
  function FoldedSbox(key: State, R: nat, round: nat, i: nat, j: nat, x: bv8): bv8
    requires 1 <= round <= R && i < 4 && j < 4
  {
    var y := Sbox(Plus(x, RoundKey(key, round - 1).At(i, j)));
    if round == R then Plus(y, InvShiftRows(RoundKey(key, R)).At(i, j)) else y
  }

  function FoldedWord(key: State, R: nat, round: nat, i: nat, w: Word): Word
    requires 1 <= round <= R && i < 4
  {
    Word(FoldedSbox(key, R, round, i, 0, w.b0), FoldedSbox(key, R, round, i, 1, w.b1),
         FoldedSbox(key, R, round, i, 2, w.b2), FoldedSbox(key, R, round, i, 3, w.b3))
  }

  function FoldedSubBytes(key: State, R: nat, round: nat, s: State): State
    requires 1 <= round <= R
  {
    State(FoldedWord(key, R, round, 0, s.w0), FoldedWord(key, R, round, 1, s.w1),
          FoldedWord(key, R, round, 2, s.w2), FoldedWord(key, R, round, 3, s.w3))
  }

  /** The white-box state after i < R rounds. */
  function WhiteBox(key: State, R: nat, pt: State, i: nat): State
    requires i < R
  {
    if i == 0 then pt
    else MixColumns(ShiftRows(FoldedSubBytes(key, R, i, WhiteBox(key, R, pt, i - 1))))
  }

  function WhiteBoxCipher(key: State, R: nat, pt: State): State
    requires R > 0
  {
    ShiftRows(FoldedSubBytes(key, R, R, WhiteBox(key, R, pt, R - 1)))
  }

  /** Folding the key into the box is substituting after adding the key. */
  lemma FoldedIsKeyed(key: State, R: nat, round: nat, s: State)
    requires 1 <= round <= R
    ensures FoldedSubBytes(key, R, round, s)
         == if round == R then AddKey(SubBytes(AddKey(s, RoundKey(key, round - 1))), InvShiftRows(RoundKey(key, R)))
            else SubBytes(AddKey(s, RoundKey(key, round - 1)))
  {
    hide Sbox, RoundKey, Plus;
  }

  lemma ShiftAddKey(s: State, k: State)
    ensures ShiftRows(AddKey(s, InvShiftRows(k))) == AddKey(ShiftRows(s), k)
  {
    hide Plus;
  }

  /** Below the last round the white-box state differs from the stock state by exactly the
      round key. */
  lemma {:induction false} WhiteBoxTracksStock(key: State, R: nat, pt: State, i: nat)
    requires i < R
    ensures AddKey(WhiteBox(key, R, pt, i), RoundKey(key, i)) == Stock(key, pt, i)
  {
    hide AddKey, SubBytes, ShiftRows, MixColumns, RoundKey, FoldedSubBytes;
    if i > 0 {
      var s := WhiteBox(key, R, pt, i - 1);
      WhiteBoxTracksStock(key, R, pt, i - 1);
      FoldedIsKeyed(key, R, i, s);
      assert FoldedSubBytes(key, R, i, s) == SubBytes(Stock(key, pt, i - 1));
      assert WhiteBox(key, R, pt, i) == MixColumns(ShiftRows(SubBytes(Stock(key, pt, i - 1))));
    }
  }

  /** The two modes produce the same ciphertext for every key, plaintext and round count. */
  lemma WhiteBoxIsStock(key: State, R: nat, pt: State)
    requires R > 0
    ensures WhiteBoxCipher(key, R, pt) == Cipher(key, pt, R)
  {
    hide AddKey, SubBytes, ShiftRows, MixColumns, RoundKey, FoldedSubBytes, InvShiftRows;
    var s := WhiteBox(key, R, pt, R - 1);
    WhiteBoxTracksStock(key, R, pt, R - 1);
    FoldedIsKeyed(key, R, R, s);
    ShiftAddKey(SubBytes(Stock(key, pt, R - 1)), RoundKey(key, R));
  }

  // ---------------------------------------------------------------- injectivity

  lemma AddKeyInjective(a: State, b: State, k: State)
    requires AddKey(a, k) == AddKey(b, k)
    ensures a == b
  {
    hide Xor;
    XorCancel(a.w0, b.w0, k.w0);
    XorCancel(a.w1, b.w1, k.w1);
    XorCancel(a.w2, b.w2, k.w2);
    XorCancel(a.w3, b.w3, k.w3);
  }

  lemma SubWordInjective(a: Word, b: Word)
    requires SubWord(a) == SubWord(b)
    ensures a == b
  {
    hide Sbox;
    SboxInjective(a.b0, b.b0);
    SboxInjective(a.b1, b.b1);
    SboxInjective(a.b2, b.b2);
    SboxInjective(a.b3, b.b3);
  }

  lemma SubBytesInjective(a: State, b: State)
    requires SubBytes(a) == SubBytes(b)
    ensures a == b
  {
    hide SubWord;
    SubWordInjective(a.w0, b.w0);
    SubWordInjective(a.w1, b.w1);
    SubWordInjective(a.w2, b.w2);
    SubWordInjective(a.w3, b.w3);
  }

  lemma ShiftRowsUndone(s: State)
    ensures InvShiftRows(ShiftRows(s)) == s == ShiftRows(InvShiftRows(s))
  {
  }

  lemma LayerInjective(a: State, b: State)
    requires ShiftRows(SubBytes(a)) == ShiftRows(SubBytes(b))
    ensures a == b
  {
    hide SubBytes, ShiftRows, InvShiftRows;
    ShiftRowsUndone(SubBytes(a));
    ShiftRowsUndone(SubBytes(b));
    SubBytesInjective(a, b);
  }

  lemma {:induction false} StockInjective(key: State, p: State, q: State, i: nat)
    ensures Stock(key, p, i) == Stock(key, q, i) ==> p == q
  {
    hide AddKey, SubBytes, ShiftRows, MixColumns, RoundKey;
    if Stock(key, p, i) == Stock(key, q, i) {
      if i == 0 {
        AddKeyInjective(p, q, RoundKey(key, 0));
      } else {
        var a, b := ShiftRows(SubBytes(Stock(key, p, i - 1))), ShiftRows(SubBytes(Stock(key, q, i - 1)));
        AddKeyInjective(MixColumns(a), MixColumns(b), RoundKey(key, i));
        MixFour(a);
        MixFour(b);
        LayerInjective(Stock(key, p, i - 1), Stock(key, q, i - 1));
        StockInjective(key, p, q, i - 1);
      }
    }
  }

  /** Under a fixed key no two blocks share a ciphertext, for any number of rounds. */
  lemma CipherInjective(key: State, p: State, q: State, R: nat)
    requires R > 0
    ensures Cipher(key, p, R) == Cipher(key, q, R) ==> p == q
  {
    hide AddKey, SubBytes, ShiftRows, RoundKey, Stock;
    if Cipher(key, p, R) == Cipher(key, q, R) {
      var a, b := Stock(key, p, R - 1), Stock(key, q, R - 1);
      AddKeyInjective(ShiftRows(SubBytes(a)), ShiftRows(SubBytes(b)), RoundKey(key, R));
      LayerInjective(a, b);
      StockInjective(key, p, q, R - 1);
    }
  }
}
