/** The cipher byte by byte, as sections 4 and 5 of FIPS 197 describe it: each byte of a round
    from single bytes of the round before, each byte of the expanded key from single bytes of
    earlier words, and the places of the bytes in a text. */
module CipherBytes {
  import opened BlockText
  import opened Common
  import opened Rounds
  import opened SboxField
  import opened SboxTable

  lemma TimesXIs(b: bv8)
    ensures TimesX(b) == Xtime(b)
  {
  }

  // ---------------------------------------------------------------- rounds

  lemma ShiftedBytes(s: State, c: nat, r: nat)
    requires c < 4 && r < 4
    ensures ShiftRows(SubBytes(s)).At(c, r) == Sbox(s.At((c + r) % 4, r))
  {
    hide Sbox;
  }

  lemma ShiftedNext(s: State, c: nat, r: nat, k: nat)
    requires c < 4 && r < 4 && k < 4
    ensures ShiftRows(SubBytes(s)).At(c, (r + k) % 4) == Sbox(s.At((c + r + k) % 4, (r + k) % 4))
  {
    hide Sbox, SubBytes, ShiftRows;
    ShiftedBytes(s, c, (r + k) % 4);
    assert (c + (r + k) % 4) % 4 == (c + r + k) % 4;
  }

  lemma MixByteIs(a: bv8, b: bv8, c: bv8, d: bv8)
    ensures MixByte(a, b, c, d) == Plus(Plus(Plus(Xtime(a), Plus(Xtime(b), b)), c), d)
  {
    hide Xtime, Plus;
    MixedByte(a, b, c, d);
    XtimePlus(a, b);
    Regroup(MixByte(a, b, c, d), a, b, c, d, Xtime(a), Xtime(b));
  }

  lemma Regroup(m: bv8, a: bv8, b: bv8, c: bv8, d: bv8, p: bv8, q: bv8)
    requires IsMixed(m, a, b, c, d, Plus(p, q))
    ensures m == Plus(Plus(Plus(p, Plus(q, b)), c), d)
  {
  }

  lemma MixedBytes(w: Word, r: nat)
    requires r < 4
    ensures MixWord(w).Byte(r)
         == Plus(Plus(Plus(TimesX(w.Byte(r)), Plus(TimesX(w.Byte((r + 1) % 4)), w.Byte((r + 1) % 4))),
                      w.Byte((r + 2) % 4)), w.Byte((r + 3) % 4))
  {
    hide MixByte, TimesX, Plus, Xtime;
    TimesXIs(w.Byte(r));
    TimesXIs(w.Byte((r + 1) % 4));
    MixByteIs(w.Byte(r), w.Byte((r + 1) % 4), w.Byte((r + 2) % 4), w.Byte((r + 3) % 4));
  }

  lemma MixedAt(s: State, c: nat, r: nat)
    requires c < 4 && r < 4
    ensures MixColumns(s).At(c, r)
         == Plus(Plus(Plus(TimesX(s.At(c, r)), Plus(TimesX(s.At(c, (r + 1) % 4)), s.At(c, (r + 1) % 4))),
                      s.At(c, (r + 2) % 4)), s.At(c, (r + 3) % 4))
  {
    hide MixWord, Plus, TimesX;
    MixedBytes(s.Row(c), r);
  }

  lemma KeyAdded(s: State, k: State, c: nat, r: nat)
    requires c < 4 && r < 4
    ensures AddKey(s, k).At(c, r) == Plus(s.At(c, r), k.At(c, r))
  {
    hide Plus;
  }

  lemma RoundKeyAt(key: State, i: nat, c: nat, r: nat)
    requires c < 4 && r < 4
    ensures RoundKey(key, i).At(c, r) == KeyWord(key, 4 * i + c).Byte(r)
  {
    hide KeyWord;
  }

  /** Before the first round the key is added byte by byte. */
  lemma FirstBytes(key: State, pt: State, c: nat, r: nat)
    requires c < 4 && r < 4
    ensures Stock(key, pt, 0).At(c, r) == Plus(pt.At(c, r), KeyWord(key, c).Byte(r))
  {
    hide AddKey, Plus, KeyWord, RoundKey;
    KeyAdded(pt, RoundKey(key, 0), c, r);
    RoundKeyAt(key, 0, c, r);
  }

  /** Every byte of a middle round: the matrix row 2 3 1 1 over the substituted bytes, taken
      from shifted columns, plus the key byte. */
  lemma RoundBytes(key: State, pt: State, i: nat, c: nat, r: nat)
    requires i > 0 && c < 4 && r < 4
    ensures var s := Stock(key, pt, i - 1);
            var a := Sbox(s.At((c + r) % 4, r));
            var b := Sbox(s.At((c + r + 1) % 4, (r + 1) % 4));
            var d := Sbox(s.At((c + r + 2) % 4, (r + 2) % 4));
            var e := Sbox(s.At((c + r + 3) % 4, (r + 3) % 4));
            Stock(key, pt, i).At(c, r) ==
              Plus(Plus(Plus(Plus(TimesX(a), Plus(TimesX(b), b)), d), e), KeyWord(key, 4 * i + c).Byte(r))
  {
    hide *;
    var s := Stock(key, pt, i - 1);
    var shifted := ShiftRows(SubBytes(s));
    StockStep(key, pt, i);
    KeyAdded(MixColumns(shifted), RoundKey(key, i), c, r);
    RoundKeyAt(key, i, c, r);
    MixedAt(shifted, c, r);
    ShiftedBytes(s, c, r);
    ShiftedNext(s, c, r, 1);
    ShiftedNext(s, c, r, 2);
    ShiftedNext(s, c, r, 3);
  }

  lemma StockStep(key: State, pt: State, i: nat)
    requires i > 0
    ensures Stock(key, pt, i) == AddKey(MixColumns(ShiftRows(SubBytes(Stock(key, pt, i - 1)))), RoundKey(key, i))
  {
    hide AddKey, MixColumns, ShiftRows, SubBytes, RoundKey;
  }

  /** Every byte of the ciphertext: as in a middle round, without the matrix. */
  lemma LastRoundBytes(key: State, pt: State, R: nat, c: nat, r: nat)
    requires R > 0 && c < 4 && r < 4
    ensures Cipher(key, pt, R).At(c, r)
         == Plus(Sbox(Stock(key, pt, R - 1).At((c + r) % 4, r)), KeyWord(key, 4 * R + c).Byte(r))
  {
    hide AddKey, SubBytes, ShiftRows, Sbox, KeyWord, RoundKey, Stock, Plus;
    var s := Stock(key, pt, R - 1);
    KeyAdded(ShiftRows(SubBytes(s)), RoundKey(key, R), c, r);
    RoundKeyAt(key, R, c, r);
    ShiftedBytes(s, c, r);
  }

  // ---------------------------------------------------------------- key words

  /** x to the power k. */
  function PowerOfX(k: nat): bv8 {
    if k == 0 then 1 else TimesX(PowerOfX(k - 1))
  }

  lemma {:induction false} RconIs(k: nat)
    requires k > 0
    ensures Rcon(k) == PowerOfX(k - 1)
  {
    hide TimesX, Xtime;
    if k > 1 {
      RconIs(k - 1);
      TimesXIs(Rcon(k - 1));
    }
  }

  /** The first four words are the master key; every other byte is the byte four words back plus
      the byte one word back, which every fourth time is the next byte of that word, substituted,
      with a power of x added to the first one. */
  lemma KeyBytes(key: State, i: nat, j: nat)
    requires j < 4
    ensures i < 4 ==> KeyWord(key, i).Byte(j) == key.At(i, j)
    ensures i >= 4 && i % 4 != 0 ==>
              KeyWord(key, i).Byte(j) == Plus(KeyWord(key, i - 4).Byte(j), KeyWord(key, i - 1).Byte(j))
    ensures i >= 4 && i % 4 == 0 ==>
              var b := Sbox(KeyWord(key, i - 1).Byte((j + 1) % 4));
              KeyWord(key, i).Byte(j) ==
                Plus(KeyWord(key, i - 4).Byte(j), if j == 0 then Plus(b, PowerOfX(i / 4 - 1)) else b)
  {
    hide Sbox, Rcon, PowerOfX, Plus, Xor, Schedule;
    if i >= 4 {
      RconIs(i / 4);
      XorBytes(KeyWord(key, i - 4), Schedule(KeyWord(key, i - 1), Rcon(i / 4)), j);
      XorBytes(KeyWord(key, i - 4), KeyWord(key, i - 1), j);
      ScheduleBytes(KeyWord(key, i - 1), Rcon(i / 4), j);
    }
  }

  lemma XorBytes(a: Word, b: Word, j: nat)
    requires j < 4
    ensures Xor(a, b).Byte(j) == Plus(a.Byte(j), b.Byte(j))
  {
    hide Plus;
  }

  lemma ScheduleBytes(w: Word, c: bv8, j: nat)
    requires j < 4
    ensures Schedule(w, c).Byte(j)
         == if j == 0 then Plus(Sbox(w.Byte((j + 1) % 4)), c) else Sbox(w.Byte((j + 1) % 4))
  {
    hide Sbox, Plus;
  }

  // ---------------------------------------------------------------- texts

  /** Byte r of column c of a text's block is byte 4 c + r of the text, counted from the highest
      of sixteen; a block's text has exactly those bytes. */
  lemma TextBytes(text: nat, s: State, c: nat, r: nat)
    requires c < 4 && r < 4
    ensures ToState(text).At(c, r) as nat == text / Pow256(15 - 4 * c - r) % 256
    ensures ToText(s) / Pow256(15 - 4 * c - r) % 256 == s.At(c, r) as nat && ToText(s) < Pow256(16)
  {
    hide Pow256, ToState, ToText;
    TextRoundTrip(text, s);
    TextByte(text, c, r);
    TextByte(ToText(s), c, r);
    TextRoundTrip(ToText(s), s);
    assert ToText(s) == ToText(s) % Pow256(16);
  }

  lemma TextByte(text: nat, c: nat, r: nat)
    requires c < 4 && r < 4
    ensures ToState(text).At(c, r) as nat == text / Pow256(15 - 4 * c - r) % 256
  {
    hide Pow256, BytesOf;
    var b, p := BytesOf(text, 16), 4 * c + r;
    ShiftedByte(text, 16, p);
    ByteNumber(text / Pow256(15 - p) % 256);
    assert ToState(text).At(c, r) == b[p];
  }
}
