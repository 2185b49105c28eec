/** The cipher emulator itself: nested lists changed in place, stock encryption, and white-box
    encryption with key-folded S-boxes. Rows are arrays because the emulator shares and
    deep-copies them. */
module Aeees {
  import opened BlockText
  import opened Common
  import opened Rounds
  import opened SboxTable

  type Matrix = seq<array<bv8>>

  // ---------------------------------------------------------------- matrices

  /** Rows of four bytes, no two of them the same list. */
  ghost predicate Separate(m: Matrix) {
    && (forall i | 0 <= i < |m| :: m[i].Length == 4)
    && (forall i, j | 0 <= i < j < |m| :: m[i] != m[j])
  }

  ghost predicate IsBlock(m: Matrix) {
    |m| == 4 && Separate(m)
  }

  ghost function WordOf(a: array<bv8>): Word
    requires a.Length == 4
    reads a
  {
    Word(a[0], a[1], a[2], a[3])
  }

  ghost function StateOf(m: Matrix): State
    requires IsBlock(m)
    reads m
  {
    State(WordOf(m[0]), WordOf(m[1]), WordOf(m[2]), WordOf(m[3]))
  }

  /** The shift and mask that take byte i of the text. */
  method ByteOfText(text: nat, i: nat) returns (byte: bv8)
    requires i < 16
    ensures byte == BytesOf(text, 16)[i]
  {
    hide BytesOf, Pow256;
    ShiftedByte(text, 16, i);
    byte := (text / Pow256(15 - i) % 256) as bv8;
  }

  method Text2Matrix(text: nat) returns (matrix: Matrix)
    ensures IsBlock(matrix) && (forall i | 0 <= i < 4 :: fresh(matrix[i]))
    ensures StateOf(matrix) == ToState(text)
  {
    hide BytesOf, Pow256;
    ghost var b := BytesOf(text, 16);
    matrix := [];
    for i := 0 to 16
      invariant |matrix| == (i + 3) / 4 && Separate(matrix)
      invariant forall r | 0 <= r < |matrix| :: fresh(matrix[r])
      invariant forall r, c | 0 <= r < |matrix| && 0 <= c < 4 && 4 * r + c < i :: matrix[r][c] == b[4 * r + c]
    {
      var byte := ByteOfText(text, i);
      if i % 4 == 0 {
        var row := new bv8[4];
        row[0] := byte;
        matrix := matrix + [row];
      } else {
        matrix[i / 4][i % 4] := byte;
      }
    }
    BlockBytes(matrix, b);
  }

  lemma BlockBytes(m: Matrix, b: seq<bv8>)
    requires IsBlock(m) && |b| == 16
    requires forall r, c | 0 <= r < 4 && 0 <= c < 4 :: m[r][c] == b[4 * r + c]
    ensures StateOf(m) == BytesState(b)
  {
    assert m[0][0] == b[0] && m[0][1] == b[1] && m[0][2] == b[2] && m[0][3] == b[3];
    assert m[1][0] == b[4] && m[1][1] == b[5] && m[1][2] == b[6] && m[1][3] == b[7];
    assert m[2][0] == b[8] && m[2][1] == b[9] && m[2][2] == b[10] && m[2][3] == b[11];
    assert m[3][0] == b[12] && m[3][1] == b[13] && m[3][2] == b[14] && m[3][3] == b[15];
  }

  /** The fields or-ed together are disjoint, so the model adds them. */
  method Matrix2Text(matrix: Matrix) returns (text: nat)
    requires IsBlock(matrix)
    ensures text == ToText(StateOf(matrix))
  {
    hide NumberOf, Shift, StateBytes, StateOf;
    ghost var b := StateBytes(StateOf(matrix));
    text := 0;
    NumberStart(b);
    for i := 0 to 4
      invariant text == Shift(NumberOf(b[..4 * i]), 16 - 4 * i)
    {
      for j := 0 to 4
        invariant text == Shift(NumberOf(b[..4 * i + j]), 16 - (4 * i + j))
      {
        ByteAt(matrix, i, j);
        NumberStep(b, 4 * i + j);
        text := text + Shift(matrix[i][j] as nat, 15 - (4 * i + j));
      }
    }
    NumberEnd(b);
  }

  lemma ByteAt(m: Matrix, i: nat, j: nat)
    requires IsBlock(m) && i < 4 && j < 4
    ensures StateBytes(StateOf(m))[4 * i + j] == m[i][j]
  {
    assert (4 * i + j) / 4 == i && (4 * i + j) % 4 == j;
  }

  lemma ElementAt(m: Matrix, i: nat, j: nat)
    requires IsBlock(m) && i < 4 && j < 4
    ensures StateOf(m).At(i, j) == m[i][j]
  {
    assert StateOf(m).Row(i) == WordOf(m[i]);
    hide StateOf;
    ByteOfRow(m[i], j);
  }

  lemma ByteOfRow(a: array<bv8>, j: nat)
    requires a.Length == 4 && j < 4
    ensures WordOf(a).Byte(j) == a[j]
  {
  }

  method AddRoundKey(s: Matrix, k: Matrix)
    requires IsBlock(s) && IsBlock(k) && (forall i, j | 0 <= i < 4 && 0 <= j < 4 :: s[i] != k[j])
    modifies s
    ensures StateOf(s) == AddKey(old(StateOf(s)), old(StateOf(k)))
  {
    hide Plus;
    for i := 0 to 4
      invariant forall r, c | 0 <= r < 4 && 0 <= c < 4 ::
          s[r][c] == if r < i then Plus(old(s[r][c]), k[r][c]) else old(s[r][c])
    {
      for j := 0 to 4
        invariant forall r, c | 0 <= r < 4 && 0 <= c < 4 ::
            s[r][c] == if r < i || (r == i && c < j) then Plus(old(s[r][c]), k[r][c]) else old(s[r][c])
      {
        s[i][j] := Plus(s[i][j], k[i][j]);
      }
    }
  }

  method SubBytesInPlace(s: Matrix)
    requires IsBlock(s)
    modifies s
    ensures StateOf(s) == SubBytes(old(StateOf(s)))
  {
    hide Sbox;
    for i := 0 to 4
      invariant forall r, c | 0 <= r < 4 && 0 <= c < 4 ::
          s[r][c] == if r < i then Sbox(old(s[r][c])) else old(s[r][c])
    {
      for j := 0 to 4
        invariant forall r, c | 0 <= r < 4 && 0 <= c < 4 ::
            s[r][c] == if r < i || (r == i && c < j) then Sbox(old(s[r][c])) else old(s[r][c])
      {
        s[i][j] := Sbox(s[i][j]);
      }
    }
  }

  method ShiftRowsInPlace(s: Matrix)
    requires IsBlock(s)
    modifies s
    ensures StateOf(s) == ShiftRows(old(StateOf(s)))
  {
    s[0][1], s[1][1], s[2][1], s[3][1] := s[1][1], s[2][1], s[3][1], s[0][1];
    s[0][2], s[1][2], s[2][2], s[3][2] := s[2][2], s[3][2], s[0][2], s[1][2];
    s[0][3], s[1][3], s[2][3], s[3][3] := s[3][3], s[0][3], s[1][3], s[2][3];
  }

  method InvShiftRowsInPlace(s: Matrix)
    requires IsBlock(s)
    modifies s
    ensures StateOf(s) == InvShiftRows(old(StateOf(s)))
  {
    s[0][1], s[1][1], s[2][1], s[3][1] := s[3][1], s[0][1], s[1][1], s[2][1];
    s[0][2], s[1][2], s[2][2], s[3][2] := s[2][2], s[3][2], s[0][2], s[1][2];
    s[0][3], s[1][3], s[2][3], s[3][3] := s[1][3], s[2][3], s[3][3], s[0][3];
  }

  method MixSingleColumn(a: array<bv8>)
    requires a.Length == 4
    modifies a
    ensures WordOf(a) == MixWord(old(WordOf(a)))
  {
    hide Xtime, Plus, MixByte;
    ColumnSum(a[0], a[1], a[2], a[3]);
    ColumnSum(a[1], a[2], a[3], a[0]);
    ColumnSum(a[2], a[3], a[0], a[1]);
    ColumnSum(a[3], a[0], a[1], a[2]);
    var t := Plus(Plus(Plus(a[0], a[1]), a[2]), a[3]);
    var u := a[0];
    a[0] := Plus(a[0], Plus(t, Xtime(Plus(a[0], a[1]))));
    a[1] := Plus(a[1], Plus(t, Xtime(Plus(a[1], a[2]))));
    a[2] := Plus(a[2], Plus(t, Xtime(Plus(a[2], a[3]))));
    a[3] := Plus(a[3], Plus(t, Xtime(Plus(a[3], u))));
  }

  /** The column sum does not depend on where one starts. */
  lemma ColumnSum(a: bv8, b: bv8, c: bv8, d: bv8)
    ensures Plus(Plus(Plus(a, b), c), d) == Plus(Plus(Plus(b, c), d), a)
    ensures MixByte(a, b, c, d) == Plus(a, Plus(Plus(Plus(Plus(a, b), c), d), Xtime(Plus(a, b))))
  {
    hide Xtime;
  }

  method MixColumnsInPlace(s: Matrix)
    requires IsBlock(s)
    modifies s
    ensures StateOf(s) == MixColumns(old(StateOf(s)))
  {
    hide MixWord;
    for i := 0 to 4
      invariant forall r | 0 <= r < i :: WordOf(s[r]) == MixWord(old(WordOf(s[r])))
      invariant forall r | i <= r < 4 :: WordOf(s[r]) == old(WordOf(s[r]))
    {
      MixSingleColumn(s[i]);
    }
  }

  /** New rows with the same bytes. */
  method DeepCopy(m: Matrix) returns (c: Matrix)
    requires IsBlock(m)
    ensures IsBlock(c) && (forall i | 0 <= i < 4 :: fresh(c[i]))
    ensures StateOf(c) == StateOf(m)
  {
    c := [];
    for i := 0 to 4
      invariant |c| == i && Separate(c)
      invariant forall r | 0 <= r < i :: fresh(c[r]) && WordOf(c[r]) == WordOf(m[r])
    {
      var row := new bv8[4];
      row[0], row[1], row[2], row[3] := m[i][0], m[i][1], m[i][2], m[i][3];
      c := c + [row];
    }
  }

  class AEEES {
    const numRounds: nat
    var rcon: seq<bv8>
    var roundKeys: Matrix
    var plainState: Matrix
    ghost const key: State

    /** The round keys are the expansion of the master key, in rows of their own. */
    ghost predicate Valid()
      reads this, roundKeys
    {
      && numRounds > 0
      && |roundKeys| == 4 * (numRounds + 1) && Separate(roundKeys)
      && (forall i | 0 <= i < |roundKeys| :: WordOf(roundKeys[i]) == KeyWord(key, i))
    }

    /** With no rounds the emulator fails on its round constants, so one is required. */
    constructor (masterKey: nat, rounds: nat)
      requires rounds > 0
      ensures Valid() && key == ToState(masterKey) && numRounds == rounds
    {
      numRounds := rounds;
      rcon := [];
      roundKeys := [];
      plainState := [];
      key := ToState(masterKey);
      new;
      rcon := MakeRcon(rounds);
      roundKeys := Text2Matrix(masterKey);
      roundKeys := ExpandKey(ToState(masterKey), roundKeys, rcon, rounds);
    }

    /** get_modded_sbox: it only creates lists, so no round key can change. */
    method GetModdedSbox(round: nat, offset: nat) returns (nubox: array<bv8>)
      requires Valid() && 1 <= round <= numRounds && offset < 16
      ensures fresh(nubox) && nubox.Length == 256
      ensures forall x: nat | x < 256 ::
          nubox[x] == FoldedSbox(key, numRounds, round, offset / 4, offset % 4, x as bv8)
    {
      hide Sbox, Plus, KeyWord, InvShiftRows, RoundKey;
      var row, col := offset / 4, offset % 4;
      KeyByte(round - 1, row, col);
      nubox := FoldInput(roundKeys[4 * (round - 1) + row][col]);
      if round == numRounds {
        var l := LastKeyByte(row, col);
        FoldOutput(nubox, l);
      }
    }

    /** A byte of the last round key before its row shift, computed on a deep copy. */
    method LastKeyByte(row: nat, col: nat) returns (l: bv8)
      requires Valid() && row < 4 && col < 4
      ensures l == InvShiftRows(RoundKey(key, numRounds)).At(row, col)
    {
      hide KeyWord, InvShiftRows, RoundKey, StateOf;
      RoundKeySlice(numRounds);
      var lastRoundKey := DeepCopy(roundKeys[4 * numRounds..4 * numRounds + 4]);
      InvShiftRowsInPlace(lastRoundKey);
      ElementAt(lastRoundKey, row, col);
      l := lastRoundKey[row][col];
    }

    lemma RoundKeySlice(r: nat)
      requires Valid() && r <= numRounds
      ensures IsBlock(roundKeys[4 * r..4 * r + 4])
      ensures StateOf(roundKeys[4 * r..4 * r + 4]) == RoundKey(key, r)
    {
      hide KeyWord;
      assert WordOf(roundKeys[4 * r]) == KeyWord(key, 4 * r);
    }

    lemma KeyByte(r: nat, row: nat, col: nat)
      requires Valid() && r <= numRounds && row < 4 && col < 4
      ensures roundKeys[4 * r + row][col] == RoundKey(key, r).At(row, col)
    {
      hide KeyWord;
      assert WordOf(roundKeys[4 * r + row]) == KeyWord(key, 4 * r + row);
    }

    /** Adds round key r, passed as a slice that shares its rows with the key list. */
    method AddKeyOf(r: nat, s: Matrix)
      requires Valid() && r <= numRounds && IsBlock(s)
      requires forall i, j | 0 <= i < 4 && 0 <= j < |roundKeys| :: s[i] != roundKeys[j]
      modifies s
      ensures Valid() && StateOf(s) == AddKey(old(StateOf(s)), RoundKey(key, r))
    {
      hide AddKey, KeyWord, RoundKey;
      RoundKeySlice(r);
      AddRoundKey(s, roundKeys[4 * r..4 * (r + 1)]);
    }

    method WbSubBytes(round: nat, s: Matrix)
      requires Valid() && 1 <= round <= numRounds && IsBlock(s)
      requires forall i, j | 0 <= i < 4 && 0 <= j < |roundKeys| :: s[i] != roundKeys[j]
      modifies s
      ensures StateOf(s) == FoldedSubBytes(key, numRounds, round, old(StateOf(s)))
    {
      hide FoldedSbox, KeyWord;
      for i := 0 to 4
        invariant Valid()
        invariant forall r, c | 0 <= r < 4 && 0 <= c < 4 ::
            s[r][c] == if r < i then FoldedSbox(key, numRounds, round, r, c, old(s[r][c])) else old(s[r][c])
      {
        for j := 0 to 4
          invariant Valid()
          invariant forall r, c | 0 <= r < 4 && 0 <= c < 4 ::
              s[r][c] == if r < i || (r == i && c < j) then FoldedSbox(key, numRounds, round, r, c, old(s[r][c]))
                         else old(s[r][c])
        {
          var box := GetModdedSbox(round, 4 * i + j);
          assert (4 * i + j) / 4 == i && (4 * i + j) % 4 == j;
          ByteIndex(s[i][j]);
          s[i][j] := box[s[i][j] as nat];
        }
      }
    }

    /** A middle round of the white-box mode. */
    method WbRound(round: nat, state: Matrix)
      requires Valid() && 1 <= round <= numRounds && IsBlock(state)
      requires forall i, j | 0 <= i < 4 && 0 <= j < |roundKeys| :: state[i] != roundKeys[j]
      modifies state
      ensures Valid()
      ensures StateOf(state) == MixColumns(ShiftRows(FoldedSubBytes(key, numRounds, round, old(StateOf(state)))))
    {
      hide ShiftRows, MixColumns, FoldedSubBytes, KeyWord, StateOf;
      WbSubBytes(round, state);
      ShiftRowsInPlace(state);
      MixColumnsInPlace(state);
    }

    /** White-box mode: the intermediate texts are the white-box states and the last one is the
        stock ciphertext. */
    method WbEncrypt(plaintext: nat) returns (answer: seq<nat>)
      requires Valid()
      modifies `plainState
      ensures Valid() && |answer| == numRounds + 1
      ensures forall i | 0 <= i < numRounds ::
          answer[i] == ToText(WhiteBox(key, numRounds, ToState(plaintext), i))
      ensures answer[numRounds] == ToText(Cipher(key, ToState(plaintext), numRounds))
    {
      hide ToText, ToState, ShiftRows, MixColumns, FoldedSubBytes, KeyWord, StateOf, Cipher;
      ghost var pt := ToState(plaintext);
      var state := Text2Matrix(plaintext);
      plainState := state;
      var first := Matrix2Text(state);
      answer := [first];
      for i := 1 to numRounds
        invariant Valid() && IsBlock(state) && (forall r | 0 <= r < 4 :: fresh(state[r])) && plainState == state
        invariant StateOf(state) == WhiteBox(key, numRounds, pt, i - 1)
        invariant |answer| == i
        invariant forall k | 0 <= k < i :: answer[k] == ToText(WhiteBox(key, numRounds, pt, k))
      {
        WbRound(i, state);
        var text := Matrix2Text(state);
        answer := answer + [text];
      }
      WbSubBytes(numRounds, state);
      ShiftRowsInPlace(state);
      WhiteBoxIsStock(key, numRounds, pt);
      var text := Matrix2Text(state);
      answer := answer + [text];
    }

    method StockRound(r: nat, state: Matrix)
      requires Valid() && r <= numRounds && IsBlock(state)
      requires forall i, j | 0 <= i < 4 && 0 <= j < |roundKeys| :: state[i] != roundKeys[j]
      modifies state
      ensures Valid()
      ensures StateOf(state) == AddKey(MixColumns(ShiftRows(SubBytes(old(StateOf(state))))), RoundKey(key, r))
    {
      hide ShiftRows, MixColumns, SubBytes, KeyWord, StateOf, AddKey, RoundKey;
      SubBytesInPlace(state);
      ShiftRowsInPlace(state);
      MixColumnsInPlace(state);
      AddKeyOf(r, state);
    }

    /** Stock mode, with the single normal S-box. */
    method Encrypt(plaintext: nat) returns (answer: seq<nat>)
      requires Valid()
      modifies `plainState
      ensures Valid() && |answer| == numRounds + 1
      ensures forall i | 0 <= i < numRounds :: answer[i] == ToText(Stock(key, ToState(plaintext), i))
      ensures answer[numRounds] == ToText(Cipher(key, ToState(plaintext), numRounds))
    {
      hide ToText, ToState, ShiftRows, MixColumns, SubBytes, KeyWord, StateOf, AddKey, RoundKey;
      ghost var pt := ToState(plaintext);
      var state := Text2Matrix(plaintext);
      plainState := state;
      AddKeyOf(0, state);
      var first := Matrix2Text(state);
      answer := [first];
      for i := 1 to numRounds
        invariant Valid() && IsBlock(state) && (forall r | 0 <= r < 4 :: fresh(state[r])) && plainState == state
        invariant StateOf(state) == Stock(key, pt, i - 1)
        invariant |answer| == i
        invariant forall k | 0 <= k < i :: answer[k] == ToText(Stock(key, pt, k))
      {
        StockRound(i, state);
        var text := Matrix2Text(state);
        answer := answer + [text];
      }
      SubBytesInPlace(state);
      ShiftRowsInPlace(state);
      AddKeyOf(numRounds, state);
      var text := Matrix2Text(state);
      answer := answer + [text];
    }
  }

  method MakeRcon(rounds: nat) returns (rcon: seq<bv8>)
    requires rounds > 0
    ensures |rcon| == rounds + 1 && (forall k | 0 <= k <= rounds :: rcon[k] == Rcon(k))
  {
    hide Xtime;
    rcon := seq(rounds + 1, _ => 0);
    rcon := rcon[1 := 1];
    for i := 2 to rounds + 1
      invariant |rcon| == rounds + 1 && (forall k | 0 <= k < i :: rcon[k] == Rcon(k))
    {
      rcon := rcon[i := Xtime(rcon[i - 1])];
    }
  }

  /** Appends the expanded words to the four words of the master key. */
  method ExpandKey(ghost key: State, first: Matrix, rcon: seq<bv8>, rounds: nat) returns (roundKeys: Matrix)
    requires IsBlock(first) && StateOf(first) == key
    requires |rcon| == rounds + 1 && (forall k | 0 <= k <= rounds :: rcon[k] == Rcon(k))
    ensures first <= roundKeys && |roundKeys| == 4 * (rounds + 1) && Separate(roundKeys)
    ensures forall k | 4 <= k < |roundKeys| :: fresh(roundKeys[k])
    ensures forall k | 0 <= k < |roundKeys| :: WordOf(roundKeys[k]) == KeyWord(key, k)
  {
    hide Rcon, Plus, Xor, Schedule;
    FirstWords(key);
    roundKeys := first;
    for i := 4 to 4 * (rounds + 1)
      invariant first <= roundKeys && |roundKeys| == i && Separate(roundKeys)
      invariant forall k | 4 <= k < i :: fresh(roundKeys[k])
      invariant forall k | 0 <= k < i :: WordOf(roundKeys[k]) == KeyWord(key, k)
    {
      var row := NextWord(roundKeys[i - 4], roundKeys[i - 1], i % 4 == 0, rcon[i / 4]);
      NextKeyWord(key, i);
      roundKeys := roundKeys + [row];
    }
  }

  lemma NextKeyWord(key: State, i: nat)
    requires i >= 4
    ensures KeyWord(key, i) == Xor(KeyWord(key, i - 4),
        if i % 4 == 0 then Schedule(KeyWord(key, i - 1), Rcon(i / 4)) else KeyWord(key, i - 1))
  {
    hide Xor, Schedule, Rcon;
  }

  /** The S-box with k added to its input. */
  method FoldInput(k: bv8) returns (nubox: array<bv8>)
    ensures fresh(nubox) && nubox.Length == 256
    ensures forall x: nat | x < 256 :: nubox[x] == Sbox(Plus(x as bv8, k))
  {
    hide Sbox, Plus;
    nubox := new bv8[256];
    for x := 0 to 256
      invariant forall y: nat | y < x :: nubox[y] == Sbox(Plus(y as bv8, k))
    {
      nubox[x] := Sbox(Plus(x as bv8, k));
    }
  }

  /** Adds l to every entry of a box. */
  method FoldOutput(nubox: array<bv8>, l: bv8)
    requires nubox.Length == 256
    modifies nubox
    ensures forall x: nat | x < 256 :: nubox[x] == Plus(old(nubox[x]), l)
  {
    hide Plus;
    for x := 0 to 256
      invariant forall y: nat | y < x :: nubox[y] == Plus(old(nubox[y]), l)
      invariant forall y: nat | x <= y < 256 :: nubox[y] == old(nubox[y])
    {
      nubox[x] := Plus(nubox[x], l);
    }
  }

  lemma ByteIndex(x: bv8)
    ensures x as nat as bv8 == x
  {
  }

  lemma FirstWords(key: State)
    ensures KeyWord(key, 0) == key.w0 && KeyWord(key, 1) == key.w1
    ensures KeyWord(key, 2) == key.w2 && KeyWord(key, 3) == key.w3
  {
  }

  /** One row of the key expansion from the rows four and one before it. */
  method NextWord(w4: array<bv8>, w1: array<bv8>, first: bool, c: bv8) returns (row: array<bv8>)
    requires w4.Length == w1.Length == 4
    ensures fresh(row) && row.Length == 4
    ensures WordOf(row) == Xor(WordOf(w4), if first then Schedule(WordOf(w1), c) else WordOf(w1))
  {
    hide Sbox;
    row := new bv8[4];
    if first {
      row[0] := Plus(Plus(w4[0], Sbox(w1[1])), c);
      for j := 1 to 4
        invariant row[0] == Plus(Plus(w4[0], Sbox(w1[1])), c)
        invariant forall k | 1 <= k < j :: row[k] == Plus(w4[k], Sbox(w1[(k + 1) % 4]))
      {
        row[j] := Plus(w4[j], Sbox(w1[(j + 1) % 4]));
      }
      PlusAssoc(w4[0], Sbox(w1[1]), c);
    } else {
      for j := 0 to 4
        invariant forall k | 0 <= k < j :: row[k] == Plus(w4[k], w1[k])
      {
        row[j] := Plus(w4[j], w1[j]);
      }
    }
  }

  /** Under one key, two plaintexts have the same ciphertext exactly if they are equal modulo 2^128. */
  lemma EncryptInjective(key: State, p: nat, q: nat, rounds: nat)
    requires rounds > 0
    ensures ToText(Cipher(key, ToState(p), rounds)) == ToText(Cipher(key, ToState(q), rounds))
       <==> p % Pow256(16) == q % Pow256(16)
  {
    hide Pow256, ToState, ToText, Cipher;
    TextRoundTrip(p, Cipher(key, ToState(p), rounds));
    TextRoundTrip(q, Cipher(key, ToState(q), rounds));
    TextRoundTrip(p, ToState(p));
    TextRoundTrip(q, ToState(q));
    CipherInjective(key, ToState(p), ToState(q), rounds);
  }
}
