/** The padded texts and the blocks byte by byte, without the names of their parts. */
module HashLayout {
  import opened Common
  import opened HashFeed

  /** The number whose bytes from i on, least significant first, are b. */
  function LowFirst(b: seq<Byte>, i: nat): nat
    requires i <= |b|
    decreases |b| - i
  {
    if i == |b| then 0 else b[i] + 256 * LowFirst(b, i + 1)
  }

  /** The number whose first i bytes, most significant first, are b. */
  function HighFirst(b: seq<Byte>, i: nat): nat
    requires i <= |b|
  {
    if i == 0 then 0 else 256 * HighFirst(b, i - 1) + b[i - 1]
  }

  lemma ByteShift(v: nat, k: nat)
    ensures ByteAt(v, k + 1) == ByteAt(v / 256, k)
  {
  }

  lemma {:induction false} LowBytes(b: seq<Byte>, i: nat, v: nat)
    requires i <= |b| && v < Pow256(|b| - i)
    requires forall k | i <= k < |b| :: b[k] == ByteAt(v, k - i)
    ensures LowFirst(b, i) == v
    decreases |b| - i
  {
    if i < |b| {
      assert b[i] == v % 256;
      forall k | i + 1 <= k < |b|
        ensures b[k] == ByteAt(v / 256, k - (i + 1))
      {
        ByteShift(v, k - (i + 1));
      }
      LowBytes(b, i + 1, v / 256);
    }
  }

  lemma {:induction false} HighBytes(b: seq<Byte>, i: nat, v: nat)
    requires i <= |b| && v < Pow256(i)
    requires forall k | 0 <= k < i :: b[k] == ByteAt(v, i - 1 - k)
    ensures HighFirst(b, i) == v
  {
    if i > 0 {
      assert b[i - 1] == v % 256;
      forall k | 0 <= k < i - 1
        ensures b[k] == ByteAt(v / 256, i - 2 - k)
      {
        ByteShift(v, i - 2 - k);
      }
      HighBytes(b, i - 1, v / 256);
    }
  }

  /** The eight length bytes are the number of bits, most significant first for SHA-256 and least
      significant first for MD5. */
  lemma LengthBytes(hash: Hash, bits: nat)
    requires bits < TWO_64
    ensures var field := LengthField(hash, bits);
            if hash.Sha256? then HighFirst(field, 8) == bits else LowFirst(field, 0) == bits
  {
    hide Pow256, ByteAt;
    EightBytes();
    if hash.Sha256? {
      HighBytes(LengthField(hash, bits), 8, bits);
    } else {
      LowBytes(LengthField(hash, bits), 0, bits);
    }
  }

  /** The padded text: the message, one byte with only its highest bit set, the fewest zero bytes
      that let it end a block, and the length in bits in eight bytes. */
  lemma PaddedBytes(hash: Hash, m: seq<Byte>)
    requires 8 * |m| < 0x1_0000_0000_0000_0000
    ensures var p := Padded(hash, m);
            && |p| % 64 == 0 && |m| + 9 <= |p| < |m| + 9 + 64
            && p[..|m|] == m && p[|m|] == 128
            && (forall i | |m| < i < |p| - 8 :: p[i] == 0)
            && if hash.Sha256? then HighFirst(p[|p| - 8..], 8) == 8 * |m| else LowFirst(p[|p| - 8..], 0) == 8 * |m|
  {
    LengthBytes(hash, 8 * |m|);
    hide LengthField, ZeroCount, HighFirst, LowFirst;
    var p := Padded(hash, m);
    assert p[|p| - 8..] == LengthField(hash, 8 * |m|);
  }

  /** The streamed text: the same layout with the wrapped 32-bit number of bits, unless the last
      block holds 56 bytes; then the marker takes the place of the first length byte and the text
      ends after the other seven. */
  lemma StreamedBytes(hash: Hash, m: seq<Byte>)
    ensures var p, bits := Streamed(hash, m), 8 * |m| % 0x1_0000_0000;
            && |p| % 64 == 0 && |m| + 8 <= |p| && p[..|m|] == m && p[|m|] == 128
            && if |m| % 64 == 56 then
                 && |p| == |m| + 8
                 && if hash.Sha256? then HighFirst(p[|m| + 1..], 7) == bits
                    else LowFirst(p[|m| + 1..], 0) == bits / 256
               else
                 && |m| + 9 <= |p| < |m| + 9 + 64 && (forall i | |m| < i < |p| - 8 :: p[i] == 0)
                 && if hash.Sha256? then HighFirst(p[|p| - 8..], 8) == bits else LowFirst(p[|p| - 8..], 0) == bits
  {
    var bits := BitLength(|m|);
    if |m| % 64 == 56 {
      CutLength(hash, bits);
      hide LengthField, HighFirst, LowFirst, BitLength;
      var p := Streamed(hash, m);
      assert p[|m| + 1..] == LengthField(hash, bits)[1..];
    } else {
      LengthBytes(hash, bits);
      PaddedFront(hash, m);
      hide LengthField, ZeroCount, HighFirst, LowFirst, BitLength, Streamed;
      var p := Streamed(hash, m);
      assert p[|p| - 8..] == LengthField(hash, bits);
    }
  }

  /** The length bytes without the first one: below 2^32 it holds nothing for SHA-256, and the
      lowest byte for MD5. */
  lemma CutLength(hash: Hash, bits: nat)
    requires bits < TWO_32
    ensures var cut := LengthField(hash, bits)[1..];
            if hash.Sha256? then HighFirst(cut, 7) == bits else LowFirst(cut, 0) == bits / 256
  {
    hide Pow256, ByteAt;
    SevenBytes();
    var cut := LengthField(hash, bits)[1..];
    if hash.Sha256? {
      forall k | 0 <= k < 7
        ensures cut[k] == ByteAt(bits, 6 - k)
      {
      }
      HighBytes(cut, 7, bits);
    } else {
      forall k | 0 <= k < 7
        ensures cut[k] == ByteAt(bits / 256, k)
      {
        ByteShift(bits, k);
      }
      LowBytes(cut, 0, bits / 256);
    }
  }

  /** Block q is the q-th stretch of 64 bytes; only the first block of a SHA-256 text is started
      with the strobe of a new hash. */
  lemma BlockBytes(hash: Hash, text: seq<Byte>, q: nat)
    requires q < |text| / 64
    ensures var load := Blocks(hash, text)[q];
            && |load.block| == 64 && (load.first <==> hash == Sha256 && q == 0)
            && (forall i | 0 <= i < 64 :: load.block[i] == text[64 * q + i])
  {
  }
}
