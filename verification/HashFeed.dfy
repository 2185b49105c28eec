/** Feeding a message to the SHA-256 and MD5 cores.  Two drivers exist.  The
    regression driver streams a NUL-terminated string through a small buffer
    and pads when it meets the NUL; the test driver pads the whole message in
    place and then walks its blocks.  The padding of section 5.1.1 of FIPS 180-4
    (and of sections 3.1 and 3.2 of RFC 1321) is the common meaning. */
module HashFeed {
  import opened Arithmetic
  import opened Common

  type Byte = x: int | 0 <= x < 256

  datatype Hash = Sha256 | Md5

  /** One block handed to the core, and whether it was started with the strobe
      that begins a new hash (only the SHA-256 core has one). */
  datatype Load = Load(first: bool, block: seq<Byte>)

  const MARKER: Byte := 0x80

  /** From this many bytes on the 32-bit length in bits has wrapped. */
  const TWO_29: nat := 0x2000_0000

  // --------------------------------------------------------------- padding

  /** Byte k of an unsigned number, least significant first. */
  function ByteAt(v: nat, k: nat): Byte {
    if k == 0 then v % 256 else ByteAt(v / 256, k - 1)
  }

  /** The eight length bytes: SHA-256 wants the high byte first, MD5 the low one. */
  function LengthField(hash: Hash, bits: nat): (field: seq<Byte>)
    ensures |field| == 8
  {
    seq(8, k requires 0 <= k < 8 => ByteAt(bits, if hash.Sha256? then 7 - k else k))
  }

  function Zeros(n: nat): seq<Byte> {
    seq(n, _ => 0)
  }

  /** The fewest zero bytes that leave marker, zeros and length on a block end. */
  function ZeroCount(n: nat): (z: nat)
    ensures z < 64 && (n + 1 + z + 8) % 64 == 0
  {
    (119 - n % 64) % 64
  }

  /** Marker, zeros and length field. */
  function Tail(hash: Hash, n: nat, bits: nat): (tail: seq<Byte>)
    ensures (n + |tail|) % 64 == 0 && 9 <= |tail| <= 72
  {
    [MARKER] + Zeros(ZeroCount(n)) + LengthField(hash, bits)
  }

  /** The standard padding of n bytes. */
  function Padding(hash: Hash, n: nat): (tail: seq<Byte>)
    ensures (n + |tail|) % 64 == 0 && 9 <= |tail| <= 72
  {
    Tail(hash, n, 8 * n)
  }

  function Padded(hash: Hash, m: seq<Byte>): (text: seq<Byte>)
    ensures |text| % 64 == 0
  {
    m + Padding(hash, |m|)
  }

  /** What the streaming driver appends for a length in bits.  With 56 bytes in
      the last block its test leaves no room for the marker, which then lands
      on the length. */
  function AddedTail(hash: Hash, bits: nat): (tail: seq<Byte>)
    requires bits % 8 == 0
    ensures (bits / 8 + |tail|) % 64 == 0 && 8 <= |tail| <= 72
  {
    if bits / 8 % 64 == 56 then [MARKER] + LengthField(hash, bits)[1..] else Tail(hash, bits / 8, bits)
  }

  /** The length in bits as the driver computes it: an unsigned 32-bit product. */
  function BitLength(n: nat): (bits: nat)
    ensures bits % 8 == 0 && bits < TWO_32 && bits / 8 % 64 == n % 64
    ensures n < TWO_29 ==> bits == 8 * n
  {
    BitLengthFacts(n);
    8 * n % TWO_32
  }

  lemma BitLengthFacts(n: nat)
    ensures 8 * n % TWO_32 == 8 * (n % TWO_29)
    ensures n % TWO_29 % 64 == n % 64
    ensures n < TWO_29 ==> n % TWO_29 == n
  {
    var q, r := n / TWO_29, n % TWO_29;
    ModUnique(8 * n, TWO_32, q, 8 * r);
    ModUnique(n, 64, 0x80_0000 * q + r / 64, r % 64);
    if n < TWO_29 { ModUnique(n, TWO_29, 0, n); }
  }

  function StreamTail(hash: Hash, n: nat): (tail: seq<Byte>) {
    AddedTail(hash, BitLength(n))
  }

  lemma StreamTailSize(hash: Hash, n: nat)
    ensures (n + |StreamTail(hash, n)|) % 64 == 0 && 8 <= |StreamTail(hash, n)| <= 72
  {
    hide AddedTail, BitLength;
    SameRest(BitLength(n) / 8, n, |StreamTail(hash, n)|);
  }

  lemma SameRest(a: nat, b: nat, c: nat)
    requires a % 64 == b % 64 && (a + c) % 64 == 0
    ensures (b + c) % 64 == 0
  {
  }

  function Streamed(hash: Hash, m: seq<Byte>): (text: seq<Byte>)
    ensures |text| % 64 == 0 && m <= text
  {
    StreamTailSize(hash, |m|);
    m + StreamTail(hash, |m|)
  }

  /** The blocks of a text as the core sees them. */
  function Blocks(hash: Hash, text: seq<Byte>): (loads: seq<Load>)
    ensures |loads| == |text| / 64
  {
    seq(|text| / 64, b requires 0 <= b < |text| / 64 =>
      Load(hash.Sha256? && b == 0, text[64 * b..64 * b + 64]))
  }

  lemma EightBytes()
    ensures Pow256(8) == TWO_64
  {
    assert Pow256(2) == 0x1_0000;
    assert Pow256(4) == 0x1_0000 * Pow256(2);
    assert Pow256(6) == 0x1_0000 * Pow256(4);
    assert Pow256(8) == 0x1_0000 * Pow256(6);
  }

  lemma BytesDetermine(a: nat, b: nat, n: nat)
    requires a < Pow256(n) && b < Pow256(n)
    requires forall k :: 0 <= k < n ==> ByteAt(a, k) == ByteAt(b, k)
    ensures a == b
  {
    if n != 0 {
      assert ByteAt(a, 0) == ByteAt(b, 0);
      forall k | 0 <= k < n - 1 ensures ByteAt(a / 256, k) == ByteAt(b / 256, k) {
        assert ByteAt(a, k + 1) == ByteAt(b, k + 1);
      }
      BytesDetermine(a / 256, b / 256, n - 1);
    }
  }

  lemma LengthAt(hash: Hash, bits: nat, k: nat)
    requires k < 8
    ensures ByteAt(bits, k) == LengthField(hash, bits)[if hash.Sha256? then 7 - k else k]
  {
  }

  lemma LengthFieldInjective(hash: Hash, a: nat, b: nat)
    requires a < Pow256(8) && b < Pow256(8)
    requires LengthField(hash, a) == LengthField(hash, b)
    ensures a == b
  {
    hide Pow256;
    hide ByteAt;
    forall k | 0 <= k < 8 ensures ByteAt(a, k) == ByteAt(b, k) {
      LengthAt(hash, a, k);
      LengthAt(hash, b, k);
    }
    BytesDetermine(a, b, 8);
  }

  /** Distinct messages keep distinct padded texts. */
  lemma PaddingInjective(hash: Hash, m: seq<Byte>, t: seq<Byte>)
    requires 8 * |m| < TWO_64 && 8 * |t| < TWO_64
    requires Padded(hash, m) == Padded(hash, t)
    ensures m == t
  {
    hide LengthField;
    hide ZeroCount;
    var text := Padded(hash, m);
    PaddedFront(hash, m);
    PaddedFront(hash, t);
    SameField(hash, text, Front(m), 8 * |m|, Front(t), 8 * |t|);
    assert m == text[..|m|] && t == text[..|t|];
  }

  lemma BlockAt(hash: Hash, text: seq<Byte>, b: nat)
    requires |text| % 64 == 0 && 64 * b < |text|
    ensures b < |Blocks(hash, text)|
    ensures Blocks(hash, text)[b] == Load(hash.Sha256? && b == 0, text[64 * b..64 * b + 64])
  {
  }

  lemma BlocksInjective(hash: Hash, a: seq<Byte>, b: seq<Byte>)
    requires |a| % 64 == 0 && |b| % 64 == 0
    requires Blocks(hash, a) == Blocks(hash, b)
    ensures a == b
  {
    assert |a| == |b|;
    forall i | 0 <= i < |a| ensures a[i] == b[i] {
      var q := i / 64;
      assert Blocks(hash, a)[q].block == Blocks(hash, b)[q].block;
      assert a[i] == Blocks(hash, a)[q].block[i - 64 * q];
      assert b[i] == Blocks(hash, b)[q].block[i - 64 * q];
    }
  }

  /** A text that ends in two length fields has one length. */
  lemma SameField(hash: Hash, text: seq<Byte>, x: seq<Byte>, a: nat, y: seq<Byte>, b: nat)
    requires text == x + LengthField(hash, a) == y + LengthField(hash, b)
    requires a < TWO_64 && b < TWO_64
    ensures a == b
  {
    hide Pow256;
    EightBytes();
    hide LengthField;
    assert text[|text| - 8..] == LengthField(hash, a);
    assert text[|text| - 8..] == LengthField(hash, b);
    LengthFieldInjective(hash, a, b);
  }

  /** The text before the length field. */
  function Front(m: seq<Byte>): seq<Byte> {
    m + [MARKER] + Zeros(ZeroCount(|m|))
  }

  lemma PaddedFront(hash: Hash, m: seq<Byte>)
    ensures Padded(hash, m) == Front(m) + LengthField(hash, 8 * |m|)
    ensures |m| % 64 != 56 ==> Streamed(hash, m) == Front(m) + LengthField(hash, BitLength(|m|))
  {
    hide LengthField, BitLength;
    assert ZeroCount(BitLength(|m|) / 8) == ZeroCount(|m|);
  }

  /** Below 2^29 bytes nothing wraps. */
  lemma ShortIsPadding(hash: Hash, m: seq<Byte>)
    requires |m| % 64 != 56 && |m| < TWO_29
    ensures Streamed(hash, m) == Padded(hash, m)
  {
    PaddedFront(hash, m);
    hide Streamed, Padded, LengthField;
  }

  /** The two drivers load the same blocks for a message exactly when its
      last block does not hold 56 bytes and its length in bits fits 32 bits. */
  lemma StreamIsPadding(hash: Hash, m: seq<Byte>)
    requires |m| < TWO_31
    ensures Blocks(hash, Streamed(hash, m)) == Blocks(hash, Padded(hash, m))
       <==> |m| % 64 != 56 && |m| < TWO_29
  {
    hide LengthField, Blocks, StreamTail, Padding, Front;
    if |m| % 64 != 56 && |m| < TWO_29 {
      ShortIsPadding(hash, m);
    } else if Blocks(hash, Streamed(hash, m)) == Blocks(hash, Padded(hash, m)) {
      BlocksInjective(hash, Streamed(hash, m), Padded(hash, m));
      if |m| % 64 == 56 {
        FiftySixSize(hash, m);
      } else {
        PaddedFront(hash, m);
        SameField(hash, Padded(hash, m), Front(m), 8 * |m|, Front(m), BitLength(|m|));
      }
      assert false;
    }
  }

  lemma FiftySixSize(hash: Hash, m: seq<Byte>)
    requires |m| % 64 == 56
    ensures |Streamed(hash, m)| == |m| + 8 && |Padded(hash, m)| == |m| + 72
  {
    hide LengthField, BitLength;
  }

  lemma {:induction false} HighBytesZero(v: nat, k: nat)
    requires v < Pow256(k)
    ensures ByteAt(v, k) == 0
  {
    if k > 0 { HighBytesZero(v / 256, k - 1); }
  }

  /** Same bytes from the second on: the numbers agree above the low byte. */
  lemma UpperBytes(a: nat, b: nat)
    requires a < Pow256(8) && b < Pow256(8)
    requires forall k :: 1 <= k < 8 ==> ByteAt(a, k) == ByteAt(b, k)
    ensures a / 256 == b / 256
  {
    assert Pow256(8) == 256 * Pow256(7);
    hide Pow256;
    forall k | 0 <= k < 7 ensures ByteAt(a / 256, k) == ByteAt(b / 256, k) {
      assert ByteAt(a, k + 1) == ByteAt(b, k + 1);
    }
    BytesDetermine(a / 256, b / 256, 7);
  }

  lemma ZeroAfterMarker(hash: Hash, s: seq<Byte>, t: seq<Byte>)
    requires |s| % 64 == 56 && |t| == |s| - 8
    requires 0 !in s
    ensures Streamed(hash, s) != Padded(hash, t)
  {
    hide LengthField, StreamTail;
    assert ZeroCount(|t|) == 7;
    PaddedFront(hash, t);
    hide Padded;
    assert Front(t)[|t| + 1] == 0;
    assert Streamed(hash, s)[|t| + 1] == s[|t| + 1];
  }

  /** A high-order marker stands for at least 2^63 bits. */
  lemma ShaMarked(bits: nat)
    requires bits < 0x100_0000_0000_0000
    ensures ByteAt(bits, 7) == 0
  {
    SevenBytes();
    hide Pow256, ByteAt;
    HighBytesZero(bits, 7);
  }

  lemma SevenBytes()
    ensures Pow256(7) == 0x100_0000_0000_0000
  {
    assert Pow256(8) == 256 * Pow256(7);
    hide Pow256;
    EightBytes();
  }

  /** Which message length could own the length field whose first byte the
      marker has replaced. */
  lemma MarkedLength(hash: Hash, t: nat, s: nat)
    requires s % 64 == 56 && s - 64 <= t < s < TWO_31
    requires LengthField(hash, 8 * t) == [MARKER] + LengthField(hash, BitLength(s))[1..]
    ensures t == s - 8
  {
    hide Pow256;
    EightBytes();
    hide LengthField, ByteAt;
    var bits := BitLength(s);
    match hash
    case Sha256 =>
      LengthAt(hash, 8 * t, 7);
      ShaMarked(8 * t);
      assert false;
    case Md5 =>
      forall k | 1 <= k < 8 ensures ByteAt(8 * t, k) == ByteAt(bits, k) {
        LengthAt(hash, 8 * t, k);
        LengthAt(hash, bits, k);
      }
      UpperBytes(8 * t, bits);
      LengthAt(hash, 8 * t, 0);
      LowByte(8 * t);
      MarkedNumbers(t, s);
  }

  lemma LowByte(v: nat)
    ensures ByteAt(v, 0) == v % 256
  {
  }

  lemma MarkedNumbers(t: nat, s: nat)
    requires s % 64 == 56 && s - 64 <= t < s < TWO_31
    requires 8 * t / 256 == 8 * s % TWO_32 / 256 && 8 * t % 256 == MARKER
    ensures t == s - 8
  {
  }

  /** What is streamed for a string with 56 bytes in its last block is not
      the padding of any message at all, so the hash it yields is nobody's. */
  lemma StreamAtFiftySix(hash: Hash, s: seq<Byte>, t: seq<Byte>)
    requires |s| % 64 == 56 && |s| < TWO_31
    requires 0 !in s
    ensures Streamed(hash, s) != Padded(hash, t)
  {
    hide LengthField, ZeroCount;
    var text := Streamed(hash, s);
    if text == Padded(hash, t) {
      assert text[|text| - 8..] == LengthField(hash, 8 * |t|);
      assert text[|text| - 8..] == [MARKER] + LengthField(hash, BitLength(|s|))[1..];
      hide BitLength;
      MarkedLength(hash, |t|, |s|);
      ZeroAfterMarker(hash, s, t);
      assert false;
    }
  }

  lemma TextSizes(hash: Hash, s: seq<Byte>, t: seq<Byte>)
    ensures |s| + 8 <= |Streamed(hash, s)| <= |s| + 72
    ensures |t| + 9 <= |Padded(hash, t)| <= |t| + 72
  {
    hide StreamTail, Padding;
    StreamTailSize(hash, |s|);
  }

  /** Nor is what is streamed for a string whose length in bits has wrapped. */
  lemma StreamWrapped(hash: Hash, s: seq<Byte>, t: seq<Byte>)
    requires |s| % 64 != 56 && TWO_29 <= |s| < TWO_31
    ensures Streamed(hash, s) != Padded(hash, t)
  {
    hide LengthField, StreamTail, Padding, BitLength;
    var text := Streamed(hash, s);
    if text == Padded(hash, t) {
      TextSizes(hash, s, t);
      PaddedFront(hash, s);
      PaddedFront(hash, t);
      hide Streamed, Padded, Front;
      SameField(hash, text, Front(t), 8 * |t|, Front(s), BitLength(|s|));
      WrappedNumbers(|t|, |s|);
      assert false;
    }
  }

  lemma WrappedNumbers(t: nat, s: nat)
    requires TWO_29 <= s && s - 64 <= t
    ensures 8 * t != BitLength(s)
  {
  }

  /** The streaming driver's text is some message's padding if and only if
      the last block does not hold 56 bytes and the length does not wrap. */
  lemma StreamedIsSomePadding(hash: Hash, s: seq<Byte>)
    requires |s| < TWO_31 && 0 !in s
    ensures (exists t :: Streamed(hash, s) == Padded(hash, t)) <==> |s| % 64 != 56 && |s| < TWO_29
  {
    hide Streamed, Padded;
    if |s| % 64 == 56 {
      forall t ensures Streamed(hash, s) != Padded(hash, t) {
        StreamAtFiftySix(hash, s, t);
      }
    } else if |s| >= TWO_29 {
      forall t ensures Streamed(hash, s) != Padded(hash, t) {
        StreamWrapped(hash, s, t);
      }
    } else {
      ShortIsPadding(hash, s);
    }
  }

  // --------------------------------------------------------------- drivers

  class Core {
    var loads: seq<Load>

    method LoadBlock(hash: Hash, first: bool, block: seq<Byte>)
      modifies this
      ensures loads == old(loads) + [Load(hash.Sha256? && first, block)]
    {
      loads := loads + [Load(hash.Sha256? && first, block)];
    }
  }

  /** Byte k of a tail of len bytes: marker, zeros, then the length. */
  function TailByte(hash: Hash, bits: nat, len: nat, k: nat): Byte
    requires 8 <= len && k < len
  {
    if k == 0 then MARKER
    else if k < len - 8 then 0
    else ByteAt(bits, if hash.Sha256? then len - 1 - k else k + 8 - len)
  }

  lemma AddedTailAt(hash: Hash, bits: nat, k: nat)
    requires bits % 8 == 0 && k < |AddedTail(hash, bits)|
    ensures AddedTail(hash, bits)[k] == TailByte(hash, bits, |AddedTail(hash, bits)|, k)
  {
    hide ByteAt, ZeroCount;
  }

  lemma PaddingAt(hash: Hash, n: nat, k: nat)
    requires k < |Padding(hash, n)|
    ensures Padding(hash, n)[k] == TailByte(hash, 8 * n, |Padding(hash, n)|, k)
  {
    hide ByteAt, ZeroCount;
  }

  lemma AddedTailSize(hash: Hash, bits: nat)
    requires bits % 8 == 0
    ensures bits % 512 == 8 * (bits / 8 % 64)
    ensures 8 * |AddedTail(hash, bits)| == if bits % 512 > 448 then 1024 - bits % 512 else 512 - bits % 512
  {
    BytesInBlock(bits);
    AddedTailBytes(hash, bits);
    hide AddedTail;
  }

  lemma BytesInBlock(bits: nat)
    requires bits % 8 == 0
    ensures bits % 512 == 8 * (bits / 8 % 64)
  {
  }

  lemma AddedTailBytes(hash: Hash, bits: nat)
    requires bits % 8 == 0
    ensures var k := bits / 8 % 64; |AddedTail(hash, bits)| == if k > 56 then 128 - k else 64 - k
  {
    hide LengthField;
    ZeroCountIs(bits / 8);
    hide ZeroCount;
  }

  lemma ZeroCountIs(n: nat)
    ensures ZeroCount(n) == if n % 64 > 55 then 119 - n % 64 else 55 - n % 64
  {
  }

  /** Equal stretches agree on a block inside them. */
  lemma SubSlice<T>(a: seq<T>, n: nat, b: seq<T>, from: nat, at: nat)
    requires at + 64 <= n <= |a| && from + n <= |b|
    requires a[..n] == b[from..from + n]
    ensures a[at..at + 64] == b[from + at..from + at + 64]
  {
    forall i | at <= i < at + 64 ensures a[i] == b[from + i] {
      assert a[i] == a[..n][i] && b[from + i] == b[from..from + n][i];
    }
  }

  /** A buffer whose bytes from start on are those of the tail. */
  lemma Spliced(hash: Hash, bits: nat, was: seq<Byte>, now: seq<Byte>, start: nat)
    requires bits % 8 == 0 && |now| == |was| && start + |AddedTail(hash, bits)| <= |was|
    requires var len := |AddedTail(hash, bits)|;
             forall j :: 0 <= j < |was| ==>
               now[j] == if start <= j < start + len then TailByte(hash, bits, len, j - start) else was[j]
    ensures now == was[..start] + AddedTail(hash, bits) + was[start + |AddedTail(hash, bits)|..]
  {
    var tail := AddedTail(hash, bits);
    hide AddedTail, TailByte;
    forall j | start <= j < start + |tail| ensures now[j] == tail[j - start] {
      AddedTailAt(hash, bits, j - start);
    }
  }

  /** The padding loop: marker, zeros, and the length from sizeStartByte on. */
  method WriteTail(hash: Hash, messageBits: nat, buffer: array<Byte>, startByte: nat, sizeStartByte: nat)
    requires messageBits % 8 == 0 && startByte <= sizeStartByte && sizeStartByte + 8 <= buffer.Length
    requires startByte + |AddedTail(hash, messageBits)| == sizeStartByte + 8
    modifies buffer
    ensures buffer[..] == old(buffer[..startByte]) + AddedTail(hash, messageBits) + old(buffer[sizeStartByte + 8..])
  {
    hide AddedTail, ByteAt;
    ghost var end := sizeStartByte + 8;
    var i := startByte;
    while i < sizeStartByte + 8
      invariant startByte <= i <= end
      invariant forall j :: startByte <= j < i ==>
                  buffer[j] == TailByte(hash, messageBits, end - startByte, j - startByte)
      invariant forall j :: 0 <= j < startByte || i <= j < buffer.Length ==> buffer[j] == old(buffer[j])
    {
      if i == startByte {
        buffer[i] := MARKER;
      } else if i >= sizeStartByte {
        var k := i - sizeStartByte;
        buffer[i] := ByteAt(messageBits, if hash.Sha256? then 7 - k else k);
      } else {
        buffer[i] := 0;
      }
      i := i + 1;
    }
    hide TailByte;
    ghost var was := old(buffer[..]);
    Spliced(hash, messageBits, was, buffer[..], startByte);
    assert was[..startByte] == old(buffer[..startByte]) && was[end..] == old(buffer[end..]);
  }

  /** Pads in place the rest of a message that starts the buffer, given the
      length of the whole message in bits. */
  method AddPadding(hash: Hash, messageBits: nat, buffer: array<Byte>) returns (added: nat)
    requires messageBits % 8 == 0 && buffer.Length >= 2 * 64
    modifies buffer
    ensures var start, tail := messageBits / 8 % 64, AddedTail(hash, messageBits);
            added == |tail|
            && buffer[..] == old(buffer[..start]) + tail + old(buffer[start + added..])
  {
    hide AddedTail;
    AddedTailSize(hash, messageBits);
    var extraBits := messageBits % 512;
    var paddingBits := if extraBits > 448 then 1024 - extraBits else 512 - extraBits;
    var startByte := extraBits / 8;
    var sizeStartByte := startByte + (paddingBits / 8 - 8);
    WriteTail(hash, messageBits, buffer, startByte, sizeStartByte);
    added := paddingBits / 8;
  }

  /** Copies the next part of the string, up to a block or to its end. */
  method CopyPart(s: seq<Byte>, from: nat, message: array<Byte>) returns (length: nat, done: bool)
    requires from <= |s| && message.Length == 1024
    modifies message
    ensures length <= 64 && from + length <= |s| && message[..length] == s[from..from + length]
    ensures done <==> length < 64
    ensures done ==> from + length == |s|
  {
    done, length := false, 0;
    while length < 64
      invariant length <= 64 && from + length <= |s|
      invariant message[..length] == s[from..from + length]
      invariant !done
    {
      if from + length == |s| {
        done := true;
        break;
      }
      message[length] := s[from + length];
      length := length + 1;
    }
  }

  /** The buffer that holds the end of the string and its tail. */
  lemma LastPart(s: seq<Byte>, tail: seq<Byte>, from: nat, buffer: seq<Byte>, rest: seq<Byte>)
    requires from <= |s| && buffer == s[from..] + tail + rest
    ensures buffer[..|s| - from + |tail|] == (s + tail)[from..]
  {
  }

  lemma BitLengthIs(n: nat)
    ensures n * 8 % TWO_32 == BitLength(n)
  {
  }

  /** One round of the outer loop up to the send: the next part of the string, padded when it
      is the last one. */
  method FillMessage(hash: Hash, s: seq<Byte>, from: nat, message: array<Byte>)
    returns (length: nat, addedBytes: nat, done: bool)
    requires from <= |s| && from % 64 == 0 && message.Length == 1024
    modifies message
    ensures length <= 64 && from + length <= |s| && addedBytes <= 72 && length + addedBytes > 0
    ensures if done then from + length + addedBytes == |Streamed(hash, s)| && length < 64
            else length == 64 && addedBytes == 0
    ensures from + length + addedBytes <= |Streamed(hash, s)|
    ensures message[..length + addedBytes] == Streamed(hash, s)[from..from + length + addedBytes]
  {
    hide AddedTail, BitLength;
    length, done := CopyPart(s, from, message);
    addedBytes := 0;
    if done {
      var totalBytes := from + length;
      assert message[..length] == s[from..] && totalBytes % 64 == length;
      BitLengthIs(totalBytes);
      StreamTailSize(hash, totalBytes);
      addedBytes := AddPadding(hash, totalBytes * 8 % TWO_32, message);
      LastPart(s, StreamTail(hash, |s|), from, message[..], message[length + addedBytes..]);
      assert message[..length + addedBytes] == message[..][..length + addedBytes];
    }
  }

  method HashString(hash: Hash, s: seq<Byte>, core: Core)
    requires 0 !in s && |s| < TWO_31
    modifies core
    ensures core.loads == old(core.loads) + Blocks(hash, Streamed(hash, s))
  {
    ghost var text := Streamed(hash, s);
    ghost var loads, sent := Blocks(hash, text), 0;
    hide Blocks, Streamed;
    var done, firstTime, totalBytes := false, true, 0;
    while !done
      invariant totalBytes <= |s| && 0 <= sent <= |loads|
      invariant core.loads == old(core.loads) + loads[..sent]
      invariant if done then sent == |loads| else totalBytes == 64 * sent
      invariant !done ==> (firstTime <==> sent == 0)
      decreases if done then 0 else 1, |s| - totalBytes
    {
      var message := new Byte[1024](_ => 0);
      var length, addedBytes;
      length, addedBytes, done := FillMessage(hash, s, totalBytes, message);
      totalBytes := totalBytes + length;
      ghost var upto := if done then |loads| else sent + 1;
      assert totalBytes + addedBytes == 64 * upto && 64 * |loads| == |text|;
      firstTime := SendBlocks(hash, core, message, length, addedBytes, firstTime,
                              text, sent, upto, old(core.loads));
      sent := upto;
    }
    assert loads[..sent] == loads;
  }

  /** The send loop: at least one block, then as long as padding is left. */
  method SendBlocks(hash: Hash, core: Core, message: array<Byte>, length: nat, padding: nat, first: bool,
                    ghost text: seq<Byte>, ghost from: nat, ghost upto: nat, ghost before: seq<Load>)
    returns (firstTime: bool)
    requires |text| % 64 == 0 && from < upto && 64 * upto <= |text|
    requires length + padding == 64 * (upto - from)
    requires length < 64 || padding == 0
    requires length <= 64 && padding <= 72
    requires message.Length == 1024
    requires message[..length + padding] == text[64 * from..64 * upto]
    requires first <==> from == 0
    requires core.loads == before + Blocks(hash, text)[..from]
    modifies core
    ensures !firstTime
    ensures core.loads == before + Blocks(hash, text)[..upto]
  {
    ghost var loads, b := Blocks(hash, text), from;
    assert message[..][..length + padding] == message[..length + padding];
    firstTime := first;
    var addedBytes: int, at := padding, 0;
    hide Blocks;
    while true
      invariant from <= b < upto && at == 64 * (b - from)
      invariant addedBytes == padding - at
      invariant firstTime <==> b == 0
      invariant core.loads == before + loads[..b]
      decreases upto - b
    {
      SubSlice(message[..], length + padding, text, 64 * from, at);
      assert message[at..at + 64] == message[..][at..at + 64];
      NextLoad(hash, text, b);
      core.LoadBlock(hash, firstTime, message[at..at + 64]);
      firstTime := false;
      addedBytes := addedBytes - 64;
      at := at + 64;
      b := b + 1;
      if addedBytes <= 0 { break; }
    }
  }

  lemma PaddingSize(hash: Hash, n: nat)
    ensures |Padding(hash, n)| == 8 + (if (n + 8) % 64 == 0 then 64 else 64 - (n + 8) % 64)
  {
    hide LengthField;
    ZeroCountIs(n);
    EightMore(n);
    hide ZeroCount;
  }

  lemma EightMore(n: nat)
    ensures (n + 8) % 64 == if n % 64 > 55 then n % 64 - 56 else n % 64 + 8
  {
  }

  /** Pads the whole message at the start of the buffer. */
  method PadMessage(hash: Hash, text: array<Byte>, size: nat) returns (total: nat)
    requires size + 72 <= text.Length
    modifies text
    ensures total == |Padded(hash, old(text[..size]))| <= text.Length
    ensures text[..total] == Padded(hash, old(text[..size])) && text[total..] == old(text[total..])
  {
    hide Padding;
    hide ByteAt;
    ghost var len := |Padding(hash, size)|;
    PaddingSize(hash, size);
    var x := size;
    var padded := (size + 8) % 64;
    padded := if padded == 0 then 64 else 64 - padded;
    for j := 0 to padded
      invariant x == size + j
      invariant forall i :: size <= i < x ==> text[i] == TailByte(hash, 8 * size, len, i - size)
      invariant forall i :: 0 <= i < size || x <= i < text.Length ==> text[i] == old(text[i])
    {
      text[x] := if j == 0 then MARKER else 0;
      x := x + 1;
    }
    total := size + padded + 8;
    for j := 0 to 8
      invariant x == size + padded + j
      invariant forall i :: size <= i < x ==> text[i] == TailByte(hash, 8 * size, len, i - size)
      invariant forall i :: 0 <= i < size || x <= i < text.Length ==> text[i] == old(text[i])
    {
      text[x] := ByteAt(size * 8, if hash.Sha256? then 7 - j else j);
      x := x + 1;
    }
    hide TailByte;
    IsPadded(hash, old(text[..size]), text[..total]);
  }

  /** A text that starts with the message and goes on with the tail's bytes. */
  lemma IsPadded(hash: Hash, m: seq<Byte>, text: seq<Byte>)
    requires |text| == |m| + |Padding(hash, |m|)|
    requires forall i :: 0 <= i < |m| ==> text[i] == m[i]
    requires var len := |Padding(hash, |m|)|;
             forall i :: |m| <= i < |text| ==> text[i] == TailByte(hash, 8 * |m|, len, i - |m|)
    ensures text == Padded(hash, m)
  {
    hide Padding;
    hide TailByte;
    forall i | 0 <= i < |text| ensures text[i] == Padded(hash, m)[i] {
      if i >= |m| { PaddingAt(hash, |m|, i - |m|); }
    }
  }

  lemma NextLoad(hash: Hash, text: seq<Byte>, b: nat)
    requires |text| % 64 == 0 && 64 * b < |text|
    ensures b < |Blocks(hash, text)|
    ensures Blocks(hash, text)[..b + 1]
         == Blocks(hash, text)[..b] + [Load(hash.Sha256? && b == 0, text[64 * b..64 * b + 64])]
  {
    BlockAt(hash, text, b);
  }

  /** The block loop over a padded text. */
  method SendText(hash: Hash, text: array<Byte>, total: nat, core: Core)
    requires total <= text.Length && total % 64 == 0
    modifies core
    ensures core.loads == old(core.loads) + Blocks(hash, text[..total])
  {
    ghost var goal := text[..total];
    ghost var loads := Blocks(hash, goal);
    hide Blocks;
    var numBlocks := total / 64;
    for b := 0 to numBlocks
      invariant core.loads == old(core.loads) + loads[..b]
    {
      NextLoad(hash, goal, b);
      assert text[b * 64..b * 64 + 64] == goal[64 * b..64 * b + 64];
      core.LoadBlock(hash, b == 0, text[b * 64..b * 64 + 64]);
    }
    assert loads[..numBlocks] == loads;
  }

  method HashMessage(hash: Hash, text: array<Byte>, size: nat, core: Core)
    requires size + 72 <= text.Length
    modifies text, core
    ensures core.loads == old(core.loads) + Blocks(hash, Padded(hash, old(text[..size])))
  {
    hide Padded, Blocks;
    var total := PadMessage(hash, text, size);
    SendText(hash, text, total, core);
  }
}
