/** What one command of a stream does to the device, with its words and its address range
    written out, and replays whose ranges lie side by side. */
module PlaybackRanges {
  import opened Common
  import opened Playback

  // ---------------------------------------------------------------- spins

  /** The device after r reads of one address. */
  function AfterReads<S>(dev: Device<S>, s: S, adr: u64, r: nat): S {
    if r == 0 then s else AfterReads(dev, dev.read(s, adr).1, adr, r - 1)
  }

  /** The answer to read r of one address, the first being read 0. */
  function Answer<S>(dev: Device<S>, s: S, adr: u64, r: nat): u64 {
    dev.read(AfterReads(dev, s, adr, r), adr).0
  }

  /** v and data are the same in the bits of the mask. */
  predicate SameBits(v: u64, data: u64, mask: u64) {
    v as bv64 & mask as bv64 == data as bv64 & mask as bv64
  }

  lemma MatchesIs(v: u64, data: u64, mask: u64)
    ensures Matches(v, data, mask) <==> SameBits(v, data, mask)
  {
    var x, y, m := v as bv64, data as bv64, mask as bv64;
    assert Matches(v, data, mask) <==> MaskedAway(x, y, m);
    assert SameBits(v, data, mask) <==> MaskedAlike(x, y, m);
    hide *;
    MaskedEqual(x, y, m);
  }

  predicate MaskedAway(x: bv64, y: bv64, m: bv64) {
    (x ^ y) & m == 0
  }

  predicate MaskedAlike(x: bv64, y: bv64, m: bv64) {
    x & m == y & m
  }

  lemma MaskedEqual(x: bv64, y: bv64, m: bv64)
    ensures MaskedAway(x, y, m) <==> MaskedAlike(x, y, m)
  {
    hide *;
    if MaskedAway(x, y, m) {
      AwayIsAlike(x, y, m);
    }
    if MaskedAlike(x, y, m) {
      AlikeIsAway(x, y, m);
    }
  }

  lemma AwayIsAlike(x: bv64, y: bv64, m: bv64)
    requires MaskedAway(x, y, m)
    ensures MaskedAlike(x, y, m)
  {
  }

  lemma AlikeIsAway(x: bv64, y: bv64, m: bv64)
    requires MaskedAlike(x, y, m)
    ensures MaskedAway(x, y, m)
  {
  }

  /** A spin reads until the first answer that has the bits of data under the mask, at most
      timeOut times; what is left of the time-out is positive exactly if there was one. */
  lemma {:induction false} SpinReads<S>(dev: Device<S>, s: S, adr: u64, data: u64, mask: u64, timeOut: int)
      returns (r: nat)
    ensures SpinOn(dev, s, adr, data, mask, timeOut).0 == AfterReads(dev, s, adr, r)
    ensures timeOut <= 0 ==> r == 0 && SpinOn(dev, s, adr, data, mask, timeOut).1 == timeOut
    ensures timeOut > 0 ==>
              var left := SpinOn(dev, s, adr, data, mask, timeOut).1;
              && 0 < r <= timeOut && (forall k: nat | k < r - 1 :: !SameBits(Answer(dev, s, adr, k), data, mask))
              && if SameBits(Answer(dev, s, adr, r - 1), data, mask) then left == timeOut - (r - 1)
                 else r == timeOut && left == 0
    decreases if timeOut > 0 then timeOut else 0
  {
    hide Matches, SameBits;
    if timeOut <= 0 {
      r := 0;
    } else {
      var (v, s') := dev.read(s, adr);
      MatchesIs(v, data, mask);
      assert AfterReads(dev, s, adr, 0) == s && Answer(dev, s, adr, 0) == v;
      if Matches(v, data, mask) {
        r := 1;
        assert AfterReads(dev, s, adr, 1) == AfterReads(dev, s', adr, 0) == s';
      } else {
        var q := SpinReads(dev, s', adr, data, mask, timeOut - 1);
        r := q + 1;
        forall k: nat
          ensures Answer(dev, s, adr, k + 1) == Answer(dev, s', adr, k)
        {
          assert AfterReads(dev, s, adr, k + 1) == AfterReads(dev, s', adr, k);
        }
        forall k: nat | k < r - 1
          ensures !SameBits(Answer(dev, s, adr, k), data, mask)
        {
          if k > 0 {
            assert Answer(dev, s, adr, k - 1 + 1) == Answer(dev, s', adr, k - 1);
          }
        }
        if timeOut > 1 {
          assert Answer(dev, s, adr, q - 1 + 1) == Answer(dev, s', adr, q - 1);
        }
      }
    }
  }

  // ---------------------------------------------------------------- one command

  /** At word i stands a command at an address outside the range. */
  predicate Outside(cmds: seq<u64>, i: nat, upper: u64, lower: u64) {
    i + 1 < |cmds| && (cmds[i + 1] >= upper || cmds[i + 1] < lower)
  }

  /** The command at word i is passed over: only the cursor moves, past the three words of a write
      or read, the five of a spin, and not at all for an unknown command. */
  predicate PassedOver<S(==)>(s: S, cmds: seq<u64>, i: nat, errCnt: nat, q: Played<S>) {
    && i < |cmds|
    && q == Played(s, i + (if cmds[i] == 3 then 5 else if cmds[i] == 1 || cmds[i] == 2 then 3 else 0), errCnt, false)
  }

  lemma OneOutside<S>(dev: Device<S>, s: S, cmds: seq<u64>, upper: u64, lower: u64, i: nat, errCnt: nat, c: nat)
    requires Outside(cmds, i, upper, lower) && i + Size(cmds[i]) <= |cmds|
    ensures PassedOver(s, cmds, i, errCnt, PlayOne(dev, s, cmds, upper, lower, i, errCnt, c))
  {
    hide SpinOn, ReadInt;
  }

  /** A command whose address lies outside the range is passed over; p is what the commands
      before it have left. */
  lemma OutOfRange<S>(dev: Device<S>, s: S, cmds: seq<u64>, upper: u64, lower: u64, n: nat, p: Played<S>)
    requires Readable(cmds, n) && Readable(cmds, n + 1)
    requires p == Play(dev, s, cmds, upper, lower, n) && !p.stopped && Outside(cmds, p.cursor, upper, lower)
    ensures PassedOver(p.st, cmds, p.cursor, p.errCnt, Play(dev, s, cmds, upper, lower, n + 1))
  {
    PlayMore(dev, s, cmds, upper, lower, n);
    hide Play, Readable, PlayOne, Cursor, Size, InRange, Outside, PassedOver;
    OneOutside(dev, p.st, cmds, upper, lower, p.cursor, p.errCnt, n + 1);
  }

  /** The spin made r reads: none for a time-out that is not positive as a signed 32-bit number,
      and else up to the first match, or all of them. */
  predicate SpinEffect<S(==)>(dev: Device<S>, s: S, t: S, adr: u64, data: u64, mask: u64, word: u64, r: nat) {
    var low := word % 0x1_0000_0000;
    && t == AfterReads(dev, s, adr, r)
    && (low == 0 || low >= 0x8000_0000 ==> r == 0)
    && (0 < low < 0x8000_0000 ==>
          && 0 < r <= low && (forall k: nat | k < r - 1 :: !SameBits(Answer(dev, s, adr, k), data, mask))
          && (SameBits(Answer(dev, s, adr, r - 1), data, mask) || r == low))
  }

  /** Not even the last read matched. */
  predicate GivesUp<S>(dev: Device<S>, s: S, adr: u64, data: u64, mask: u64, r: nat) {
    r > 0 && !SameBits(Answer(dev, s, adr, r - 1), data, mask)
  }

  /** At word i stands a whole command at an address in the range. */
  predicate Inside(cmds: seq<u64>, i: nat, upper: u64, lower: u64) {
    i + 2 < |cmds| && (cmds[i] == 3 ==> i + 4 < |cmds|) && lower <= cmds[i + 1] < upper
  }

  /** q is what the command at word i leaves of the device s: 1 writes the third word, 2 reads
      and stops at a value other than the third word, and 3 reads r times, until a value has the
      bits of the third word under the mask of the fourth, or until the signed 32-bit time-out
      of the fifth is used up. */
  predicate Performed<S(==)>(dev: Device<S>, s: S, cmds: seq<u64>, i: nat, errCnt: nat, c: nat, q: Played<S>, r: nat)
  {
    && i + 2 < |cmds| && (cmds[i] == 3 ==> i + 4 < |cmds|)
    && if cmds[i] == 1 then q == Played(dev.write(s, cmds[i + 1], cmds[i + 2]), i + 3, errCnt, false)
    else if cmds[i] == 2 then
      var (v, t) := dev.read(s, cmds[i + 1]);
      q == if v == cmds[i + 2] then Played(t, i + 3, errCnt, false) else Played(t, i, c, true)
    else if cmds[i] == 3 then
      && !q.stopped && q.cursor == i + 5
      && SpinEffect(dev, s, q.st, cmds[i + 1], cmds[i + 2], cmds[i + 3], cmds[i + 4], r)
      && q.errCnt == if GivesUp(dev, s, cmds[i + 1], cmds[i + 2], cmds[i + 3], r) then c else errCnt
    else q == Played(s, i, errCnt, false)
  }

  lemma OneInside<S>(dev: Device<S>, s: S, cmds: seq<u64>, upper: u64, lower: u64, i: nat, errCnt: nat, c: nat)
      returns (r: nat)
    requires Inside(cmds, i, upper, lower) && i + Size(cmds[i]) <= |cmds|
    ensures Performed(dev, s, cmds, i, errCnt, c, PlayOne(dev, s, cmds, upper, lower, i, errCnt, c), r)
  {
    r := 0;
    if cmds[i] == 3 {
      r := SpinReads(dev, s, cmds[i + 1], cmds[i + 2], cmds[i + 3], ReadInt(cmds[i + 4]));
    }
    hide SpinOn, SameBits, Answer, AfterReads;
  }

  /** A command whose address lies in the range performs its access. */
  lemma InsideRange<S>(dev: Device<S>, s: S, cmds: seq<u64>, upper: u64, lower: u64, n: nat, p: Played<S>)
      returns (r: nat)
    requires Readable(cmds, n) && Readable(cmds, n + 1)
    requires p == Play(dev, s, cmds, upper, lower, n) && !p.stopped && Inside(cmds, p.cursor, upper, lower)
    ensures Performed(dev, p.st, cmds, p.cursor, p.errCnt, n + 1, Play(dev, s, cmds, upper, lower, n + 1), r)
  {
    PlayMore(dev, s, cmds, upper, lower, n);
    hide Play, Readable, PlayOne, Performed, Cursor, Size, InRange, Inside;
    r := OneInside(dev, p.st, cmds, upper, lower, p.cursor, p.errCnt, n + 1);
  }

  // ---------------------------------------------------------------- adjacent ranges

  /** With the ranges from lower to mid and from mid to upper, each command between lower and
      upper is performed in exactly one of the two replays and passed over in the other. */
  lemma ExactlyOne<S>(dev: Device<S>, s: S, t: S, cmds: seq<u64>, upper: u64, mid: u64, lower: u64, i: nat,
                      errCnt: nat, c: nat)
    requires i < |cmds| && i + Size(cmds[i]) <= |cmds| && lower <= mid <= upper
    requires i + 1 < |cmds| && lower <= cmds[i + 1] < upper
    ensures var first, second := PlayOne(dev, s, cmds, mid, lower, i, errCnt, c),
                                 PlayOne(dev, t, cmds, upper, mid, i, errCnt, c);
            if cmds[i + 1] < mid then
              && first == PlayOne(dev, s, cmds, upper, lower, i, errCnt, c)
              && second == Played(t, i + Size(cmds[i]), errCnt, false)
            else
              && first == Played(s, i + Size(cmds[i]), errCnt, false)
              && second == PlayOne(dev, t, cmds, upper, lower, i, errCnt, c)
  {
    hide SpinOn, Matches;
  }

  /** Three devices behind one bus: from lower to mid, from mid to upper, and elsewhere. */
  function Three<A, B, C>(a: Device<A>, b: Device<B>, c: Device<C>, upper: u64, mid: u64, lower: u64)
      : Device<(A, B, C)>
  {
    Device(
      (s: (A, B, C), adr: u64) =>
        if lower <= adr < mid then (a.read(s.0, adr).0, (a.read(s.0, adr).1, s.1, s.2))
        else if mid <= adr < upper then (b.read(s.1, adr).0, (s.0, b.read(s.1, adr).1, s.2))
        else (c.read(s.2, adr).0, (s.0, s.1, c.read(s.2, adr).1)),
      (s: (A, B, C), adr: u64, data: u64) =>
        if lower <= adr < mid then (a.write(s.0, adr, data), s.1, s.2)
        else if mid <= adr < upper then (s.0, b.write(s.1, adr, data), s.2)
        else (s.0, s.1, c.write(s.2, adr, data)))
  }

  lemma FirstReplay<A(!new), B(!new), C(!new)>(devA: Device<A>, devB: Device<B>, devC: Device<C>,
                                               a: A, b: B, c: C, y: B, z: C, upper: u64, mid: u64, lower: u64,
                                               ops: seq<Op>, n: nat)
    requires lower <= mid <= upper && n <= |ops| && Printable(ops)
    ensures var bus := Three(devA, devB, devC, upper, mid, lower);
            var cmds := Record(bus, (a, b, c), ops).stream;
            && Readable(cmds, n)
            && var p := Play(bus, (a, y, z), cmds, mid, lower, n);
               !p.stopped && p.st == (Record(bus, (a, b, c), ops[..n]).st.0, y, z)
  {
    var bus := Three(devA, devB, devC, upper, mid, lower);
    var rel := (s: (A, B, C), t: (A, B, C)) => s.0 == t.0 && t.1 == y && t.2 == z;
    assert Agrees(bus, bus, rel, mid, lower) && Ignores(bus, rel, mid, lower);
    hide Record, Play, Readable, LastTimeOut, Printable, Agrees, Ignores, Three;
    FilteredPrefix(bus, rel, (a, b, c), (a, y, z), mid, lower, ops, n);
  }

  lemma SecondReplay<A(!new), B(!new), C(!new)>(devA: Device<A>, devB: Device<B>, devC: Device<C>,
                                                a: A, b: B, c: C, x: A, z: C, upper: u64, mid: u64, lower: u64,
                                                ops: seq<Op>, n: nat)
    requires lower <= mid <= upper && n <= |ops| && Printable(ops)
    ensures var bus := Three(devA, devB, devC, upper, mid, lower);
            var cmds := Record(bus, (a, b, c), ops).stream;
            && Readable(cmds, n)
            && var q := Play(bus, (x, b, z), cmds, upper, mid, n);
               !q.stopped && q.st == (x, Record(bus, (a, b, c), ops[..n]).st.1, z)
  {
    var bus := Three(devA, devB, devC, upper, mid, lower);
    var rel := (s: (A, B, C), t: (A, B, C)) => s.1 == t.1 && t.0 == x && t.2 == z;
    assert Agrees(bus, bus, rel, upper, mid) && Ignores(bus, rel, upper, mid);
    hide Record, Play, Readable, LastTimeOut, Printable, Agrees, Ignores, Three;
    FilteredPrefix(bus, rel, (a, b, c), (x, b, z), upper, mid, ops, n);
  }

  /** A stream that drives two neighbours, replayed first with the range of one and then with
      the range of the other, brings each of them from its start to its recorded state: the
      first replay leaves the second device alone, and the other way round. */
  lemma AdjacentReplays<A(!new), B(!new), C(!new)>(devA: Device<A>, devB: Device<B>, devC: Device<C>,
                                                   a: A, b: B, c: C, c': C, upper: u64, mid: u64, lower: u64,
                                                   ops: seq<Op>, n: nat)
    requires lower <= mid <= upper && n <= |ops| && Printable(ops)
    ensures var bus := Three(devA, devB, devC, upper, mid, lower);
            var cmds := Record(bus, (a, b, c), ops).stream;
            var end := Record(bus, (a, b, c), ops[..n]).st;
            && Readable(cmds, n)
            && var p := Play(bus, (a, b, c'), cmds, mid, lower, n);
               var q := Play(bus, p.st, cmds, upper, mid, n);
               !p.stopped && !q.stopped && p.st == (end.0, b, c') && q.st == (end.0, end.1, c')
  {
    hide *;
    var bus := Three(devA, devB, devC, upper, mid, lower);
    FirstReplay(devA, devB, devC, a, b, c, b, c', upper, mid, lower, ops, n);
    SecondReplay(devA, devB, devC, a, b, c, Record(bus, (a, b, c), ops[..n]).st.0, c', upper, mid, lower, ops, n);
  }
}
