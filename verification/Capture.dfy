/** The capturing side: bus operations that are carried out and, while a capture is open,
    appended to the command stream together with its bookkeeping. */
module Capture {
  import opened Common
  import opened Playback

  const ADR_SIZE: u64 := 0x1_0000

  /** The 64 KiB window of an address: the address with its low bits cleared. */
  function Window(a: u64): (w: u64)
    ensures w <= a < w + ADR_SIZE
  {
    a - a % ADR_SIZE
  }

  /** The window of the first write, where 0 means that none was seen yet. */
  function BaseOf(ops: seq<Op>): u64 {
    if ops == [] then 0
    else
      var b, op := BaseOf(ops[..|ops| - 1]), ops[|ops| - 1];
      if op.Write? && b == 0 then Window(op.adr) else b
  }

  /** Operation k lies inside the range and timed out while recording. */
  ghost predicate TimedOutAt<S>(dev: Device<S>, s: S, ops: seq<Op>, upper: u64, lower: u64, k: nat)
    requires k < |ops|
  {
    InRange(ops[k].adr, upper, lower) && TimesOut(dev, Record(dev, s, ops[..k]).st, ops[k])
  }

  ghost predicate NoTimeOut<S>(dev: Device<S>, s: S, ops: seq<Op>, upper: u64, lower: u64) {
    forall k: nat | k < |ops| :: !TimedOutAt(dev, s, ops, upper, lower, k)
  }

  lemma TimedOutEarlier<S>(dev: Device<S>, s: S, ops: seq<Op>, upper: u64, lower: u64, k: nat)
    requires k < |ops| - 1
    ensures TimedOutAt(dev, s, ops, upper, lower, k) == TimedOutAt(dev, s, ops[..|ops| - 1], upper, lower, k)
  {
    assert ops[..|ops| - 1][..k] == ops[..k];
  }

  lemma LastTimeOutLast<S>(dev: Device<S>, s: S, ops: seq<Op>, upper: u64, lower: u64)
    requires ops != []
    ensures LastTimeOut(dev, s, ops, upper, lower)
         == if TimedOutAt(dev, s, ops, upper, lower, |ops| - 1) then |ops|
            else LastTimeOut(dev, s, ops[..|ops| - 1], upper, lower)
  {
    hide InRange, TimesOut, Record;
  }

  lemma NoTimeOutLast<S>(dev: Device<S>, s: S, ops: seq<Op>, upper: u64, lower: u64)
    requires ops != []
    ensures NoTimeOut(dev, s, ops, upper, lower)
       <==> NoTimeOut(dev, s, ops[..|ops| - 1], upper, lower) && !TimedOutAt(dev, s, ops, upper, lower, |ops| - 1)
  {
    hide TimedOutAt;
    var init := ops[..|ops| - 1];
    if NoTimeOut(dev, s, ops, upper, lower) {
      forall k: nat | k < |init| ensures !TimedOutAt(dev, s, init, upper, lower, k) {
        TimedOutEarlier(dev, s, ops, upper, lower, k);
      }
    }
    if NoTimeOut(dev, s, init, upper, lower) && !TimedOutAt(dev, s, ops, upper, lower, |init|) {
      forall k: nat | k < |ops| ensures !TimedOutAt(dev, s, ops, upper, lower, k) {
        if k < |init| { TimedOutEarlier(dev, s, ops, upper, lower, k); }
      }
    }
  }

  lemma NothingYet<S>(dev: Device<S>, s: S, upper: u64, lower: u64)
    ensures LastTimeOut(dev, s, [], upper, lower) == 0 && NoTimeOut(dev, s, [], upper, lower)
  {
  }

  /** The error count of a replay is 0 exactly when nothing timed out. */
  lemma {:induction false} LastTimeOutZero<S>(dev: Device<S>, s: S, ops: seq<Op>, upper: u64, lower: u64)
    ensures LastTimeOut(dev, s, ops, upper, lower) == 0 <==> NoTimeOut(dev, s, ops, upper, lower)
  {
    hide TimedOutAt, LastTimeOut, NoTimeOut;
    if ops == [] {
      NothingYet(dev, s, upper, lower);
    } else {
      LastTimeOutZero(dev, s, ops[..|ops| - 1], upper, lower);
      LastTimeOutLast(dev, s, ops, upper, lower);
      NoTimeOutLast(dev, s, ops, upper, lower);
    }
  }

  /** The end of a captured range: a 64-bit sum. */
  function UpperOf(window: u64): u64 {
    (window + ADR_SIZE) % TWO_64
  }

  /** The words of an address and of a time-out, as they are printed. */
  lemma PrintedWords(adr: u64, timeOut: c_int)
    ensures Low32(adr) == adr % 0x1_0000_0000 && PrintInt(timeOut) == timeOut % 0x1_0000_0000
  {
  }

  lemma RangeEnd(window: u64)
    ensures UpperOf(window) == (window + 0x1_0000) % 0x1_0000_0000_0000_0000
  {
  }

  /** Every address lies in the given window. */
  ghost predicate OneWindow(ops: seq<Op>, window: u64) {
    forall op | op in ops :: Window(op.adr) == window
  }

  lemma WindowCovers(ops: seq<Op>, window: u64)
    requires Printable(ops) && OneWindow(ops, window)
    ensures AllInRange(ops, UpperOf(window), window)
  {
    forall op | op in ops
      ensures InRange(op.adr, UpperOf(window), window)
    {
      assert Window(op.adr) == window && Low32(op.adr) == op.adr < TWO_32;
    }
  }

  lemma ReplayPrefix<S(!new)>(dev: Device<S>, s: S, ops: seq<Op>, window: u64, n: nat)
    requires Printable(ops) && OneWindow(ops, window) && n <= |ops|
    ensures var stream := Record(dev, s, ops).stream;
            && Readable(stream, n)
            && var q := Play(dev, s, stream, UpperOf(window), window, n);
               && q.st == Record(dev, s, ops[..n]).st
               && q.cursor == |Record(dev, s, ops[..n]).stream| && !q.stopped
               && (q.errCnt == 0 <==> NoTimeOut(dev, s, ops[..n], UpperOf(window), window))
  {
    hide InRange, Readable, Play, NoTimeOut, LastTimeOut, Record, OneWindow, UpperOf;
    WindowCovers(ops, window);
    RoundTrip(dev, s, UpperOf(window), window, ops, n);
    LastTimeOutZero(dev, s, ops[..n], UpperOf(window), window);
  }

  class CepCrypto<S(!new)> {
    const bus: Bus<S>
    const base: int -> u64
    var mCapture: int
    var mCount: nat
    var mSingle: nat
    var mWordCnt: nat
    var mAdrBase: u64
    var mAdrSize: u64
    var stream: seq<u64>
    ghost var ops: seq<Op>
    ghost var start: S

    /** While a capture is open, the stream is the recording of the operations since it was
        opened, and the counters describe it. */
    ghost predicate Valid()
      reads this, bus
    {
      && mAdrSize == ADR_SIZE
      && (mCapture != 0 ==>
            && Recorded(bus.st, stream) == Record(bus.dev, start, ops)
            && mCount == |ops| && mWordCnt == |stream| && mSingle <= mCount
            && mAdrBase == BaseOf(ops))
    }

    constructor (bus: Bus<S>, base: int -> u64)
      ensures Valid() && mCapture == 0 && this.bus == bus && this.base == base
    {
      this.bus := bus;
      this.base := base;
      mCapture, mCount, mSingle, mWordCnt := 0, 0, 0, 0;
      mAdrBase, mAdrSize := 0, ADR_SIZE;
      stream, ops := [], [];
      start := bus.st;
    }

    /** Opens a capture from the current state of the device, unless the file cannot be opened. */
    method SetCaptureMode(mode: int, canOpen: bool)
      modifies this
      ensures Valid() && mCapture == if canOpen then mode else 0
      ensures ops == [] && stream == [] && start == bus.st && mSingle == 0
    {
      mCapture, mCount, mSingle, mWordCnt := 0, 0, 0, 0;
      mAdrBase, mAdrSize := 0, ADR_SIZE;
      mCapture := mode;
      if mCapture != 0 && !canOpen {
        mCapture := 0;
      }
      stream, ops := [], [];
      start := bus.st;
    }

    function PhysicalAdr(device: int, pAddress: u64): u64 {
      (base(device) + pAddress) % TWO_64
    }

    /** What one captured operation leaves behind. */
    twostate predicate Appended(op: Op)
      reads this, bus
    {
      && Valid() && bus.st == After(bus.dev, old(bus.st), op)
      && mCapture == old(mCapture) && mSingle == old(mSingle) && start == old(start)
      && if mCapture != 0 then
           ops == old(ops) + [op] && stream == old(stream) + Words(bus.dev, old(bus.st), op)
         else
           ops == old(ops) && stream == old(stream)
    }

    lemma Extend(init: seq<Op>, op: Op)
      ensures var r := Record(bus.dev, start, init);
              && Record(bus.dev, start, init + [op])
              == Recorded(After(bus.dev, r.st, op), r.stream + Words(bus.dev, r.st, op))
              && BaseOf(init + [op])
              == if op.Write? && BaseOf(init) == 0 then Window(op.adr) else BaseOf(init)
    {
      assert (init + [op])[..|init|] == init;
      hide After, Words;
    }

    method WriteNCapture(device: int, pAddress: u64, pData: u64)
      requires Valid()
      modifies this, bus
      ensures Appended(Write(PhysicalAdr(device, pAddress), pData))
      ensures var adr := (base(device) + pAddress) % 0x1_0000_0000_0000_0000;
              && bus.st == bus.dev.write(old(bus.st), adr, pData)
              && (mCapture != 0 ==>
                    && stream == old(stream) + [1, adr % 0x1_0000_0000, pData] && mCount == old(mCount) + 1
                    && mAdrBase == if old(mAdrBase) == 0 then adr - adr % 0x1_0000 else old(mAdrBase))
    {
      hide BaseOf, Record, Low32;
      var adr := PhysicalAdr(device, pAddress);
      PrintedWords(adr, 0);
      Extend(ops, Write(adr, pData));
      bus.RawWrite(adr, pData);
      if mCapture != 0 {
        mCount := mCount + 1;
        stream := stream + [WRITE_CMD, Low32(adr), pData];
        if mAdrBase == 0 {
          mAdrBase := adr - adr % mAdrSize;
        }
        mWordCnt := mWordCnt + 3;
        ops := ops + [Write(adr, pData)];
      }
    }

    method ReadNCapture(device: int, pAddress: u64) returns (pData: u64)
      requires Valid()
      modifies this, bus
      ensures Appended(Read(PhysicalAdr(device, pAddress)))
      ensures var adr := (base(device) + pAddress) % 0x1_0000_0000_0000_0000;
              && (pData, bus.st) == bus.dev.read(old(bus.st), adr)
              && (mCapture != 0 ==>
                    && stream == old(stream) + [2, adr % 0x1_0000_0000, pData] && mCount == old(mCount) + 1
                    && mAdrBase == old(mAdrBase))
    {
      hide BaseOf, Record, Low32;
      var adr := PhysicalAdr(device, pAddress);
      PrintedWords(adr, 0);
      Extend(ops, Read(adr));
      pData := bus.RawRead(adr);
      if mCapture != 0 {
        mCount := mCount + 1;
        stream := stream + [RDNCMP_CMD, Low32(adr), pData];
        mWordCnt := mWordCnt + 3;
        ops := ops + [Read(adr)];
      }
    }

    /** Returns 1 when the time-out is used up, and the stream holds the spin either way. */
    method ReadNSpin(device: int, pAddress: u64, pData: u64, mask: u64, timeOut: c_int) returns (failed: int)
      requires Valid()
      modifies this, bus
      ensures Appended(Spin(PhysicalAdr(device, pAddress), pData, mask, timeOut))
      ensures failed == if timeOut <= 0 || TimesOut(bus.dev, old(bus.st),
          Spin(PhysicalAdr(device, pAddress), pData, mask, timeOut)) then 1 else 0
      ensures var adr := (base(device) + pAddress) % 0x1_0000_0000_0000_0000;
              && bus.st == SpinOn(bus.dev, old(bus.st), adr, pData, mask, timeOut).0
              && (mCapture != 0 ==>
                    && stream == old(stream) + [3, adr % 0x1_0000_0000, pData, mask, timeOut % 0x1_0000_0000]
                    && mCount == old(mCount) + 1 && mAdrBase == old(mAdrBase))
    {
      hide PrintInt, Low32, Matches, BaseOf, Record, SpinOn;
      var adr := PhysicalAdr(device, pAddress);
      PrintedWords(adr, timeOut);
      ghost var op := Spin(adr, pData, mask, timeOut);
      Extend(ops, op);
      if mCapture != 0 {
        mCount := mCount + 1;
        stream := stream + [RDSPIN_CMD, Low32(adr), pData, mask, PrintInt(timeOut)];
        mWordCnt := mWordCnt + 5;
        ops := ops + [op];
      }
      var left := SpinUntil(adr, pData, mask, timeOut);
      failed := if left <= 0 then 1 else 0;
    }

    method SpinUntil(adr: u64, pData: u64, mask: u64, timeOut: int) returns (left: int)
      modifies bus
      ensures (bus.st, left) == SpinOn(bus.dev, old(bus.st), adr, pData, mask, timeOut)
    {
      hide Matches;
      left := timeOut;
      while left > 0
        invariant SpinOn(bus.dev, bus.st, adr, pData, mask, left)
               == SpinOn(bus.dev, old(bus.st), adr, pData, mask, timeOut)
      {
        var rdDat := bus.RawRead(adr);
        if Matches(rdDat, pData, mask) {
          break;
        }
        left := left - 1;
      }
    }

    /** Remembers the command count once the loop number reaches the capture mode. */
    method MarkSingle(loop: int)
      requires Valid()
      modifies `mSingle
      ensures Valid()
      ensures mSingle == if loop >= mCapture && old(mSingle) == 0 then mCount else old(mSingle)
    {
      if loop >= mCapture && mSingle == 0 {
        mSingle := mCount;
      }
    }

    /** Replaying the first n captured commands, with the captured range, from the state in which
        the capture was opened: every value matches, the cursor ends on the boundary of command
        n, and an error is reported exactly for a spin that timed out while recording. With
        n = mSingle this is the single-loop replay of the test suite. */
    lemma PrefixReplays(n: nat)
      requires Valid() && mCapture != 0 && Printable(ops) && OneWindow(ops, mAdrBase) && n <= mCount
      ensures Readable(stream, n)
      ensures var upper := (mAdrBase + mAdrSize) % 0x1_0000_0000_0000_0000;
              var q := Play(bus.dev, start, stream, upper, mAdrBase, n);
              && q.st == Record(bus.dev, start, ops[..n]).st
              && q.cursor == |Record(bus.dev, start, ops[..n]).stream| && !q.stopped
              && (q.errCnt == 0 <==> NoTimeOut(bus.dev, start, ops[..n], upper, mAdrBase))
    {
      hide Readable, Play, NoTimeOut, BaseOf, Record, OneWindow, Printable, UpperOf;
      RangeEnd(mAdrBase);
      ReplayPrefix(bus.dev, start, ops, mAdrBase, n);
    }

    /** Replaying everything uses exactly the mWordCnt words and reaches the present state. */
    lemma CaptureReplays()
      requires Valid() && mCapture != 0 && Printable(ops) && OneWindow(ops, mAdrBase)
      ensures Readable(stream, mCount)
      ensures var upper := (mAdrBase + mAdrSize) % 0x1_0000_0000_0000_0000;
              var q := Play(bus.dev, start, stream, upper, mAdrBase, mCount);
              && q.st == bus.st && q.cursor == mWordCnt && !q.stopped
              && (q.errCnt == 0 <==> NoTimeOut(bus.dev, start, ops, upper, mAdrBase))
    {
      hide Readable, Play, NoTimeOut, BaseOf, Record, OneWindow, Printable, UpperOf;
      assert ops[..mCount] == ops;
      PrefixReplays(mCount);
    }
  }
}
