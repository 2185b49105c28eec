/** Captured command streams: what recording a sequence of bus operations appends to the
    stream, what replaying a stream does to a device, and the theorems that relate the two.
    A device is any deterministic machine whose reads may change its state. */
module Playback {
  import opened Common

  const WRITE_CMD: u64 := 1
  const RDNCMP_CMD: u64 := 2
  const RDSPIN_CMD: u64 := 3
  const WRITE_CMD_SIZE: nat := 3
  const RDNCMP_CMD_SIZE: nat := 3
  const RDSPIN_CMD_SIZE: nat := 5

  type u64 = x: int | 0 <= x < TWO_64

  /** A 32-bit C integer. */
  type c_int = x: int | -TWO_31 <= x < TWO_31

  datatype Device<!S> = Device(read: (S, u64) -> (u64, S), write: (S, u64, u64) -> S)

  /** A captured operation at a physical address. */
  datatype Op = Write(adr: u64, data: u64)
              | Read(adr: u64)
              | Spin(adr: u64, data: u64, mask: u64, timeOut: c_int)

  predicate InRange(adr: u64, upper: u64, lower: u64) {
    lower <= adr < upper
  }

  /** The address as printed: a 32-bit number. */
  function Low32(a: u64): u64 {
    a % TWO_32
  }

  /** A C integer printed as unsigned hexadecimal, and read back into a C integer. */
  function PrintInt(t: c_int): u64
  {
    if t < 0 then t + TWO_32 else t
  }

  function ReadInt(w: u64): c_int {
    var l := w % TWO_32;
    if l >= TWO_31 then l - TWO_32 else l
  }

  lemma IntRoundTrip(t: c_int)
    ensures ReadInt(PrintInt(t)) == t
  {
  }

  predicate Matches(v: u64, data: u64, mask: u64) {
    (v as bv64 ^ data as bv64) & mask as bv64 == 0
  }

  // ---------------------------------------------------------------- one operation

  /** Reading until the value matches or the time-out is used up. */
  function SpinOn<S>(dev: Device<S>, s: S, adr: u64, data: u64, mask: u64, timeOut: int): (r: (S, int))
    ensures r.1 <= timeOut
    decreases if timeOut > 0 then timeOut else 0
  {
    if timeOut <= 0 then (s, timeOut)
    else
      var (v, s') := dev.read(s, adr);
      if Matches(v, data, mask) then (s', timeOut) else SpinOn(dev, s', adr, data, mask, timeOut - 1)
  }

  /** The device after an operation. */
  function After<S>(dev: Device<S>, s: S, op: Op): S {
    match op
    case Write(a, d) => dev.write(s, a, d)
    case Read(a) => dev.read(s, a).1
    case Spin(a, d, m, t) => SpinOn(dev, s, a, d, m, t).0
  }

  /** The words an operation appends to the stream. */
  function Words<S>(dev: Device<S>, s: S, op: Op): seq<u64>
  {
    match op
    case Write(a, d) => [WRITE_CMD, Low32(a), d]
    case Read(a) => [RDNCMP_CMD, Low32(a), dev.read(s, a).0]
    case Spin(a, d, m, t) => [RDSPIN_CMD, Low32(a), d, m, PrintInt(t)]
  }

  /** A spin that had tries and used them all up. */
  predicate TimesOut<S>(dev: Device<S>, s: S, op: Op) {
    op.Spin? && op.timeOut > 0 && SpinOn(dev, s, op.adr, op.data, op.mask, op.timeOut).1 <= 0
  }

  // ---------------------------------------------------------------- recording

  datatype Recorded<!S> = Recorded(st: S, stream: seq<u64>)

  function Record<S>(dev: Device<S>, s: S, ops: seq<Op>): Recorded<S>
  {
    if ops == [] then Recorded(s, [])
    else
      var r := Record(dev, s, ops[..|ops| - 1]);
      var op := ops[|ops| - 1];
      Recorded(After(dev, r.st, op), r.stream + Words(dev, r.st, op))
  }

  /** The number of the last operation inside the range that timed out, or 0. */
  function LastTimeOut<S>(dev: Device<S>, s: S, ops: seq<Op>, upper: u64, lower: u64): (c: nat)
    ensures c <= |ops|
  {
    if ops == [] then 0
    else
      var init, op := ops[..|ops| - 1], ops[|ops| - 1];
      if InRange(op.adr, upper, lower) && TimesOut(dev, Record(dev, s, init).st, op) then |ops|
      else LastTimeOut(dev, s, init, upper, lower)
  }

  // ---------------------------------------------------------------- replaying

  datatype Played<!S> = Played(st: S, cursor: nat, errCnt: nat, stopped: bool)

  /** How far the cursor moves for a command word; unknown words do not move it. */
  function Size(cmd: u64): nat {
    if cmd == WRITE_CMD then WRITE_CMD_SIZE
    else if cmd == RDNCMP_CMD then RDNCMP_CMD_SIZE
    else if cmd == RDSPIN_CMD then RDSPIN_CMD_SIZE
    else 0
  }

  /** Where the cursor stands after n commands, and whether the words read on the way exist. */
  function Cursor(cmds: seq<u64>, n: nat): nat {
    if n == 0 then 0
    else
      var i := Cursor(cmds, n - 1);
      if i < |cmds| then i + Size(cmds[i]) else i
  }

  ghost predicate Readable(cmds: seq<u64>, n: nat) {
    forall c: nat | c < n ::
      Cursor(cmds, c) < |cmds| && Cursor(cmds, c) + Size(cmds[Cursor(cmds, c)]) <= |cmds|
  }

  /** One command of the stream. */
  function PlayOne<S>(dev: Device<S>, s: S, cmds: seq<u64>, upper: u64, lower: u64, i: nat, errCnt: nat,
                      c: nat): Played<S>
    requires i < |cmds| && i + Size(cmds[i]) <= |cmds|
  {
    var next := i + Size(cmds[i]);
    if cmds[i] == WRITE_CMD && InRange(cmds[i + 1], upper, lower) then
      Played(dev.write(s, cmds[i + 1], cmds[i + 2]), next, errCnt, false)
    else if cmds[i] == RDNCMP_CMD && InRange(cmds[i + 1], upper, lower) then
      var (v, s') := dev.read(s, cmds[i + 1]);
      if v != cmds[i + 2] then Played(s', i, c, true) else Played(s', next, errCnt, false)
    else if cmds[i] == RDSPIN_CMD && InRange(cmds[i + 1], upper, lower) then
      var t := ReadInt(cmds[i + 4]);
      var (s', left) := SpinOn(dev, s, cmds[i + 1], cmds[i + 2], cmds[i + 3], t);
      Played(s', next, if t > 0 && left <= 0 then c else errCnt, false)
    else
      Played(s, next, errCnt, false)
  }

  /** The first n commands of a stream, stopping at the first value mismatch. */
  function Play<S>(dev: Device<S>, s: S, cmds: seq<u64>, upper: u64, lower: u64, n: nat): (p: Played<S>)
    requires Readable(cmds, n)
    ensures !p.stopped ==> p.cursor == Cursor(cmds, n)
  {
    if n == 0 then Played(s, 0, 0, false)
    else
      var p := Play(dev, s, cmds, upper, lower, n - 1);
      if p.stopped then p else PlayOne(dev, p.st, cmds, upper, lower, p.cursor, p.errCnt, n)
  }

  // ---------------------------------------------------------------- the theorems

  /** The stream b starts with the words of a. */
  predicate Begins(a: seq<u64>, b: seq<u64>) {
    a <= b
  }

  /** The replaying device agrees with the recording device, along rel, on every access inside
      the range. */
  ghost predicate Agrees<R(!new), P(!new)>(rec: Device<R>, play: Device<P>, rel: (R, P) -> bool,
                                           upper: u64, lower: u64) {
    && (forall r, p, a | rel(r, p) && InRange(a, upper, lower) ::
          rec.read(r, a).0 == play.read(p, a).0 && rel(rec.read(r, a).1, play.read(p, a).1))
    && (forall r, p, a, d | rel(r, p) && InRange(a, upper, lower) :: rel(rec.write(r, a, d), play.write(p, a, d)))
  }

  /** Accesses of the recording device outside the range do not matter to the other one. */
  ghost predicate Ignores<R(!new), P(!new)>(rec: Device<R>, rel: (R, P) -> bool, upper: u64, lower: u64) {
    && (forall r, p, a | rel(r, p) && !InRange(a, upper, lower) :: rel(rec.read(r, a).1, p))
    && (forall r, p, a, d | rel(r, p) && !InRange(a, upper, lower) :: rel(rec.write(r, a, d), p))
  }

  ghost predicate AllInRange(ops: seq<Op>, upper: u64, lower: u64) {
    forall op | op in ops :: InRange(op.adr, upper, lower)
  }

  /** Operations whose address survives printing. */
  ghost predicate Printable(ops: seq<Op>) {
    forall op | op in ops :: Low32(op.adr) == op.adr
  }

  lemma {:induction false} SpinAgrees<R(!new), P(!new)>(rec: Device<R>, play: Device<P>, rel: (R, P) -> bool,
                                                        r: R, p: P, upper: u64, lower: u64, a: u64, d: u64, m: u64,
                                                        t: int)
    requires Agrees(rec, play, rel, upper, lower) && rel(r, p) && InRange(a, upper, lower)
    ensures var (r', left) := SpinOn(rec, r, a, d, m, t);
            var (p', left') := SpinOn(play, p, a, d, m, t);
            rel(r', p') && left == left'
    decreases if t > 0 then t else 0
  {
    if t > 0 && !Matches(rec.read(r, a).0, d, m) {
      SpinAgrees(rec, play, rel, rec.read(r, a).1, play.read(p, a).1, upper, lower, a, d, m, t - 1);
    }
  }

  lemma {:induction false} SpinIgnored<R(!new), P(!new)>(rec: Device<R>, rel: (R, P) -> bool, r: R, p: P,
                                                         upper: u64, lower: u64, a: u64, d: u64, m: u64, t: int)
    requires Ignores(rec, rel, upper, lower) && rel(r, p) && !InRange(a, upper, lower)
    ensures rel(SpinOn(rec, r, a, d, m, t).0, p)
    decreases if t > 0 then t else 0
  {
    if t > 0 && !Matches(rec.read(r, a).0, d, m) {
      SpinIgnored(rec, rel, rec.read(r, a).1, p, upper, lower, a, d, m, t - 1);
    }
  }

  /** The size word of a recorded operation is its length. */
  lemma WordsSize<S>(dev: Device<S>, s: S, op: Op)
    ensures |Words(dev, s, op)| > 0 && Size(Words(dev, s, op)[0]) == |Words(dev, s, op)|
  {
  }

  lemma ReadableMore(cmds: seq<u64>, n: nat)
    requires Readable(cmds, n) && Cursor(cmds, n) < |cmds|
    requires Cursor(cmds, n) + Size(cmds[Cursor(cmds, n)]) <= |cmds|
    ensures Readable(cmds, n + 1)
    ensures Cursor(cmds, n + 1) == Cursor(cmds, n) + Size(cmds[Cursor(cmds, n)])
  {
  }

  /** A stream that begins with the recorded words can be read for as many commands as were
      recorded, and the cursor is always on a command boundary. */
  lemma {:induction false} RecordedReadable<S>(dev: Device<S>, s: S, ops: seq<Op>, cmds: seq<u64>)
    requires Begins(Record(dev, s, ops).stream, cmds)
    ensures Readable(cmds, |ops|) && Cursor(cmds, |ops|) == |Record(dev, s, ops).stream|
  {
    if ops != [] {
      var init, op := ops[..|ops| - 1], ops[|ops| - 1];
      assert op in ops;
      var r := Record(dev, s, init);
      WordsSize(dev, r.st, op);
      hide Words, Size, After, Low32, Cursor, Readable;
      RecordedReadable(dev, s, init, cmds);
      assert cmds[|r.stream|] == Words(dev, r.st, op)[0];
      ReadableMore(cmds, |init|);
    } else {
      assert Cursor(cmds, 0) == 0;
    }
  }

  /** The words of an operation stand in the stream at position i. */
  ghost predicate Holds<S>(dev: Device<S>, s: S, op: Op, cmds: seq<u64>, i: nat)
  {
    var w := Words(dev, s, op);
    && i + |w| <= |cmds|
    && (forall k | i <= k < i + |w| :: cmds[k] == w[k - i])
  }

  lemma HoldsSize<S>(dev: Device<S>, s: S, op: Op, cmds: seq<u64>, i: nat)
    requires Holds(dev, s, op, cmds, i)
    ensures i < |cmds| && i + Size(cmds[i]) <= |cmds| && Size(cmds[i]) == |Words(dev, s, op)|
  {
    hide Low32, PrintInt;
    assert cmds[i] == Words(dev, s, op)[0];
  }

  /** Replaying one recorded spin. */
  lemma ReplaySpin<R(!new), P(!new)>(rec: Device<R>, play: Device<P>, rel: (R, P) -> bool, r: R, p: P,
                                     upper: u64, lower: u64, cmds: seq<u64>, i: nat, errCnt: nat, op: Op, c: nat)
    requires Agrees(rec, play, rel, upper, lower) && rel(r, p)
    requires InRange(op.adr, upper, lower) || Ignores(rec, rel, upper, lower)
    requires op.Spin? && Low32(op.adr) == op.adr && Holds(rec, r, op, cmds, i)
    ensures i < |cmds| && i + Size(cmds[i]) <= |cmds|
    ensures var q := PlayOne(play, p, cmds, upper, lower, i, errCnt, c);
            && rel(After(rec, r, op), q.st) && !q.stopped && q.cursor == i + |Words(rec, r, op)|
            && q.errCnt == if InRange(op.adr, upper, lower) && TimesOut(rec, r, op) then c else errCnt
  {
    HoldsSize(rec, r, op, cmds, i);
    IntRoundTrip(op.timeOut);
    hide InRange, PrintInt, ReadInt, Low32, Matches, SpinOn, Agrees, Ignores;
    assert cmds[i] == RDSPIN_CMD && cmds[i + 1] == op.adr && cmds[i + 2] == op.data && cmds[i + 3] == op.mask
        && cmds[i + 4] == PrintInt(op.timeOut);
    if InRange(op.adr, upper, lower) {
      SpinAgrees(rec, play, rel, r, p, upper, lower, op.adr, op.data, op.mask, op.timeOut);
    } else {
      SpinIgnored(rec, rel, r, p, upper, lower, op.adr, op.data, op.mask, op.timeOut);
    }
  }

  /** Replaying one recorded operation. */
  lemma ReplayOne<R(!new), P(!new)>(rec: Device<R>, play: Device<P>, rel: (R, P) -> bool, r: R, p: P,
                                    upper: u64, lower: u64, cmds: seq<u64>, i: nat, errCnt: nat, op: Op, c: nat)
    requires Agrees(rec, play, rel, upper, lower) && rel(r, p)
    requires InRange(op.adr, upper, lower) || Ignores(rec, rel, upper, lower)
    requires Low32(op.adr) == op.adr && Holds(rec, r, op, cmds, i)
    ensures i < |cmds| && i + Size(cmds[i]) <= |cmds|
    ensures var q := PlayOne(play, p, cmds, upper, lower, i, errCnt, c);
            && rel(After(rec, r, op), q.st) && !q.stopped && q.cursor == i + |Words(rec, r, op)|
            && q.errCnt == if InRange(op.adr, upper, lower) && TimesOut(rec, r, op) then c else errCnt
  {
    HoldsSize(rec, r, op, cmds, i);
    if op.Spin? {
      ReplaySpin(rec, play, rel, r, p, upper, lower, cmds, i, errCnt, op, c);
    } else {
      hide InRange, PrintInt, ReadInt, Low32, Matches, SpinOn;
      assert cmds[i] == Words(rec, r, op)[0] && cmds[i + 1] == op.adr && cmds[i + 2] == Words(rec, r, op)[2];
    }
  }

  /** The replaying device has kept up with the recording one. */
  ghost predicate KeptUp<R, P>(rec: Device<R>, rel: (R, P) -> bool, r: R, upper: u64, lower: u64,
                               ops: seq<Op>, q: Played<P>)
  {
    var after := Record(rec, r, ops);
    && rel(after.st, q.st) && !q.stopped
    && q.cursor == |after.stream| && q.errCnt == LastTimeOut(rec, r, ops, upper, lower)
  }

  lemma RecordSnoc<S>(dev: Device<S>, s: S, init: seq<Op>, op: Op, upper: u64, lower: u64)
    ensures var r := Record(dev, s, init);
            && Record(dev, s, init + [op]) == Recorded(After(dev, r.st, op), r.stream + Words(dev, r.st, op))
            && LastTimeOut(dev, s, init + [op], upper, lower)
            == if InRange(op.adr, upper, lower) && TimesOut(dev, r.st, op) then |init| + 1
               else LastTimeOut(dev, s, init, upper, lower)
  {
    hide After, Words, InRange, TimesOut, Low32;
    assert (init + [op])[..|init|] == init;
  }

  lemma ReplayNext<R(!new), P(!new)>(rec: Device<R>, play: Device<P>, rel: (R, P) -> bool, r: R,
                                     upper: u64, lower: u64, init: seq<Op>, op: Op, cmds: seq<u64>, q: Played<P>)
    requires Agrees(rec, play, rel, upper, lower)
    requires InRange(op.adr, upper, lower) || Ignores(rec, rel, upper, lower)
    requires Low32(op.adr) == op.adr
    requires Begins(Record(rec, r, init + [op]).stream, cmds) && KeptUp(rec, rel, r, upper, lower, init, q)
    ensures q.cursor < |cmds| && q.cursor + Size(cmds[q.cursor]) <= |cmds|
    ensures KeptUp(rec, rel, r, upper, lower, init + [op],
        PlayOne(play, q.st, cmds, upper, lower, q.cursor, q.errCnt, |init| + 1))
  {
    hide PlayOne, After, Words, Agrees, Ignores, InRange, TimesOut, Size, Low32, Record, LastTimeOut;
    var ops, before := init + [op], Record(rec, r, init);
    RecordSnoc(rec, r, init, op, upper, lower);
    assert Holds(rec, before.st, op, cmds, |before.stream|);
    ReplayOne(rec, play, rel, before.st, q.st, upper, lower, cmds, q.cursor, q.errCnt, op, |ops|);
  }

  lemma LastAndRest(ops: seq<Op>, upper: u64, lower: u64)
    requires ops != []
    ensures var init, op := ops[..|ops| - 1], ops[|ops| - 1];
            && (AllInRange(ops, upper, lower) ==> AllInRange(init, upper, lower) && InRange(op.adr, upper, lower))
            && (Printable(ops) ==> Printable(init) && Low32(op.adr) == op.adr)
  {
    assert ops[|ops| - 1] in ops;
    hide InRange, Low32;
  }

  /** Replaying a recorded stream, possibly filtered by an address range, on a device that
      agrees with the recording one inside the range and does not depend on what lies outside:
      no value mismatches, every command is consumed whole, the final states are related, and
      the only errors reported are the recorded time-outs. */
  lemma {:induction false} Replay<R(!new), P(!new)>(rec: Device<R>, play: Device<P>, rel: (R, P) -> bool, r: R, p: P,
                                   upper: u64, lower: u64, ops: seq<Op>, cmds: seq<u64>)
    requires Agrees(rec, play, rel, upper, lower) && rel(r, p)
    requires AllInRange(ops, upper, lower) || Ignores(rec, rel, upper, lower)
    requires Printable(ops) && Begins(Record(rec, r, ops).stream, cmds)
    ensures Readable(cmds, |ops|)
    ensures KeptUp(rec, rel, r, upper, lower, ops, Play(play, p, cmds, upper, lower, |ops|))
  {
    RecordedReadable(rec, r, ops, cmds);
    hide PlayOne, Play, Record, KeptUp, Agrees, Ignores, InRange, Size, Low32, Readable, Cursor, AllInRange, Printable,
      Begins;
    if ops == [] {
      ReplayNothing(rec, play, rel, r, p, upper, lower, cmds);
    } else {
      var init, op := ops[..|ops| - 1], ops[|ops| - 1];
      assert init + [op] == ops;
      LastAndRest(ops, upper, lower);
      InitRecorded(rec, r, ops, cmds);
      Replay(rec, play, rel, r, p, upper, lower, init, cmds);
      RecordedReadable(rec, r, init, cmds);
      ReplayLast(rec, play, rel, r, p, upper, lower, init, op, cmds);
    }
  }

  lemma ReplayLast<R(!new), P(!new)>(rec: Device<R>, play: Device<P>, rel: (R, P) -> bool, r: R, p: P,
                                     upper: u64, lower: u64, init: seq<Op>, op: Op, cmds: seq<u64>)
    requires Agrees(rec, play, rel, upper, lower)
    requires InRange(op.adr, upper, lower) || Ignores(rec, rel, upper, lower)
    requires Low32(op.adr) == op.adr && Begins(Record(rec, r, init + [op]).stream, cmds)
    requires Readable(cmds, |init|) && Readable(cmds, |init| + 1)
    requires KeptUp(rec, rel, r, upper, lower, init, Play(play, p, cmds, upper, lower, |init|))
    ensures KeptUp(rec, rel, r, upper, lower, init + [op], Play(play, p, cmds, upper, lower, |init| + 1))
  {
    hide PlayOne, Play, Record, KeptUp, Agrees, Ignores, InRange, Size, Low32, Readable, Cursor;
    var q := Play(play, p, cmds, upper, lower, |init|);
    Unstopped(rec, rel, r, upper, lower, init, q);
    ReplayNext(rec, play, rel, r, upper, lower, init, op, cmds, q);
    PlayMore(play, p, cmds, upper, lower, |init|);
  }

  lemma InitRecorded<S>(dev: Device<S>, s: S, ops: seq<Op>, cmds: seq<u64>)
    requires ops != [] && Begins(Record(dev, s, ops).stream, cmds)
    ensures Begins(Record(dev, s, ops[..|ops| - 1]).stream, cmds)
  {
    RecordPrefix(dev, s, ops, |ops| - 1);
    hide Record;
    PrefixOfPrefix(Record(dev, s, ops[..|ops| - 1]).stream, Record(dev, s, ops).stream, cmds);
  }

  lemma PrefixOfPrefix(a: seq<u64>, b: seq<u64>, c: seq<u64>)
    requires a <= b <= c
    ensures a <= c
  {
  }

  lemma ReplayNothing<R, P>(rec: Device<R>, play: Device<P>, rel: (R, P) -> bool, r: R, p: P,
                            upper: u64, lower: u64, cmds: seq<u64>)
    requires rel(r, p)
    ensures Readable(cmds, 0) && KeptUp(rec, rel, r, upper, lower, [], Play(play, p, cmds, upper, lower, 0))
  {
  }

  lemma PlayMore<S>(dev: Device<S>, s: S, cmds: seq<u64>, upper: u64, lower: u64, n: nat)
    requires Readable(cmds, n + 1) && Readable(cmds, n) && !Play(dev, s, cmds, upper, lower, n).stopped
    ensures var q := Play(dev, s, cmds, upper, lower, n);
            && q.cursor < |cmds| && q.cursor + Size(cmds[q.cursor]) <= |cmds|
            && Play(dev, s, cmds, upper, lower, n + 1)
            == PlayOne(dev, q.st, cmds, upper, lower, q.cursor, q.errCnt, n + 1)
  {
    hide PlayOne, Size, Cursor;
  }

  lemma Unstopped<R, P>(rec: Device<R>, rel: (R, P) -> bool, r: R, upper: u64, lower: u64, ops: seq<Op>, q: Played<P>)
    requires KeptUp(rec, rel, r, upper, lower, ops, q)
    ensures !q.stopped
  {
  }

  /** Record/replay round trip on one device from the same initial state, for any prefix of the
      recorded operations; with no recorded time-out it returns 0 errors. */
  lemma RoundTrip<S(!new)>(dev: Device<S>, s: S, upper: u64, lower: u64, ops: seq<Op>, n: nat)
    requires n <= |ops| && Printable(ops) && AllInRange(ops[..n], upper, lower)
    ensures var cmds := Record(dev, s, ops).stream;
            && Readable(cmds, n)
            && Play(dev, s, cmds, upper, lower, n)
            == Played(Record(dev, s, ops[..n]).st, |Record(dev, s, ops[..n]).stream|,
                      LastTimeOut(dev, s, ops[..n], upper, lower), false)
  {
    var rel := (x: S, y: S) => x == y;
    var cmds := Record(dev, s, ops).stream;
    RecordPrefix(dev, s, ops, n);
    Replay(dev, dev, rel, s, s, upper, lower, ops[..n], cmds);
  }

  lemma {:induction false} RecordPrefix<S>(dev: Device<S>, s: S, ops: seq<Op>, n: nat)
    requires n <= |ops|
    ensures Record(dev, s, ops[..n]).stream <= Record(dev, s, ops).stream
  {
    if n < |ops| {
      var init := ops[..|ops| - 1];
      assert init[..n] == ops[..n];
      RecordPrefix(dev, s, init, n);
    } else {
      assert ops[..n] == ops;
    }
  }

  // ---------------------------------------------------------------- two devices

  /** Two independent devices behind one bus: the first answers at the addresses from lower up
      to, but not including, upper, and the second everywhere else. */
  function Both<A, B>(a: Device<A>, b: Device<B>, upper: u64, lower: u64): Device<(A, B)> {
    Device(
      (s: (A, B), adr: u64) =>
        if lower <= adr < upper then (a.read(s.0, adr).0, (a.read(s.0, adr).1, s.1))
        else (b.read(s.1, adr).0, (s.0, b.read(s.1, adr).1)),
      (s: (A, B), adr: u64, data: u64) =>
        if lower <= adr < upper then (a.write(s.0, adr, data), s.1)
        else (s.0, b.write(s.1, adr, data)))
  }

  lemma PrintablePrefix(ops: seq<Op>, n: nat)
    requires n <= |ops| && Printable(ops)
    ensures Printable(ops[..n])
  {
    hide Low32;
  }

  /** A prefix of a recorded stream, filtered by a range that the relation respects. */
  lemma FilteredPrefix<S(!new)>(bus: Device<S>, rel: (S, S) -> bool, s: S, p: S, upper: u64, lower: u64,
                                ops: seq<Op>, n: nat)
    requires n <= |ops| && Printable(ops) && rel(s, p)
    requires Agrees(bus, bus, rel, upper, lower) && Ignores(bus, rel, upper, lower)
    ensures var cmds := Record(bus, s, ops).stream;
            && Readable(cmds, n)
            && var q := Play(bus, p, cmds, upper, lower, n);
               && rel(Record(bus, s, ops[..n]).st, q.st) && !q.stopped
               && q.errCnt == LastTimeOut(bus, s, ops[..n], upper, lower)
  {
    var cmds := Record(bus, s, ops).stream;
    RecordPrefix(bus, s, ops, n);
    PrintablePrefix(ops, n);
    hide Record, Play, Readable, LastTimeOut, Printable, Agrees, Ignores;
    Replay(bus, bus, rel, s, p, upper, lower, ops[..n], cmds);
  }

  /** Range-filtered replay is sound: a stream that interleaves commands to two devices, played
      back with one device's range, produces no mismatch, drives that device to its recorded
      final state from the same start, and leaves the other device alone in whatever state it
      is. */
  lemma FilteredReplay<A(!new), B(!new)>(devA: Device<A>, devB: Device<B>, a: A, b: B, b': B,
                                         upper: u64, lower: u64, ops: seq<Op>, n: nat)
    requires n <= |ops| && Printable(ops)
    ensures var both := Both(devA, devB, upper, lower);
            var cmds := Record(both, (a, b), ops).stream;
            && Readable(cmds, n)
            && var q := Play(both, (a, b'), cmds, upper, lower, n);
               && q.st == (Record(both, (a, b), ops[..n]).st.0, b') && !q.stopped
               && q.errCnt == LastTimeOut(both, (a, b), ops[..n], upper, lower)
  {
    var both := Both(devA, devB, upper, lower);
    var rel := (x: (A, B), y: (A, B)) => x.0 == y.0 && y.1 == b';
    assert Agrees(both, both, rel, upper, lower) && Ignores(both, rel, upper, lower);
    hide Record, Play, Readable, LastTimeOut, Printable, Agrees, Ignores, Both;
    FilteredPrefix(both, rel, (a, b), (a, b'), upper, lower, ops, n);
  }

  // ---------------------------------------------------------------- code

  class Bus<S> {
    const dev: Device<S>
    var st: S

    constructor (dev: Device<S>, st: S)
      ensures this.dev == dev && this.st == st
    {
      this.dev := dev;
      this.st := st;
    }

    method RawWrite(adr: u64, data: u64)
      modifies this
      ensures st == dev.write(old(st), adr, data)
    {
      st := dev.write(st, adr, data);
    }

    method RawRead(adr: u64) returns (v: u64)
      modifies this
      ensures (v, st) == dev.read(old(st), adr)
    {
      var r := dev.read(st, adr);
      v := r.0;
      st := r.1;
    }
  }

  /** Replays the first totalCmds commands; returns the number of the mismatching command, or
      of the last one that timed out, or 0. */
  method CepPlayback<S>(bus: Bus<S>, cmdSeq: seq<u64>, upper: u64, lower: u64, totalCmds: nat)
      returns (errCnt: nat)
    requires Readable(cmdSeq, totalCmds)
    modifies bus
    ensures var p := Play(bus.dev, old(bus.st), cmdSeq, upper, lower, totalCmds);
            bus.st == p.st && errCnt == p.errCnt
  {
    hide InRange, Matches, ReadInt, Cursor, SpinOn;
    errCnt := 0;
    var i: nat := 0;
    ghost var s0 := bus.st;
    for c := 1 to totalCmds + 1
      invariant Play(bus.dev, s0, cmdSeq, upper, lower, c - 1) == Played(bus.st, i, errCnt, false)
    {
      assert Cursor(cmdSeq, c - 1) == i;
      if cmdSeq[i] == WRITE_CMD {
        if InRange(cmdSeq[i + 1], upper, lower) {
          bus.RawWrite(cmdSeq[i + 1], cmdSeq[i + 2]);
        }
        i := i + WRITE_CMD_SIZE;
      } else if cmdSeq[i] == RDNCMP_CMD {
        if InRange(cmdSeq[i + 1], upper, lower) {
          var rdDat := bus.RawRead(cmdSeq[i + 1]);
          if rdDat != cmdSeq[i + 2] {
            errCnt := c;
            StopHere(bus.dev, s0, cmdSeq, upper, lower, c, totalCmds);
            break;
          }
        }
        i := i + RDNCMP_CMD_SIZE;
      } else if cmdSeq[i] == RDSPIN_CMD {
        if InRange(cmdSeq[i + 1], upper, lower) {
          var timedOut := PlaySpin(bus, cmdSeq[i + 1], cmdSeq[i + 2], cmdSeq[i + 3], ReadInt(cmdSeq[i + 4]));
          if timedOut {
            errCnt := c;
          }
        }
        i := i + RDSPIN_CMD_SIZE;
      }
    }
  }

  /** Once stopped, the result no longer changes. */
  lemma {:induction false} StopHere<S>(dev: Device<S>, s: S, cmds: seq<u64>, upper: u64, lower: u64, c: nat, n: nat)
    requires c <= n && Readable(cmds, n) && Play(dev, s, cmds, upper, lower, c).stopped
    ensures Play(dev, s, cmds, upper, lower, n) == Play(dev, s, cmds, upper, lower, c)
  {
    hide PlayOne, Cursor;
    if c < n {
      StopHere(dev, s, cmds, upper, lower, c, n - 1);
    }
  }

  /** The spin loop of the playback. */
  method PlaySpin<S>(bus: Bus<S>, adr: u64, data: u64, mask: u64, timeOut: int) returns (timedOut: bool)
    modifies bus
    ensures bus.st == SpinOn(bus.dev, old(bus.st), adr, data, mask, timeOut).0
    ensures timedOut <==> timeOut > 0 && SpinOn(bus.dev, old(bus.st), adr, data, mask, timeOut).1 <= 0
  {
    hide Matches;
    var left := timeOut;
    timedOut := false;
    while left > 0
      invariant !timedOut && (timeOut > 0 ==> left > 0) && (timeOut <= 0 ==> left == timeOut)
      invariant SpinOn(bus.dev, bus.st, adr, data, mask, left)
             == SpinOn(bus.dev, old(bus.st), adr, data, mask, timeOut)
    {
      var rdDat := bus.RawRead(adr);
      if Matches(rdDat, data, mask) {
        break;
      }
      left := left - 1;
      if left <= 0 {
        timedOut := true;
        break;
      }
    }
  }
}
