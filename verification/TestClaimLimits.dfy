/** When a core of the claim loop gives up, counted in what happened to it: a call ends without
    the lock after a hundred refusals, and the loop ends in error after a thousand fruitless
    calls, or a hundred since the last test. And what a core publishes about itself. */
module TestClaimLimits {
  import opened TestClaim

  predicate AtLock(pc: Pc) {
    pc.LockRequest? || pc.LockCheck?
  }

  /** The core before and after step k. */
  function CoreAt(run: seq<State>, k: nat, me: nat): Core {
    if k < |run| && me < |run[k].cores| then run[k].cores[me] else Core(Exited, {}, 0, 0, [])
  }

  /** How often the lock was refused to the core since its present call began. */
  function Refused(run: seq<State>, who: seq<nat>, me: nat, k: nat): nat
    requires k <= |who|
  {
    var now := CoreAt(run, k, me).pc;
    if k == 0 || !AtLock(now) then 0
    else
      var before := CoreAt(run, k - 1, me).pc;
      if who[k - 1] == me && before.LockCheck? then
        if before.last == now.last then Refused(run, who, me, k - 1) + 1 else 0
      else Refused(run, who, me, k - 1)
  }

  /** The step ended a call of the loop that found no test. */
  predicate CallFailed(before: Pc, now: Pc) {
    && ((before.LockCheck? && !before.last) || (before.ReleaseNone? && !before.last))
    && (now == LoopTop || (now.LockRequest? && now.last))
  }

  /** How many calls in a row have found no test: since the last one that did, or the start. */
  function Fruitless(run: seq<State>, who: seq<nat>, me: nat, k: nat): nat
    requires k <= |who|
  {
    var now := CoreAt(run, k, me).pc;
    if k == 0 || now.Running? then 0
    else
      Fruitless(run, who, me, k - 1)
      + if who[k - 1] == me && CallFailed(CoreAt(run, k - 1, me).pc, now) then 1 else 0
  }

  /** The time-out: a thousand calls before the first test, and a hundred after each one. */
  function Patience(c: Core): nat {
    if c.ran == [] && !c.pc.Running? then 1000 else 100
  }

  /** What the counters of the core mean. */
  predicate Counted(c: Core, refused: nat, fruitless: nat) {
    && (c.pc.LockRequest? ==> c.pc.tries + refused == 100)
    && (c.pc.LockCheck? ==> c.pc.tries + refused == 100)
    && (!AtLock(c.pc) ==> refused == 0)
    && (!Leaving(c.pc) ==> c.timeOut > 0 && c.timeOut + fruitless == Patience(c))
  }

  lemma NextCount(run: seq<State>, who: seq<nat>, me: nat, k: nat, e: nat)
    requires k < |who| && |run| == |who| + 1 && Inv(run[k]) && CanStep(run[k], who[k]) && me < |run[k].cores|
    requires run[k + 1] == Step(run[k], who[k], e)
    requires Counted(CoreAt(run, k, me), Refused(run, who, me, k), Fruitless(run, who, me, k))
    ensures Counted(CoreAt(run, k + 1, me), Refused(run, who, me, k + 1), Fruitless(run, who, me, k + 1))
  {
    var s, c := run[k], who[k];
    if c != me {
      OthersStay(s, c, e, me);
      hide Step, Inv;
    } else {
      assert CoreOk(s.lock, s.scratch, me, s.cores[me]);
      hide Inv, CoreOk, Tests;
    }
  }

  lemma FirstCount(run: seq<State>, who: seq<nat>, err: seq<nat>, me: nat)
    requires IsRun(run, who, err) && me < 4
    ensures Counted(CoreAt(run, 0, me), Refused(run, who, me, 0), Fruitless(run, who, me, 0))
  {
    assert run[0].cores[me] == Core(LoopTop, {}, TIME_OUT, 0, []);
  }

  lemma {:induction false} RunCounted(run: seq<State>, who: seq<nat>, err: seq<nat>, me: nat, k: nat)
    requires |run| == |who| + 1 && IsRun(run, who, err) && k < |run| && me < 4
    ensures me < |run[k].cores|
    ensures Counted(CoreAt(run, k, me), Refused(run, who, me, k), Fruitless(run, who, me, k))
  {
    hide IsRun, Step, CanStep, Counted, Refused, Fruitless, CoreAt;
    RunInv(run, who, err, k);
    if k == 0 {
      FirstCount(run, who, err, me);
    } else {
      RunCounted(run, who, err, me, k - 1);
      RunInv(run, who, err, k - 1);
      RunStep(run, who, err, k - 1);
      NextCount(run, who, me, k - 1, err[k - 1]);
    }
  }

  lemma RefusedStep(s: State, me: nat, e: nat)
    requires CanStep(s, me) && s.cores[me].pc.LockCheck? && (s.lock.isLocked ==> s.lock.coreId != me)
    ensures me < |Step(s, me, e).cores|
    ensures var before, now := s.cores[me].pc, Step(s, me, e).cores[me].pc;
            now.LockRequest? && now.last == before.last <==> before.tries > 1
  {
  }

  lemma FailedStep(s: State, me: nat, e: nat)
    requires CanStep(s, me) && s.cores[me].errCnt == 0 && me < |Step(s, me, e).cores|
    requires CallFailed(s.cores[me].pc, Step(s, me, e).cores[me].pc)
    ensures var before, now := s.cores[me], Step(s, me, e).cores[me];
            if before.timeOut > 1 then now.pc == LoopTop && now.errCnt == 0 else Leaving(now.pc) && now.errCnt == 1
  {
  }

  /** A refused request is repeated in the same call as long as it was not the hundredth one. */
  lemma LockGivenUp(run: seq<State>, who: seq<nat>, err: seq<nat>, k: nat)
    requires |run| == |who| + 1 && IsRun(run, who, err) && k < |who| && who[k] < 4
    requires var c := CoreAt(run, k, who[k]);
             c.pc.LockCheck? && (run[k].lock.isLocked ==> run[k].lock.coreId != who[k])
    ensures var last, now := CoreAt(run, k, who[k]).pc.last, CoreAt(run, k + 1, who[k]).pc;
            now.LockRequest? && now.last == last <==> Refused(run, who, who[k], k) + 1 < 100
  {
    RunCounted(run, who, err, who[k], k);
    RunStep(run, who, err, k);
    hide IsRun, Step, CanStep, Refused, Fruitless;
    RefusedStep(run[k], who[k], err[k]);
  }

  /** After a call that found no test the core stays in its loop as long as the fruitless calls do
      not use up its patience, and else leaves with one error. */
  lemma TestsGivenUp(run: seq<State>, who: seq<nat>, err: seq<nat>, k: nat)
    requires |run| == |who| + 1 && IsRun(run, who, err) && k < |who| && who[k] < 4
    requires CallFailed(CoreAt(run, k, who[k]).pc, CoreAt(run, k + 1, who[k]).pc)
    ensures var before, now := CoreAt(run, k, who[k]), CoreAt(run, k + 1, who[k]);
            if Fruitless(run, who, who[k], k) + 1 < Patience(before) then now.pc == LoopTop && now.errCnt == 0
            else Leaving(now.pc) && now.errCnt == 1
  {
    RunCounted(run, who, err, who[k], k);
    RunInv(run, who, err, k);
    RunStep(run, who, err, k);
    assert CoreOk(run[k].lock, run[k].scratch, who[k], run[k].cores[who[k]]);
    hide IsRun, Step, CanStep, Refused, Fruitless, Inv, Patience;
    FailedStep(run[k], who[k], err[k]);
  }

  // ---------------------------------------------------------------- what a core publishes

  /** From the clearing of its claim on, the scratch register of a core shows the tests it has
      done, and while it runs a test, this test, too. */
  predicate Published(scratch: Scratch, c: Core) {
    match c.pc
    case Look(_, _, _) => scratch == Scratch(c.doneMask, 0)
    case Claim(_, _) => scratch == Scratch(c.doneMask, 0)
    case ReleaseNone(_) => scratch == Scratch(c.doneMask, 0)
    case ReleaseClaimed(_, test) => scratch == Scratch(c.doneMask, 0xBABE_0000 + test)
    case Running(test) => scratch == Scratch(c.doneMask, 0xBABE_0000 + test)
    case _ => true
  }

  lemma PublishedStep(s: State, c: nat, e: nat, me: nat)
    requires Inv(s) && CanStep(s, c) && me < |s.cores| == |s.scratch| && Published(s.scratch[me], s.cores[me])
    ensures var t := Step(s, c, e);
            me < |t.cores| && me < |t.scratch| && Published(t.scratch[me], t.cores[me])
  {
    assert CoreOk(s.lock, s.scratch, c, s.cores[c]);
    hide Inv, CoreOk, Tests;
  }

  lemma {:induction false} RunPublishes(run: seq<State>, who: seq<nat>, err: seq<nat>, k: nat, me: nat)
    requires IsRun(run, who, err) && k < |run| && me < 4
    ensures me < |run[k].cores| && me < |run[k].scratch| && Published(run[k].scratch[me], run[k].cores[me])
  {
    RunInv(run, who, err, k);
    if k == 0 {
      assert run[0].cores[me] == Core(LoopTop, {}, TIME_OUT, 0, []);
    } else {
      RunPublishes(run, who, err, k - 1, me);
      RunInv(run, who, err, k - 1);
      RunStep(run, who, err, k - 1);
      hide Published, Step, CanStep, IsRun;
      PublishedStep(run[k - 1], who[k - 1], err[k - 1], me);
    }
  }
}
