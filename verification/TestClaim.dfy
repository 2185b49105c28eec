/** Four cores that share nine playback tests through scratch registers guarded by a hardware
    lock. Every bus access is a step of its own, and the steps of the cores interleave freely. */
module TestClaim {

  const CORES: nat := 4
  const MAX_TESTS: nat := 9
  const LOCK_TRIES: nat := 100
  const TIME_OUT: nat := 1000
  const TIME_OUT_RESET: nat := 100
  const TAG: nat := 0xBABE_0000

  /** The test-and-set register: a request is granted if the lock is free, and a release by its
      master frees it. */
  datatype Lock = Lock(isLocked: bool, coreId: nat)

  /** A 64-bit scratch register: the done mask in the upper half, the claim in the lower. */
  datatype Scratch = Scratch(mask: set<nat>, claim: nat)

  /** Where a core is. The flag last marks the clean-up call after the loop. */
  datatype Pc =
    | LoopTop
    | LockRequest(last: bool, tries: nat)
    | LockCheck(last: bool, tries: nat)
    | ClearMine(last: bool)
    | Look(last: bool, test: nat, core: nat)
    | Claim(last: bool, test: nat)
    | ReleaseClaimed(last: bool, test: nat)
    | ReleaseNone(last: bool)
    | Running(test: nat)
    | Exited

  datatype Core = Core(pc: Pc, doneMask: set<nat>, timeOut: nat, errCnt: nat, ran: seq<nat>)

  datatype State = State(lock: Lock, scratch: seq<Scratch>, cores: seq<Core>)

  function Tests(): set<nat> {
    {0, 1, 2, 3, 4, 5, 6, 7, 8}
  }

  /** findATest2Run has returned without a test. */
  function NotFound(c: Core, last: bool): Core {
    if last then c.(pc := Exited)
    else if c.timeOut <= 1 then c.(timeOut := 0, errCnt := c.errCnt + 1, pc := LockRequest(true, LOCK_TRIES))
    else c.(timeOut := c.timeOut - 1, pc := LoopTop)
  }

  /** findATest2Run has returned a test. */
  function Found(c: Core, last: bool, test: nat): Core {
    if last then c.(pc := Exited) else c.(timeOut := TIME_OUT_RESET, pc := Running(test))
  }

  /** A playback has returned its error count. */
  function Finished(c: Core, test: nat, err: nat): Core {
    c.(errCnt := c.errCnt + err, doneMask := c.doneMask + {test}, ran := c.ran + [test],
       pc := if c.errCnt + err != 0 then LockRequest(true, LOCK_TRIES) else LoopTop)
  }

  predicate CanStep(s: State, me: nat) {
    && me < |s.cores| && me < |s.scratch|
    && s.cores[me].pc != Exited
    && (s.cores[me].pc.Look? ==> s.cores[me].pc.core < |s.scratch|)
  }

  function With(s: State, me: nat, c: Core): State
    requires me < |s.cores|
  {
    s.(cores := s.cores[me := c])
  }

  /** One step of core me; err is what a playback that finishes now returns. */
  function Step(s: State, me: nat, err: nat): State
    requires CanStep(s, me)
  {
    var c := s.cores[me];
    match c.pc
    case LoopTop =>
      With(s, me, c.(pc := LockRequest(!(c.doneMask != Tests() && c.errCnt == 0), LOCK_TRIES)))
    case LockRequest(last, tries) =>
      With(if s.lock.isLocked then s else s.(lock := Lock(true, me)), me, c.(pc := LockCheck(last, tries)))
    case LockCheck(last, tries) =>
      if s.lock.isLocked && s.lock.coreId == me then With(s, me, c.(pc := ClearMine(last)))
      else if tries > 1 then With(s, me, c.(pc := LockRequest(last, tries - 1)))
      else With(s, me, NotFound(c, last))
    case ClearMine(last) =>
      With(s.(scratch := s.scratch[me := Scratch(c.doneMask, 0)]), me, c.(pc := Look(last, 0, 0)))
    case Look(last, test, core) =>
      if test >= MAX_TESTS then With(s, me, c.(pc := ReleaseNone(last)))
      else if test in c.doneMask || s.scratch[core].claim == TAG + test then
        With(s, me, c.(pc := Look(last, test + 1, 0)))
      else if core + 1 < CORES then With(s, me, c.(pc := Look(last, test, core + 1)))
      else With(s, me, c.(pc := Claim(last, test)))
    case Claim(last, test) =>
      With(s.(scratch := s.scratch[me := Scratch(c.doneMask, TAG + test)]), me, c.(pc := ReleaseClaimed(last, test)))
    case ReleaseClaimed(last, test) => With(Release(s, me), me, Found(c, last, test))
    case ReleaseNone(last) => With(Release(s, me), me, NotFound(c, last))
    case Running(test) => With(s, me, Finished(c, test, err))
    case Exited => s
  }

  function Release(s: State, me: nat): State {
    if s.lock.isLocked && s.lock.coreId == me then s.(lock := s.lock.(isLocked := false)) else s
  }

  predicate Init(s: State) {
    && !s.lock.isLocked && |s.cores| == |s.scratch| == CORES
    && (forall c | 0 <= c < CORES :: s.scratch[c] == Scratch({}, 0))
    && (forall c | 0 <= c < CORES :: s.cores[c] == Core(LoopTop, {}, TIME_OUT, 0, []))
  }

  ghost predicate IsRun(run: seq<State>, who: seq<nat>, err: seq<nat>) {
    && |run| == |who| + 1 && |err| == |who| && Init(run[0])
    && (forall k | 0 <= k < |who| :: CanStep(run[k], who[k]) && run[k + 1] == Step(run[k], who[k], err[k]))
  }

  // ---------------------------------------------------------------- invariant

  /** Between seeing the lock granted and releasing it. */
  predicate InSection(pc: Pc) {
    pc.ClearMine? || pc.Look? || pc.Claim? || pc.ReleaseClaimed? || pc.ReleaseNone?
  }

  predicate IsTag(claim: nat) {
    TAG <= claim < TAG + MAX_TESTS
  }

  /** The core works on a test it has claimed. */
  predicate Holds(pc: Pc, test: nat) {
    pc == Running(test) || (pc.ReleaseClaimed? && pc.test == test)
  }

  predicate NoDuplicates(s: seq<nat>) {
    forall i, j | 0 <= i < j < |s| :: s[i] != s[j]
  }

  ghost predicate CoreOk(lock: Lock, scratch: seq<Scratch>, me: nat, c: Core)
    requires me < |scratch| == CORES
  {
    && (InSection(c.pc) ==> lock == Lock(true, me))
    && (lock == Lock(true, me) ==> InSection(c.pc) || c.pc.LockCheck?)
    && (match c.pc
        case LockRequest(_, tries) => 0 < tries <= LOCK_TRIES
        case LockCheck(_, tries) => 0 < tries <= LOCK_TRIES
        case Look(_, test, core) =>
          && scratch[me].claim == 0 && core < CORES && test <= MAX_TESTS
          && (forall d | 0 <= d < core :: scratch[d].claim != TAG + test)
        case Claim(_, test) =>
          && scratch[me].claim == 0 && test < MAX_TESTS && test !in c.doneMask
          && (forall d | 0 <= d < CORES :: scratch[d].claim != TAG + test)
        case ReleaseClaimed(_, test) =>
          test < MAX_TESTS && test !in c.doneMask && scratch[me].claim == TAG + test
        case Running(test) =>
          test < MAX_TESTS && test !in c.doneMask && scratch[me].claim == TAG + test
        case _ => true)
    && c.timeOut <= TIME_OUT
    && (!Leaving(c.pc) ==> c.errCnt == 0)
    && (Leaving(c.pc) ==> c.errCnt > 0 || c.doneMask == Tests())
    && c.doneMask <= Tests() && NoDuplicates(c.ran) && (forall t :: t in c.ran <==> t in c.doneMask)
  }

  /** The core has left its loop. */
  predicate Leaving(pc: Pc) {
    match pc
    case LoopTop => false
    case Running(_) => false
    case Exited => true
    case LockRequest(last, _) => last
    case LockCheck(last, _) => last
    case ClearMine(last) => last
    case Look(last, _, _) => last
    case Claim(last, _) => last
    case ReleaseClaimed(last, _) => last
    case ReleaseNone(last) => last
  }

  predicate Distinct(s: State)
    requires |s.scratch| == CORES
  {
    forall c, d | 0 <= c < d < CORES :: s.scratch[c].claim == s.scratch[d].claim ==> !IsTag(s.scratch[c].claim)
  }

  ghost predicate Inv(s: State) {
    && |s.cores| == |s.scratch| == CORES && Distinct(s)
    && (forall c | 0 <= c < CORES :: CoreOk(s.lock, s.scratch, c, s.cores[c]))
  }

  lemma InitInv(s: State)
    requires Init(s)
    ensures Inv(s)
  {
  }

  lemma LoopTopInv(s: State, me: nat, err: nat)
    requires Inv(s) && CanStep(s, me) && s.cores[me].pc.LoopTop?
    ensures Inv(Step(s, me, err))
  {
    var s' := Step(s, me, err);
    assert CoreOk(s.lock, s.scratch, me, s.cores[me]);
    forall d | 0 <= d < CORES
      ensures CoreOk(s'.lock, s'.scratch, d, s'.cores[d])
    {
      assert CoreOk(s.lock, s.scratch, d, s.cores[d]);
      if d != me {
        hide CoreOk;
      }
    }
  }

  lemma LockRequestInv(s: State, me: nat, err: nat)
    requires Inv(s) && CanStep(s, me) && s.cores[me].pc.LockRequest?
    ensures Inv(Step(s, me, err))
  {
    var s' := Step(s, me, err);
    assert CoreOk(s.lock, s.scratch, me, s.cores[me]);
    forall d | 0 <= d < CORES
      ensures CoreOk(s'.lock, s'.scratch, d, s'.cores[d])
    {
      assert CoreOk(s.lock, s.scratch, d, s.cores[d]);
      if d != me {
        hide NoDuplicates, Leaving, Tests;
      }
    }
  }

  lemma LockCheckInv(s: State, me: nat, err: nat)
    requires Inv(s) && CanStep(s, me) && s.cores[me].pc.LockCheck?
    ensures Inv(Step(s, me, err))
  {
    var s' := Step(s, me, err);
    assert CoreOk(s.lock, s.scratch, me, s.cores[me]);
    forall d | 0 <= d < CORES
      ensures CoreOk(s'.lock, s'.scratch, d, s'.cores[d])
    {
      assert CoreOk(s.lock, s.scratch, d, s.cores[d]);
      if d != me {
        hide CoreOk;
      }
    }
  }

  lemma ClearMineInv(s: State, me: nat, err: nat)
    requires Inv(s) && CanStep(s, me) && s.cores[me].pc.ClearMine?
    ensures Inv(Step(s, me, err))
  {
    var s' := Step(s, me, err);
    assert CoreOk(s.lock, s.scratch, me, s.cores[me]);
    forall d | 0 <= d < CORES
      ensures CoreOk(s'.lock, s'.scratch, d, s'.cores[d])
    {
      assert CoreOk(s.lock, s.scratch, d, s.cores[d]);
      if d != me {
        hide NoDuplicates, Leaving, Tests;
      }
    }
  }

  lemma LookOwn(s: State, me: nat, err: nat)
    requires Inv(s) && CanStep(s, me) && s.cores[me].pc.Look?
    ensures var s' := Step(s, me, err); CoreOk(s'.lock, s'.scratch, me, s'.cores[me])
  {
    assert CoreOk(s.lock, s.scratch, me, s.cores[me]);
    hide Distinct, NoDuplicates;
  }

  lemma LookInv(s: State, me: nat, err: nat)
    requires Inv(s) && CanStep(s, me) && s.cores[me].pc.Look?
    ensures Inv(Step(s, me, err))
  {
    var s' := Step(s, me, err);
    assert CoreOk(s.lock, s.scratch, me, s.cores[me]);
    LookOwn(s, me, err);
    forall d | 0 <= d < CORES
      ensures CoreOk(s'.lock, s'.scratch, d, s'.cores[d])
    {
      assert CoreOk(s.lock, s.scratch, d, s.cores[d]);
      hide CoreOk;
    }
  }

  lemma ClaimInv(s: State, me: nat, err: nat)
    requires Inv(s) && CanStep(s, me) && s.cores[me].pc.Claim?
    ensures Inv(Step(s, me, err))
  {
    var s' := Step(s, me, err);
    assert CoreOk(s.lock, s.scratch, me, s.cores[me]);
    forall d | 0 <= d < CORES
      ensures CoreOk(s'.lock, s'.scratch, d, s'.cores[d])
    {
      assert CoreOk(s.lock, s.scratch, d, s.cores[d]);
      if d != me {
        hide NoDuplicates, Leaving, Tests;
      }
    }
  }

  lemma ReleaseClaimedInv(s: State, me: nat, err: nat)
    requires Inv(s) && CanStep(s, me) && s.cores[me].pc.ReleaseClaimed?
    ensures Inv(Step(s, me, err))
  {
    var s' := Step(s, me, err);
    assert CoreOk(s.lock, s.scratch, me, s.cores[me]);
    forall d | 0 <= d < CORES
      ensures CoreOk(s'.lock, s'.scratch, d, s'.cores[d])
    {
      assert CoreOk(s.lock, s.scratch, d, s.cores[d]);
      if d != me {
        hide NoDuplicates, Leaving, Tests;
      }
    }
  }

  lemma ReleaseNoneInv(s: State, me: nat, err: nat)
    requires Inv(s) && CanStep(s, me) && s.cores[me].pc.ReleaseNone?
    ensures Inv(Step(s, me, err))
  {
    var s' := Step(s, me, err);
    assert CoreOk(s.lock, s.scratch, me, s.cores[me]);
    forall d | 0 <= d < CORES
      ensures CoreOk(s'.lock, s'.scratch, d, s'.cores[d])
    {
      assert CoreOk(s.lock, s.scratch, d, s.cores[d]);
      if d != me {
        hide NoDuplicates, Leaving, Tests;
      }
    }
  }

  lemma RunningInv(s: State, me: nat, err: nat)
    requires Inv(s) && CanStep(s, me) && s.cores[me].pc.Running?
    ensures Inv(Step(s, me, err))
  {
    var s' := Step(s, me, err);
    assert CoreOk(s.lock, s.scratch, me, s.cores[me]);
    forall d | 0 <= d < CORES
      ensures CoreOk(s'.lock, s'.scratch, d, s'.cores[d])
    {
      assert CoreOk(s.lock, s.scratch, d, s.cores[d]);
      if d != me {
        hide CoreOk;
      }
    }
  }

  /** Every step of every core keeps the invariant. */
  lemma StepInv(s: State, me: nat, err: nat)
    requires Inv(s) && CanStep(s, me)
    ensures Inv(Step(s, me, err))
  {
    hide Inv, Step;
    match s.cores[me].pc {
      case LoopTop => LoopTopInv(s, me, err);
      case LockRequest(_, _) => LockRequestInv(s, me, err);
      case LockCheck(_, _) => LockCheckInv(s, me, err);
      case ClearMine(_) => ClearMineInv(s, me, err);
      case Look(_, _, _) => LookInv(s, me, err);
      case Claim(_, _) => ClaimInv(s, me, err);
      case ReleaseClaimed(_, _) => ReleaseClaimedInv(s, me, err);
      case ReleaseNone(_) => ReleaseNoneInv(s, me, err);
      case Running(_) => RunningInv(s, me, err);
      case Exited =>
    }
  }

  /** What a run says about one of its steps. */
  lemma RunStep(run: seq<State>, who: seq<nat>, err: seq<nat>, k: nat)
    requires IsRun(run, who, err) && k < |who|
    ensures |run| == |who| + 1 == |err| + 1 && CanStep(run[k], who[k]) && run[k + 1] == Step(run[k], who[k], err[k])
  {
    hide CanStep, Step;
  }

  lemma {:induction false} RunInv(run: seq<State>, who: seq<nat>, err: seq<nat>, k: nat)
    requires IsRun(run, who, err) && k < |run|
    ensures Inv(run[k])
  {
    hide Inv, Step, CanStep;
    if k == 0 {
      InitInv(run[0]);
    } else {
      RunInv(run, who, err, k - 1);
      assert CanStep(run[k - 1], who[k - 1]);
      assert run[k - 1 + 1] == Step(run[k - 1], who[k - 1], err[k - 1]);
      StepInv(run[k - 1], who[k - 1], err[k - 1]);
    }
  }

  // ---------------------------------------------------------------- theorems

  /** No two cores are ever inside the locked section, and no two ever hold, let alone run, the
      same test. */
  lemma MutualExclusion(run: seq<State>, who: seq<nat>, err: seq<nat>, k: nat, c: nat, d: nat)
    requires IsRun(run, who, err) && k < |run| && c < d < CORES
    ensures var s := run[k];
            && |s.cores| == CORES
            && !(InSection(s.cores[c].pc) && InSection(s.cores[d].pc))
            && !(exists test: nat :: Holds(s.cores[c].pc, test) && Holds(s.cores[d].pc, test))
  {
    RunInv(run, who, err, k);
    hide IsRun;
    assert CoreOk(run[k].lock, run[k].scratch, c, run[k].cores[c]);
    assert CoreOk(run[k].lock, run[k].scratch, d, run[k].cores[d]);
  }

  /** A core that has left its loop without an error has run every test, each exactly once. */
  lemma ExactlyOnce(run: seq<State>, who: seq<nat>, err: seq<nat>, k: nat, c: nat)
    requires IsRun(run, who, err) && k < |run| && c < CORES
    ensures |run[k].cores| == CORES
    ensures var core := run[k].cores[c];
            core.pc == Exited && core.errCnt == 0 ==>
              NoDuplicates(core.ran) && (forall t: nat :: t in core.ran <==> t < MAX_TESTS)
  {
    RunInv(run, who, err, k);
    hide IsRun;
    assert CoreOk(run[k].lock, run[k].scratch, c, run[k].cores[c]);
  }

  /** A core that gives up waiting for the lock does not hold it. */
  lemma GivesUpUnlocked(run: seq<State>, who: seq<nat>, err: seq<nat>, k: nat)
    requires IsRun(run, who, err) && k < |who|
    requires run[k].cores[who[k]].pc.LockCheck? && !InSection(run[k + 1].cores[who[k]].pc)
    ensures run[k + 1].lock != Lock(true, who[k])
  {
    assert run[k + 1] == Step(run[k], who[k], err[k]);
    hide IsRun;
  }

  // ---------------------------------------------------------------- termination

  /** How far a core is from the end of one call of findATest2Run; always below 300. */
  function CallLeft(pc: Pc): nat {
    match pc
    case LoopTop => 299
    case LockRequest(_, tries) => if tries <= LOCK_TRIES then 66 + 2 * tries else 0
    case LockCheck(_, tries) => if tries <= LOCK_TRIES then 65 + 2 * tries else 0
    case ClearMine(_) => 64
    case Look(_, test, core) =>
      if test <= 9 && core < 4 then 6 * (9 - test) + 7 - core else 0
    case Claim(_, _) => 2
    case ReleaseClaimed(_, _) => 1
    case ReleaseNone(_) => 1
    case Running(_) => 0
    case Exited => 0
  }

  /** The measure of a core's loop: whether it has left the loop, the tests it has not done, the
      remaining time-out, and the rest of the current call. */
  function Weight(c: Core): nat {
    if c.pc == Exited then 0
    else if Leaving(c.pc) then CallLeft(c.pc) + 1
    else
      300 + 700_000 * TestsLeft(c) + (if c.pc.Running? then 0 else 300_300 + 300 * c.timeOut + CallLeft(c.pc))
  }

  function Undone(done: set<nat>): nat {
    |Tests() - done|
  }

  function TestsLeft(c: Core): nat {
    Undone(c.doneMask)
  }

  lemma OneTestLess(done: set<nat>, test: nat)
    requires test < MAX_TESTS && test !in done
    ensures |Tests() - done| == |Tests() - (done + {test})| + 1
  {
    assert Tests() - done == (Tests() - (done + {test})) + {test};
  }

  lemma LoopTopDescends(s: State, me: nat, err: nat)
    requires CanStep(s, me) && s.cores[me].pc.LoopTop? && s.cores[me].timeOut <= TIME_OUT
    ensures Weight(Step(s, me, err).cores[me]) < Weight(s.cores[me])
  {
    assert Step(s, me, err).cores[me].doneMask == s.cores[me].doneMask;
    hide Tests;
  }

  lemma LockRequestDescends(s: State, me: nat, err: nat)
    requires CanStep(s, me) && s.cores[me].pc.LockRequest? && s.cores[me].timeOut <= TIME_OUT
    requires 0 < s.cores[me].pc.tries <= LOCK_TRIES
    ensures Weight(Step(s, me, err).cores[me]) < Weight(s.cores[me])
  {
    assert Step(s, me, err).cores[me].doneMask == s.cores[me].doneMask;
    hide Tests;
  }

  lemma LockCheckDescends(s: State, me: nat, err: nat)
    requires CanStep(s, me) && s.cores[me].pc.LockCheck? && s.cores[me].timeOut <= TIME_OUT
    requires 0 < s.cores[me].pc.tries <= LOCK_TRIES
    ensures Weight(Step(s, me, err).cores[me]) < Weight(s.cores[me])
  {
    assert Step(s, me, err).cores[me].doneMask == s.cores[me].doneMask;
    hide Tests;
  }

  lemma ClearMineDescends(s: State, me: nat, err: nat)
    requires CanStep(s, me) && s.cores[me].pc.ClearMine? && s.cores[me].timeOut <= TIME_OUT
    ensures Weight(Step(s, me, err).cores[me]) < Weight(s.cores[me])
  {
    assert Step(s, me, err).cores[me].doneMask == s.cores[me].doneMask;
    hide Tests;
  }

  lemma LookDescends(s: State, me: nat, err: nat)
    requires CanStep(s, me) && s.cores[me].pc.Look? && s.cores[me].timeOut <= TIME_OUT
    requires s.cores[me].pc.core < CORES && s.cores[me].pc.test <= MAX_TESTS
    ensures Weight(Step(s, me, err).cores[me]) < Weight(s.cores[me])
  {
    assert Step(s, me, err).cores[me].doneMask == s.cores[me].doneMask;
    hide Tests;
  }

  lemma ClaimDescends(s: State, me: nat, err: nat)
    requires CanStep(s, me) && s.cores[me].pc.Claim? && s.cores[me].timeOut <= TIME_OUT
    ensures Weight(Step(s, me, err).cores[me]) < Weight(s.cores[me])
  {
    assert Step(s, me, err).cores[me].doneMask == s.cores[me].doneMask;
    hide Tests;
  }

  lemma ReleaseClaimedDescends(s: State, me: nat, err: nat)
    requires CanStep(s, me) && s.cores[me].pc.ReleaseClaimed? && s.cores[me].timeOut <= TIME_OUT
    ensures Weight(Step(s, me, err).cores[me]) < Weight(s.cores[me])
  {
    assert Step(s, me, err).cores[me].doneMask == s.cores[me].doneMask;
    hide Tests;
  }

  lemma ReleaseNoneDescends(s: State, me: nat, err: nat)
    requires CanStep(s, me) && s.cores[me].pc.ReleaseNone? && s.cores[me].timeOut <= TIME_OUT
    ensures Weight(Step(s, me, err).cores[me]) < Weight(s.cores[me])
  {
    assert Step(s, me, err).cores[me].doneMask == s.cores[me].doneMask;
    hide Tests;
  }

  lemma RunningDescends(s: State, me: nat, err: nat)
    requires Inv(s) && CanStep(s, me) && (s.cores[me].pc.Running?)
    ensures Weight(Step(s, me, err).cores[me]) < Weight(s.cores[me])
  {
    assert CoreOk(s.lock, s.scratch, me, s.cores[me]);
    var c, c' := s.cores[me], Step(s, me, err).cores[me];
    OneTestLess(c.doneMask, c.pc.test);
    assert TestsLeft(c) == TestsLeft(c') + 1;
    hide Tests, TestsLeft, CoreOk, NoDuplicates, Distinct;
  }

  lemma OthersStay(s: State, me: nat, err: nat, d: nat)
    requires CanStep(s, me) && d < |s.cores| && d != me
    ensures Step(s, me, err).cores[d] == s.cores[d]
  {
  }

  /** Every step of a core makes its own measure smaller and leaves the other cores alone. */
  lemma StepDescends(s: State, me: nat, err: nat, d: nat)
    requires Inv(s) && CanStep(s, me) && d < |s.cores|
    ensures |Step(s, me, err).cores| == |s.cores|
    ensures if d == me then Weight(Step(s, me, err).cores[d]) < Weight(s.cores[d])
            else Step(s, me, err).cores[d] == s.cores[d]
  {
    StepInv(s, me, err);
    assert CoreOk(s.lock, s.scratch, me, s.cores[me]);
    hide Step, Weight;
    if d != me {
      OthersStay(s, me, err, d);
    } else {
      match s.cores[me].pc {
        case LoopTop => LoopTopDescends(s, me, err);
        case LockRequest(_, _) => LockRequestDescends(s, me, err);
        case LockCheck(_, _) => LockCheckDescends(s, me, err);
        case ClearMine(_) => ClearMineDescends(s, me, err);
        case Look(_, _, _) => LookDescends(s, me, err);
        case Claim(_, _) => ClaimDescends(s, me, err);
        case ReleaseClaimed(_, _) => ReleaseClaimedDescends(s, me, err);
        case ReleaseNone(_) => ReleaseNoneDescends(s, me, err);
        case Running(_) => RunningDescends(s, me, err);
        case Exited =>
      }
    }
  }

  /** How many of the steps are those of core me. */
  function StepsOf(who: seq<nat>, me: nat): nat {
    if who == [] then 0 else StepsOf(who[..|who| - 1], me) + if who[|who| - 1] == me then 1 else 0
  }

  /** The loop of a core terminates, whatever the other cores do: in every run a core takes at
      most as many steps as its measure has lost, hence at most the initial measure. */
  lemma {:induction false} Terminates(run: seq<State>, who: seq<nat>, err: seq<nat>, k: nat, me: nat)
    requires IsRun(run, who, err) && k < |run| && me < CORES
    ensures |run[k].cores| == |run[0].cores| == CORES
    ensures StepsOf(who[..k], me) + Weight(run[k].cores[me]) <= Weight(run[0].cores[me])
  {
    if k == 0 {
      assert StepsOf(who[..0], me) == 0;
    } else {
      hide Step, CanStep, Weight, Inv;
      Terminates(run, who, err, k - 1, me);
      RunInv(run, who, err, k - 1);
      assert who[..k][..k - 1] == who[..k - 1];
      assert CanStep(run[k - 1], who[k - 1]);
      assert run[k - 1 + 1] == Step(run[k - 1], who[k - 1], err[k - 1]);
      StepDescends(run[k - 1], who[k - 1], err[k - 1], me);
    }
  }
}
