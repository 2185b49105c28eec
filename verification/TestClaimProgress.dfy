/** What the claim loop achieves: a core that is granted the lock claims the least test that is
    free for it, whatever the other cores do meanwhile, and a core alone runs all nine tests. */
module TestClaimProgress {
  import opened TestClaim

  // ---------------------------------------------------------------- the claimed test

  /** A test that core me has not done and no other core has claimed. */
  predicate Free(s: State, me: nat, test: nat)
    requires me < |s.cores|
  {
    && test < 9 && test !in s.cores[me].doneMask
    && (forall d | 0 <= d < |s.scratch| && d != me :: s.scratch[d].claim != 0xBABE_0000 + test)
  }

  predicate LeastFree(s: State, me: nat, test: nat)
    requires me < |s.cores|
  {
    Free(s, me, test) && (forall t: nat | t < test :: !Free(s, me, t))
  }

  /** Core me is on its way from the granted lock to running the test. */
  predicate Claiming(s: State, me: nat, test: nat)
    requires me < |s.cores|
  {
    && LeastFree(s, me, test)
    && match s.cores[me].pc
       case ClearMine(last) => !last
       case Look(last, t, _) => !last && t <= test
       case Claim(last, t) => !last && t == test
       case ReleaseClaimed(last, t) => !last && t == test
       case _ => false
  }

  lemma FreeStays(s: State, t: State, me: nat, test: nat)
    requires me < |s.cores| && me < |t.cores| && |t.scratch| == |s.scratch|
    requires t.cores[me].doneMask == s.cores[me].doneMask
    requires forall d | 0 <= d < |s.scratch| && d != me :: t.scratch[d] == s.scratch[d]
    ensures Free(t, me, test) <==> Free(s, me, test)
  {
  }

  lemma LeastStays(s: State, t: State, me: nat, test: nat)
    requires me < |s.cores| && me < |t.cores| && |t.scratch| == |s.scratch|
    requires t.cores[me].doneMask == s.cores[me].doneMask
    requires forall d | 0 <= d < |s.scratch| && d != me :: t.scratch[d] == s.scratch[d]
    requires LeastFree(s, me, test)
    ensures LeastFree(t, me, test)
  {
    FreeStays(s, t, me, test);
    forall u: nat | u < test
      ensures !Free(t, me, u)
    {
      FreeStays(s, t, me, u);
    }
  }

  /** A test that no core has claimed and core me has not done is free; so it is not below the
      least one. */
  lemma NotBelow(s: State, me: nat, test: nat, t: nat)
    requires me < |s.cores| && LeastFree(s, me, test) && t <= test
    requires t !in s.cores[me].doneMask && (forall d | 0 <= d < |s.scratch| :: s.scratch[d].claim != TAG + t)
    ensures t == test
  {
    if t < test {
      assert Free(s, me, t);
    }
  }

  lemma OwnFrame(s: State, me: nat, err: nat)
    requires CanStep(s, me) && !s.cores[me].pc.Running?
    ensures var t := Step(s, me, err);
            && |t.cores| == |s.cores| && |t.scratch| == |s.scratch|
            && t.cores[me].doneMask == s.cores[me].doneMask
            && (forall d | 0 <= d < |s.scratch| && d != me :: t.scratch[d] == s.scratch[d])
  {
  }

  lemma LookPasses(s: State, me: nat, err: nat, test: nat)
    requires Inv(s) && CanStep(s, me) && Claiming(s, me, test) && s.cores[me].pc.Look?
    ensures var pc := Step(s, me, err).cores[me].pc;
            (pc.Look? && !pc.last && pc.test <= test) || pc == Claim(false, test)
  {
    assert CoreOk(s.lock, s.scratch, me, s.cores[me]);
    var c := s.cores[me];
    if c.pc.test !in c.doneMask && s.scratch[c.pc.core].claim != TAG + c.pc.test && c.pc.core + 1 == CORES {
      NotBelow(s, me, test, c.pc.test);
    }
  }

  lemma OwnStep(s: State, me: nat, err: nat, test: nat)
    requires Inv(s) && CanStep(s, me) && Claiming(s, me, test)
    ensures var t := Step(s, me, err);
            |t.cores| == |s.cores| && (Claiming(t, me, test) || t.cores[me].pc == Running(test))
  {
    OwnFrame(s, me, err);
    LeastStays(s, Step(s, me, err), me, test);
    if s.cores[me].pc.Look? {
      LookPasses(s, me, err, test);
      hide LeastFree, Inv, Step;
    } else {
      hide LeastFree, Inv;
    }
  }

  lemma OtherFrame(s: State, me: nat, err: nat, c: nat)
    requires CanStep(s, c) && c != me && me < |s.cores| && !s.cores[c].pc.ClearMine? && !s.cores[c].pc.Claim?
    ensures var t := Step(s, c, err);
            |t.cores| == |s.cores| && t.cores[me] == s.cores[me] && t.scratch == s.scratch
  {
  }

  /** While core me holds the lock, no other core changes a claim. */
  lemma OtherStep(s: State, me: nat, err: nat, test: nat, c: nat)
    requires Inv(s) && CanStep(s, c) && c != me && me < |s.cores| && Claiming(s, me, test)
    ensures var t := Step(s, c, err);
            |t.cores| == |s.cores| && Claiming(t, me, test)
  {
    assert CoreOk(s.lock, s.scratch, me, s.cores[me]);
    assert CoreOk(s.lock, s.scratch, c, s.cores[c]);
    hide NoDuplicates, Distinct, Leaving, Tests, LeastFree, Step;
    OtherFrame(s, me, err, c);
    LeastStays(s, Step(s, c, err), me, test);
  }

  /** A step of any core. */
  lemma AnyStep(s: State, me: nat, err: nat, test: nat, c: nat)
    requires Inv(s) && CanStep(s, c) && me < |s.cores| && Claiming(s, me, test)
    ensures var t := Step(s, c, err);
            && |t.cores| == |s.cores|
            && (Claiming(t, me, test) || (c == me && t.cores[me].pc == Running(test)))
  {
    hide Inv, Step, Claiming, CanStep;
    if c == me {
      OwnStep(s, me, err, test);
    } else {
      OtherStep(s, me, err, test, c);
    }
  }

  lemma CallLess(s: State, me: nat, err: nat, test: nat)
    requires Inv(s) && CanStep(s, me) && Claiming(s, me, test)
    ensures 0 < CallLeft(s.cores[me].pc)
    ensures var pc := Step(s, me, err).cores[me].pc;
            pc.ClearMine? || pc.Look? || pc.Claim? || pc.ReleaseClaimed? ==> CallLeft(pc) < CallLeft(s.cores[me].pc)
  {
    assert CoreOk(s.lock, s.scratch, me, s.cores[me]);
    hide NoDuplicates, Distinct, Leaving, Tests, LeastFree;
  }

  lemma ClaimingCan(s: State, me: nat, test: nat)
    requires Inv(s) && me < |s.cores| && Claiming(s, me, test)
    ensures CanStep(s, me) && InSection(s.cores[me].pc) && 0 < CallLeft(s.cores[me].pc)
  {
    assert CoreOk(s.lock, s.scratch, me, s.cores[me]);
    hide NoDuplicates, Distinct, Leaving, Tests, LeastFree;
  }

  /** Core me was seen running the test between k and m. */
  ghost predicate Reached(run: seq<State>, k: nat, m: nat, me: nat, test: nat)
    requires m < |run|
  {
    exists x | k < x <= m :: me < |run[x].cores| && run[x].cores[me].pc == Running(test)
  }

  lemma StepsSnoc(who: seq<nat>, k: nat, m: nat, me: nat)
    requires k < m <= |who|
    ensures StepsOf(who[k..m], me) == StepsOf(who[k..m - 1], me) + if who[m - 1] == me then 1 else 0
  {
    assert who[k..m][..m - k - 1] == who[k..m - 1];
  }

  /** Core me has run the test between k and m, or is still on its way to it. */
  ghost predicate OnCourse(run: seq<State>, who: seq<nat>, k: nat, m: nat, me: nat, test: nat)
    requires k <= m < |run| == |who| + 1
  {
    || Reached(run, k, m, me, test)
    || (me < |run[m].cores| && Claiming(run[m], me, test)
        && StepsOf(who[k..m], me) + CallLeft(run[m].cores[me].pc) <= 64)
  }

  lemma ReachedStays(run: seq<State>, k: nat, m: nat, me: nat, test: nat)
    requires m + 1 < |run| && Reached(run, k, m, me, test)
    ensures Reached(run, k, m + 1, me, test)
  {
  }

  lemma CourseKept(run: seq<State>, who: seq<nat>, e: nat, k: nat, m: nat, me: nat, test: nat)
    requires k <= m && m + 1 < |run| == |who| + 1 && OnCourse(run, who, k, m, me, test) && Inv(run[m])
    requires CanStep(run[m], who[m]) && run[m + 1] == Step(run[m], who[m], e)
    ensures OnCourse(run, who, k, m + 1, me, test)
  {
    hide Inv, Step, CanStep, CallLeft, LeastFree, StepsOf;
    if Reached(run, k, m, me, test) {
      ReachedStays(run, k, m, me, test);
    } else {
      var s, c := run[m], who[m];
      StepsSnoc(who, k, m + 1, me);
      AnyStep(s, me, e, test, c);
      if c == me {
        CallLess(s, me, e, test);
      } else {
        OthersStay(s, c, e, me);
      }
    }
  }

  lemma CourseBegins(run: seq<State>, who: seq<nat>, k: nat, me: nat, test: nat)
    requires k < |run| == |who| + 1 && me < |run[k].cores|
    requires run[k].cores[me].pc == ClearMine(false) && LeastFree(run[k], me, test)
    ensures OnCourse(run, who, k, k, me, test)
  {
    hide LeastFree;
    assert StepsOf(who[k..k], me) == 0;
  }

  lemma {:induction false} StillClaiming(run: seq<State>, who: seq<nat>, err: seq<nat>, k: nat, m: nat, me: nat,
                                         test: nat)
    requires |run| == |who| + 1 && IsRun(run, who, err) && k <= m < |run| && me < |run[k].cores|
    requires run[k].cores[me].pc == ClearMine(false) && LeastFree(run[k], me, test)
    ensures OnCourse(run, who, k, m, me, test)
  {
    hide IsRun, Inv, Step, CanStep, LeastFree, OnCourse;
    if m == k {
      CourseBegins(run, who, k, me, test);
    } else {
      StillClaiming(run, who, err, k, m - 1, me, test);
      RunInv(run, who, err, m - 1);
      RunStep(run, who, err, m - 1);
      CourseKept(run, who, err[m - 1], k, m - 1, me, test);
    }
  }

  /** In every run, from where core me has just seen the lock granted in its loop, it claims the
      least free test: after 64 steps of its own at the latest it runs this test, and before that
      it stays in the locked section and can take its next step. */
  lemma ClaimsLeast(run: seq<State>, who: seq<nat>, err: seq<nat>, k: nat, m: nat, me: nat, test: nat)
    requires IsRun(run, who, err) && k <= m < |run| && me < |run[k].cores|
    requires run[k].cores[me].pc == ClearMine(false) && LeastFree(run[k], me, test)
    ensures || (exists x | k < x <= m :: me < |run[x].cores| && run[x].cores[me].pc == Running(test))
            || (CanStep(run[m], me) && InSection(run[m].cores[me].pc) && StepsOf(who[k..m], me) < 64)
  {
    StillClaiming(run, who, err, k, m, me, test);
    if !Reached(run, k, m, me, test) {
      RunInv(run, who, err, m);
      ClaimingCan(run[m], me, test);
    }
    hide IsRun, CanStep, InSection, CallLeft, Claiming, StepsOf, LeastFree;
  }

  // ---------------------------------------------------------------- alone

  function UpTo(n: nat): (done: set<nat>)
    ensures forall t: nat :: t in done <==> t < n
  {
    if n == 0 then {} else UpTo(n - 1) + {n - 1}
  }

  function Counting(n: nat): seq<nat> {
    seq(n, i => i)
  }

  /** The other cores have not moved: they hold no lock and no claim. */
  predicate OthersIdle(s: State, me: nat) {
    && |s.cores| == |s.scratch| == 4 && me < 4
    && (forall d | 0 <= d < 4 && d != me :: s.scratch[d].claim == 0)
    && (s.lock.isLocked ==> s.lock.coreId == me)
  }

  /** A core alone has run the first n tests, in order and without error, and gets the lock and
      the next test at once. */
  predicate Alone(s: State, me: nat) {
    && OthersIdle(s, me)
    && var c := s.cores[me];
       var n := |c.ran|;
       && n <= 9 && c.ran == Counting(n) && c.doneMask == UpTo(n) && c.errCnt == 0
       && match c.pc
          case LoopTop => !s.lock.isLocked
          case LockRequest(last, tries) => !s.lock.isLocked && (last <==> n == 9) && tries > 0
          case LockCheck(last, tries) => s.lock.isLocked && (last <==> n == 9)
          case ClearMine(last) => s.lock.isLocked && (last <==> n == 9)
          case Look(last, test, core) =>
            s.lock.isLocked && (last <==> n == 9) && test <= n && core < 4 && s.scratch[me].claim == 0
          case Claim(last, test) => s.lock.isLocked && !last && test == n < 9
          case ReleaseClaimed(last, test) => s.lock.isLocked && !last && test == n < 9
          case ReleaseNone(last) => s.lock.isLocked && last && n == 9
          case Running(test) => !s.lock.isLocked && test == n < 9
          case Exited => n == 9
  }

  lemma AllDone(n: nat)
    requires n <= 9
    ensures UpTo(n) == Tests() <==> n == 9
  {
    if n < 9 {
      assert 8 in Tests() && 8 !in UpTo(n);
    } else {
      assert UpTo(9) == Tests();
    }
  }

  lemma OneMore(n: nat)
    ensures UpTo(n) + {n} == UpTo(n + 1) && Counting(n) + [n] == Counting(n + 1)
  {
  }

  lemma AloneStep(s: State, me: nat)
    requires Alone(s, me) && CanStep(s, me)
    ensures Alone(Step(s, me, 0), me)
  {
    var c := s.cores[me];
    var n := |c.ran|;
    AllDone(n);
    OneMore(n);
    hide Tests, Counting;
  }

  /** A run in which only core me moves and every playback returns 0. */
  ghost predicate IsSolo(run: seq<State>, who: seq<nat>, err: seq<nat>, me: nat) {
    IsRun(run, who, err) && (forall k | 0 <= k < |who| :: who[k] == me && err[k] == 0)
  }

  lemma {:induction false} AloneInv(run: seq<State>, who: seq<nat>, err: seq<nat>, me: nat, k: nat)
    requires IsSolo(run, who, err, me) && me < 4 && k < |run|
    ensures Alone(run[k], me)
  {
    hide Step, CanStep;
    if k == 0 {
      AloneInit(run[0], me);
    } else {
      AloneInv(run, who, err, me, k - 1);
      assert CanStep(run[k - 1], who[k - 1]);
      assert run[k - 1 + 1] == Step(run[k - 1], who[k - 1], err[k - 1]);
      AloneStep(run[k - 1], me);
    }
  }

  lemma AloneInit(s: State, me: nat)
    requires Init(s) && me < 4
    ensures Alone(s, me)
  {
    assert UpTo(0) == {} && Counting(0) == [];
  }

  /** A core alone that has left has run the nine tests in order and without error. */
  predicate RanAll(s: State, me: nat) {
    && me < |s.cores| && s.cores[me].pc == Exited && s.cores[me].errCnt == 0
    && s.cores[me].ran == [0, 1, 2, 3, 4, 5, 6, 7, 8]
  }

  lemma AloneLeaves(s: State, me: nat)
    requires Alone(s, me) && s.cores[me].pc == Exited
    ensures RanAll(s, me)
  {
    assert Counting(9) == [0, 1, 2, 3, 4, 5, 6, 7, 8];
  }

  lemma AloneCan(s: State, me: nat)
    requires Alone(s, me) && s.cores[me].pc != Exited
    ensures CanStep(s, me)
  {
  }

  lemma SoloGrows(run: seq<State>, who: seq<nat>, err: seq<nat>, me: nat)
    requires IsSolo(run, who, err, me) && CanStep(run[|who|], me)
    ensures IsSolo(run + [Step(run[|who|], me, 0)], who + [me], err + [0], me)
  {
    hide Step, CanStep, Init;
  }

  lemma {:induction false} SoloEnds(run: seq<State>, who: seq<nat>, err: seq<nat>, me: nat)
      returns (run': seq<State>, who': seq<nat>, err': seq<nat>)
    requires IsSolo(run, who, err, me) && me < |run[|who|].cores|
    requires Alone(run[|who|], me)
    ensures IsSolo(run', who', err', me) && run'[0] == run[0] && RanAll(run'[|who'|], me)
    decreases Weight(run[|who|].cores[me])
  {
    var s := run[|who|];
    hide Weight, Step, Alone, CanStep, Inv;
    if s.cores[me].pc == Exited {
      AloneLeaves(s, me);
      return run, who, err;
    }
    RunInv(run, who, err, |who|);
    AloneCan(s, me);
    AloneStep(s, me);
    StepDescends(s, me, 0, me);
    SoloGrows(run, who, err, me);
    run', who', err' := SoloEnds(run + [Step(s, me, 0)], who + [me], err + [0], me);
  }

  /** A core that runs alone from the start, with every playback returning 0, leaves its loop
      after having run the nine tests in order, without error; and no such run ends otherwise. */
  lemma AloneRunsAll(start: State, me: nat) returns (run: seq<State>, who: seq<nat>, err: seq<nat>)
    requires Init(start) && me < 4
    ensures IsSolo(run, who, err, me) && run[0] == start && RanAll(run[|who|], me)
    ensures forall other: seq<State>, steps: seq<nat>, errs: seq<nat> | IsSolo(other, steps, errs, me) ::
              CanStep(other[|steps|], me) || RanAll(other[|steps|], me)
  {
    AloneInit(start, me);
    run, who, err := SoloEnds([start], [], [], me);
    forall other: seq<State>, steps: seq<nat>, errs: seq<nat> | IsSolo(other, steps, errs, me)
      ensures CanStep(other[|steps|], me) || RanAll(other[|steps|], me)
    {
      AloneInv(other, steps, errs, me, |steps|);
      hide IsSolo, CanStep, RanAll;
      if other[|steps|].cores[me].pc == Exited {
        AloneLeaves(other[|steps|], me);
      } else {
        AloneCan(other[|steps|], me);
      }
    }
  }
}
