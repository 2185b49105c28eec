/** Collecting the error counts of finished test threads: AllThreadDone polls
    the shared slots until every thread but the system's own has finished. */
module ThreadPool {

  const MAX_SHIPC := 128

  /** What a poll reads in one slot. */
  datatype Slot = Slot(done: bool, errors: int)

  /** One reading of every slot; each is read at its own moment. */
  type View = v: seq<Slot> | |v| == MAX_SHIPC witness seq(MAX_SHIPC, _ => Slot(false, 0))

  type Status = s: seq<bool> | |s| == MAX_SHIPC witness seq(MAX_SHIPC, _ => false)

  /** Whether slot i holds a thread that counts and is seen to have finished. */
  predicate Finishes(active: Status, system: int, view: View, i: nat)
    requires i < MAX_SHIPC
  {
    active[i] && i != system && view[i].done
  }

  function Remaining(active: Status, system: int, view: View): Status {
    seq(MAX_SHIPC, i requires 0 <= i < MAX_SHIPC => active[i] && !Finishes(active, system, view, i))
  }

  /** Errors of the first n slots that finish in this view. */
  function Collected(active: Status, system: int, view: View, n: nat): int
    requires n <= MAX_SHIPC
  {
    if n == 0 then 0
    else Collected(active, system, view, n - 1)
         + (if Finishes(active, system, view, n - 1) then view[n - 1].errors else 0)
  }

  predicate AllDone(active: Status, system: int, view: View) {
    forall i :: 0 <= i < MAX_SHIPC && active[i] && i != system ==> view[i].done
  }

  // ------------------------------------------------------------ many polls

  function ActiveAfter(active: Status, system: int, views: seq<View>): Status {
    if views == [] then active
    else Remaining(ActiveAfter(active, system, views[..|views| - 1]), system, views[|views| - 1])
  }

  function ErrorsAfter(active: Status, system: int, views: seq<View>): int {
    if views == [] then 0
    else var before := views[..|views| - 1];
         ErrorsAfter(active, system, before)
         + Collected(ActiveAfter(active, system, before), system, views[|views| - 1], MAX_SHIPC)
  }

  /** A thread that has finished stays finished and counts no more errors. */
  predicate Settled(views: seq<View>) {
    forall a, b, i :: 0 <= a <= b < |views| && 0 <= i < MAX_SHIPC && views[a][i].done ==> views[b][i] == views[a][i]
  }

  /** Seen finished in some poll. */
  predicate Seen(views: seq<View>, i: nat)
    requires i < MAX_SHIPC
  {
    exists a :: 0 <= a < |views| && views[a][i].done
  }

  /** The sum over the first n slots of the errors of each started thread that
      has been seen finished, counted once, as last read. */
  function Tally(active: Status, system: int, views: seq<View>, n: nat): int
    requires n <= MAX_SHIPC
  {
    if n == 0 then 0
    else Tally(active, system, views, n - 1)
         + (if active[n - 1] && n - 1 != system && Seen(views, n - 1)
            then views[|views| - 1][n - 1].errors else 0)
  }

  lemma {:induction false} StillActive(active: Status, system: int, views: seq<View>, i: nat)
    requires i < MAX_SHIPC
    ensures ActiveAfter(active, system, views)[i] <==> active[i] && (i == system || !Seen(views, i))
  {
    if views != [] {
      var before, last := views[..|views| - 1], |views| - 1;
      StillActive(active, system, before, i);
      assert Seen(before, i) ==> Seen(views, i) by {
        if Seen(before, i) {
          var a :| 0 <= a < |before| && before[a][i].done;
          assert views[a][i].done;
        }
      }
      assert Seen(views, i) ==> Seen(before, i) || views[last][i].done by {
        if Seen(views, i) {
          var a :| 0 <= a < |views| && views[a][i].done;
          if a < last { assert before[a][i].done; }
        }
      }
      assert views[last][i].done ==> Seen(views, i);
    }
  }

  /** One more poll adds to the tally exactly what it collects. */
  lemma {:induction false} TallyStep(active: Status, system: int, views: seq<View>, n: nat)
    requires views != [] && Settled(views) && n <= MAX_SHIPC
    ensures var before := views[..|views| - 1];
            Tally(active, system, views, n) == Tally(active, system, before, n)
            + Collected(ActiveAfter(active, system, before), system, views[|views| - 1], n)
  {
    if n != 0 {
      var before, last, i := views[..|views| - 1], |views| - 1, n - 1;
      TallyStep(active, system, views, i);
      StillActive(active, system, before, i);
      hide ActiveAfter;
      if Seen(before, i) {
        var a :| 0 <= a < |before| && before[a][i].done;
        assert views[a][i].done && views[a][i] == before[a][i];
        assert views[last][i] == views[a][i] && views[last - 1][i] == views[a][i];
        assert Seen(views, i);
      } else if views[last][i].done {
        assert Seen(views, i);
      }
    }
  }

  /** Every finished thread's errors are in the total exactly once. */
  lemma {:induction false} CountedOnce(active: Status, system: int, views: seq<View>)
    requires Settled(views)
    ensures ErrorsAfter(active, system, views) == Tally(active, system, views, MAX_SHIPC)
  {
    if views == [] {
      NothingSeen(active, system, MAX_SHIPC);
    } else {
      var before := views[..|views| - 1];
      forall a, b, i | 0 <= a <= b < |before| && 0 <= i < MAX_SHIPC && before[a][i].done
        ensures before[b][i] == before[a][i]
      {
        assert views[a][i].done && views[b][i] == views[a][i];
      }
      CountedOnce(active, system, before);
      TallyStep(active, system, views, MAX_SHIPC);
    }
  }

  lemma {:induction false} NothingSeen(active: Status, system: int, n: nat)
    requires n <= MAX_SHIPC
    ensures Tally(active, system, [], n) == 0
  {
    if n != 0 { NothingSeen(active, system, n - 1); }
  }

  /** The errors of all started threads but the system's, over the first n slots. */
  function AllErrors(active: Status, system: int, view: View, n: nat): int
    requires n <= MAX_SHIPC
  {
    if n == 0 then 0
    else AllErrors(active, system, view, n - 1)
         + (if active[n - 1] && n - 1 != system then view[n - 1].errors else 0)
  }

  /** A poll answers "all done" exactly when every started thread has been
      seen finished; the total then is the sum over all of them. */
  lemma AllDoneMeansAllCounted(active: Status, system: int, views: seq<View>)
    requires views != [] && Settled(views)
    ensures var before, view := views[..|views| - 1], views[|views| - 1];
            && (AllDone(ActiveAfter(active, system, before), system, view)
                <==> forall i :: 0 <= i < MAX_SHIPC && active[i] && i != system ==> Seen(views, i))
            && (AllDone(ActiveAfter(active, system, before), system, view)
                ==> ErrorsAfter(active, system, views) == AllErrors(active, system, view, MAX_SHIPC))
  {
    var before, last := views[..|views| - 1], |views| - 1;
    forall i | 0 <= i < MAX_SHIPC
      ensures ActiveAfter(active, system, before)[i] && i != system && !views[last][i].done
              <==> active[i] && i != system && !Seen(views, i)
    {
      StillActive(active, system, before, i);
      StillActive(active, system, views, i);
    }
    CountedOnce(active, system, views);
    hide ActiveAfter;
    hide ErrorsAfter;
    if AllDone(ActiveAfter(active, system, before), system, views[last]) {
      TallyIsAll(active, system, views, MAX_SHIPC);
    }
  }

  lemma {:induction false} TallyIsAll(active: Status, system: int, views: seq<View>, n: nat)
    requires views != [] && n <= MAX_SHIPC
    requires forall i :: 0 <= i < MAX_SHIPC && active[i] && i != system ==> Seen(views, i)
    ensures Tally(active, system, views, n) == AllErrors(active, system, views[|views| - 1], n)
  {
    if n != 0 { TallyIsAll(active, system, views, n - 1); }
  }

  lemma OnePollMore(active: Status, system: int, views: seq<View>, view: View)
    ensures (views + [view])[..|views|] == views
    ensures ActiveAfter(active, system, views + [view]) == Remaining(ActiveAfter(active, system, views), system, view)
    ensures ErrorsAfter(active, system, views + [view])
         == ErrorsAfter(active, system, views)
            + Collected(ActiveAfter(active, system, views), system, view, MAX_SHIPC)
  {
    hide Remaining, Collected;
    assert (views + [view])[..|views|] == views;
  }

  // -------------------------------------------------------------- the class

  class ShPthread {
    const globalThreadStatus: array<bool>
    var mErrCnt: int
    var mSystemThreadOffset: int
    /** The threads active when the last one was started, the errors counted until then, and
        what the polls since have seen. */
    ghost var started: Status
    ghost var before: int
    ghost var views: seq<View>

    ghost predicate Valid()
      reads this, globalThreadStatus
    {
      && globalThreadStatus.Length == MAX_SHIPC
      && globalThreadStatus[..] == ActiveAfter(started, mSystemThreadOffset, views)
      && mErrCnt == before + ErrorsAfter(started, mSystemThreadOffset, views)
    }

    constructor ()
      ensures Valid() && fresh(globalThreadStatus)
      ensures mErrCnt == 0 && mSystemThreadOffset == -1 && views == []
      ensures forall i :: 0 <= i < MAX_SHIPC ==> !globalThreadStatus[i]
    {
      globalThreadStatus := new bool[MAX_SHIPC](_ => false);
      mErrCnt := 0;
      mSystemThreadOffset := -1;
      started := seq(MAX_SHIPC, _ => false);
      before := 0;
      views := [];
    }

    /** Registers the system's own thread. */
    method AddSysThread(offset: nat)
      requires Valid() && offset < MAX_SHIPC
      modifies this, globalThreadStatus
      ensures Valid() && mErrCnt == old(mErrCnt) && mSystemThreadOffset == offset
      ensures globalThreadStatus[..] == old(globalThreadStatus[..])[offset := true] == started && views == []
    {
      mSystemThreadOffset := offset;
      globalThreadStatus[offset] := true;
      started, before, views := globalThreadStatus[..], mErrCnt, [];
    }

    /** A thread is started in a slot. */
    method ForkAThread(offset: nat)
      requires Valid() && offset < MAX_SHIPC
      modifies this, globalThreadStatus
      ensures Valid() && mErrCnt == old(mErrCnt) && mSystemThreadOffset == old(mSystemThreadOffset)
      ensures globalThreadStatus[..] == old(globalThreadStatus[..])[offset := true] == started && views == []
    {
      globalThreadStatus[offset] := true;
      started, before, views := globalThreadStatus[..], mErrCnt, [];
    }

    /** One poll. Over all polls since the last start each finished thread is counted once; when
        the answer is yes, the errors of all of them are in the total. */
    method AllThreadDone(view: View) returns (allDone: bool)
      requires Valid()
      modifies this`mErrCnt, this`views, globalThreadStatus
      ensures Valid() && views == old(views) + [view]
      ensures globalThreadStatus[..] == Remaining(old(globalThreadStatus[..]), mSystemThreadOffset, view)
      ensures mErrCnt == old(mErrCnt)
                         + Collected(old(globalThreadStatus[..]), mSystemThreadOffset, view, MAX_SHIPC)
      ensures allDone <==> AllDone(old(globalThreadStatus[..]), mSystemThreadOffset, view)
      ensures Settled(views) ==> mErrCnt == before + Tally(started, mSystemThreadOffset, views, MAX_SHIPC)
      ensures Settled(views) && allDone ==>
                mErrCnt == before + AllErrors(started, mSystemThreadOffset, view, MAX_SHIPC)
    {
      hide ActiveAfter, ErrorsAfter, Remaining, Collected, AllDone, Settled, Tally, AllErrors, Seen;
      OnePollMore(started, mSystemThreadOffset, views, view);
      allDone := CollectErrors(view);
      views := views + [view];
      if Settled(views) {
        CountedOnce(started, mSystemThreadOffset, views);
        AllDoneMeansAllCounted(started, mSystemThreadOffset, views);
      }
    }

    /** The loop over the slots. */
    method CollectErrors(view: View) returns (allDone: bool)
      requires globalThreadStatus.Length == MAX_SHIPC
      modifies this`mErrCnt, globalThreadStatus
      ensures globalThreadStatus[..] == Remaining(old(globalThreadStatus[..]), mSystemThreadOffset, view)
      ensures mErrCnt == old(mErrCnt)
                         + Collected(old(globalThreadStatus[..]), mSystemThreadOffset, view, MAX_SHIPC)
      ensures allDone <==> AllDone(old(globalThreadStatus[..]), mSystemThreadOffset, view)
    {
      ghost var active: Status := globalThreadStatus[..];
      allDone := true;
      for i := 0 to MAX_SHIPC
        invariant forall j :: 0 <= j < i ==>
                    globalThreadStatus[j] == Remaining(active, mSystemThreadOffset, view)[j]
        invariant forall j :: i <= j < MAX_SHIPC ==> globalThreadStatus[j] == active[j]
        invariant mErrCnt == old(mErrCnt) + Collected(active, mSystemThreadOffset, view, i)
        invariant allDone <==> forall j :: 0 <= j < i && active[j] && j != mSystemThreadOffset ==> view[j].done
      {
        if globalThreadStatus[i] && i != mSystemThreadOffset {
          if view[i].done {
            globalThreadStatus[i] := false;
            mErrCnt := mErrCnt + view[i].errors;
          } else {
            allDone := false;
          }
        }
      }
    }
  }
}
