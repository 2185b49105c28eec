/** The invariant over whole runs of the mailbox, and what it says to the users of a slot. */
module MailboxRuns {
  import opened Common
  import opened Mailbox
  import opened MailboxSafety

  lemma ThreadInv(s: State, i: nat, act: ThreadAct)
    requires Inv(s) && Enabled(s, ByThread(i, act))
    ensures Inv(Apply(s, ByThread(i, act)))
  {
    hide Inv, MayTarget, JobOf;
    match act {
      case WriteArg(w, x) => ThreadWriteArg(s, i, w, x);
      case WriteStr(str) => ThreadWriteStr(s, i, str);
      case SetRemote(j) => ThreadSetRemote(s, i, j);
      case Send(cmd) => ThreadSend(s, i, cmd);
      case Go => ThreadGo(s, i);
    }
  }

  lemma ThreadGo(s: State, i: nat)
    requires Inv(s) && i < |s.nodes| && !s.nodes[i].t.User?
    ensures Inv(Put(s, i, ThreadStep(s.nodes[i], Go)))
  {
    hide Inv, JobOf;
    match s.nodes[i].t {
      case User(_) =>
      case FlagNext(j) => ThreadFlagNext(s, i, j);
      case PutCmd(cmd, r) => ThreadPutCmd(s, i, cmd, r);
      case ReadFlag(cmd, r) =>
        if s.nodes[i].slot.remoteFlag {
          FlagHasTarget(s, i, cmd, r);
          ThreadReadFlagRemote(s, i, cmd, r.value);
        } else {
          ThreadReadFlagLocal(s, i, cmd, r);
        }
      case PutValid(cmd) => ThreadPutValid(s, i, cmd);
      case WaitLocal(_) =>
        if s.nodes[i].slot.cmdValid {
          Unchanged(s, i);
        } else {
          ThreadWaitLocal(s, i);
        }
      case ClearValid(j) => ThreadClearValid(s, i, j);
      case RaiseFlag(j) => ThreadRaiseFlag(s, i, j);
      case PutRemoteValid(j) => ThreadPutRemoteValid(s, i, j);
      case WaitRemoteValid(j) =>
        if s.nodes[i].slot.remoteCmdValid {
          Unchanged(s, i);
        } else {
          ThreadWaitRemoteValid(s, i, j);
        }
      case WaitRemoteFlag(j) => ThreadWaitRemoteFlag(s, i, j);
    }
  }

  lemma Unchanged(s: State, i: nat)
    requires i < |s.nodes|
    ensures Put(s, i, s.nodes[i]) == s
  {
    assert s.nodes[i := s.nodes[i]] == s.nodes;
  }

  lemma DaemonInv(s: State, pick: nat)
    requires Inv(s) && DaemonCan(s, pick)
    ensures Inv(DaemonStep(s, pick))
  {
    hide Inv, Put;
    match s.d {
      case Scan => DaemonScan(s, pick);
      case CheckValid(i) => DaemonCheckValid(s, i);
      case FetchTarget(i) => DaemonFetchTarget(s, i);
      case CheckReq(i, j) => DaemonCheckReq(s, i, j);
      case PutOffset(i, j) => DaemonPutOffset(s, i, j);
      case PutReq(i, j) => DaemonPutReq(s, i, j);
      case ClearFlag(i, j) => DaemonClearFlag(s, i, j);
    }
  }

  lemma SimInv(s: State, j: nat, result: seq<nat>)
    requires Inv(s) && SimCan(s, j) && |result| == ARG_WORDS - ADR_WORDS
    ensures Inv(SimStep(s, j, result))
  {
    hide Inv, Put, Goto, Taken, StringShown, StatusAcked, ValidAcked, CarriedOut, Stored;
    match s.nodes[j].v {
      case Poll => SimPoll(s, j);
      case PollRemote(local) => SimPollRemote(s, j, local);
      case FetchOffset => SimFetchOffset(s, j);
      case FetchCmd(p, remote) =>
        if remote { RemoteIsPrint(s, j, p); }
        if s.nodes[p].slot.cmd == SHIPC_PRINTF {
          SimFetchCmdPrint(s, j, p, remote);
        } else {
          SimFetchCmdCopy(s, j, p);
        }
      case PrintStr(p, remote) => if remote { SimPrintStrRemote(s, j, p); } else { SimPrintStrLocal(s, j, p); }
      case AckStatus(p, remote) => if remote { SimAckStatusRemote(s, j, p); } else { SimAckStatusLocal(s, j, p); }
      case AckValid(p, remote) => if remote { SimAckValidRemote(s, j, p); } else { SimAckValidLocal(s, j, p); }
      case AckReq => SimAckReq(s, j);
      case Copy(p, cmd, box) => SimCopy(s, j, p, cmd, box);
      case Execute(cmd, box) => SimExecute(s, j, cmd, box, result);
      case Store(box, w) => SimStore(s, j, box, w);
      case SendStatus => SimSendStatus(s, j);
      case SendValid => SimSendValid(s, j);
    }
  }

  /** Every step of every actor keeps the invariant. */
  lemma StepInv(s: State, step: Step)
    requires Inv(s) && Enabled(s, step)
    ensures Inv(Apply(s, step))
  {
    hide Inv, SimStep, DaemonStep, ThreadStep;
    match step {
      case ByThread(i, act) => ThreadInv(s, i, act);
      case BySim(j, result) => SimInv(s, j, result);
      case ByDaemon(pick) => DaemonInv(s, pick);
    }
  }

  /** The invariant holds in every state of every run. */
  lemma {:induction false} RunInv(run: seq<State>, steps: seq<Step>, k: nat)
    requires IsRun(run, steps) && k < |run|
    ensures Inv(run[k])
  {
    hide Inv, Possible, Apply;
    if k == 0 {
      InitInv(run[0]);
    } else {
      RunInv(run, steps, k - 1);
      assert run[k - 1 + 1] == Apply(run[k - 1], steps[k - 1]);
      StepInv(run[k - 1], steps[k - 1]);
    }
  }

  /** What a run says about one of its steps. */
  lemma RunStep(run: seq<State>, steps: seq<Step>, k: nat)
    requires IsRun(run, steps) && k < |steps|
    ensures |run| == |steps| + 1 && Enabled(run[k], steps[k]) && run[k + 1] == Apply(run[k], steps[k])
  {
    hide Enabled, Apply, Init;
  }

  lemma RunGrows(run: seq<State>, steps: seq<Step>, step: Step)
    requires IsRun(run, steps) && Enabled(run[|steps|], step)
    ensures IsRun(run + [Apply(run[|steps|], step)], steps + [step])
  {
    hide Enabled, Apply, Init;
  }

  /** The processes and the daemon never point outside the slots. */
  lemma CanMove(s: State, j: nat)
    requires Inv(s) && j < |s.nodes|
    ensures SimCan(s, j) && DaemonCan(s, j)
  {
    assert NodeOk(s, j);
    var n := s.nodes[j];
    if ServesRemote(n.v) && n.v != AckReq {
      assert n.slot.remoteOffset < |s.nodes|;
    }
  }

  /** No process ever follows a pointer outside the slots or copies outside an argument block:
      its next step is always possible. */
  lemma NeverStuck(run: seq<State>, steps: seq<Step>, k: nat, j: nat)
    requires IsRun(run, steps) && k < |run| && j < |run[k].nodes|
    ensures SimCan(run[k], j) && DaemonCan(run[k], j)
    ensures !run[k].nodes[j].t.User? ==> ThreadCan(run[k], j, Go)
  {
    RunInv(run, steps, k);
    CanMove(run[k], j);
  }

  /** Each local command is executed exactly once, in order and with the arguments its thread
      wrote: what was carried out is what was issued, except for the one command that is still
      valid. */
  lemma LocalExactlyOnce(run: seq<State>, steps: seq<Step>, k: nat, i: nat)
    requires IsRun(run, steps) && k < |run| && i < |run[k].nodes|
    ensures var n := run[k].nodes[i];
            n.h.executed == n.h.issued
            || (n.t.WaitLocal? && n.slot.cmdValid && MissesLast(n.h.executed, n.h.issued))
  {
    RunInv(run, steps, k);
    hide IsRun;
    assert NodeOk(run[k], i);
  }

  /** When a thread sees its command done, the command has been executed and acknowledged as
      successful, and the arguments are exactly what the execution stored. */
  lemma LocalReturn(run: seq<State>, steps: seq<Step>, k: nat, i: nat)
    requires IsRun(run, steps) && k < |run| && i < |run[k].nodes|
    requires run[k].nodes[i].t.WaitLocal? && !run[k].nodes[i].slot.cmdValid
    ensures var n := run[k].nodes[i];
            && n.h.executed == n.h.issued != [] && n.slot.cmdStatus == STATUS_SUCCESS
            && (n.t.cmd != SHIPC_PRINTF ==> n.slot.args == n.h.answer)
  {
    RunInv(run, steps, k);
    hide IsRun;
    assert NodeOk(run[k], i);
  }

  /** What was delivered is what was sent, except for the print that is still waited for. */
  predicate DeliveredOnce(n: Node) {
    n.h.delivered == n.h.sent
    || (Waiting(n.t) && n.slot.remoteCmdValid && MissesLast(n.h.delivered, n.h.sent))
  }

  /** Each remote print is delivered exactly once, in order, unchanged, and by the process of
      the slot it was addressed to. */
  lemma RemoteExactlyOnce(run: seq<State>, steps: seq<Step>, k: nat, i: nat)
    requires IsRun(run, steps) && k < |run| && i < |run[k].nodes|
    ensures DeliveredOnce(run[k].nodes[i])
  {
    RunInv(run, steps, k);
    hide IsRun;
    assert NodeOk(run[k], i);
  }

  /** A requester leaves SendCmdNwait only after the daemon has cleared its flag and the target
      has acknowledged; its print has then been delivered, and neither the daemon nor any
      simulator process still works on its request. */
  lemma RemoteReturn(run: seq<State>, steps: seq<Step>, k: nat, i: nat)
    requires IsRun(run, steps) && k < |steps| && i < |run[k].nodes|
    requires steps[k] == ByThread(i, Go) && Waiting(run[k].nodes[i].t) && run[k + 1].nodes[i].t.User?
    ensures var s, n := run[k], run[k].nodes[i];
            && !n.slot.remoteFlag && !n.slot.remoteCmdValid
            && n.h.delivered == n.h.sent && n.slot.cmdStatus == STATUS_SUCCESS
            && !Claimed(s.d, i) && !(s.d.ClearFlag? && s.d.i == i)
            && (forall j | 0 <= j < |s.nodes| :: ServesRemote(s.nodes[j].v) && s.nodes[j].v != AckReq ==>
                  s.nodes[j].slot.remoteOffset != i)
  {
    RunInv(run, steps, k);
    assert run[k + 1] == Apply(run[k], steps[k]);
    hide IsRun;
    var s := run[k];
    assert NodeOk(s, i);
    forall j | 0 <= j < |s.nodes| && ServesRemote(s.nodes[j].v) && s.nodes[j].v != AckReq
      ensures s.nodes[j].slot.remoteOffset != i
    {
      assert NodeOk(s, j);
    }
  }

  ghost predicate SameArgs(s: State, s': State) {
    && |s'.nodes| == |s.nodes|
    && (forall i | 0 <= i < |s.nodes| :: s'.nodes[i].slot.args == s.nodes[i].slot.args)
  }

  lemma PutKeepsArgs(s: State, j: nat, n: Node)
    requires j < |s.nodes| && n.slot.args == s.nodes[j].slot.args
    ensures SameArgs(s, Put(s, j, n))
  {
  }

  lemma ServiceKeepsArgs(s: State, j: nat, ptr: nat, remote: bool)
    requires j < |s.nodes| && ptr < |s.nodes|
    ensures SameArgs(s, Taken(s, j, ptr)) && SameArgs(s, StringShown(s, j, ptr, remote))
  {
  }

  lemma AckKeepsArgs(s: State, j: nat, ptr: nat, remote: bool)
    requires j < |s.nodes| && ptr < |s.nodes|
    ensures SameArgs(s, StatusAcked(s, j, ptr, remote)) && SameArgs(s, ValidAcked(s, j, ptr, remote))
  {
  }

  lemma SimKeepsArgs(s: State, j: nat, result: seq<nat>)
    requires SimCan(s, j) && |result| == ARG_WORDS - ADR_WORDS
    requires !s.nodes[j].v.Store?
    ensures SameArgs(s, SimStep(s, j, result))
  {
    hide Put, Taken, StringShown, StatusAcked, ValidAcked, SameArgs;
    var n := s.nodes[j];
    match n.v {
      case FetchCmd(ptr, remote) => ServiceKeepsArgs(s, j, ptr, remote);
      case PrintStr(ptr, remote) => ServiceKeepsArgs(s, j, ptr, remote);
      case AckStatus(ptr, remote) => AckKeepsArgs(s, j, ptr, remote);
      case AckValid(ptr, remote) => AckKeepsArgs(s, j, ptr, remote);
      case _ =>
    }
    forall m: Node | m.slot.args == n.slot.args ensures SameArgs(s, Put(s, j, m)) {
      PutKeepsArgs(s, j, m);
    }
  }

  lemma SimStoresOwn(s: State, j: nat, result: seq<nat>, i: nat)
    requires SimCan(s, j) && |result| == ARG_WORDS - ADR_WORDS && i < |s.nodes|
    requires s.nodes[j].v.Store?
    ensures i != j ==> SimStep(s, j, result).nodes[i] == s.nodes[i]
  {
  }

  /** The simulator side writes the arguments of a slot only while the slot's thread waits for
      a valid local command. */
  lemma SimWritesOwned(run: seq<State>, steps: seq<Step>, k: nat, i: nat)
    requires IsRun(run, steps) && k < |steps| && i < |run[k].nodes|
    requires !steps[k].ByThread? && run[k + 1].nodes[i].slot.args != run[k].nodes[i].slot.args
    ensures steps[k].BySim? && steps[k].j == i
    ensures run[k].nodes[i].t.WaitLocal? && run[k].nodes[i].slot.cmdValid
  {
    RunInv(run, steps, k);
    assert run[k + 1] == Apply(run[k], steps[k]);
    hide IsRun, SimStep;
    assert NodeOk(run[k], i);
    match steps[k] {
      case ByThread(_, _) =>
      case ByDaemon(_) =>
      case BySim(j, result) =>
        if run[k].nodes[j].v.Store? {
          SimStoresOwn(run[k], j, result, i);
        } else {
          SimKeepsArgs(run[k], j, result);
        }
    }
  }

  /** A thread writes arguments or its print string only while no command of its slot is valid
      and no simulator process carries one out. */
  lemma ThreadWritesOwned(run: seq<State>, steps: seq<Step>, k: nat, i: nat)
    requires IsRun(run, steps) && k < |steps| && i < |run[k].nodes|
    requires steps[k].ByThread?
    requires run[k + 1].nodes[i].slot.args != run[k].nodes[i].slot.args
          || run[k + 1].nodes[i].slot.str != run[k].nodes[i].slot.str
    ensures var s, n := run[k], run[k].nodes[i];
            && steps[k].i == i && !n.slot.cmdValid && !n.slot.remoteCmdValid && !ServesLocal(n.v)
            && (forall j | 0 <= j < |s.nodes| :: s.nodes[j].v != PrintStr(i, true))
  {
    RunInv(run, steps, k);
    assert run[k + 1] == Apply(run[k], steps[k]);
    hide IsRun;
    var s := run[k];
    assert NodeOk(s, i);
    forall j | 0 <= j < |s.nodes|
      ensures s.nodes[j].v != PrintStr(i, true)
    {
      assert NodeOk(s, j);
    }
  }
}
