/** Nothing in the mailbox waits for something that cannot happen: a call of SendCmdNwait that
    has begun can always still end. From every state of every run the simulator processes and
    the daemon can serve the call, so that its thread needs no step of any other thread. */
module MailboxProgress {
  import opened Common
  import opened Mailbox
  import opened MailboxSafety
  import opened MailboxRuns

  /** Who has to move next for the call of slot i to end. */
  function NextStep(s: State, i: nat, result: seq<nat>): Step
    requires i < |s.nodes|
  {
    var n := s.nodes[i];
    if n.t.WaitLocal? && n.slot.cmdValid then BySim(i, result)
    else if Waiting(n.t) && Busy(s, i) then BySim(TargetOf(n.t), result)
    else if Waiting(n.t) && (n.slot.remoteCmdValid || n.slot.remoteFlag) then ByDaemon(i)
    else ByThread(i, Go)
  }

  /** The process of the target has some request to serve before slot i's is acknowledged. */
  predicate Busy(s: State, i: nat)
    requires i < |s.nodes| && Waiting(s.nodes[i].t)
  {
    var j := TargetOf(s.nodes[i].t);
    j < |s.nodes| && s.nodes[i].slot.remoteCmdValid && s.nodes[j].slot.remoteReq
  }

  /** The daemon has passed the request of slot i on to its target. */
  predicate Passed(s: State, i: nat)
    requires i < |s.nodes| && Waiting(s.nodes[i].t)
  {
    var j := TargetOf(s.nodes[i].t);
    && j < |s.nodes| && s.nodes[j].slot.remoteReq && s.nodes[j].slot.remoteOffset == i
    && s.nodes[j].v != AckReq
  }

  // ---------------------------------------------------------------- what is left to do

  /** Steps of the thread until it waits. */
  function ThreadWork(t: Thread): nat {
    match t
    case User(_) => 0
    case FlagNext(_) => 1
    case PutCmd(_, _) => 5
    case ReadFlag(_, _) => 4
    case PutValid(_) => 3
    case ClearValid(_) => 3
    case RaiseFlag(_) => 2
    case PutRemoteValid(_) => 1
    case _ => 0
  }

  /** How far a remote request has come: not passed on, passed on, acknowledged, flag cleared. */
  function RequestWork(s: State, i: nat): nat
    requires i < |s.nodes|
  {
    var n := s.nodes[i];
    if !Waiting(n.t) then 0
    else if n.slot.remoteCmdValid then if Passed(s, i) then 2 else 3
    else if n.slot.remoteFlag then 1
    else 0
  }

  /** Steps of the daemon until it passes on the request of slot i, which it looks for next. */
  function DaemonWork(d: Daemon, i: nat): nat {
    match d
    case Scan => 7
    case CheckValid(k) => if k == i then 6 else 13
    case FetchTarget(k) => if k == i then 5 else 12
    case CheckReq(k, _) => if k == i then 4 else 11
    case PutOffset(k, _) => if k == i then 3 else 10
    case PutReq(k, _) => if k == i then 2 else 9
    case ClearFlag(k, _) => if k == i then 1 else 8
  }

  /** Steps of a process until it has acknowledged the local command; a raised request comes
      first. */
  function LocalWork(v: Sim, raised: bool): nat {
    match v
    case SendValid => 1
    case SendStatus => 2
    case Store(_, k) => if ADR_WORDS + k <= ARG_WORDS then 3 + ARG_WORDS - k else 3
    case Execute(_, _) => 14
    case Copy(_, _, box) => if |box| <= ARG_WORDS then 15 + ARG_WORDS - |box| else 15
    case FetchCmd(_, remote) => if remote then 34 else 26
    case PrintStr(_, remote) => if remote then 33 else 3
    case AckStatus(_, remote) => if remote then 32 else 2
    case AckValid(_, remote) => if remote then 31 else 1
    case AckReq => 30
    case FetchOffset => 35
    case PollRemote(local) => if raised then 36 else if local then 27 else 29
    case Poll => if raised then 37 else 28
  }

  /** Steps of a process until it has acknowledged the raised request; a local command that it
      has begun comes first. */
  function RemoteWork(v: Sim): nat {
    match v
    case AckReq => 1
    case AckValid(_, remote) => if remote then 2 else 9
    case AckStatus(_, remote) => if remote then 3 else 10
    case PrintStr(_, remote) => if remote then 4 else 11
    case FetchCmd(_, remote) => if remote then 5 else 34
    case FetchOffset => 6
    case PollRemote(_) => 7
    case Poll => 8
    case SendValid => 9
    case SendStatus => 10
    case Store(_, k) => if ADR_WORDS + k <= ARG_WORDS then 11 + ARG_WORDS - k else 11
    case Execute(_, _) => 22
    case Copy(_, _, box) => if |box| <= ARG_WORDS then 23 + ARG_WORDS - |box| else 23
  }

  /** Steps of the process that slot i waits for, or of the thread when nobody else has to. */
  function ServiceWork(s: State, i: nat): nat
    requires i < |s.nodes|
  {
    var n := s.nodes[i];
    if n.t.WaitLocal? then if n.slot.cmdValid then LocalWork(n.v, n.slot.remoteReq) else 0
    else if !Waiting(n.t) then 0
    else if n.slot.remoteCmdValid then if Busy(s, i) then RemoteWork(s.nodes[TargetOf(n.t)].v) else 0
    else if n.t.WaitRemoteValid? then 1
    else 0
  }

  /** The work left in t is less than in s, in the order in which it is done. */
  predicate Nearer(s: State, t: State, i: nat)
    requires i < |s.nodes| && i < |t.nodes|
  {
    var (n, m) := (s.nodes[i].t, t.nodes[i].t);
    || ThreadWork(m) < ThreadWork(n)
    || (ThreadWork(m) == ThreadWork(n) && RequestWork(t, i) < RequestWork(s, i))
    || (ThreadWork(m) == ThreadWork(n) && RequestWork(t, i) == RequestWork(s, i)
        && DaemonWork(t.d, i) < DaemonWork(s.d, i))
    || (ThreadWork(m) == ThreadWork(n) && RequestWork(t, i) == RequestWork(s, i)
        && DaemonWork(t.d, i) == DaemonWork(s.d, i) && ServiceWork(t, i) < ServiceWork(s, i))
  }

  // ---------------------------------------------------------------- one step of each kind

  /** What a step of the process of slot j leaves alone. */
  predicate SimFrame(s: State, t: State, j: nat)
    requires j < |s.nodes|
  {
    && |t.nodes| == |s.nodes| && t.d == s.d
    && (forall k | 0 <= k < |s.nodes| ::
          && t.nodes[k].t == s.nodes[k].t && t.nodes[k].slot.remoteFlag == s.nodes[k].slot.remoteFlag
          && t.nodes[k].slot.remoteOffset == s.nodes[k].slot.remoteOffset
          && (s.nodes[j].v == AckValid(k, true)
              || t.nodes[k].slot.remoteCmdValid == s.nodes[k].slot.remoteCmdValid))
    && (s.nodes[j].v.AckReq? || t.nodes[j].slot.remoteReq == s.nodes[j].slot.remoteReq)
  }

  lemma ServiceFrames(s: State, j: nat, ptr: nat, remote: bool)
    requires j < |s.nodes| && ptr < |s.nodes| && !s.nodes[j].v.AckReq?
    ensures SimFrame(s, Taken(s, j, ptr), j) && SimFrame(s, StringShown(s, j, ptr, remote), j)
  {
  }

  lemma AckFrames(s: State, j: nat, ptr: nat, remote: bool)
    requires j < |s.nodes| && ptr < |s.nodes| && !s.nodes[j].v.AckReq?
    ensures SimFrame(s, StatusAcked(s, j, ptr, remote), j)
    ensures s.nodes[j].v == AckValid(ptr, remote) ==> SimFrame(s, ValidAcked(s, j, ptr, remote), j)
  {
  }

  lemma SimFrames(s: State, j: nat, result: seq<nat>)
    requires SimCan(s, j) && |result| == ARG_WORDS - ADR_WORDS
    ensures SimFrame(s, SimStep(s, j, result), j)
  {
    hide Taken, StringShown, StatusAcked, ValidAcked;
    match s.nodes[j].v {
      case FetchCmd(ptr, remote) => ServiceFrames(s, j, ptr, remote);
      case PrintStr(ptr, remote) => ServiceFrames(s, j, ptr, remote);
      case AckStatus(ptr, remote) => AckFrames(s, j, ptr, remote);
      case AckValid(ptr, remote) => AckFrames(s, j, ptr, remote);
      case _ =>
    }
  }

  /** A process with a request to serve comes nearer to having served it. */
  lemma SimServesRemote(s: State, j: nat, result: seq<nat>)
    requires Inv(s) && SimCan(s, j) && |result| == ARG_WORDS - ADR_WORDS
    ensures var n, m := s.nodes[j], SimStep(s, j, result).nodes[j];
            n.slot.remoteReq && m.slot.remoteReq ==> RemoteWork(m.v) < RemoteWork(n.v)
  {
    assert NodeOk(s, j);
    hide LocalOk, LinkOk, RequestOk, LocalWork;
    if s.nodes[j].v.FetchCmd? && s.nodes[j].v.remote {
      RemoteIsPrint(s, j, s.nodes[j].v.ptr);
    }
  }

  /** A process with a local command to serve comes nearer to having served it. */
  lemma SimServesLocal(s: State, j: nat, result: seq<nat>)
    requires Inv(s) && SimCan(s, j) && |result| == ARG_WORDS - ADR_WORDS
    ensures var n, m := s.nodes[j], SimStep(s, j, result).nodes[j];
            n.slot.cmdValid && m.slot.cmdValid ==>
              LocalWork(m.v, m.slot.remoteReq) < LocalWork(n.v, n.slot.remoteReq)
  {
    assert NodeOk(s, j);
    hide LinkOk, RequestOk, RemoteWork;
    if s.nodes[j].v.FetchCmd? && s.nodes[j].v.remote {
      RemoteIsPrint(s, j, s.nodes[j].v.ptr);
    }
  }

  /** A thread that waits for nobody goes on. */
  lemma ThreadNearer(s: State, i: nat, result: seq<nat>)
    requires Inv(s) && i < |s.nodes| && !s.nodes[i].t.User?
    requires NextStep(s, i, result) == ByThread(i, Go)
    ensures var t := Put(s, i, ThreadStep(s.nodes[i], Go));
            t.nodes[i].t.User? || Nearer(s, t, i)
  {
    assert NodeOk(s, i);
    hide LocalOk, ServiceOk, ServerOk, PendingOk, RaisedOk, AckOk, LocalWork, RemoteWork;
  }

  /** The wait for a local command comes nearer to its end with each step of its process. */
  lemma LocalNearer(s: State, i: nat, result: seq<nat>)
    requires Inv(s) && SimCan(s, i) && |result| == ARG_WORDS - ADR_WORDS
    requires s.nodes[i].t.WaitLocal? && s.nodes[i].slot.cmdValid
    ensures Nearer(s, SimStep(s, i, result), i)
  {
    SimFrames(s, i, result);
    SimServesLocal(s, i, result);
    hide Inv, SimStep, LocalWork, RemoteWork, SimCan;
  }

  /** So does the wait for a remote print with each step of the process of its target. */
  lemma RemoteNearer(s: State, i: nat, result: seq<nat>)
    requires Inv(s) && i < |s.nodes| && Waiting(s.nodes[i].t) && Busy(s, i)
    requires SimCan(s, TargetOf(s.nodes[i].t)) && |result| == ARG_WORDS - ADR_WORDS
    ensures Nearer(s, SimStep(s, TargetOf(s.nodes[i].t), result), i)
  {
    var j := TargetOf(s.nodes[i].t);
    var t := SimStep(s, j, result);
    SimFrames(s, j, result);
    SimServesRemote(s, j, result);
    RemoteStays(s, i, j);
    hide Inv, SimStep, LocalWork, RemoteWork, SimCan;
    assert t.nodes[i].t == s.nodes[i].t;
    assert t.nodes[j].slot.remoteOffset == s.nodes[j].slot.remoteOffset;
  }

  /** Only the acknowledgement of slot i takes a passed request away. */
  lemma RemoteStays(s: State, i: nat, j: nat)
    requires Inv(s) && i < |s.nodes| && Waiting(s.nodes[i].t) && j == TargetOf(s.nodes[i].t) < |s.nodes|
    ensures s.nodes[j].v.AckReq? ==> !Passed(s, i)
    ensures forall k :: s.nodes[j].v == AckValid(k, true) ==> s.nodes[j].slot.remoteOffset == k
  {
    assert NodeOk(s, j);
  }

  /** A request that is neither passed on nor acknowledged leaves its flag for the daemon. */
  lemma FlagIsUp(s: State, i: nat)
    requires Inv(s) && i < |s.nodes| && Waiting(s.nodes[i].t) && !Busy(s, i)
    requires s.nodes[i].slot.remoteCmdValid || s.nodes[i].slot.remoteFlag
    ensures var n := s.nodes[i];
            if n.slot.remoteCmdValid then n.slot.remoteFlag && s.d != ClearFlag(i, TargetOf(n.t))
            else s.d == ClearFlag(i, TargetOf(n.t))
  {
    assert NodeOk(s, i);
  }

  /** The daemon comes nearer to passing the request on, or to clearing the flag. */
  lemma DaemonNearer(s: State, i: nat)
    requires Inv(s) && i < |s.nodes| && DaemonCan(s, i) && Waiting(s.nodes[i].t) && !Busy(s, i)
    requires s.nodes[i].slot.remoteCmdValid || s.nodes[i].slot.remoteFlag
    ensures Nearer(s, DaemonStep(s, i), i)
  {
    FlagIsUp(s, i);
    assert NodeOk(s, i);
    assert NodeOk(s, TargetOf(s.nodes[i].t));
    hide Inv, LocalOk, ServiceOk, PendingOk, RaisedOk, AckOk, FlagOk, LocalWork, RemoteWork;
  }

  // ---------------------------------------------------------------- whole calls

  /** The next step is possible, respects the rules, and ends the call or brings it nearer. */
  lemma Progress(s: State, i: nat, result: seq<nat>)
    requires Inv(s) && i < |s.nodes| && !s.nodes[i].t.User? && |result| == ARG_WORDS - ADR_WORDS
    ensures var step := NextStep(s, i, result);
            && Enabled(s, step) && |Apply(s, step).nodes| == |s.nodes|
            && (Apply(s, step).nodes[i].t.User? || Nearer(s, Apply(s, step), i))
  {
    CanMove(s, i);
    var n := s.nodes[i];
    if n.t.WaitLocal? && n.slot.cmdValid {
      SimFrames(s, i, result);
      LocalNearer(s, i, result);
    } else if Waiting(n.t) && Busy(s, i) {
      CanMove(s, TargetOf(n.t));
      SimFrames(s, TargetOf(n.t), result);
      RemoteNearer(s, i, result);
    } else if Waiting(n.t) && (n.slot.remoteCmdValid || n.slot.remoteFlag) {
      DaemonNearer(s, i);
    } else {
      ThreadNearer(s, i, result);
    }
    hide Inv, SimStep, ThreadStep, SimCan, Nearer;
  }

  /** The call of slot i ends in a continuation of the run in which no other thread moves. */
  ghost predicate Ends(run: seq<State>, steps: seq<Step>, i: nat, run': seq<State>, steps': seq<Step>) {
    && IsRun(run', steps') && run <= run' && steps <= steps'
    && (forall k | |steps| <= k < |steps'| && steps'[k].ByThread? :: steps'[k] == ByThread(i, Go))
    && |run'| > 0 && i < |run'[|run'| - 1].nodes| && run'[|run'| - 1].nodes[i].t.User?
  }

  lemma {:induction false} CallReturns(run: seq<State>, steps: seq<Step>, i: nat, result: seq<nat>)
      returns (run': seq<State>, steps': seq<Step>)
    requires IsRun(run, steps) && i < |run[|steps|].nodes| && |result| == ARG_WORDS - ADR_WORDS
    ensures Ends(run, steps, i, run', steps')
    decreases ThreadWork(run[|steps|].nodes[i].t), RequestWork(run[|steps|], i), DaemonWork(run[|steps|].d, i),
              ServiceWork(run[|steps|], i)
  {
    var s := run[|steps|];
    if s.nodes[i].t.User? {
      return run, steps;
    }
    RunInv(run, steps, |steps|);
    Progress(s, i, result);
    var step := NextStep(s, i, result);
    RunGrows(run, steps, step);
    run', steps' := run + [Apply(s, step)], steps + [step];
    if !Apply(s, step).nodes[i].t.User? {
      run', steps' := CallReturns(run', steps', i, result);
    }
  }

  /** Whatever the simulated hardware answers, every run in which a thread is inside
      SendCmdNwait or SetRemoteFlag continues to its return without a step of any other thread.
      Every command the thread issued has then been carried out and every print it sent has
      been delivered. */
  lemma CallCanEnd(run: seq<State>, steps: seq<Step>, i: nat, result: seq<nat>)
      returns (run': seq<State>, steps': seq<Step>)
    requires IsRun(run, steps) && i < |run[|steps|].nodes| && |result| == ARG_WORDS - ADR_WORDS
    ensures Ends(run, steps, i, run', steps')
    ensures var h := run'[|steps'|].nodes[i].h;
            h.executed == h.issued && h.delivered == h.sent
  {
    run', steps' := CallReturns(run, steps, i, result);
    LocalExactlyOnce(run', steps', |steps'|, i);
    RemoteExactlyOnce(run', steps', |steps'|, i);
  }
}
