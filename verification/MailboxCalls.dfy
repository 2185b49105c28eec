/** What one call of SendCmdNwait does from its first step to its return: which job it issues,
    and what the caller finds in its arguments. */
module MailboxCalls {
  import opened Common
  import opened Mailbox
  import opened MailboxRuns
  import opened MailboxSafety

  // ---------------------------------------------------------------- single steps

  /** Nothing changed that the call of this slot depends on. */
  predicate SameCall(n: Node, m: Node) {
    && m.t == n.t && m.slot.cmd == n.slot.cmd && m.slot.args == n.slot.args && m.slot.str == n.slot.str
    && m.h.issued == n.h.issued && m.h.executed == n.h.executed && m.h.sent == n.h.sent && m.h.answer == n.h.answer
  }

  lemma OtherThread(s: State, i: nat, act: ThreadAct, k: nat)
    requires k < |s.nodes| && k != i && i < |s.nodes| && ThreadCan(s, i, act)
    ensures SameCall(s.nodes[k], Put(s, i, ThreadStep(s.nodes[i], act)).nodes[k])
  {
    hide ThreadStep;
  }

  lemma DaemonElsewhere(s: State, pick: nat, k: nat)
    requires DaemonCan(s, pick) && k < |s.nodes|
    ensures k < |DaemonStep(s, pick).nodes| && SameCall(s.nodes[k], DaemonStep(s, pick).nodes[k])
  {
  }

  /** The process of another slot may deliver or acknowledge a print of slot k, and no more. */
  lemma OtherSim(s: State, j: nat, result: seq<nat>, k: nat)
    requires Inv(s) && SimCan(s, j) && |result| == ARG_WORDS - ADR_WORDS && k < |s.nodes| && k != j
    ensures k < |SimStep(s, j, result).nodes| && SameCall(s.nodes[k], SimStep(s, j, result).nodes[k])
  {
    assert NodeOk(s, j);
    hide LocalOk, RequestOk, LinkOk;
    if s.nodes[j].v.FetchCmd? && s.nodes[j].v.remote {
      RemoteIsPrint(s, j, s.nodes[j].v.ptr);
    }
  }

  /** Words of a command that was carried out are stored. */
  predicate StoresWords(n: Node, m: Node) {
    && n.t.WaitLocal? && n.h.executed == n.h.issued && n.slot.cmd != SHIPC_PRINTF
    && SameCall(n, m.(slot := m.slot.(args := n.slot.args)))
  }

  /** The print in the slot is carried out. */
  predicate Prints(n: Node, m: Node) {
    && n.t.WaitLocal? && n.h.executed != n.h.issued && n.slot.cmd == SHIPC_PRINTF
    && SameCall(n.(h := n.h.(executed := n.h.executed + [Printed(n.slot.str)])), m)
  }

  /** The command in the slot is carried out, with the words that the hardware returns. */
  predicate Executes(n: Node, m: Node, result: seq<nat>) {
    && n.t.WaitLocal? && n.h.executed != n.h.issued && n.slot.cmd != SHIPC_PRINTF && |n.slot.args| == 10
    && SameCall(n.(h := n.h.(executed := n.h.executed + [Command(n.slot.cmd, n.slot.args)],
                             answer := n.slot.args[..2] + result)), m)
  }

  lemma OwnSim(s: State, k: nat, result: seq<nat>)
    requires Inv(s) && SimCan(s, k) && |result| == ARG_WORDS - ADR_WORDS
    ensures k < |SimStep(s, k, result).nodes|
    ensures var n, m := s.nodes[k], SimStep(s, k, result).nodes[k];
            SameCall(n, m) || StoresWords(n, m) || Prints(n, m) || Executes(n, m, result)
  {
    assert NodeOk(s, k);
    hide RequestOk, LinkOk;
    if s.nodes[k].v.FetchCmd? && s.nodes[k].v.remote {
      RemoteIsPrint(s, k, s.nodes[k].v.ptr);
    }
  }

  // ---------------------------------------------------------------- local calls

  /** The job of a call with this command from what is in the slot. */
  function JobFor(a: Node, cmd: nat): Job {
    if cmd == 0x20 then Printed(a.slot.str) else Command(cmd, a.slot.args)
  }

  /** n is a slot during a local call that began with slot a. */
  predicate DuringLocal(a: Node, cmd: nat, n: Node) {
    && n.slot.str == a.slot.str
    && match n.t
       case PutCmd(c, r) => c == cmd && r.None? && n.slot.args == a.slot.args && n.h.issued == a.h.issued
       case ReadFlag(c, r) =>
         c == cmd == n.slot.cmd && r.None? && n.slot.args == a.slot.args && n.h.issued == a.h.issued
       case PutValid(c) => c == cmd == n.slot.cmd && n.slot.args == a.slot.args && n.h.issued == a.h.issued
       case WaitLocal(c) =>
         && c == cmd == n.slot.cmd && n.h.issued == a.h.issued + [JobFor(a, cmd)]
         && (n.h.executed != n.h.issued || cmd == 0x20 ==> n.slot.args == a.slot.args)
       case _ => false
  }

  /** Step x carried out a command of slot i. */
  ghost predicate ExecutedAt(run: seq<State>, steps: seq<Step>, x: nat, i: nat, job: Job)
    requires x < |steps| < |run|
  {
    && steps[x].BySim? && steps[x].j == i && i < |run[x].nodes| && i < |run[x + 1].nodes|
    && run[x + 1].nodes[i].h.executed == run[x].nodes[i].h.executed + [job]
  }

  /** The command with its arguments was carried out between k and m, and left as answer the two
      address words and what the hardware returned then. */
  ghost predicate Answered(run: seq<State>, steps: seq<Step>, k: nat, m: nat, i: nat, job: Job, n: Node)
    requires m <= |steps| < |run|
  {
    exists x | k < x < m :: ExecutedAt(run, steps, x, i, job)
                            && job.Command? && |job.args| == 10 && n.h.answer == job.args[..2] + steps[x].result
  }

  lemma AnsweredStays(run: seq<State>, steps: seq<Step>, k: nat, m: nat, i: nat, job: Job, n: Node, n': Node)
    requires m + 1 <= |steps| < |run| && Answered(run, steps, k, m, i, job, n) && n'.h.answer == n.h.answer
    ensures Answered(run, steps, k, m + 1, i, job, n')
  {
    var x :| k < x < m && ExecutedAt(run, steps, x, i, job)
             && job.Command? && |job.args| == 10 && n.h.answer == job.args[..2] + steps[x].result;
    assert ExecutedAt(run, steps, x, i, job);
  }

  lemma GoLocal(s: State, i: nat, a: Node, cmd: nat)
    requires Inv(s) && i < |s.nodes| && DuringLocal(a, cmd, s.nodes[i])
    ensures var n, m := s.nodes[i], ThreadStep(s.nodes[i], Go);
            && (DuringLocal(a, cmd, m) || m.t.User?)
            && m.h.executed == n.h.executed && m.h.answer == n.h.answer
            && (m.t.WaitLocal? && m.h.executed == m.h.issued ==> n.t.WaitLocal? && n.h.executed == n.h.issued)
  {
    assert NodeOk(s, i);
    hide LinkOk, ServiceOk, ServerOk;
  }

  lemma SimLocal(n: Node, m: Node, a: Node, cmd: nat)
    requires DuringLocal(a, cmd, n)
    requires SameCall(n, m) || StoresWords(n, m) || Prints(n, m)
    ensures DuringLocal(a, cmd, m) && m.t == n.t && m.h.answer == n.h.answer
    ensures m.h.executed == m.h.issued && cmd != 0x20 ==> n.h.executed == n.h.issued
  {
  }

  lemma ExecutesLocal(n: Node, m: Node, result: seq<nat>, a: Node, cmd: nat)
    requires DuringLocal(a, cmd, n) && Executes(n, m, result)
    ensures DuringLocal(a, cmd, m) && cmd != 0x20 && |a.slot.args| == 10
    ensures m.h.executed == n.h.executed + [JobFor(a, cmd)] && m.h.answer == a.slot.args[..2] + result
  {
  }

  /** m follows n in a local call, without having executed the command. */
  predicate Keeps(n: Node, m: Node, cmd: nat) {
    && m.h.answer == n.h.answer
    && (m.t.WaitLocal? && m.h.executed == m.h.issued && cmd != 0x20 ==>
          n.t.WaitLocal? && n.h.executed == n.h.issued)
  }

  /** m follows n in a local call that the simulator process of its slot has just executed. */
  predicate Obeys(n: Node, m: Node, a: Node, cmd: nat, result: seq<nat>) {
    && cmd != 0x20 && |a.slot.args| == 10
    && m.h.executed == n.h.executed + [JobFor(a, cmd)] && m.h.answer == a.slot.args[..2] + result
  }

  lemma AnyLocal(s: State, step: Step, i: nat, a: Node, cmd: nat)
    requires Inv(s) && Enabled(s, step) && i < |s.nodes| && DuringLocal(a, cmd, s.nodes[i])
    ensures i < |Apply(s, step).nodes|
    ensures var n, m := s.nodes[i], Apply(s, step).nodes[i];
            && (DuringLocal(a, cmd, m) || m.t.User?)
            && (Keeps(n, m, cmd) || (step.BySim? && step.j == i && Obeys(n, m, a, cmd, step.result)))
  {
    var n := s.nodes[i];
    assert !n.t.User?;
    match step {
      case ByThread(j, act) =>
        hide SimStep, DaemonStep, Inv;
        if j == i {
          GoLocal(s, i, a, cmd);
        } else {
          OtherThread(s, j, act, i);
          SimLocal(n, Apply(s, step).nodes[i], a, cmd);
        }
      case BySim(j, result) =>
        hide SimStep, DaemonStep, ThreadStep, Inv, SimCan;
        if j == i {
          OwnSim(s, i, result);
          var m := SimStep(s, i, result).nodes[i];
          if Executes(n, m, result) {
            ExecutesLocal(n, m, result, a, cmd);
          } else {
            SimLocal(n, m, a, cmd);
          }
        } else {
          OtherSim(s, j, result, i);
          SimLocal(n, SimStep(s, j, result).nodes[i], a, cmd);
        }
      case ByDaemon(pick) =>
        hide SimStep, DaemonStep, ThreadStep, Inv, DaemonCan;
        DaemonElsewhere(s, pick, i);
        SimLocal(n, DaemonStep(s, pick).nodes[i], a, cmd);
    }
  }

  /** The thread of slot i has not returned since step k. */
  ghost predicate InCall(run: seq<State>, k: nat, m: nat, i: nat)
    requires m < |run|
  {
    forall x | k < x <= m :: i < |run[x].nodes| && !run[x].nodes[i].t.User?
  }

  /** Step k begins a call with this command and without a target. */
  ghost predicate BeginsLocal(run: seq<State>, steps: seq<Step>, k: nat, i: nat, cmd: nat) {
    && IsRun(run, steps) && k < |steps| && i < |run[k].nodes|
    && steps[k] == ByThread(i, Send(cmd)) && run[k].nodes[i].t == User(None)
  }

  lemma FirstLocal(s: State, i: nat, cmd: nat)
    requires i < |s.nodes| && s.nodes[i].t == User(None) && Possible(s, ByThread(i, Send(cmd)))
    ensures var t := Apply(s, ByThread(i, Send(cmd)));
            i < |t.nodes| && DuringLocal(s.nodes[i], cmd, t.nodes[i]) && !t.nodes[i].t.WaitLocal?
  {
  }

  lemma {:induction false} DuringCall(run: seq<State>, steps: seq<Step>, k: nat, m: nat, i: nat, cmd: nat)
    requires BeginsLocal(run, steps, k, i, cmd) && k < m <= |steps| < |run| && InCall(run, k, m, i)
    ensures var a, n := run[k].nodes[i], run[m].nodes[i];
            && DuringLocal(a, cmd, n)
            && (n.t.WaitLocal? && n.h.executed == n.h.issued && cmd != 0x20 ==>
                  Answered(run, steps, k, m, i, JobFor(a, cmd), n))
  {
    hide Inv, Possible, Respects, Apply, DuringLocal, IsRun, JobFor;
    var a := run[k].nodes[i];
    RunStep(run, steps, m - 1);
    if m == k + 1 {
      FirstLocal(run[k], i, cmd);
    } else {
      DuringCall(run, steps, k, m - 1, i, cmd);
      RunInv(run, steps, m - 1);
      AnyLocal(run[m - 1], steps[m - 1], i, a, cmd);
      var n, n' := run[m - 1].nodes[i], run[m].nodes[i];
      if Keeps(n, n', cmd) {
        if n'.t.WaitLocal? && n'.h.executed == n'.h.issued && cmd != 0x20 {
          AnsweredStays(run, steps, k, m - 1, i, JobFor(a, cmd), n, n');
        }
      } else {
        assert ExecutedAt(run, steps, m - 1, i, JobFor(a, cmd));
        JobParts(a, cmd);
      }
    }
  }

  lemma JobParts(a: Node, cmd: nat)
    requires cmd != 0x20
    ensures JobFor(a, cmd).Command? && JobFor(a, cmd).args == a.slot.args
  {
  }

  /** While a local call lasts, the slot has issued either nothing more than before, or the one
      job the caller asked for: the command sent, with the arguments of that moment, or the print
      of the string for a print command. */
  lemma LocalIssues(run: seq<State>, steps: seq<Step>, k: nat, m: nat, i: nat, cmd: nat)
    requires BeginsLocal(run, steps, k, i, cmd) && k < m <= |steps| && InCall(run, k, m, i)
    ensures var a, n := run[k].nodes[i], run[m].nodes[i];
            var job := if cmd == 0x20 then Printed(a.slot.str) else Command(cmd, a.slot.args);
            n.h.issued == if n.t.WaitLocal? then a.h.issued + [job] else a.h.issued
  {
    DuringCall(run, steps, k, m, i, cmd);
  }

  /** When a local call returns, its job has been issued and executed. The caller finds its
      address words as they were, and in the eight parameters the words that the hardware
      returned in the step that executed the command; a print leaves all arguments alone. */
  lemma LocalCallReturns(run: seq<State>, steps: seq<Step>, k: nat, m: nat, i: nat, cmd: nat)
    requires BeginsLocal(run, steps, k, i, cmd) && k < m < |steps| && InCall(run, k, m, i)
    requires i < |run[m + 1].nodes| && run[m + 1].nodes[i].t.User?
    ensures var a, n := run[k].nodes[i], run[m + 1].nodes[i];
            && n.h.executed == n.h.issued == a.h.issued + [JobFor(a, cmd)]
            && (cmd == 0x20 ==> n.slot.args == a.slot.args)
            && (cmd != 0x20 ==>
                  exists x | k < x < m :: ExecutedAt(run, steps, x, i, Command(cmd, a.slot.args))
                                          && |a.slot.args| == 10
                                          && n.slot.args == a.slot.args[..2] + steps[x].result)
  {
    var a := run[k].nodes[i];
    DuringCall(run, steps, k, m, i, cmd);
    RunInv(run, steps, m);
    assert Enabled(run[m], steps[m]) && run[m + 1] == Apply(run[m], steps[m]);
    LastStep(run[m], steps[m], i, a, cmd);
    hide Enabled, Apply, IsRun, DuringLocal, Inv;
    if cmd != 0x20 {
      var x :| k < x < m && ExecutedAt(run, steps, x, i, JobFor(a, cmd))
               && run[m].nodes[i].h.answer == JobFor(a, cmd).args[..2] + steps[x].result;
      assert ExecutedAt(run, steps, x, i, Command(cmd, a.slot.args));
    }
  }

  /** The last step of a local call is its thread's, at a slot that has been served. */
  lemma LastStep(s: State, step: Step, i: nat, a: Node, cmd: nat)
    requires Inv(s) && Enabled(s, step) && i < |s.nodes| && DuringLocal(a, cmd, s.nodes[i])
    requires i < |Apply(s, step).nodes| && Apply(s, step).nodes[i].t.User?
    ensures var n, m := s.nodes[i], Apply(s, step).nodes[i];
            && n.t.WaitLocal? && n.h.executed == n.h.issued == a.h.issued + [JobFor(a, cmd)]
            && m.h == n.h && m.slot == n.slot && (cmd != 0x20 ==> n.slot.args == n.h.answer)
            && (cmd == 0x20 ==> n.slot.args == a.slot.args)
  {
    var n := s.nodes[i];
    match step {
      case ByThread(j, act) =>
        assert NodeOk(s, i);
        hide SimStep, DaemonStep, LinkOk, ServiceOk, ServerOk;
      case BySim(j, result) =>
        hide DaemonStep, ThreadStep, Inv, SimCan, SimStep;
        if j == i { OwnSim(s, i, result); } else { OtherSim(s, j, result, i); }
      case ByDaemon(pick) =>
        hide SimStep, DaemonStep, ThreadStep, Inv, DaemonCan;
        DaemonElsewhere(s, pick, i);
    }
  }

  // ---------------------------------------------------------------- remote calls

  /** n is a slot during a call, begun with slot a, that sends its print to slot j. */
  predicate DuringRemote(a: Node, j: nat, n: Node) {
    && n.slot.str == a.slot.str && n.slot.args == a.slot.args && n.h.issued == a.h.issued
    && match n.t
       case PutCmd(_, r) => r == Some(j) && n.h.sent == a.h.sent
       case ReadFlag(_, r) => r == Some(j) && n.h.sent == a.h.sent
       case ClearValid(t) => t == j && n.h.sent == a.h.sent
       case RaiseFlag(t) => t == j && n.h.sent == a.h.sent
       case PutRemoteValid(t) => t == j && n.h.sent == a.h.sent
       case WaitRemoteValid(t) => t == j && n.h.sent == a.h.sent + [Msg(j, a.slot.str)]
       case WaitRemoteFlag(t) => t == j && n.h.sent == a.h.sent + [Msg(j, a.slot.str)]
       case _ => false
  }

  lemma GoRemote(s: State, i: nat, a: Node, j: nat)
    requires Inv(s) && i < |s.nodes| && DuringRemote(a, j, s.nodes[i])
    ensures var m := ThreadStep(s.nodes[i], Go);
            DuringRemote(a, j, m)
            || (m.t.User? && Waiting(s.nodes[i].t) && m.h == s.nodes[i].h && m.slot == s.nodes[i].slot)
  {
    assert NodeOk(s, i);
    hide LinkOk, ServiceOk, ServerOk, LocalOk;
  }

  lemma AnyRemote(s: State, step: Step, i: nat, a: Node, j: nat)
    requires Inv(s) && Enabled(s, step) && i < |s.nodes| && DuringRemote(a, j, s.nodes[i])
    ensures i < |Apply(s, step).nodes|
    ensures var m := Apply(s, step).nodes[i];
            DuringRemote(a, j, m)
            || (m.t.User? && Waiting(s.nodes[i].t) && m.h == s.nodes[i].h && m.slot == s.nodes[i].slot)
  {
    match step {
      case ByThread(k, act) =>
        hide SimStep, DaemonStep, Inv;
        if k == i {
          GoRemote(s, i, a, j);
        } else {
          OtherThread(s, k, act, i);
        }
      case BySim(k, result) =>
        hide DaemonStep, ThreadStep, Inv, SimCan, SimStep;
        if k == i { OwnSim(s, i, result); } else { OtherSim(s, k, result, i); }
      case ByDaemon(pick) =>
        hide SimStep, DaemonStep, ThreadStep, Inv, DaemonCan;
        DaemonElsewhere(s, pick, i);
    }
  }

  /** Step k begins a call of slot i, which has announced target j. */
  ghost predicate BeginsRemote(run: seq<State>, steps: seq<Step>, k: nat, i: nat, j: nat) {
    && IsRun(run, steps) && k < |steps| && i < |run[k].nodes|
    && steps[k].ByThread? && steps[k].i == i && steps[k].act.Send? && run[k].nodes[i].t == User(Some(j))
  }

  lemma FirstRemote(s: State, step: Step, i: nat, j: nat)
    requires i < |s.nodes| && s.nodes[i].t == User(Some(j)) && Possible(s, step)
    requires step.ByThread? && step.i == i && step.act.Send?
    ensures i < |Apply(s, step).nodes| && DuringRemote(s.nodes[i], j, Apply(s, step).nodes[i])
  {
  }

  lemma {:induction false} DuringRemoteCall(run: seq<State>, steps: seq<Step>, k: nat, m: nat, i: nat, j: nat)
    requires BeginsRemote(run, steps, k, i, j) && k < m <= |steps| < |run| && InCall(run, k, m, i)
    ensures DuringRemote(run[k].nodes[i], j, run[m].nodes[i])
  {
    hide Inv, Possible, Respects, Apply, DuringRemote, IsRun;
    RunStep(run, steps, m - 1);
    if m == k + 1 {
      FirstRemote(run[k], steps[k], i, j);
    } else {
      DuringRemoteCall(run, steps, k, m - 1, i, j);
      RunInv(run, steps, m - 1);
      AnyRemote(run[m - 1], steps[m - 1], i, run[k].nodes[i], j);
    }
  }

  /** When a remote call returns, exactly the string of its beginning has been sent, to the slot
      that was announced, and everything sent has been delivered; nothing was issued at the slot
      itself, and its arguments are as they were. */
  lemma RemoteCallReturns(run: seq<State>, steps: seq<Step>, k: nat, m: nat, i: nat, j: nat)
    requires BeginsRemote(run, steps, k, i, j) && k < m < |steps| && InCall(run, k, m, i)
    requires i < |run[m + 1].nodes| && run[m + 1].nodes[i].t.User?
    ensures var a, n := run[k].nodes[i], run[m + 1].nodes[i];
            && n.h.delivered == n.h.sent == a.h.sent + [Msg(j, a.slot.str)]
            && n.h.issued == a.h.issued && n.slot.args == a.slot.args && n.slot.str == a.slot.str
  {
    DuringRemoteCall(run, steps, k, m, i, j);
    RunInv(run, steps, m);
    assert Enabled(run[m], steps[m]) && run[m + 1] == Apply(run[m], steps[m]);
    AnyRemote(run[m], steps[m], i, run[k].nodes[i], j);
    RemoteExactlyOnce(run, steps, m + 1, i);
    hide Inv, Enabled, Apply, IsRun;
  }

  // ---------------------------------------------------------------- targets

  /** Step k announces target j, and slot i begins no call and announces nothing else up to m. */
  ghost predicate Announces(steps: seq<Step>, k: nat, m: nat, i: nat, j: nat)
    requires k < m <= |steps|
  {
    && steps[k] == ByThread(i, SetRemote(j))
    && (forall x | k < x < m && steps[x].ByThread? && steps[x].i == i ::
          !steps[x].act.Send? && !steps[x].act.SetRemote?)
  }

  predicate HasAnnounced(t: Thread, j: nat) {
    t == FlagNext(j) || t == User(Some(j))
  }

  /** The target a thread calls with is the one it announced last. */
  lemma {:induction false} TargetIsLast(run: seq<State>, steps: seq<Step>, m: nat, i: nat, j: nat) returns (k: nat)
    requires IsRun(run, steps) && m <= |steps| && i < |run[m].nodes| && HasAnnounced(run[m].nodes[i].t, j)
    ensures k < m && Announces(steps, k, m, i, j)
  {
    k := 0;
    if m > 0 {
      assert Enabled(run[m - 1], steps[m - 1]) && run[m - 1 + 1] == Apply(run[m - 1], steps[m - 1]);
      if steps[m - 1] == ByThread(i, SetRemote(j)) {
        k := m - 1;
      } else {
        RunInv(run, steps, m - 1);
        Unannounced(run[m - 1], steps[m - 1], i, j);
        hide IsRun, Enabled, Apply, Inv, HasAnnounced;
        k := TargetIsLast(run, steps, m - 1, i, j);
      }
    }
  }

  lemma Unannounced(s: State, step: Step, i: nat, j: nat)
    requires Inv(s) && Enabled(s, step) && step != ByThread(i, SetRemote(j))
    requires i < |Apply(s, step).nodes| && HasAnnounced(Apply(s, step).nodes[i].t, j)
    ensures i < |s.nodes| && HasAnnounced(s.nodes[i].t, j)
    ensures step.ByThread? && step.i == i ==> !step.act.Send? && !step.act.SetRemote?
  {
    match step {
      case ByThread(k, act) =>
        if k != i { OtherThread(s, k, act, i); }
      case BySim(k, result) =>
        SlotsKept(s, step);
        hide DaemonStep, ThreadStep, Inv, SimCan, SimStep;
        if k == i { OwnSim(s, i, result); } else { OtherSim(s, k, result, i); }
      case ByDaemon(pick) =>
        SlotsKept(s, step);
        hide SimStep, DaemonStep, ThreadStep, Inv, DaemonCan;
        DaemonElsewhere(s, pick, i);
    }
  }

  lemma SlotsKept(s: State, step: Step)
    requires Possible(s, step)
    ensures |Apply(s, step).nodes| == |s.nodes|
  {
  }

  // ---------------------------------------------------------------- status

  /** The status word during a local call: pending, from the moment a shutdown command is taken up
      inactive, and success from the acknowledgement on. */
  predicate StatusOk(n: Node) {
    match n.t
    case PutCmd(_, _) => n.slot.cmdStatus == 2
    case ReadFlag(_, _) => n.slot.cmdStatus == 2
    case PutValid(_) => n.slot.cmdStatus == 2
    case WaitLocal(cmd) =>
      if !n.slot.cmdValid || n.v.SendValid? || (n.v.AckValid? && !n.v.remote) then n.slot.cmdStatus == 3
      else if cmd == 0x22 && (n.v.Copy? || n.v.Execute? || n.v.Store? || n.v.SendStatus?) then n.slot.cmdStatus == 0
      else n.slot.cmdStatus == 2
    case _ => true
  }

  lemma StatusThread(s: State, i: nat, act: ThreadAct, k: nat)
    requires Inv(s) && i < |s.nodes| && ThreadCan(s, i, act) && k < |s.nodes| && StatusOk(s.nodes[k])
    ensures StatusOk(Put(s, i, ThreadStep(s.nodes[i], act)).nodes[k])
  {
    assert NodeOk(s, i);
    hide LinkOk, RequestOk, ServerOk;
  }

  lemma StatusOther(s: State, j: nat, result: seq<nat>, k: nat)
    requires Inv(s) && SimCan(s, j) && |result| == ARG_WORDS - ADR_WORDS && k < |s.nodes| && k != j
    requires StatusOk(s.nodes[k])
    ensures k < |SimStep(s, j, result).nodes| && StatusOk(SimStep(s, j, result).nodes[k])
  {
    assert NodeOk(s, j);
    hide LocalOk, RequestOk;
    if s.nodes[j].v.FetchCmd? && s.nodes[j].v.remote {
      RemoteIsPrint(s, j, s.nodes[j].v.ptr);
    }
  }

  lemma StatusOwnRemote(s: State, k: nat, result: seq<nat>)
    requires Inv(s) && SimCan(s, k) && |result| == ARG_WORDS - ADR_WORDS && StatusOk(s.nodes[k])
    requires ServesRemote(s.nodes[k].v)
    ensures k < |SimStep(s, k, result).nodes| && StatusOk(SimStep(s, k, result).nodes[k])
  {
    assert NodeOk(s, k);
    hide LocalOk, ServiceOk, RequestOk;
    if s.nodes[k].v.FetchCmd? {
      RemoteIsPrint(s, k, s.nodes[k].v.ptr);
    }
  }

  lemma StatusOwnLocal(s: State, k: nat, result: seq<nat>)
    requires Inv(s) && SimCan(s, k) && |result| == ARG_WORDS - ADR_WORDS && StatusOk(s.nodes[k])
    requires !ServesRemote(s.nodes[k].v)
    ensures k < |SimStep(s, k, result).nodes| && StatusOk(SimStep(s, k, result).nodes[k])
  {
    assert NodeOk(s, k);
    hide LinkOk, RequestOk, ServerOk;
  }

  lemma {:induction false} RunStatus(run: seq<State>, steps: seq<Step>, m: nat, i: nat)
    requires IsRun(run, steps) && m < |run| && i < |run[m].nodes|
    ensures StatusOk(run[m].nodes[i])
  {
    if m == 0 {
      assert InitNode(run[0].nodes[i]);
    } else {
      var s, step := run[m - 1], steps[m - 1];
      assert Enabled(s, step) && run[m - 1 + 1] == Apply(s, step);
      RunInv(run, steps, m - 1);
      SlotsKept(s, step);
      RunStatus(run, steps, m - 1, i);
      hide IsRun, Inv, StatusOk, SimStep, DaemonStep, ThreadStep, SimCan, DaemonCan;
      match step {
        case ByThread(j, act) => StatusThread(s, j, act, i);
        case BySim(j, result) => 
          if j != i {
            StatusOther(s, j, result, i);
          } else if ServesRemote(s.nodes[i].v) {
            StatusOwnRemote(s, i, result);
          } else {
            StatusOwnLocal(s, i, result);
          }
        case ByDaemon(pick) => StatusDaemon(s, pick, i);
      }
    }
  }

  lemma StatusDaemon(s: State, pick: nat, k: nat)
    requires DaemonCan(s, pick) && k < |s.nodes| && StatusOk(s.nodes[k])
    ensures k < |DaemonStep(s, pick).nodes| && StatusOk(DaemonStep(s, pick).nodes[k])
  {
  }
}
