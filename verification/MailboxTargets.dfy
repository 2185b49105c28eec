/** Remote prints when every requester always asks for the same target. The offset field of a
    slot serves both as "my target" and as "who asks me"; here is exactly which assignments of
    targets that allows. */
module MailboxTargets {
  import opened Common
  import opened Mailbox
  import opened MailboxRuns
  import opened MailboxSafety

  /** What the users of the mailbox do: slot i announces only its own target, and remote
      commands are prints. */
  predicate Keeps(tgt: map<nat, nat>, s: State, i: nat, act: ThreadAct)
    requires i < |s.nodes|
  {
    match act
    case SetRemote(j) => i in tgt && tgt[i] == j
    case Send(cmd) => HasTarget(s.nodes[i].t) ==> cmd == SHIPC_PRINTF
    case _ => true
  }

  predicate MayStep(tgt: map<nat, nat>, s: State, step: Step) {
    Possible(s, step) && (step.ByThread? ==> Keeps(tgt, s, step.i, step.act))
  }

  /** Any interleaving from a fresh start in which the users keep to their targets. */
  ghost predicate IsTargetRun(tgt: map<nat, nat>, run: seq<State>, steps: seq<Step>) {
    && |run| == |steps| + 1 && Init(run[0])
    && (forall k | 0 <= k < |steps| :: MayStep(tgt, run[k], steps[k]) && run[k + 1] == Apply(run[k], steps[k]))
  }

  /** Requesters and targets are among the first n slots. */
  predicate Within(tgt: map<nat, nat>, n: nat) {
    forall i | i in tgt :: i < n && tgt[i] < n
  }

  /** A target that is a requester itself asks for its own requester. */
  predicate Compatible(tgt: map<nat, nat>) {
    forall k, i | k in tgt && i in tgt && k != i && tgt[k] == i :: tgt[i] == k
  }

  ghost predicate AlwaysDelivered(tgt: map<nat, nat>, n: nat) {
    forall run: seq<State>, steps: seq<Step>, k: nat, i: nat |
      IsTargetRun(tgt, run, steps) && |run[0].nodes| == n && k < |run| && i < |run[k].nodes| ::
      DeliveredOnce(run[k].nodes[i])
  }

  // ---------------------------------------------------------------- sufficient

  /** Every announced target is the slot's own. */
  predicate Follows(tgt: map<nat, nat>, s: State) {
    forall i | 0 <= i < |s.nodes| && HasTarget(s.nodes[i].t) :: i in tgt && TargetOf(s.nodes[i].t) == tgt[i]
  }

  lemma StepRespects(tgt: map<nat, nat>, s: State, step: Step)
    requires Within(tgt, |s.nodes|) && Compatible(tgt) && Follows(tgt, s) && MayStep(tgt, s, step)
    ensures Enabled(s, step)
  {
    if step.ByThread? && step.act.SetRemote? {
      assert MayTarget(s, step.i, tgt[step.i]);
    }
  }

  lemma ThreadFollows(tgt: map<nat, nat>, s: State, i: nat, act: ThreadAct)
    requires Follows(tgt, s) && MayStep(tgt, s, ByThread(i, act))
    requires s.nodes[i].t.ReadFlag? && s.nodes[i].slot.remoteFlag ==> s.nodes[i].t.remote.Some?
    ensures var t := ThreadStep(s.nodes[i], act).t; HasTarget(t) ==> i in tgt && TargetOf(t) == tgt[i]
  {
    assert HasTarget(s.nodes[i].t) ==> i in tgt && TargetOf(s.nodes[i].t) == tgt[i];
    hide Follows, JobOf;
  }

  lemma SimKeepsThreads(s: State, j: nat, result: seq<nat>)
    requires SimCan(s, j) && |result| == ARG_WORDS - ADR_WORDS
    ensures var s' := SimStep(s, j, result);
            |s'.nodes| == |s.nodes| && forall i | 0 <= i < |s.nodes| :: s'.nodes[i].t == s.nodes[i].t
  {
  }

  lemma DaemonKeepsThreads(s: State, pick: nat)
    requires DaemonCan(s, pick)
    ensures var s' := DaemonStep(s, pick);
            |s'.nodes| == |s.nodes| && forall i | 0 <= i < |s.nodes| :: s'.nodes[i].t == s.nodes[i].t
  {
  }

  lemma StepFollows(tgt: map<nat, nat>, s: State, step: Step)
    requires Inv(s) && Follows(tgt, s) && MayStep(tgt, s, step)
    ensures Follows(tgt, Apply(s, step)) && |Apply(s, step).nodes| == |s.nodes|
  {
    hide SimStep, DaemonStep, ThreadStep;
    match step {
      case ByThread(i, act) =>
        if s.nodes[i].t.ReadFlag? && s.nodes[i].slot.remoteFlag {
          FlagHasTarget(s, i, s.nodes[i].t.cmd, s.nodes[i].t.remote);
        }
        hide Inv;
        ThreadFollows(tgt, s, i, act);
      case BySim(j, result) => SimKeepsThreads(s, j, result);
      case ByDaemon(pick) => DaemonKeepsThreads(s, pick);
    }
  }

  /** With compatible targets every such run is a run of the mailbox. */
  lemma {:induction false} TargetRunIsRun(tgt: map<nat, nat>, run: seq<State>, steps: seq<Step>, k: nat)
    requires IsTargetRun(tgt, run, steps) && k < |run| && Within(tgt, |run[0].nodes|) && Compatible(tgt)
    ensures IsRun(run[..k + 1], steps[..k]) && Follows(tgt, run[k]) && |run[k].nodes| == |run[0].nodes|
  {
    hide Inv, Apply, Possible, Enabled, Within, Compatible;
    if k == 0 {
      NoTargets(tgt, run[0]);
    } else {
      TargetRunIsRun(tgt, run, steps, k - 1);
      var past, done := run[..k], steps[..k - 1];
      RunInv(past, done, k - 1);
      assert MayStep(tgt, run[k - 1], steps[k - 1]) && run[k - 1 + 1] == Apply(run[k - 1], steps[k - 1]);
      StepRespects(tgt, run[k - 1], steps[k - 1]);
      StepFollows(tgt, run[k - 1], steps[k - 1]);
      hide IsTargetRun, MayStep, Follows;
      RunGrows(past, done, steps[k - 1]);
      assert run[..k + 1] == past + [run[k]] && steps[..k] == done + [steps[k - 1]];
    }
  }

  lemma NoTargets(tgt: map<nat, nat>, s: State)
    requires Init(s)
    ensures Follows(tgt, s) && IsRun([s], [])
  {
    forall i | 0 <= i < |s.nodes| ensures !HasTarget(s.nodes[i].t) {
      assert InitNode(s.nodes[i]);
    }
  }

  // ---------------------------------------------------------------- necessary

  ghost predicate Reachable(tgt: map<nat, nat>, t: State) {
    exists run: seq<State>, steps: seq<Step> :: IsTargetRun(tgt, run, steps) && run[|steps|] == t
  }

  lemma Then(tgt: map<nat, nat>, t: State, step: Step)
    requires Reachable(tgt, t) && MayStep(tgt, t, step)
    ensures Reachable(tgt, Apply(t, step))
  {
    hide Apply, Init, Possible, Keeps;
    var run: seq<State>, steps: seq<Step> :| IsTargetRun(tgt, run, steps) && run[|steps|] == t;
    var run', steps' := run + [Apply(t, step)], steps + [step];
    assert IsTargetRun(tgt, run', steps') && run'[|steps'|] == Apply(t, step);
  }

  /** A thread goes on by itself. */
  lemma GoOn(tgt: map<nat, nat>, t: State, i: nat, n: Node)
    requires Reachable(tgt, t) && i < |t.nodes| && !t.nodes[i].t.User? && n == ThreadStep(t.nodes[i], Go)
    ensures Reachable(tgt, Put(t, i, n))
  {
    hide Reachable, ThreadStep;
    Then(tgt, t, ByThread(i, Go));
  }

  lemma PutPut(t: State, i: nat, a: Node, b: Node)
    requires i < |t.nodes|
    ensures Put(Put(t, i, a), i, b) == Put(t, i, b)
  {
    assert t.nodes[i := a][i := b] == t.nodes[i := b];
  }

  lemma GoAgain(tgt: map<nat, nat>, t: State, i: nat, m: Node, n: Node)
    requires i < |t.nodes| && Reachable(tgt, Put(t, i, m)) && !m.t.User? && n == ThreadStep(m, Go)
    ensures Reachable(tgt, Put(t, i, n))
  {
    hide Reachable, ThreadStep;
    GoOn(tgt, Put(t, i, m), i, n);
    PutPut(t, i, m, n);
  }

  function Announced(n: Node, j: nat): Node {
    n.(slot := n.slot.(remoteOffset := j, remoteFlag := true), t := User(Some(j)))
  }

  /** A thread announces its target. */
  lemma Announce(tgt: map<nat, nat>, t: State, i: nat)
    requires Reachable(tgt, t) && i < |t.nodes| && i in tgt && tgt[i] < |t.nodes| && t.nodes[i].t.User?
    ensures Reachable(tgt, Put(t, i, Announced(t.nodes[i], tgt[i])))
  {
    var n := t.nodes[i];
    var m := n.(slot := n.slot.(remoteOffset := tgt[i]), t := FlagNext(tgt[i]));
    hide Reachable;
    Then(tgt, t, ByThread(i, SetRemote(tgt[i])));
    assert Apply(t, ByThread(i, SetRemote(tgt[i]))) == Put(t, i, m);
    GoAgain(tgt, t, i, m, Announced(n, tgt[i]));
  }

  /** A requester that waits with its request up. */
  function Requesting(n: Node, j: nat): Node {
    n.(slot := n.slot.(cmdStatus := STATUS_PENDING, cmd := SHIPC_PRINTF, cmdValid := false, remoteFlag := true,
                       remoteCmdValid := true),
       t := WaitRemoteValid(j), h := n.h.(sent := n.h.sent + [Msg(j, n.slot.str)]))
  }

  /** A thread that has announced target j sends its print. */
  lemma SendPrint(tgt: map<nat, nat>, t: State, i: nat, j: nat)
    requires Reachable(tgt, t) && i < |t.nodes|
    requires t.nodes[i].t == User(Some(j)) && t.nodes[i].slot.remoteFlag
    ensures Reachable(tgt, Put(t, i, Requesting(t.nodes[i], j)))
  {
    hide Reachable;
    var n := t.nodes[i];
    var n0 := n.(slot := n.slot.(cmdStatus := STATUS_PENDING), t := PutCmd(SHIPC_PRINTF, Some(j)));
    Then(tgt, t, ByThread(i, Send(SHIPC_PRINTF)));
    assert Apply(t, ByThread(i, Send(SHIPC_PRINTF))) == Put(t, i, n0);
    RaisePrint(tgt, t, i, n0, j);
    assert Requesting(n0, j) == Requesting(n, j);
  }

  lemma RaisePrint(tgt: map<nat, nat>, t: State, i: nat, n: Node, j: nat)
    requires i < |t.nodes| && Reachable(tgt, Put(t, i, n))
    requires n.t == PutCmd(SHIPC_PRINTF, Some(j)) && n.slot.remoteFlag && n.slot.cmdStatus == STATUS_PENDING
    ensures Reachable(tgt, Put(t, i, Requesting(n, j)))
  {
    hide Reachable, Put;
    var n1 := n.(slot := n.slot.(cmd := SHIPC_PRINTF), t := ReadFlag(SHIPC_PRINTF, Some(j)));
    GoAgain(tgt, t, i, n, n1);
    var n2 := n1.(t := ClearValid(j));
    GoAgain(tgt, t, i, n1, n2);
    var n3 := n2.(slot := n2.slot.(cmdValid := false), t := RaiseFlag(j));
    GoAgain(tgt, t, i, n2, n3);
    var n4 := n3.(t := PutRemoteValid(j));
    GoAgain(tgt, t, i, n3, n4);
    GoAgain(tgt, t, i, n4, Requesting(n, j));
  }

  lemma DaemonOn(tgt: map<nat, nat>, t: State, t': State, pick: nat)
    requires Reachable(tgt, t) && DaemonCan(t, pick) && t' == DaemonStep(t, pick)
    ensures Reachable(tgt, t')
  {
    hide Reachable;
    Then(tgt, t, ByDaemon(pick));
  }

  function Asked(n: Node, i: nat): Node {
    n.(slot := n.slot.(remoteOffset := i, remoteReq := true))
  }

  function Passed(n: Node): Node {
    n.(slot := n.slot.(remoteFlag := false))
  }

  /** The daemon passes on the request of slot i to the slot its offset field names. */
  lemma PassOn(tgt: map<nat, nat>, t: State, i: nat, j: nat)
    requires Reachable(tgt, t) && t.d == Scan && i < |t.nodes| && j < |t.nodes| && i != j
    requires t.nodes[i].slot.remoteFlag && t.nodes[i].slot.remoteCmdValid && t.nodes[i].slot.remoteOffset == j
    requires !t.nodes[j].slot.remoteReq
    ensures Reachable(tgt, Put(Put(t, j, Asked(t.nodes[j], i)), i, Passed(t.nodes[i])))
  {
    hide Reachable;
    DaemonOn(tgt, t, t.(d := CheckValid(i)), i);
    DaemonOn(tgt, t.(d := CheckValid(i)), t.(d := FetchTarget(i)), i);
    DaemonOn(tgt, t.(d := FetchTarget(i)), t.(d := CheckReq(i, j)), i);
    DaemonOn(tgt, t.(d := CheckReq(i, j)), t.(d := PutOffset(i, j)), i);
    PassOnWrites(tgt, t, i, j);
  }

  lemma PassOnWrites(tgt: map<nat, nat>, t: State, i: nat, j: nat)
    requires i < |t.nodes| && j < |t.nodes| && i != j && t.d == Scan && Reachable(tgt, t.(d := PutOffset(i, j)))
    ensures Reachable(tgt, Put(Put(t, j, Asked(t.nodes[j], i)), i, Passed(t.nodes[i])))
  {
    hide Reachable;
    var m := t.nodes[j];
    var u := Put(t, j, m.(slot := m.slot.(remoteOffset := i)));
    DaemonOn(tgt, t.(d := PutOffset(i, j)), u.(d := PutReq(i, j)), i);
    var w := Put(t, j, Asked(m, i));
    PutPut(t, j, u.nodes[j], Asked(m, i));
    DaemonOn(tgt, u.(d := PutReq(i, j)), w.(d := ClearFlag(i, j)), i);
    DaemonOn(tgt, w.(d := ClearFlag(i, j)), Put(w, i, Passed(t.nodes[i])), i);
  }

  lemma SimOn(tgt: map<nat, nat>, t: State, t': State, j: nat)
    requires Reachable(tgt, t) && SimCan(t, j) && !t.nodes[j].v.Execute?
    requires t' == SimStep(t, j, seq(ARG_WORDS - ADR_WORDS, _ => 0))
    ensures Reachable(tgt, t')
  {
    hide Reachable, SimStep;
    Then(tgt, t, BySim(j, seq(ARG_WORDS - ADR_WORDS, _ => 0)));
  }

  lemma GotoGoto(t: State, j: nat, v: Sim, w: Sim)
    requires j < |t.nodes|
    ensures Goto(Goto(t, j, v), j, w) == Goto(t, j, w)
  {
    PutPut(t, j, t.nodes[j].(v := v), t.nodes[j].(v := w));
  }

  /** A resting simulator process with a raised request of slot i prints it. */
  lemma Deliver(tgt: map<nat, nat>, t: State, j: nat, i: nat)
    requires Reachable(tgt, t) && i < |t.nodes| && j < |t.nodes| && i != j
    requires t.nodes[j].v == Poll && t.nodes[j].slot.remoteReq && t.nodes[j].slot.remoteOffset == i
    requires t.nodes[i].slot.cmd == SHIPC_PRINTF
    ensures Reachable(tgt, StringShown(Goto(t, j, PrintStr(i, true)), j, i, true))
  {
    hide Reachable, Put, StringShown;
    var local := t.nodes[j].slot.cmdValid;
    GotoNode(t, j, PollRemote(local));
    SimOn(tgt, t, Goto(t, j, PollRemote(local)), j);
    GotoGoto(t, j, PollRemote(local), FetchOffset);
    GotoNode(t, j, FetchOffset);
    SimOn(tgt, Goto(t, j, PollRemote(local)), Goto(t, j, FetchOffset), j);
    GotoGoto(t, j, FetchOffset, FetchCmd(i, true));
    GotoNode(t, j, FetchCmd(i, true));
    SimOn(tgt, Goto(t, j, FetchOffset), Goto(t, j, FetchCmd(i, true)), j);
    GotoGoto(t, j, FetchCmd(i, true), PrintStr(i, true));
    GotoNode(t, j, PrintStr(i, true));
    SimOn(tgt, Goto(t, j, FetchCmd(i, true)), Goto(t, j, PrintStr(i, true)), j);
    SimOn(tgt, Goto(t, j, PrintStr(i, true)), StringShown(Goto(t, j, PrintStr(i, true)), j, i, true), j);
  }

  lemma GotoNode(t: State, j: nat, v: Sim)
    requires j < |t.nodes|
    ensures var u := Goto(t, j, v);
            |u.nodes| == |t.nodes| && u.nodes[j] == t.nodes[j].(v := v)
            && forall i | 0 <= i < |t.nodes| && i != j :: u.nodes[i] == t.nodes[i]
  {
  }

  /** The slot, thread and simulator process of a fresh start. */
  function FreshNode(): Node {
    Node(Slot(false, 0, 0, seq(ARG_WORDS, _ => 0), "", false, false, false, 0), User(None), Poll,
         History([], [], [], [], seq(ARG_WORDS, _ => 0)))
  }

  /** A fresh start but for slots k and i. */
  function Two(n: nat, k: nat, i: nat, a: Node, b: Node): State
    requires k < n && i < n
  {
    State(seq(n, _ => FreshNode())[k := a][i := b], Scan)
  }

  lemma PutFirst(n: nat, k: nat, i: nat, a: Node, b: Node, a': Node)
    requires k < n && i < n && k != i
    ensures Put(Two(n, k, i, a, b), k, a') == Two(n, k, i, a', b)
  {
    var s := seq(n, _ => FreshNode());
    assert s[k := a][i := b][k := a'] == s[k := a'][i := b];
  }

  lemma PutSecond(n: nat, k: nat, i: nat, a: Node, b: Node, b': Node)
    requires k < n && i < n && k != i
    ensures Put(Two(n, k, i, a, b), i, b') == Two(n, k, i, a, b')
  {
    var s := seq(n, _ => FreshNode());
    assert s[k := a][i := b][i := b'] == s[k := a][i := b'];
  }

  lemma StartTwo(tgt: map<nat, nat>, n: nat, k: nat, i: nat)
    requires k < n && i < n
    ensures Reachable(tgt, Two(n, k, i, FreshNode(), FreshNode()))
  {
    var s := Two(n, k, i, FreshNode(), FreshNode());
    var none: seq<Step> := [];
    assert IsTargetRun(tgt, [s], none) && [s][|none|] == s;
  }

  /** If slot k asks for i while i asks for somebody else, possibly itself, then a run from a
      fresh start lets the process of slot k print what slot i addressed to its target. */
  lemma Misdelivered(tgt: map<nat, nat>, n: nat, k: nat, i: nat) returns (t: State)
    requires Within(tgt, n) && k in tgt && i in tgt && k != i && tgt[k] == i && tgt[i] != k
    ensures Reachable(tgt, t) && |t.nodes| == n
    ensures t.nodes[i].h.sent == [Msg(tgt[i], "")] && t.nodes[i].h.delivered == [Msg(k, "")]
  {
    hide Reachable;
    var f, j := FreshNode(), tgt[i];
    StartTwo(tgt, n, k, i);
    var a1 := Announced(f, i);
    Announce(tgt, Two(n, k, i, f, f), k);
    PutFirst(n, k, i, f, f, a1);
    var a2 := Requesting(a1, i);
    SendPrint(tgt, Two(n, k, i, a1, f), k, i);
    PutFirst(n, k, i, a1, f, a2);
    var b1 := Announced(f, j);
    Announce(tgt, Two(n, k, i, a2, f), i);
    PutSecond(n, k, i, a2, f, b1);
    var a3, b2 := Passed(a2), Asked(b1, k);
    PassOn(tgt, Two(n, k, i, a2, b1), k, i);
    PutSecond(n, k, i, a2, b1, b2);
    PutFirst(n, k, i, a2, b2, a3);
    var b3 := Requesting(b2, j);
    SendPrint(tgt, Two(n, k, i, a3, b2), i, j);
    PutSecond(n, k, i, a3, b2, b3);
    var a4, b4 := Asked(a3, i), Passed(b3);
    PassOn(tgt, Two(n, k, i, a3, b3), i, k);
    PutFirst(n, k, i, a3, b3, a4);
    PutSecond(n, k, i, a4, b3, b4);
    Deliver(tgt, Two(n, k, i, a4, b4), k, i);
    t := StringShown(Goto(Two(n, k, i, a4, b4), k, PrintStr(i, true)), k, i, true);
    assert b3.h.sent == [Msg(j, "")] && b4.h.delivered == [];
  }

  // ---------------------------------------------------------------- exactly

  /** In every run every remote print is delivered once and by its target, if and only if the
      targets are compatible. */
  lemma DeliveredExactly(tgt: map<nat, nat>, n: nat)
    requires Within(tgt, n)
    ensures AlwaysDelivered(tgt, n) <==> Compatible(tgt)
  {
    if Compatible(tgt) {
      forall run: seq<State>, steps: seq<Step>, k: nat, i: nat |
        IsTargetRun(tgt, run, steps) && |run[0].nodes| == n && k < |run| && i < |run[k].nodes|
        ensures DeliveredOnce(run[k].nodes[i])
      {
        TargetRunIsRun(tgt, run, steps, k);
        hide *;
        RemoteExactlyOnce(run[..k + 1], steps[..k], k, i);
      }
    } else {
      var k, i :| k in tgt && i in tgt && k != i && tgt[k] == i && tgt[i] != k;
      var t := Misdelivered(tgt, n, k, i);
      NotDelivered(tgt, n, t, i);
    }
  }

  lemma NotDelivered(tgt: map<nat, nat>, n: nat, t: State, i: nat)
    requires Reachable(tgt, t) && |t.nodes| == n && i < n && !DeliveredOnce(t.nodes[i])
    ensures !AlwaysDelivered(tgt, n)
  {
    var run: seq<State>, steps: seq<Step> :| IsTargetRun(tgt, run, steps) && run[|steps|] == t;
    SlotsStay(tgt, run, steps, |steps|);
    assert !DeliveredOnce(run[|steps|].nodes[i]);
  }

  lemma {:induction false} SlotsStay(tgt: map<nat, nat>, run: seq<State>, steps: seq<Step>, k: nat)
    requires IsTargetRun(tgt, run, steps) && k < |run|
    ensures |run[k].nodes| == |run[0].nodes|
  {
    if k > 0 {
      SlotsStay(tgt, run, steps, k - 1);
      assert run[k - 1 + 1] == Apply(run[k - 1], steps[k - 1]);
    }
  }
}
