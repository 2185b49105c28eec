/** What every interleaving of the mailbox keeps: who owns a slot's arguments, that each local
    command is executed exactly once as written and each remote print is delivered exactly once
    to its target, and what a thread finds when it leaves SendCmdNwait. */
module MailboxSafety {
  import opened Common
  import opened Mailbox

  predicate Waiting(t: Thread) {
    t.WaitRemoteValid? || t.WaitRemoteFlag?
  }

  /** The simulator process is carrying out a local command. */
  predicate ServesLocal(v: Sim) {
    match v
    case FetchCmd(_, remote) => !remote
    case PrintStr(_, remote) => !remote
    case AckStatus(_, remote) => !remote
    case AckValid(_, remote) => !remote
    case Copy(_, _, _) => true
    case Execute(_, _) => true
    case Store(_, _) => true
    case SendStatus => true
    case SendValid => true
    case _ => false
  }

  /** The simulator process is carrying out a request of another slot. */
  predicate ServesRemote(v: Sim) {
    match v
    case FetchOffset => true
    case FetchCmd(_, remote) => remote
    case PrintStr(_, remote) => remote
    case AckStatus(_, remote) => remote
    case AckValid(_, remote) => remote
    case AckReq => true
    case _ => false
  }

  /** The local command has been carried out but not acknowledged. */
  predicate Executed(v: Sim) {
    match v
    case AckStatus(_, remote) => !remote
    case AckValid(_, remote) => !remote
    case Store(_, _) => true
    case SendStatus => true
    case SendValid => true
    case _ => false
  }

  /** Slot i's request has been printed by the process of its target but not acknowledged. */
  predicate Printed(v: Sim, i: nat) {
    v == AckStatus(i, true) || v == AckValid(i, true)
  }

  /** Everything but the newest entry. */
  predicate MissesLast<T(==)>(done: seq<T>, all: seq<T>) {
    all != [] && done == all[..|all| - 1]
  }

  // ---------------------------------------------------------------- invariant, one slot

  /** The local handshake of a slot. */
  predicate LocalOk(n: Node, j: nat) {
    && |n.slot.args| == ARG_WORDS && |n.h.answer| == ARG_WORDS
    && (n.slot.cmdValid ==> n.t.WaitLocal?)
    && (ServesLocal(n.v) || n.v == PollRemote(true) ==> n.slot.cmdValid)
    && (n.t.WaitLocal? ==> n.slot.cmd == n.t.cmd && n.h.issued != [])
    && (n.t.PutValid? ==> n.slot.cmd == n.t.cmd)
    && (if n.slot.cmdValid && !Executed(n.v) then
          MissesLast(n.h.executed, n.h.issued) && n.h.issued[|n.h.issued| - 1] == JobOf(n.slot)
        else n.h.executed == n.h.issued)
    && (n.t.WaitLocal? && !n.slot.cmdValid ==>
          n.slot.cmdStatus == STATUS_SUCCESS && (n.slot.cmd != SHIPC_PRINTF ==> n.slot.args == n.h.answer))
  }

  /** The progress of the simulator process through a local command. */
  predicate ServiceOk(n: Node, j: nat) {
    match n.v
    case FetchCmd(ptr, remote) => !remote ==> ptr == j
    case PrintStr(ptr, remote) => !remote ==> ptr == j && n.slot.cmd == SHIPC_PRINTF
    case AckStatus(ptr, remote) => !remote ==> ptr == j && n.slot.cmd == SHIPC_PRINTF
    case AckValid(ptr, remote) =>
      !remote ==> ptr == j && n.slot.cmd == SHIPC_PRINTF && n.slot.cmdStatus == STATUS_SUCCESS
    case Copy(ptr, cmd, box) =>
      ptr == j && cmd == n.slot.cmd != SHIPC_PRINTF && |box| <= |n.slot.args| && box == n.slot.args[..|box|]
    case Execute(cmd, box) => cmd == n.slot.cmd != SHIPC_PRINTF && box == n.slot.args
    case Store(box, k) =>
      && n.slot.cmd != SHIPC_PRINTF && box == n.h.answer && ADR_WORDS + k <= |box| == |n.slot.args|
      && n.slot.args[..ADR_WORDS + k] == box[..ADR_WORDS + k]
    case SendStatus => n.slot.cmd != SHIPC_PRINTF && n.slot.args == n.h.answer
    case SendValid =>
      n.slot.cmd != SHIPC_PRINTF && n.slot.args == n.h.answer && n.slot.cmdStatus == STATUS_SUCCESS
    case _ => true
  }

  /** The requester's side of the remote handshake. */
  predicate RequestOk(n: Node) {
    && (n.slot.remoteCmdValid ==> n.t.WaitRemoteValid?)
    && (HasTarget(n.t) ==> n.slot.remoteOffset == TargetOf(n.t))
    && (Waiting(n.t) || n.t.FlagNext? || (n.slot.remoteFlag <==> HasTarget(n.t)))
    && (match n.t
        case PutCmd(cmd, r) => r.Some? ==> cmd == SHIPC_PRINTF
        case ReadFlag(cmd, r) => n.slot.cmd == cmd && (r.Some? ==> cmd == SHIPC_PRINTF)
        case User(_) => true
        case FlagNext(_) => true
        case PutValid(_) => true
        case WaitLocal(_) => true
        case _ => n.slot.cmd == SHIPC_PRINTF)
    && (Waiting(n.t) ==>
          && n.h.sent != [] && n.h.sent[|n.h.sent| - 1] == Msg(TargetOf(n.t), n.slot.str)
          && (!n.slot.remoteCmdValid ==> n.slot.cmdStatus == STATUS_SUCCESS))
    && (!n.slot.remoteCmdValid ==> n.h.delivered == n.h.sent)
  }

  // ---------------------------------------------------------------- invariant, between slots

  /** Targets are slots, and a target that is a requester asks for its own requester. */
  predicate TargetOk(s: State, i: nat)
    requires i < |s.nodes|
  {
    HasTarget(s.nodes[i].t) ==>
      var j := TargetOf(s.nodes[i].t);
      j < |s.nodes| && (HasTarget(s.nodes[j].t) ==> TargetOf(s.nodes[j].t) == i)
  }

  /** The daemon has taken up slot i's request but not yet passed it on. */
  predicate Claimed(d: Daemon, i: nat) {
    (d.PutOffset? || d.PutReq?) && d.i == i
  }

  /** A pending request of slot i is either still up for the daemon, or has reached its target
      and is undelivered exactly until that target's process has printed it. */
  predicate PendingOk(s: State, i: nat)
    requires i < |s.nodes| && TargetOk(s, i)
  {
    var n := s.nodes[i];
    n.slot.remoteCmdValid && Waiting(n.t) ==>
      var j := TargetOf(n.t);
      var target := s.nodes[j];
      && (if Printed(target.v, i) then n.h.delivered == n.h.sent else MissesLast(n.h.delivered, n.h.sent))
      && (!n.slot.remoteFlag || s.d == ClearFlag(i, j) ==>
            target.slot.remoteReq && target.slot.remoteOffset == i && target.v != AckReq)
  }

  /** A raised request names a waiting slot that has chosen this target; it is passed on once. */
  predicate RaisedOk(s: State, j: nat)
    requires j < |s.nodes|
  {
    var n := s.nodes[j];
    n.slot.remoteReq && n.v != AckReq ==>
      var i := n.slot.remoteOffset;
      && i < |s.nodes| && Waiting(s.nodes[i].t) && TargetOf(s.nodes[i].t) == j
      && s.nodes[i].slot.remoteCmdValid
      && (s.nodes[i].slot.remoteFlag ==> s.d == ClearFlag(i, j))
  }

  /** A process that serves a request serves the raised one. */
  predicate ServerOk(n: Node) {
    && (ServesRemote(n.v) ==> n.slot.remoteReq)
    && match n.v
       case FetchCmd(ptr, remote) => remote ==> ptr == n.slot.remoteOffset
       case PrintStr(ptr, remote) => remote ==> ptr == n.slot.remoteOffset
       case AckStatus(ptr, remote) => remote ==> ptr == n.slot.remoteOffset
       case AckValid(ptr, remote) => remote ==> ptr == n.slot.remoteOffset
       case _ => true
  }

  /** The status of the requester between the two acknowledging writes. */
  predicate AckOk(s: State, j: nat)
    requires j < |s.nodes|
  {
    var v := s.nodes[j].v;
    v.AckValid? && v.remote ==>
      v.ptr < |s.nodes| && s.nodes[v.ptr].slot.cmdStatus == STATUS_SUCCESS
  }

  /** A flag that is still up after the acknowledgement is about to be cleared. */
  predicate FlagOk(s: State, i: nat)
    requires i < |s.nodes|
  {
    var n := s.nodes[i];
    Waiting(n.t) && n.slot.remoteFlag && !n.slot.remoteCmdValid ==> s.d == ClearFlag(i, TargetOf(n.t))
  }

  /** What the daemon has read is still so. */
  predicate DaemonOk(s: State) {
    match s.d
    case Scan => true
    case CheckValid(i) => i < |s.nodes| && s.nodes[i].slot.remoteFlag
    case FetchTarget(i) => i < |s.nodes| && Pending(s, i)
    case CheckReq(i, j) => i < |s.nodes| && Pending(s, i) && TargetOf(s.nodes[i].t) == j && j < |s.nodes|
    case PutOffset(i, j) =>
      && i < |s.nodes| && Pending(s, i) && TargetOf(s.nodes[i].t) == j && j < |s.nodes|
      && !s.nodes[j].slot.remoteReq
    case PutReq(i, j) =>
      && i < |s.nodes| && Pending(s, i) && TargetOf(s.nodes[i].t) == j && j < |s.nodes|
      && !s.nodes[j].slot.remoteReq && s.nodes[j].slot.remoteOffset == i
    case ClearFlag(i, j) =>
      && i < |s.nodes| && Waiting(s.nodes[i].t) && TargetOf(s.nodes[i].t) == j && j < |s.nodes|
      && s.nodes[i].slot.remoteFlag
  }

  predicate Pending(s: State, i: nat)
    requires i < |s.nodes|
  {
    Waiting(s.nodes[i].t) && s.nodes[i].slot.remoteFlag && s.nodes[i].slot.remoteCmdValid
  }

  predicate NodeOk(s: State, i: nat)
    requires i < |s.nodes|
  {
    OwnOk(s.nodes[i], i) && LinkOk(s, i)
  }

  predicate OwnOk(n: Node, i: nat) {
    LocalOk(n, i) && ServiceOk(n, i) && RequestOk(n) && ServerOk(n)
  }

  predicate LinkOk(s: State, i: nat)
    requires i < |s.nodes|
  {
    TargetOk(s, i) && PendingOk(s, i) && RaisedOk(s, i) && AckOk(s, i) && FlagOk(s, i)
  }

  ghost predicate Inv(s: State) {
    DaemonOk(s) && (forall i | 0 <= i < |s.nodes| :: NodeOk(s, i))
  }

  lemma InitInv(s: State)
    requires Init(s)
    ensures Inv(s)
  {
    forall i | 0 <= i < |s.nodes|
      ensures NodeOk(s, i)
    {
      assert InitNode(s.nodes[i]);
    }
  }

  // ---------------------------------------------------------------- thread steps

  lemma ThreadWriteArg(s: State, i: nat, w: nat, x: nat)
    requires Inv(s) && i < |s.nodes| && s.nodes[i].t.User? && w < |s.nodes[i].slot.args|
    ensures Inv(Put(s, i, s.nodes[i].(slot := s.nodes[i].slot.(args := s.nodes[i].slot.args[w := x]))))
  {
    var s' := Put(s, i, s.nodes[i].(slot := s.nodes[i].slot.(args := s.nodes[i].slot.args[w := x])));
    assert NodeOk(s, i);
    forall k | 0 <= k < |s'.nodes|
      ensures NodeOk(s', k)
    {
      assert NodeOk(s, k);
      if k != i {
        hide LocalOk, ServiceOk, ServerOk;
      }
    }
  }

  lemma ThreadWriteStr(s: State, i: nat, str: string)
    requires Inv(s) && i < |s.nodes| && s.nodes[i].t.User?
    ensures Inv(Put(s, i, s.nodes[i].(slot := s.nodes[i].slot.(str := str))))
  {
    var s' := Put(s, i, s.nodes[i].(slot := s.nodes[i].slot.(str := str)));
    assert NodeOk(s, i);
    forall k | 0 <= k < |s'.nodes|
      ensures NodeOk(s', k)
    {
      assert NodeOk(s, k);
      if k != i {
        hide LocalOk, ServiceOk, ServerOk;
      }
    }
  }

  lemma ThreadSetRemoteOwn(s: State, i: nat, j: nat)
    requires Inv(s) && i < |s.nodes| && s.nodes[i].t.User? && MayTarget(s, i, j)
    ensures OwnOk(Put(s, i, s.nodes[i].(slot := s.nodes[i].slot.(remoteOffset := j), t := FlagNext(j))).nodes[i], i)
  {
    assert NodeOk(s, i);
    hide TargetOk, PendingOk, AckOk;
  }

  lemma ThreadSetRemotePending(s: State, i: nat, j: nat, k: nat)
    requires Inv(s) && i < |s.nodes| && s.nodes[i].t.User? && MayTarget(s, i, j)
    requires k < |s.nodes|
    ensures var s' := Put(s, i, s.nodes[i].(slot := s.nodes[i].slot.(remoteOffset := j), t := FlagNext(j)));
            TargetOk(s', k) && PendingOk(s', k)
  {
    assert NodeOk(s, i);
    assert NodeOk(s, k);
    hide LocalOk, ServiceOk;
  }

  lemma ThreadSetRemoteRaised(s: State, i: nat, j: nat, k: nat)
    requires Inv(s) && i < |s.nodes| && s.nodes[i].t.User? && MayTarget(s, i, j)
    requires k < |s.nodes|
    ensures var s' := Put(s, i, s.nodes[i].(slot := s.nodes[i].slot.(remoteOffset := j), t := FlagNext(j)));
            RaisedOk(s', k) && AckOk(s', k) && FlagOk(s', k)
  {
    assert NodeOk(s, i);
    assert NodeOk(s, k);
    hide LocalOk, ServiceOk;
  }

  lemma ThreadSetRemote(s: State, i: nat, j: nat)
    requires Inv(s) && i < |s.nodes| && s.nodes[i].t.User? && MayTarget(s, i, j)
    ensures Inv(Put(s, i, s.nodes[i].(slot := s.nodes[i].slot.(remoteOffset := j), t := FlagNext(j))))
  {
    var s' := Put(s, i, s.nodes[i].(slot := s.nodes[i].slot.(remoteOffset := j), t := FlagNext(j)));
    assert NodeOk(s, i);
    ThreadSetRemoteOwn(s, i, j);
    forall k | 0 <= k < |s'.nodes|
      ensures NodeOk(s', k)
    {
      assert NodeOk(s, k);
      ThreadSetRemotePending(s, i, j, k);
      ThreadSetRemoteRaised(s, i, j, k);
      hide OwnOk, TargetOk, PendingOk, RaisedOk, AckOk, FlagOk;
    }
  }

  lemma ThreadSend(s: State, i: nat, cmd: nat)
    requires Inv(s) && i < |s.nodes| && s.nodes[i].t.User? && (HasTarget(s.nodes[i].t) ==> cmd == SHIPC_PRINTF)
    ensures Inv(Put(s, i, s.nodes[i].(slot := s.nodes[i].slot.(cmdStatus := STATUS_PENDING),
                    t := PutCmd(cmd, s.nodes[i].t.remote))))
  {
    var s' := Put(s, i, s.nodes[i].(slot := s.nodes[i].slot.(cmdStatus := STATUS_PENDING),
                    t := PutCmd(cmd, s.nodes[i].t.remote)));
    assert NodeOk(s, i);
    forall k | 0 <= k < |s'.nodes|
      ensures NodeOk(s', k)
    {
      assert NodeOk(s, k);
      if k != i {
        hide LocalOk, ServiceOk, ServerOk;
      }
    }
  }

  lemma ThreadFlagNext(s: State, i: nat, j: nat)
    requires Inv(s) && i < |s.nodes| && s.nodes[i].t == FlagNext(j)
    ensures Inv(Put(s, i, s.nodes[i].(slot := s.nodes[i].slot.(remoteFlag := true), t := User(Some(j)))))
  {
    var s' := Put(s, i, s.nodes[i].(slot := s.nodes[i].slot.(remoteFlag := true), t := User(Some(j))));
    assert NodeOk(s, i);
    forall k | 0 <= k < |s'.nodes|
      ensures NodeOk(s', k)
    {
      assert NodeOk(s, k);
      if k != i {
        hide LocalOk, ServiceOk, ServerOk;
      }
    }
  }

  lemma ThreadPutCmd(s: State, i: nat, cmd: nat, r: Option<nat>)
    requires Inv(s) && i < |s.nodes| && s.nodes[i].t == PutCmd(cmd, r)
    ensures Inv(Put(s, i, s.nodes[i].(slot := s.nodes[i].slot.(cmd := cmd), t := ReadFlag(cmd, r))))
  {
    var s' := Put(s, i, s.nodes[i].(slot := s.nodes[i].slot.(cmd := cmd), t := ReadFlag(cmd, r)));
    assert NodeOk(s, i);
    forall k | 0 <= k < |s'.nodes|
      ensures NodeOk(s', k)
    {
      assert NodeOk(s, k);
      if k != i {
        hide LocalOk, ServiceOk, ServerOk;
      }
    }
  }

  lemma ThreadReadFlagLocal(s: State, i: nat, cmd: nat, r: Option<nat>)
    requires Inv(s) && i < |s.nodes| && s.nodes[i].t == ReadFlag(cmd, r) && !s.nodes[i].slot.remoteFlag
    ensures Inv(Put(s, i, s.nodes[i].(t := PutValid(cmd))))
  {
    var s' := Put(s, i, s.nodes[i].(t := PutValid(cmd)));
    assert NodeOk(s, i);
    forall k | 0 <= k < |s'.nodes|
      ensures NodeOk(s', k)
    {
      assert NodeOk(s, k);
      if k != i {
        hide LocalOk, ServiceOk, ServerOk;
      }
    }
  }

  lemma ThreadReadFlagRemote(s: State, i: nat, cmd: nat, j: nat)
    requires Inv(s) && i < |s.nodes| && s.nodes[i].t == ReadFlag(cmd, Some(j)) && s.nodes[i].slot.remoteFlag
    ensures Inv(Put(s, i, s.nodes[i].(t := ClearValid(j))))
  {
    var s' := Put(s, i, s.nodes[i].(t := ClearValid(j)));
    assert NodeOk(s, i);
    forall k | 0 <= k < |s'.nodes|
      ensures NodeOk(s', k)
    {
      assert NodeOk(s, k);
      if k != i {
        hide LocalOk, ServiceOk, ServerOk;
      }
    }
  }

  /** A raised flag has a target behind it. */
  lemma FlagHasTarget(s: State, i: nat, cmd: nat, r: Option<nat>)
    requires Inv(s) && i < |s.nodes| && s.nodes[i].t == ReadFlag(cmd, r) && s.nodes[i].slot.remoteFlag
    ensures r.Some?
  {
    assert NodeOk(s, i);
  }

  lemma ThreadPutValidOwn(s: State, i: nat, cmd: nat)
    requires Inv(s) && i < |s.nodes| && s.nodes[i].t == PutValid(cmd)
    ensures OwnOk(Put(s, i, s.nodes[i].(slot := s.nodes[i].slot.(cmdValid := true), t := WaitLocal(cmd),
            h := s.nodes[i].h.(issued := s.nodes[i].h.issued + [JobOf(s.nodes[i].slot)]))).nodes[i], i)
  {
    assert NodeOk(s, i);
    hide TargetOk, PendingOk, AckOk;
  }

  lemma ThreadPutValidPending(s: State, i: nat, cmd: nat, k: nat)
    requires Inv(s) && i < |s.nodes| && s.nodes[i].t == PutValid(cmd)
    requires k < |s.nodes|
    ensures var s' := Put(s, i, s.nodes[i].(slot := s.nodes[i].slot.(cmdValid := true), t := WaitLocal(cmd),
                    h := s.nodes[i].h.(issued := s.nodes[i].h.issued + [JobOf(s.nodes[i].slot)])));
            TargetOk(s', k) && PendingOk(s', k)
  {
    assert NodeOk(s, i);
    assert NodeOk(s, k);
    hide LocalOk, ServiceOk;
  }

  lemma ThreadPutValidRaised(s: State, i: nat, cmd: nat, k: nat)
    requires Inv(s) && i < |s.nodes| && s.nodes[i].t == PutValid(cmd)
    requires k < |s.nodes|
    ensures var s' := Put(s, i, s.nodes[i].(slot := s.nodes[i].slot.(cmdValid := true), t := WaitLocal(cmd),
                    h := s.nodes[i].h.(issued := s.nodes[i].h.issued + [JobOf(s.nodes[i].slot)])));
            RaisedOk(s', k) && AckOk(s', k) && FlagOk(s', k)
  {
    assert NodeOk(s, i);
    assert NodeOk(s, k);
    hide LocalOk, ServiceOk;
  }

  lemma ThreadPutValid(s: State, i: nat, cmd: nat)
    requires Inv(s) && i < |s.nodes| && s.nodes[i].t == PutValid(cmd)
    ensures Inv(Put(s, i, s.nodes[i].(slot := s.nodes[i].slot.(cmdValid := true), t := WaitLocal(cmd),
            h := s.nodes[i].h.(issued := s.nodes[i].h.issued + [JobOf(s.nodes[i].slot)]))))
  {
    var s' := Put(s, i, s.nodes[i].(slot := s.nodes[i].slot.(cmdValid := true), t := WaitLocal(cmd),
            h := s.nodes[i].h.(issued := s.nodes[i].h.issued + [JobOf(s.nodes[i].slot)])));
    assert NodeOk(s, i);
    ThreadPutValidOwn(s, i, cmd);
    forall k | 0 <= k < |s'.nodes|
      ensures NodeOk(s', k)
    {
      assert NodeOk(s, k);
      ThreadPutValidPending(s, i, cmd, k);
      ThreadPutValidRaised(s, i, cmd, k);
      hide OwnOk, TargetOk, PendingOk, RaisedOk, AckOk, FlagOk;
    }
  }

  lemma ThreadWaitLocal(s: State, i: nat)
    requires Inv(s) && i < |s.nodes| && s.nodes[i].t.WaitLocal? && !s.nodes[i].slot.cmdValid
    ensures Inv(Put(s, i, s.nodes[i].(t := User(None))))
  {
    var s' := Put(s, i, s.nodes[i].(t := User(None)));
    assert NodeOk(s, i);
    forall k | 0 <= k < |s'.nodes|
      ensures NodeOk(s', k)
    {
      assert NodeOk(s, k);
      if k != i {
        hide LocalOk, ServiceOk, ServerOk;
      }
    }
  }

  lemma ThreadClearValid(s: State, i: nat, j: nat)
    requires Inv(s) && i < |s.nodes| && s.nodes[i].t == ClearValid(j)
    ensures Inv(Put(s, i, s.nodes[i].(slot := s.nodes[i].slot.(cmdValid := false), t := RaiseFlag(j))))
  {
    var s' := Put(s, i, s.nodes[i].(slot := s.nodes[i].slot.(cmdValid := false), t := RaiseFlag(j)));
    assert NodeOk(s, i);
    forall k | 0 <= k < |s'.nodes|
      ensures NodeOk(s', k)
    {
      assert NodeOk(s, k);
      if k != i {
        hide LocalOk, ServiceOk, ServerOk;
      }
    }
  }

  lemma ThreadRaiseFlag(s: State, i: nat, j: nat)
    requires Inv(s) && i < |s.nodes| && s.nodes[i].t == RaiseFlag(j)
    ensures Inv(Put(s, i, s.nodes[i].(slot := s.nodes[i].slot.(remoteFlag := true), t := PutRemoteValid(j))))
  {
    var s' := Put(s, i, s.nodes[i].(slot := s.nodes[i].slot.(remoteFlag := true), t := PutRemoteValid(j)));
    assert NodeOk(s, i);
    forall k | 0 <= k < |s'.nodes|
      ensures NodeOk(s', k)
    {
      assert NodeOk(s, k);
      if k != i {
        hide LocalOk, ServiceOk, ServerOk;
      }
    }
  }

  lemma ThreadPutRemoteValidOwn(s: State, i: nat, j: nat)
    requires Inv(s) && i < |s.nodes| && s.nodes[i].t == PutRemoteValid(j)
    ensures OwnOk(Put(s, i, s.nodes[i].(slot := s.nodes[i].slot.(remoteCmdValid := true), t := WaitRemoteValid(j),
            h := s.nodes[i].h.(sent := s.nodes[i].h.sent + [Msg(j, s.nodes[i].slot.str)]))).nodes[i], i)
  {
    assert NodeOk(s, i);
    assert NodeOk(s, j);
    hide TargetOk, PendingOk, AckOk;
  }

  lemma ThreadPutRemoteValidPending(s: State, i: nat, j: nat, k: nat)
    requires Inv(s) && i < |s.nodes| && s.nodes[i].t == PutRemoteValid(j)
    requires k < |s.nodes|
    ensures var s' := Put(s, i, s.nodes[i].(slot := s.nodes[i].slot.(remoteCmdValid := true), t := WaitRemoteValid(j),
                    h := s.nodes[i].h.(sent := s.nodes[i].h.sent + [Msg(j, s.nodes[i].slot.str)])));
            TargetOk(s', k) && PendingOk(s', k)
  {
    assert NodeOk(s, i);
    assert NodeOk(s, j);
    assert NodeOk(s, k);
    hide LocalOk, ServiceOk;
  }

  lemma ThreadPutRemoteValidRaised(s: State, i: nat, j: nat, k: nat)
    requires Inv(s) && i < |s.nodes| && s.nodes[i].t == PutRemoteValid(j)
    requires k < |s.nodes|
    ensures var s' := Put(s, i, s.nodes[i].(slot := s.nodes[i].slot.(remoteCmdValid := true), t := WaitRemoteValid(j),
                    h := s.nodes[i].h.(sent := s.nodes[i].h.sent + [Msg(j, s.nodes[i].slot.str)])));
            RaisedOk(s', k) && AckOk(s', k) && FlagOk(s', k)
  {
    assert NodeOk(s, i);
    assert NodeOk(s, j);
    assert NodeOk(s, k);
    hide LocalOk, ServiceOk;
  }

  lemma ThreadPutRemoteValid(s: State, i: nat, j: nat)
    requires Inv(s) && i < |s.nodes| && s.nodes[i].t == PutRemoteValid(j)
    ensures Inv(Put(s, i, s.nodes[i].(slot := s.nodes[i].slot.(remoteCmdValid := true), t := WaitRemoteValid(j),
            h := s.nodes[i].h.(sent := s.nodes[i].h.sent + [Msg(j, s.nodes[i].slot.str)]))))
  {
    var s' := Put(s, i, s.nodes[i].(slot := s.nodes[i].slot.(remoteCmdValid := true), t := WaitRemoteValid(j),
            h := s.nodes[i].h.(sent := s.nodes[i].h.sent + [Msg(j, s.nodes[i].slot.str)])));
    assert NodeOk(s, i);
    assert NodeOk(s, j);
    ThreadPutRemoteValidOwn(s, i, j);
    forall k | 0 <= k < |s'.nodes|
      ensures NodeOk(s', k)
    {
      assert NodeOk(s, k);
      ThreadPutRemoteValidPending(s, i, j, k);
      ThreadPutRemoteValidRaised(s, i, j, k);
      hide OwnOk, TargetOk, PendingOk, RaisedOk, AckOk, FlagOk;
    }
  }

  lemma ThreadWaitRemoteValid(s: State, i: nat, j: nat)
    requires Inv(s) && i < |s.nodes| && s.nodes[i].t == WaitRemoteValid(j) && !s.nodes[i].slot.remoteCmdValid
    ensures Inv(Put(s, i, s.nodes[i].(t := WaitRemoteFlag(j))))
  {
    var s' := Put(s, i, s.nodes[i].(t := WaitRemoteFlag(j)));
    assert NodeOk(s, i);
    forall k | 0 <= k < |s'.nodes|
      ensures NodeOk(s', k)
    {
      assert NodeOk(s, k);
      if k != i {
        hide LocalOk, ServiceOk, ServerOk;
      }
    }
  }

  lemma ThreadWaitRemoteFlag(s: State, i: nat, j: nat)
    requires Inv(s) && i < |s.nodes| && s.nodes[i].t == WaitRemoteFlag(j)
    ensures Inv(Put(s, i, s.nodes[i].(t := if s.nodes[i].slot.remoteFlag then WaitRemoteValid(j) else User(None))))
  {
    var s' := Put(s, i, s.nodes[i].(t := if s.nodes[i].slot.remoteFlag then WaitRemoteValid(j) else User(None)));
    assert NodeOk(s, i);
    forall k | 0 <= k < |s'.nodes|
      ensures NodeOk(s', k)
    {
      assert NodeOk(s, k);
      if k != i {
        hide LocalOk, ServiceOk, ServerOk;
      }
    }
  }

  // ---------------------------------------------------------------- daemon steps

  lemma DaemonScan(s: State, i: nat)
    requires Inv(s) && s.d == Scan && i < |s.nodes|
    ensures Inv(s.(d := if s.nodes[i].slot.remoteFlag then CheckValid(i) else Scan))
  {
    var s' := s.(d := if s.nodes[i].slot.remoteFlag then CheckValid(i) else Scan);
    forall k | 0 <= k < |s'.nodes|
      ensures NodeOk(s', k)
    {
      assert NodeOk(s, k);
      hide LocalOk, ServiceOk, ServerOk, RequestOk;
    }
  }

  lemma DaemonCheckValid(s: State, i: nat)
    requires Inv(s) && s.d == CheckValid(i) && i < |s.nodes|
    ensures Inv(s.(d := if s.nodes[i].slot.remoteCmdValid then FetchTarget(i) else Scan))
  {
    var s' := s.(d := if s.nodes[i].slot.remoteCmdValid then FetchTarget(i) else Scan);
    assert NodeOk(s, i);
    forall k | 0 <= k < |s'.nodes|
      ensures NodeOk(s', k)
    {
      assert NodeOk(s, k);
      hide LocalOk, ServiceOk, ServerOk, RequestOk;
    }
  }

  lemma DaemonFetchTarget(s: State, i: nat)
    requires Inv(s) && s.d == FetchTarget(i) && i < |s.nodes|
    ensures Inv(s.(d := CheckReq(i, s.nodes[i].slot.remoteOffset)))
  {
    var s' := s.(d := CheckReq(i, s.nodes[i].slot.remoteOffset));
    assert NodeOk(s, i);
    forall k | 0 <= k < |s'.nodes|
      ensures NodeOk(s', k)
    {
      assert NodeOk(s, k);
      hide LocalOk, ServiceOk, ServerOk, RequestOk;
    }
  }

  lemma DaemonCheckReq(s: State, i: nat, j: nat)
    requires Inv(s) && s.d == CheckReq(i, j) && i < |s.nodes| && j < |s.nodes|
    ensures Inv(s.(d := if s.nodes[j].slot.remoteReq then Scan else PutOffset(i, j)))
  {
    var s' := s.(d := if s.nodes[j].slot.remoteReq then Scan else PutOffset(i, j));
    assert NodeOk(s, i);
    assert NodeOk(s, j);
    forall k | 0 <= k < |s'.nodes|
      ensures NodeOk(s', k)
    {
      assert NodeOk(s, k);
      hide LocalOk, ServiceOk, ServerOk, RequestOk;
    }
  }

  lemma DaemonPutOffsetOwn(s: State, i: nat, j: nat)
    requires Inv(s) && s.d == PutOffset(i, j) && i < |s.nodes| && j < |s.nodes|
    ensures OwnOk(Put(s, j, s.nodes[j].(slot := s.nodes[j].slot.(remoteOffset := i))).(d := PutReq(i, j)).nodes[j], j)
  {
    assert NodeOk(s, i);
    assert NodeOk(s, j);
    hide TargetOk, PendingOk, AckOk;
  }

  lemma DaemonPutOffsetPending(s: State, i: nat, j: nat, k: nat)
    requires Inv(s) && s.d == PutOffset(i, j) && i < |s.nodes| && j < |s.nodes|
    requires k < |s.nodes|
    ensures var s' := Put(s, j, s.nodes[j].(slot := s.nodes[j].slot.(remoteOffset := i))).(d := PutReq(i, j));
            TargetOk(s', k) && PendingOk(s', k)
  {
    assert NodeOk(s, i);
    assert NodeOk(s, j);
    assert NodeOk(s, k);
    hide LocalOk, ServiceOk;
  }

  lemma DaemonPutOffsetRaised(s: State, i: nat, j: nat, k: nat)
    requires Inv(s) && s.d == PutOffset(i, j) && i < |s.nodes| && j < |s.nodes|
    requires k < |s.nodes|
    ensures var s' := Put(s, j, s.nodes[j].(slot := s.nodes[j].slot.(remoteOffset := i))).(d := PutReq(i, j));
            RaisedOk(s', k) && AckOk(s', k) && FlagOk(s', k)
  {
    assert NodeOk(s, i);
    assert NodeOk(s, j);
    assert NodeOk(s, k);
    hide LocalOk, ServiceOk;
  }

  lemma DaemonPutOffset(s: State, i: nat, j: nat)
    requires Inv(s) && s.d == PutOffset(i, j) && i < |s.nodes| && j < |s.nodes|
    ensures Inv(Put(s, j, s.nodes[j].(slot := s.nodes[j].slot.(remoteOffset := i))).(d := PutReq(i, j)))
  {
    var s' := Put(s, j, s.nodes[j].(slot := s.nodes[j].slot.(remoteOffset := i))).(d := PutReq(i, j));
    assert NodeOk(s, i);
    assert NodeOk(s, j);
    DaemonPutOffsetOwn(s, i, j);
    forall k | 0 <= k < |s'.nodes|
      ensures NodeOk(s', k)
    {
      assert NodeOk(s, k);
      DaemonPutOffsetPending(s, i, j, k);
      DaemonPutOffsetRaised(s, i, j, k);
      hide OwnOk, TargetOk, PendingOk, RaisedOk, AckOk, FlagOk;
    }
  }

  lemma DaemonPutReqOwn(s: State, i: nat, j: nat)
    requires Inv(s) && s.d == PutReq(i, j) && i < |s.nodes| && j < |s.nodes|
    ensures OwnOk(Put(s, j, s.nodes[j].(slot := s.nodes[j].slot.(remoteReq := true)))
                    .(d := ClearFlag(i, j)).nodes[j], j)
  {
    assert NodeOk(s, i);
    assert NodeOk(s, j);
    hide TargetOk, PendingOk, AckOk;
  }

  lemma DaemonPutReqPending(s: State, i: nat, j: nat, k: nat)
    requires Inv(s) && s.d == PutReq(i, j) && i < |s.nodes| && j < |s.nodes|
    requires k < |s.nodes|
    ensures var s' := Put(s, j, s.nodes[j].(slot := s.nodes[j].slot.(remoteReq := true))).(d := ClearFlag(i, j));
            TargetOk(s', k) && PendingOk(s', k)
  {
    assert NodeOk(s, i);
    assert NodeOk(s, j);
    assert NodeOk(s, k);
    hide LocalOk, ServiceOk;
  }

  lemma DaemonPutReqRaised(s: State, i: nat, j: nat, k: nat)
    requires Inv(s) && s.d == PutReq(i, j) && i < |s.nodes| && j < |s.nodes|
    requires k < |s.nodes|
    ensures var s' := Put(s, j, s.nodes[j].(slot := s.nodes[j].slot.(remoteReq := true))).(d := ClearFlag(i, j));
            RaisedOk(s', k) && AckOk(s', k) && FlagOk(s', k)
  {
    assert NodeOk(s, i);
    assert NodeOk(s, j);
    assert NodeOk(s, k);
    hide LocalOk, ServiceOk;
  }

  lemma DaemonPutReq(s: State, i: nat, j: nat)
    requires Inv(s) && s.d == PutReq(i, j) && i < |s.nodes| && j < |s.nodes|
    ensures Inv(Put(s, j, s.nodes[j].(slot := s.nodes[j].slot.(remoteReq := true))).(d := ClearFlag(i, j)))
  {
    var s' := Put(s, j, s.nodes[j].(slot := s.nodes[j].slot.(remoteReq := true))).(d := ClearFlag(i, j));
    assert NodeOk(s, i);
    assert NodeOk(s, j);
    DaemonPutReqOwn(s, i, j);
    forall k | 0 <= k < |s'.nodes|
      ensures NodeOk(s', k)
    {
      assert NodeOk(s, k);
      DaemonPutReqPending(s, i, j, k);
      DaemonPutReqRaised(s, i, j, k);
      hide OwnOk, TargetOk, PendingOk, RaisedOk, AckOk, FlagOk;
    }
  }

  lemma DaemonClearFlagOwn(s: State, i: nat, j: nat)
    requires Inv(s) && s.d == ClearFlag(i, j) && i < |s.nodes| && j < |s.nodes|
    ensures OwnOk(Put(s, i, s.nodes[i].(slot := s.nodes[i].slot.(remoteFlag := false))).(d := Scan).nodes[i], i)
  {
    assert NodeOk(s, i);
    assert NodeOk(s, j);
    hide TargetOk, PendingOk, AckOk;
  }

  lemma DaemonClearFlagPending(s: State, i: nat, j: nat, k: nat)
    requires Inv(s) && s.d == ClearFlag(i, j) && i < |s.nodes| && j < |s.nodes|
    requires k < |s.nodes|
    ensures var s' := Put(s, i, s.nodes[i].(slot := s.nodes[i].slot.(remoteFlag := false))).(d := Scan);
            TargetOk(s', k) && PendingOk(s', k)
  {
    assert NodeOk(s, i);
    assert NodeOk(s, j);
    assert NodeOk(s, k);
    hide LocalOk, ServiceOk;
  }

  lemma DaemonClearFlagRaised(s: State, i: nat, j: nat, k: nat)
    requires Inv(s) && s.d == ClearFlag(i, j) && i < |s.nodes| && j < |s.nodes|
    requires k < |s.nodes|
    ensures var s' := Put(s, i, s.nodes[i].(slot := s.nodes[i].slot.(remoteFlag := false))).(d := Scan);
            RaisedOk(s', k) && AckOk(s', k) && FlagOk(s', k)
  {
    assert NodeOk(s, i);
    assert NodeOk(s, j);
    assert NodeOk(s, k);
    hide LocalOk, ServiceOk;
  }

  lemma DaemonClearFlag(s: State, i: nat, j: nat)
    requires Inv(s) && s.d == ClearFlag(i, j) && i < |s.nodes| && j < |s.nodes|
    ensures Inv(Put(s, i, s.nodes[i].(slot := s.nodes[i].slot.(remoteFlag := false))).(d := Scan))
  {
    var s' := Put(s, i, s.nodes[i].(slot := s.nodes[i].slot.(remoteFlag := false))).(d := Scan);
    assert NodeOk(s, i);
    assert NodeOk(s, j);
    DaemonClearFlagOwn(s, i, j);
    forall k | 0 <= k < |s'.nodes|
      ensures NodeOk(s', k)
    {
      assert NodeOk(s, k);
      DaemonClearFlagPending(s, i, j, k);
      DaemonClearFlagRaised(s, i, j, k);
      hide OwnOk, TargetOk, PendingOk, RaisedOk, AckOk, FlagOk;
    }
  }

  // ---------------------------------------------------------------- simulator steps

  lemma SimPollOwn(s: State, j: nat)
    requires Inv(s) && j < |s.nodes| && s.nodes[j].v == Poll
    ensures OwnOk(Goto(s, j, PollRemote(s.nodes[j].slot.cmdValid)).nodes[j], j)
  {
    assert NodeOk(s, j);
    hide TargetOk, PendingOk, AckOk;
  }

  lemma SimPollPending(s: State, j: nat, k: nat)
    requires Inv(s) && j < |s.nodes| && s.nodes[j].v == Poll
    requires k < |s.nodes|
    ensures var s' := Goto(s, j, PollRemote(s.nodes[j].slot.cmdValid));
            TargetOk(s', k) && PendingOk(s', k)
  {
    assert NodeOk(s, j);
    assert NodeOk(s, k);
    hide LocalOk, ServiceOk;
  }

  lemma SimPollRaised(s: State, j: nat, k: nat)
    requires Inv(s) && j < |s.nodes| && s.nodes[j].v == Poll
    requires k < |s.nodes|
    ensures var s' := Goto(s, j, PollRemote(s.nodes[j].slot.cmdValid));
            RaisedOk(s', k) && AckOk(s', k) && FlagOk(s', k)
  {
    assert NodeOk(s, j);
    assert NodeOk(s, k);
    hide LocalOk, ServiceOk;
  }

  lemma SimPoll(s: State, j: nat)
    requires Inv(s) && j < |s.nodes| && s.nodes[j].v == Poll
    ensures Inv(Goto(s, j, PollRemote(s.nodes[j].slot.cmdValid)))
  {
    var s' := Goto(s, j, PollRemote(s.nodes[j].slot.cmdValid));
    assert NodeOk(s, j);
    SimPollOwn(s, j);
    forall k | 0 <= k < |s'.nodes|
      ensures NodeOk(s', k)
    {
      assert NodeOk(s, k);
      SimPollPending(s, j, k);
      SimPollRaised(s, j, k);
      hide OwnOk, TargetOk, PendingOk, RaisedOk, AckOk, FlagOk;
    }
  }

  lemma SimPollRemoteOwn(s: State, j: nat, local: bool)
    requires Inv(s) && j < |s.nodes| && s.nodes[j].v == PollRemote(local)
    ensures OwnOk(Goto(s, j, if s.nodes[j].slot.remoteReq then FetchOffset
                    else if local then FetchCmd(j, false) else Poll).nodes[j], j)
  {
    assert NodeOk(s, j);
    hide TargetOk, PendingOk, AckOk;
  }

  lemma SimPollRemotePending(s: State, j: nat, local: bool, k: nat)
    requires Inv(s) && j < |s.nodes| && s.nodes[j].v == PollRemote(local)
    requires k < |s.nodes|
    ensures var s' := Goto(s, j, if s.nodes[j].slot.remoteReq then FetchOffset
                    else if local then FetchCmd(j, false) else Poll);
            TargetOk(s', k) && PendingOk(s', k)
  {
    assert NodeOk(s, j);
    assert NodeOk(s, k);
    hide LocalOk, ServiceOk;
  }

  lemma SimPollRemoteRaised(s: State, j: nat, local: bool, k: nat)
    requires Inv(s) && j < |s.nodes| && s.nodes[j].v == PollRemote(local)
    requires k < |s.nodes|
    ensures var s' := Goto(s, j, if s.nodes[j].slot.remoteReq then FetchOffset
                    else if local then FetchCmd(j, false) else Poll);
            RaisedOk(s', k) && AckOk(s', k) && FlagOk(s', k)
  {
    assert NodeOk(s, j);
    assert NodeOk(s, k);
    hide LocalOk, ServiceOk;
  }

  lemma SimPollRemote(s: State, j: nat, local: bool)
    requires Inv(s) && j < |s.nodes| && s.nodes[j].v == PollRemote(local)
    ensures Inv(Goto(s, j, if s.nodes[j].slot.remoteReq then FetchOffset
                    else if local then FetchCmd(j, false) else Poll))
  {
    var s' := Goto(s, j, if s.nodes[j].slot.remoteReq then FetchOffset
                    else if local then FetchCmd(j, false) else Poll);
    assert NodeOk(s, j);
    SimPollRemoteOwn(s, j, local);
    forall k | 0 <= k < |s'.nodes|
      ensures NodeOk(s', k)
    {
      assert NodeOk(s, k);
      SimPollRemotePending(s, j, local, k);
      SimPollRemoteRaised(s, j, local, k);
      hide OwnOk, TargetOk, PendingOk, RaisedOk, AckOk, FlagOk;
    }
  }

  lemma SimFetchOffsetOwn(s: State, j: nat)
    requires Inv(s) && j < |s.nodes| && s.nodes[j].v == FetchOffset
    ensures OwnOk(Goto(s, j, FetchCmd(s.nodes[j].slot.remoteOffset, true)).nodes[j], j)
  {
    assert NodeOk(s, j);
    assert NodeOk(s, s.nodes[j].slot.remoteOffset);
    hide TargetOk, PendingOk, AckOk;
  }

  lemma SimFetchOffsetPending(s: State, j: nat, k: nat)
    requires Inv(s) && j < |s.nodes| && s.nodes[j].v == FetchOffset
    requires k < |s.nodes|
    ensures var s' := Goto(s, j, FetchCmd(s.nodes[j].slot.remoteOffset, true));
            TargetOk(s', k) && PendingOk(s', k)
  {
    assert NodeOk(s, j);
    assert NodeOk(s, s.nodes[j].slot.remoteOffset);
    assert NodeOk(s, k);
    hide LocalOk, ServiceOk;
  }

  lemma SimFetchOffsetRaised(s: State, j: nat, k: nat)
    requires Inv(s) && j < |s.nodes| && s.nodes[j].v == FetchOffset
    requires k < |s.nodes|
    ensures var s' := Goto(s, j, FetchCmd(s.nodes[j].slot.remoteOffset, true));
            RaisedOk(s', k) && AckOk(s', k) && FlagOk(s', k)
  {
    assert NodeOk(s, j);
    assert NodeOk(s, s.nodes[j].slot.remoteOffset);
    assert NodeOk(s, k);
    hide LocalOk, ServiceOk;
  }

  lemma SimFetchOffset(s: State, j: nat)
    requires Inv(s) && j < |s.nodes| && s.nodes[j].v == FetchOffset
    ensures Inv(Goto(s, j, FetchCmd(s.nodes[j].slot.remoteOffset, true)))
  {
    var s' := Goto(s, j, FetchCmd(s.nodes[j].slot.remoteOffset, true));
    assert NodeOk(s, j);
    assert NodeOk(s, s.nodes[j].slot.remoteOffset);
    SimFetchOffsetOwn(s, j);
    forall k | 0 <= k < |s'.nodes|
      ensures NodeOk(s', k)
    {
      assert NodeOk(s, k);
      SimFetchOffsetPending(s, j, k);
      SimFetchOffsetRaised(s, j, k);
      hide OwnOk, TargetOk, PendingOk, RaisedOk, AckOk, FlagOk;
    }
  }

  lemma SimFetchCmdPrintOwn(s: State, j: nat, p: nat, remote: bool)
    requires Inv(s) && j < |s.nodes| && p < |s.nodes| && s.nodes[j].v == FetchCmd(p, remote)
    requires s.nodes[p].slot.cmd == SHIPC_PRINTF
    ensures OwnOk(Goto(s, j, PrintStr(p, remote)).nodes[j], j)
  {
    assert NodeOk(s, j);
    assert NodeOk(s, p);
    hide TargetOk, PendingOk, AckOk;
  }

  lemma SimFetchCmdPrintPending(s: State, j: nat, p: nat, remote: bool, k: nat)
    requires Inv(s) && j < |s.nodes| && p < |s.nodes| && s.nodes[j].v == FetchCmd(p, remote)
    requires s.nodes[p].slot.cmd == SHIPC_PRINTF
    requires k < |s.nodes|
    ensures TargetOk(Goto(s, j, PrintStr(p, remote)), k) && PendingOk(Goto(s, j, PrintStr(p, remote)), k)
  {
    assert NodeOk(s, j);
    assert NodeOk(s, p);
    assert NodeOk(s, k);
    hide LocalOk, ServiceOk;
  }

  lemma SimFetchCmdPrintRaised(s: State, j: nat, p: nat, remote: bool, k: nat)
    requires Inv(s) && j < |s.nodes| && p < |s.nodes| && s.nodes[j].v == FetchCmd(p, remote)
    requires s.nodes[p].slot.cmd == SHIPC_PRINTF
    requires k < |s.nodes|
    ensures var s' := Goto(s, j, PrintStr(p, remote));
            RaisedOk(s', k) && AckOk(s', k) && FlagOk(s', k)
  {
    assert NodeOk(s, j);
    assert NodeOk(s, p);
    assert NodeOk(s, k);
    hide LocalOk, ServiceOk;
  }

  lemma SimFetchCmdPrint(s: State, j: nat, p: nat, remote: bool)
    requires Inv(s) && j < |s.nodes| && p < |s.nodes| && s.nodes[j].v == FetchCmd(p, remote)
    requires s.nodes[p].slot.cmd == SHIPC_PRINTF
    ensures Inv(Goto(s, j, PrintStr(p, remote)))
  {
    var s' := Goto(s, j, PrintStr(p, remote));
    assert NodeOk(s, j);
    assert NodeOk(s, p);
    SimFetchCmdPrintOwn(s, j, p, remote);
    forall k | 0 <= k < |s'.nodes|
      ensures NodeOk(s', k)
    {
      assert NodeOk(s, k);
      SimFetchCmdPrintPending(s, j, p, remote, k);
      SimFetchCmdPrintRaised(s, j, p, remote, k);
      hide OwnOk, TargetOk, PendingOk, RaisedOk, AckOk, FlagOk;
    }
  }

  /** What a remote process takes up is always a print. */
  lemma RemoteIsPrint(s: State, j: nat, p: nat)
    requires Inv(s) && j < |s.nodes| && s.nodes[j].v == FetchCmd(p, true)
    ensures p < |s.nodes| && s.nodes[p].slot.cmd == SHIPC_PRINTF
  {
    assert NodeOk(s, j);
    assert NodeOk(s, s.nodes[j].slot.remoteOffset);
  }

  lemma SimFetchCmdCopyOwn(s: State, j: nat, p: nat)
    requires Inv(s) && j < |s.nodes| && p < |s.nodes| && s.nodes[j].v == FetchCmd(p, false)
    requires s.nodes[p].slot.cmd != SHIPC_PRINTF
    ensures OwnOk(Taken(s, j, p).nodes[j], j)
  {
    assert NodeOk(s, j);
    assert NodeOk(s, p);
    hide TargetOk, PendingOk, AckOk;
  }

  lemma SimFetchCmdCopyPending(s: State, j: nat, p: nat, k: nat)
    requires Inv(s) && j < |s.nodes| && p < |s.nodes| && s.nodes[j].v == FetchCmd(p, false)
    requires s.nodes[p].slot.cmd != SHIPC_PRINTF
    requires k < |s.nodes|
    ensures TargetOk(Taken(s, j, p), k) && PendingOk(Taken(s, j, p), k)
  {
    assert NodeOk(s, j);
    assert NodeOk(s, p);
    assert NodeOk(s, k);
    hide LocalOk, ServiceOk;
  }

  lemma SimFetchCmdCopyRaised(s: State, j: nat, p: nat, k: nat)
    requires Inv(s) && j < |s.nodes| && p < |s.nodes| && s.nodes[j].v == FetchCmd(p, false)
    requires s.nodes[p].slot.cmd != SHIPC_PRINTF
    requires k < |s.nodes|
    ensures RaisedOk(Taken(s, j, p), k) && AckOk(Taken(s, j, p), k) && FlagOk(Taken(s, j, p), k)
  {
    assert NodeOk(s, j);
    assert NodeOk(s, p);
    assert NodeOk(s, k);
    hide LocalOk, ServiceOk;
  }

  lemma SimFetchCmdCopy(s: State, j: nat, p: nat)
    requires Inv(s) && j < |s.nodes| && p < |s.nodes| && s.nodes[j].v == FetchCmd(p, false)
    requires s.nodes[p].slot.cmd != SHIPC_PRINTF
    ensures Inv(Taken(s, j, p))
  {
    var s' := Taken(s, j, p);
    assert NodeOk(s, j);
    assert NodeOk(s, p);
    SimFetchCmdCopyOwn(s, j, p);
    forall k | 0 <= k < |s'.nodes|
      ensures NodeOk(s', k)
    {
      assert NodeOk(s, k);
      SimFetchCmdCopyPending(s, j, p, k);
      SimFetchCmdCopyRaised(s, j, p, k);
      hide OwnOk, TargetOk, PendingOk, RaisedOk, AckOk, FlagOk;
    }
  }

  lemma SimPrintStrRemoteOwn(s: State, j: nat, p: nat)
    requires Inv(s) && j < |s.nodes| && p < |s.nodes| && s.nodes[j].v == PrintStr(p, true)
    ensures OwnOk(StringShown(s, j, p, true).nodes[j], j)
    ensures OwnOk(StringShown(s, j, p, true).nodes[p], p)
  {
    assert NodeOk(s, j);
    assert NodeOk(s, p);
    hide TargetOk, PendingOk, AckOk;
  }

  lemma SimPrintStrRemotePending(s: State, j: nat, p: nat, k: nat)
    requires Inv(s) && j < |s.nodes| && p < |s.nodes| && s.nodes[j].v == PrintStr(p, true)
    requires k < |s.nodes|
    ensures TargetOk(StringShown(s, j, p, true), k) && PendingOk(StringShown(s, j, p, true), k)
  {
    assert NodeOk(s, j);
    assert NodeOk(s, p);
    assert NodeOk(s, k);
    hide LocalOk, ServiceOk;
  }

  lemma SimPrintStrRemoteRaised(s: State, j: nat, p: nat, k: nat)
    requires Inv(s) && j < |s.nodes| && p < |s.nodes| && s.nodes[j].v == PrintStr(p, true)
    requires k < |s.nodes|
    ensures var s' := StringShown(s, j, p, true);
            RaisedOk(s', k) && AckOk(s', k) && FlagOk(s', k)
  {
    assert NodeOk(s, j);
    assert NodeOk(s, p);
    assert NodeOk(s, k);
    hide LocalOk, ServiceOk;
  }

  lemma SimPrintStrRemote(s: State, j: nat, p: nat)
    requires Inv(s) && j < |s.nodes| && p < |s.nodes| && s.nodes[j].v == PrintStr(p, true)
    ensures Inv(StringShown(s, j, p, true))
  {
    var s' := StringShown(s, j, p, true);
    assert NodeOk(s, j);
    assert NodeOk(s, p);
    SimPrintStrRemoteOwn(s, j, p);
    forall k | 0 <= k < |s'.nodes|
      ensures NodeOk(s', k)
    {
      assert NodeOk(s, k);
      SimPrintStrRemotePending(s, j, p, k);
      SimPrintStrRemoteRaised(s, j, p, k);
      hide OwnOk, TargetOk, PendingOk, RaisedOk, AckOk, FlagOk;
    }
  }

  lemma SimPrintStrLocal(s: State, j: nat, p: nat)
    requires Inv(s) && j < |s.nodes| && p < |s.nodes| && s.nodes[j].v == PrintStr(p, false)
    ensures Inv(StringShown(s, j, p, false))
  {
    var s' := StringShown(s, j, p, false);
    assert NodeOk(s, j);
    assert NodeOk(s, p);
    forall k | 0 <= k < |s'.nodes|
      ensures NodeOk(s', k)
    {
      assert NodeOk(s, k);
      if k != j {
        hide LocalOk, ServiceOk, ServerOk;
      }
    }
  }

  lemma SimAckStatusRemoteOwn(s: State, j: nat, p: nat)
    requires Inv(s) && j < |s.nodes| && p < |s.nodes| && s.nodes[j].v == AckStatus(p, true)
    ensures OwnOk(StatusAcked(s, j, p, true).nodes[j], j)
    ensures OwnOk(StatusAcked(s, j, p, true).nodes[p], p)
  {
    assert NodeOk(s, j);
    assert NodeOk(s, p);
    hide TargetOk, PendingOk, AckOk;
  }

  lemma SimAckStatusRemotePending(s: State, j: nat, p: nat, k: nat)
    requires Inv(s) && j < |s.nodes| && p < |s.nodes| && s.nodes[j].v == AckStatus(p, true)
    requires k < |s.nodes|
    ensures TargetOk(StatusAcked(s, j, p, true), k) && PendingOk(StatusAcked(s, j, p, true), k)
  {
    assert NodeOk(s, j);
    assert NodeOk(s, p);
    assert NodeOk(s, k);
    hide LocalOk, ServiceOk;
  }

  lemma SimAckStatusRemoteRaised(s: State, j: nat, p: nat, k: nat)
    requires Inv(s) && j < |s.nodes| && p < |s.nodes| && s.nodes[j].v == AckStatus(p, true)
    requires k < |s.nodes|
    ensures var s' := StatusAcked(s, j, p, true);
            RaisedOk(s', k) && AckOk(s', k) && FlagOk(s', k)
  {
    assert NodeOk(s, j);
    assert NodeOk(s, p);
    assert NodeOk(s, k);
    hide LocalOk, ServiceOk;
  }

  lemma SimAckStatusRemote(s: State, j: nat, p: nat)
    requires Inv(s) && j < |s.nodes| && p < |s.nodes| && s.nodes[j].v == AckStatus(p, true)
    ensures Inv(StatusAcked(s, j, p, true))
  {
    var s' := StatusAcked(s, j, p, true);
    assert NodeOk(s, j);
    assert NodeOk(s, p);
    SimAckStatusRemoteOwn(s, j, p);
    forall k | 0 <= k < |s'.nodes|
      ensures NodeOk(s', k)
    {
      assert NodeOk(s, k);
      SimAckStatusRemotePending(s, j, p, k);
      SimAckStatusRemoteRaised(s, j, p, k);
      hide OwnOk, TargetOk, PendingOk, RaisedOk, AckOk, FlagOk;
    }
  }

  lemma SimAckStatusLocal(s: State, j: nat, p: nat)
    requires Inv(s) && j < |s.nodes| && p < |s.nodes| && s.nodes[j].v == AckStatus(p, false)
    ensures Inv(StatusAcked(s, j, p, false))
  {
    var s' := StatusAcked(s, j, p, false);
    assert NodeOk(s, j);
    assert NodeOk(s, p);
    forall k | 0 <= k < |s'.nodes|
      ensures NodeOk(s', k)
    {
      assert NodeOk(s, k);
      if k != j {
        hide LocalOk, ServiceOk, ServerOk;
      }
    }
  }

  lemma SimAckValidRemoteOwn(s: State, j: nat, p: nat)
    requires Inv(s) && j < |s.nodes| && p < |s.nodes| && s.nodes[j].v == AckValid(p, true)
    ensures OwnOk(ValidAcked(s, j, p, true).nodes[j], j)
    ensures OwnOk(ValidAcked(s, j, p, true).nodes[p], p)
  {
    assert NodeOk(s, j);
    assert NodeOk(s, p);
    hide TargetOk, PendingOk, AckOk;
  }

  lemma SimAckValidRemotePending(s: State, j: nat, p: nat, k: nat)
    requires Inv(s) && j < |s.nodes| && p < |s.nodes| && s.nodes[j].v == AckValid(p, true)
    requires k < |s.nodes|
    ensures TargetOk(ValidAcked(s, j, p, true), k) && PendingOk(ValidAcked(s, j, p, true), k)
  {
    assert NodeOk(s, j);
    assert NodeOk(s, p);
    assert NodeOk(s, k);
    hide LocalOk, ServiceOk;
  }

  lemma SimAckValidRemoteRaised(s: State, j: nat, p: nat, k: nat)
    requires Inv(s) && j < |s.nodes| && p < |s.nodes| && s.nodes[j].v == AckValid(p, true)
    requires k < |s.nodes|
    ensures var s' := ValidAcked(s, j, p, true);
            RaisedOk(s', k) && AckOk(s', k) && FlagOk(s', k)
  {
    assert NodeOk(s, j);
    assert NodeOk(s, p);
    assert NodeOk(s, k);
    hide LocalOk, ServiceOk;
  }

  lemma SimAckValidRemote(s: State, j: nat, p: nat)
    requires Inv(s) && j < |s.nodes| && p < |s.nodes| && s.nodes[j].v == AckValid(p, true)
    ensures Inv(ValidAcked(s, j, p, true))
  {
    var s' := ValidAcked(s, j, p, true);
    assert NodeOk(s, j);
    assert NodeOk(s, p);
    SimAckValidRemoteOwn(s, j, p);
    forall k | 0 <= k < |s'.nodes|
      ensures NodeOk(s', k)
    {
      assert NodeOk(s, k);
      SimAckValidRemotePending(s, j, p, k);
      SimAckValidRemoteRaised(s, j, p, k);
      hide OwnOk, TargetOk, PendingOk, RaisedOk, AckOk, FlagOk;
    }
  }

  lemma SimAckValidLocal(s: State, j: nat, p: nat)
    requires Inv(s) && j < |s.nodes| && p < |s.nodes| && s.nodes[j].v == AckValid(p, false)
    ensures Inv(ValidAcked(s, j, p, false))
  {
    var s' := ValidAcked(s, j, p, false);
    assert NodeOk(s, j);
    assert NodeOk(s, p);
    forall k | 0 <= k < |s'.nodes|
      ensures NodeOk(s', k)
    {
      assert NodeOk(s, k);
      if k != j {
        hide LocalOk, ServiceOk, ServerOk;
      }
    }
  }

  lemma SimAckReqOwn(s: State, j: nat)
    requires Inv(s) && j < |s.nodes| && s.nodes[j].v == AckReq
    ensures OwnOk(Put(s, j, s.nodes[j].(slot := s.nodes[j].slot.(remoteReq := false), v := Poll)).nodes[j], j)
  {
    assert NodeOk(s, j);
    hide TargetOk, PendingOk, AckOk;
  }

  lemma SimAckReqPending(s: State, j: nat, k: nat)
    requires Inv(s) && j < |s.nodes| && s.nodes[j].v == AckReq
    requires k < |s.nodes|
    ensures var s' := Put(s, j, s.nodes[j].(slot := s.nodes[j].slot.(remoteReq := false), v := Poll));
            TargetOk(s', k) && PendingOk(s', k)
  {
    assert NodeOk(s, j);
    assert NodeOk(s, k);
    hide LocalOk, ServiceOk;
  }

  lemma SimAckReqRaised(s: State, j: nat, k: nat)
    requires Inv(s) && j < |s.nodes| && s.nodes[j].v == AckReq
    requires k < |s.nodes|
    ensures var s' := Put(s, j, s.nodes[j].(slot := s.nodes[j].slot.(remoteReq := false), v := Poll));
            RaisedOk(s', k) && AckOk(s', k) && FlagOk(s', k)
  {
    assert NodeOk(s, j);
    assert NodeOk(s, k);
    hide LocalOk, ServiceOk;
  }

  lemma SimAckReq(s: State, j: nat)
    requires Inv(s) && j < |s.nodes| && s.nodes[j].v == AckReq
    ensures Inv(Put(s, j, s.nodes[j].(slot := s.nodes[j].slot.(remoteReq := false), v := Poll)))
  {
    var s' := Put(s, j, s.nodes[j].(slot := s.nodes[j].slot.(remoteReq := false), v := Poll));
    assert NodeOk(s, j);
    SimAckReqOwn(s, j);
    forall k | 0 <= k < |s'.nodes|
      ensures NodeOk(s', k)
    {
      assert NodeOk(s, k);
      SimAckReqPending(s, j, k);
      SimAckReqRaised(s, j, k);
      hide OwnOk, TargetOk, PendingOk, RaisedOk, AckOk, FlagOk;
    }
  }

  lemma CopyOwn(s: State, j: nat, p: nat, cmd: nat, box: seq<nat>)
    requires Inv(s) && j < |s.nodes| && s.nodes[j].v == Copy(p, cmd, box) && p < |s.nodes|
    requires |box| <= ARG_WORDS == |s.nodes[p].slot.args|
    ensures var n' := Goto(s, j, if |box| < ARG_WORDS then Copy(p, cmd, box + [s.nodes[p].slot.args[|box|]])
                   else Execute(cmd, box)).nodes[j];
            LocalOk(n', j) && ServiceOk(n', j)
  {
    assert NodeOk(s, j);
    hide RequestOk, ServerOk, TargetOk, PendingOk, RaisedOk, AckOk, DaemonOk, MissesLast;
  }

  lemma SimCopy(s: State, j: nat, p: nat, cmd: nat, box: seq<nat>)
    requires Inv(s) && j < |s.nodes| && s.nodes[j].v == Copy(p, cmd, box) && p < |s.nodes|
    requires |box| <= ARG_WORDS == |s.nodes[p].slot.args|
    ensures Inv(Goto(s, j, if |box| < ARG_WORDS then Copy(p, cmd, box + [s.nodes[p].slot.args[|box|]])
                   else Execute(cmd, box)))
  {
    var s' := Goto(s, j, if |box| < ARG_WORDS then Copy(p, cmd, box + [s.nodes[p].slot.args[|box|]])
                   else Execute(cmd, box));
    assert NodeOk(s, j);
    CopyOwn(s, j, p, cmd, box);
    forall k | 0 <= k < |s'.nodes|
      ensures NodeOk(s', k)
    {
      assert NodeOk(s, k);
      hide LocalOk, ServiceOk;
    }
  }

  lemma SimExecute(s: State, j: nat, cmd: nat, box: seq<nat>, result: seq<nat>)
    requires Inv(s) && j < |s.nodes| && s.nodes[j].v == Execute(cmd, box) && |box| == ARG_WORDS
    requires |result| == ARG_WORDS - ADR_WORDS
    ensures Inv(Put(s, j, CarriedOut(s.nodes[j], cmd, box, result)))
  {
    var s' := Put(s, j, CarriedOut(s.nodes[j], cmd, box, result));
    assert NodeOk(s, j);
    forall k | 0 <= k < |s'.nodes|
      ensures NodeOk(s', k)
    {
      assert NodeOk(s, k);
      if k != j {
        hide LocalOk, ServiceOk, ServerOk;
      }
    }
  }

  lemma StoreOwn(s: State, j: nat, box: seq<nat>, w: nat)
    requires Inv(s) && j < |s.nodes| && s.nodes[j].v == Store(box, w)
    requires |box| == ARG_WORDS == |s.nodes[j].slot.args| && ADR_WORDS + w <= ARG_WORDS
    ensures var n' := Put(s, j, Stored(s.nodes[j], box, w)).nodes[j];
            LocalOk(n', j) && ServiceOk(n', j)
  {
    assert NodeOk(s, j);
    hide RequestOk, ServerOk, TargetOk, PendingOk, RaisedOk, AckOk, DaemonOk, MissesLast;
  }

  lemma SimStore(s: State, j: nat, box: seq<nat>, w: nat)
    requires Inv(s) && j < |s.nodes| && s.nodes[j].v == Store(box, w)
    requires |box| == ARG_WORDS == |s.nodes[j].slot.args| && ADR_WORDS + w <= ARG_WORDS
    ensures Inv(Put(s, j, Stored(s.nodes[j], box, w)))
  {
    var s' := Put(s, j, Stored(s.nodes[j], box, w));
    assert NodeOk(s, j);
    StoreOwn(s, j, box, w);
    forall k | 0 <= k < |s'.nodes|
      ensures NodeOk(s', k)
    {
      assert NodeOk(s, k);
      hide LocalOk, ServiceOk;
    }
  }

  lemma SimSendStatus(s: State, j: nat)
    requires Inv(s) && j < |s.nodes| && s.nodes[j].v == SendStatus
    ensures Inv(Put(s, j, s.nodes[j].(slot := s.nodes[j].slot.(cmdStatus := STATUS_SUCCESS), v := SendValid)))
  {
    var s' := Put(s, j, s.nodes[j].(slot := s.nodes[j].slot.(cmdStatus := STATUS_SUCCESS), v := SendValid));
    assert NodeOk(s, j);
    forall k | 0 <= k < |s'.nodes|
      ensures NodeOk(s', k)
    {
      assert NodeOk(s, k);
      if k != j {
        hide LocalOk, ServiceOk, ServerOk;
      }
    }
  }

  lemma SimSendValid(s: State, j: nat)
    requires Inv(s) && j < |s.nodes| && s.nodes[j].v == SendValid
    ensures Inv(Put(s, j, s.nodes[j].(slot := s.nodes[j].slot.(cmdValid := false), v := Poll)))
  {
    var s' := Put(s, j, s.nodes[j].(slot := s.nodes[j].slot.(cmdValid := false), v := Poll));
    assert NodeOk(s, j);
    forall k | 0 <= k < |s'.nodes|
      ensures NodeOk(s', k)
    {
      assert NodeOk(s, k);
      if k != j {
        hide LocalOk, ServiceOk, ServerOk;
      }
    }
  }
}
