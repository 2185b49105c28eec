/** The shared-memory mailbox between test threads, the simulator side and the system daemon,
    as a state machine whose steps read or write one shared field each. Every slot has a
    thread that issues commands and a simulator process that polls it; one daemon forwards
    remote print requests from a slot to its target. No lock is used anywhere. */
module Mailbox {
  import opened Common

  const SHIPC_PRINTF: nat := 0x20
  const SHIPC_SHUTDOWN: nat := 0x22
  const STATUS_INACTIVE: nat := 0
  const STATUS_PENDING: nat := 2
  const STATUS_SUCCESS: nat := 3

  /** The argument words of a slot: the two address words, then the eight parameters. */
  const ADR_WORDS: nat := 2
  const ARG_WORDS: nat := 10

  /** The shared fields of a slot. */
  datatype Slot = Slot(cmdValid: bool, cmdStatus: nat, cmd: nat, args: seq<nat>, str: string,
                       remoteFlag: bool, remoteCmdValid: bool, remoteReq: bool, remoteOffset: nat)

  /** Where the thread of a slot is. The target of an announced remote command is remembered
      here so that the invariant can speak about it; the code keeps it in the offset field. */
  datatype Thread =
    | User(remote: Option<nat>)                   // outside SendCmdNwait, may write arguments
    | FlagNext(target: nat)                       // SetRemoteFlag: offset written, flag not yet
    | PutCmd(cmd: nat, remote: Option<nat>)       // SendCmdNwait: status written
    | ReadFlag(cmd: nat, remote: Option<nat>)     // command written
    | PutValid(cmd: nat)
    | WaitLocal(cmd: nat)
    | ClearValid(target: nat)
    | RaiseFlag(target: nat)
    | PutRemoteValid(target: nat)
    | WaitRemoteValid(target: nat)
    | WaitRemoteFlag(target: nat)

  /** Where the simulator process of a slot is, in get_v2c_mail or send_v2c_mail. */
  datatype Sim =
    | Poll
    | PollRemote(local: bool)                     // mCmdValid was read
    | FetchOffset
    | FetchCmd(ptr: nat, remote: bool)
    | PrintStr(ptr: nat, remote: bool)
    | AckStatus(ptr: nat, remote: bool)
    | AckValid(ptr: nat, remote: bool)
    | AckReq
    | Copy(ptr: nat, cmd: nat, box: seq<nat>)     // copying arguments into the mail box
    | Execute(cmd: nat, box: seq<nat>)
    | Store(box: seq<nat>, k: nat)                // parameters below k are written back
    | SendStatus
    | SendValid

  datatype Daemon =
    | Scan
    | CheckValid(i: nat)
    | FetchTarget(i: nat)
    | CheckReq(i: nat, j: nat)
    | PutOffset(i: nat, j: nat)
    | PutReq(i: nat, j: nat)
    | ClearFlag(i: nat, j: nat)

  datatype Job = Printed(str: string) | Command(cmd: nat, args: seq<nat>)
  datatype Msg = Msg(server: nat, str: string)

  /** What happened so far at a slot: local jobs its thread issued and its simulator carried
      out, remote prints its thread sent and some simulator delivered, and the arguments left
      by the last executed command. */
  datatype History = History(issued: seq<Job>, executed: seq<Job>, sent: seq<Msg>, delivered: seq<Msg>,
                             answer: seq<nat>)

  datatype Node = Node(slot: Slot, t: Thread, v: Sim, h: History)
  datatype State = State(nodes: seq<Node>, d: Daemon)

  // ---------------------------------------------------------------- thread steps

  datatype ThreadAct = WriteArg(k: nat, value: nat) | WriteStr(str: string) | SetRemote(target: nat)
                     | Send(cmd: nat) | Go

  predicate HasTarget(t: Thread) {
    match t
    case User(r) => r.Some?
    case PutCmd(_, r) => r.Some?
    case ReadFlag(_, r) => r.Some?
    case PutValid(_) => false
    case WaitLocal(_) => false
    case _ => true
  }

  function TargetOf(t: Thread): nat
    requires HasTarget(t)
  {
    match t
    case User(r) => r.value
    case PutCmd(_, r) => r.value
    case ReadFlag(_, r) => r.value
    case FlagNext(j) => j
    case ClearValid(j) => j
    case RaiseFlag(j) => j
    case PutRemoteValid(j) => j
    case WaitRemoteValid(j) => j
    case WaitRemoteFlag(j) => j
  }

  /** The assumption under which remote commands work: when slot i announces target j, a
      target j that is itself a requester asks for i, and so does nobody but j. Two slots may
      target each other, and a slot itself. */
  predicate MayTarget(s: State, i: nat, j: nat) {
    && i < |s.nodes| && j < |s.nodes|
    && (j != i && HasTarget(s.nodes[j].t) ==> TargetOf(s.nodes[j].t) == i)
    && (forall k | 0 <= k < |s.nodes| && k != i && HasTarget(s.nodes[k].t) && TargetOf(s.nodes[k].t) == i :: k == j)
  }

  /** The actions that are possible where the thread is. */
  predicate ThreadCan(s: State, i: nat, act: ThreadAct)
    requires i < |s.nodes|
  {
    var t := s.nodes[i].t;
    match act
    case WriteArg(k, _) => t.User? && k < |s.nodes[i].slot.args|
    case WriteStr(_) => t.User?
    case SetRemote(j) => t.User? && j < |s.nodes|
    case Send(cmd) => t.User?
    case Go => !t.User?
  }

  /** What the users of the mailbox must respect: targets are chosen as MayTarget says, and
      remote commands are prints, since the simulator side never acknowledges other remote
      commands. */
  predicate Respects(s: State, i: nat, act: ThreadAct)
    requires i < |s.nodes|
  {
    match act
    case SetRemote(j) => MayTarget(s, i, j)
    case Send(cmd) => HasTarget(s.nodes[i].t) ==> cmd == SHIPC_PRINTF
    case _ => true
  }

  function JobOf(slot: Slot): Job {
    if slot.cmd == SHIPC_PRINTF then Printed(slot.str) else Command(slot.cmd, slot.args)
  }

  /** A step of the thread of a slot; it touches only its own slot. */
  function ThreadStep(n: Node, act: ThreadAct): Node
    requires act.WriteArg? ==> act.k < |n.slot.args|
    requires !act.Go? ==> n.t.User?
  {
    var slot := n.slot;
    match act
    case WriteArg(k, x) => n.(slot := slot.(args := slot.args[k := x]))
    case WriteStr(str) => n.(slot := slot.(str := str))
    case SetRemote(j) => n.(slot := slot.(remoteOffset := j), t := FlagNext(j))
    case Send(cmd) => n.(slot := slot.(cmdStatus := STATUS_PENDING), t := PutCmd(cmd, n.t.remote))
    case Go =>
      match n.t
      case User(_) => n
      case FlagNext(j) => n.(slot := slot.(remoteFlag := true), t := User(Some(j)))
      case PutCmd(cmd, r) => n.(slot := slot.(cmd := cmd), t := ReadFlag(cmd, r))
      case ReadFlag(cmd, r) =>
        n.(t := if !slot.remoteFlag then PutValid(cmd)
                else ClearValid(if r.Some? then r.value else slot.remoteOffset))
      case PutValid(cmd) =>
        n.(slot := slot.(cmdValid := true), t := WaitLocal(cmd),
           h := n.h.(issued := n.h.issued + [JobOf(slot)]))
      case WaitLocal(_) => if slot.cmdValid then n else n.(t := User(None))
      case ClearValid(j) => n.(slot := slot.(cmdValid := false), t := RaiseFlag(j))
      case RaiseFlag(j) => n.(slot := slot.(remoteFlag := true), t := PutRemoteValid(j))
      case PutRemoteValid(j) =>
        n.(slot := slot.(remoteCmdValid := true), t := WaitRemoteValid(j),
           h := n.h.(sent := n.h.sent + [Msg(j, slot.str)]))
      case WaitRemoteValid(j) => if slot.remoteCmdValid then n else n.(t := WaitRemoteFlag(j))
      case WaitRemoteFlag(j) => n.(t := if slot.remoteFlag then WaitRemoteValid(j) else User(None))
  }

  // ---------------------------------------------------------------- simulator steps

  /** The pointers a simulator process dereferences are slots. */
  predicate SimCan(s: State, j: nat) {
    && j < |s.nodes|
    && match s.nodes[j].v
       case FetchCmd(ptr, _) => ptr < |s.nodes|
       case PrintStr(ptr, _) => ptr < |s.nodes|
       case AckStatus(ptr, _) => ptr < |s.nodes|
       case AckValid(ptr, _) => ptr < |s.nodes|
       case Copy(ptr, _, box) => ptr < |s.nodes| && |box| <= ARG_WORDS == |s.nodes[ptr].slot.args|
       case Execute(_, box) => |box| == ARG_WORDS
       case Store(box, k) => |box| == ARG_WORDS == |s.nodes[j].slot.args| && ADR_WORDS + k <= ARG_WORDS
       case _ => true
  }

  function Put(s: State, j: nat, n: Node): State
    requires j < |s.nodes|
  {
    s.(nodes := s.nodes[j := n])
  }

  function Goto(s: State, j: nat, v: Sim): State
    requires j < |s.nodes|
  {
    Put(s, j, s.nodes[j].(v := v))
  }

  /** A command that is no print is taken up; a shutdown marks its slot inactive. */
  function Taken(s: State, j: nat, ptr: nat): State
    requires j < |s.nodes| && ptr < |s.nodes|
  {
    var p := s.nodes[ptr];
    var p' := if p.slot.cmd == SHIPC_SHUTDOWN then p.(slot := p.slot.(cmdStatus := STATUS_INACTIVE)) else p;
    Goto(Put(s, ptr, p'), j, Copy(ptr, p.slot.cmd, []))
  }

  function StringShown(s: State, j: nat, ptr: nat, remote: bool): State
    requires j < |s.nodes| && ptr < |s.nodes|
  {
    var p := s.nodes[ptr];
    var h := if remote then p.h.(delivered := p.h.delivered + [Msg(j, p.slot.str)])
             else p.h.(executed := p.h.executed + [Printed(p.slot.str)]);
    Goto(Put(s, ptr, p.(h := h)), j, AckStatus(ptr, remote))
  }

  function StatusAcked(s: State, j: nat, ptr: nat, remote: bool): State
    requires j < |s.nodes| && ptr < |s.nodes|
  {
    var p := s.nodes[ptr];
    Goto(Put(s, ptr, p.(slot := p.slot.(cmdStatus := STATUS_SUCCESS))), j, AckValid(ptr, remote))
  }

  function ValidAcked(s: State, j: nat, ptr: nat, remote: bool): State
    requires j < |s.nodes| && ptr < |s.nodes|
  {
    var p := s.nodes[ptr];
    if remote then Goto(Put(s, ptr, p.(slot := p.slot.(remoteCmdValid := false))), j, AckReq)
    else Goto(Put(s, ptr, p.(slot := p.slot.(cmdValid := false))), j, Poll)
  }

  function CarriedOut(n: Node, cmd: nat, box: seq<nat>, result: seq<nat>): Node
    requires ADR_WORDS <= |box|
  {
    var answer := box[..ADR_WORDS] + result;
    n.(h := n.h.(executed := n.h.executed + [Command(cmd, box)], answer := answer), v := Store(answer, 0))
  }

  function Stored(n: Node, box: seq<nat>, k: nat): Node
    requires |box| == ARG_WORDS == |n.slot.args| && ADR_WORDS + k <= ARG_WORDS
  {
    if ADR_WORDS + k < ARG_WORDS then
      n.(slot := n.slot.(args := n.slot.args[ADR_WORDS + k := box[ADR_WORDS + k]]), v := Store(box, k + 1))
    else n.(v := SendStatus)
  }

  /** A step of the simulator process of slot j. The words a command returns are the choice of
      the simulated hardware. */
  function SimStep(s: State, j: nat, result: seq<nat>): State
    requires SimCan(s, j) && |result| == ARG_WORDS - ADR_WORDS
  {
    var n := s.nodes[j];
    match n.v
    case Poll => Goto(s, j, PollRemote(n.slot.cmdValid))
    case PollRemote(local) =>
      Goto(s, j, if n.slot.remoteReq then FetchOffset else if local then FetchCmd(j, false) else Poll)
    case FetchOffset => Goto(s, j, FetchCmd(n.slot.remoteOffset, true))
    case FetchCmd(ptr, remote) =>
      if s.nodes[ptr].slot.cmd == SHIPC_PRINTF then Goto(s, j, PrintStr(ptr, remote)) else Taken(s, j, ptr)
    case PrintStr(ptr, remote) => StringShown(s, j, ptr, remote)
    case AckStatus(ptr, remote) => StatusAcked(s, j, ptr, remote)
    case AckValid(ptr, remote) => ValidAcked(s, j, ptr, remote)
    case AckReq => Put(s, j, n.(slot := n.slot.(remoteReq := false), v := Poll))
    case Copy(ptr, cmd, box) =>
      Goto(s, j, if |box| < ARG_WORDS then Copy(ptr, cmd, box + [s.nodes[ptr].slot.args[|box|]])
                 else Execute(cmd, box))
    case Execute(cmd, box) => Put(s, j, CarriedOut(n, cmd, box, result))
    case Store(box, k) => Put(s, j, Stored(n, box, k))
    case SendStatus => Put(s, j, n.(slot := n.slot.(cmdStatus := STATUS_SUCCESS), v := SendValid))
    case SendValid => Put(s, j, n.(slot := n.slot.(cmdValid := false), v := Poll))
  }

  // ---------------------------------------------------------------- daemon steps

  predicate DaemonCan(s: State, pick: nat) {
    match s.d
    case Scan => pick < |s.nodes|
    case CheckValid(i) => i < |s.nodes|
    case FetchTarget(i) => i < |s.nodes|
    case CheckReq(i, j) => i < |s.nodes| && j < |s.nodes|
    case PutOffset(i, j) => i < |s.nodes| && j < |s.nodes|
    case PutReq(i, j) => i < |s.nodes| && j < |s.nodes|
    case ClearFlag(i, j) => i < |s.nodes| && j < |s.nodes|
  }

  /** A step of the daemon; pick is the slot its scan looks at next. */
  function DaemonStep(s: State, pick: nat): State
    requires DaemonCan(s, pick)
  {
    match s.d
    case Scan => s.(d := if s.nodes[pick].slot.remoteFlag then CheckValid(pick) else Scan)
    case CheckValid(i) => s.(d := if s.nodes[i].slot.remoteCmdValid then FetchTarget(i) else Scan)
    case FetchTarget(i) => s.(d := CheckReq(i, s.nodes[i].slot.remoteOffset))
    case CheckReq(i, j) => s.(d := if s.nodes[j].slot.remoteReq then Scan else PutOffset(i, j))
    case PutOffset(i, j) =>
      var n := s.nodes[j];
      Put(s, j, n.(slot := n.slot.(remoteOffset := i))).(d := PutReq(i, j))
    case PutReq(i, j) =>
      var n := s.nodes[j];
      Put(s, j, n.(slot := n.slot.(remoteReq := true))).(d := ClearFlag(i, j))
    case ClearFlag(i, j) =>
      var n := s.nodes[i];
      Put(s, i, n.(slot := n.slot.(remoteFlag := false))).(d := Scan)
  }

  // ---------------------------------------------------------------- runs

  datatype Step = ByThread(i: nat, act: ThreadAct) | BySim(j: nat, result: seq<nat>) | ByDaemon(pick: nat)

  /** A freshly initialised slot with its thread and its simulator process at rest. */
  predicate InitNode(n: Node) {
    && n.t == User(None) && n.v == Poll
    && |n.slot.args| == ARG_WORDS && |n.h.answer| == ARG_WORDS
    && !n.slot.cmdValid && !n.slot.remoteFlag && !n.slot.remoteCmdValid && !n.slot.remoteReq
    && n.h.issued == n.h.executed == [] && n.h.sent == n.h.delivered == []
  }

  predicate Init(s: State) {
    s.d == Scan && (forall i | 0 <= i < |s.nodes| :: InitNode(s.nodes[i]))
  }

  predicate Possible(s: State, step: Step) {
    match step
    case ByThread(i, act) => i < |s.nodes| && ThreadCan(s, i, act)
    case BySim(j, result) => SimCan(s, j) && |result| == ARG_WORDS - ADR_WORDS
    case ByDaemon(pick) => DaemonCan(s, pick)
  }

  predicate Enabled(s: State, step: Step) {
    Possible(s, step) && (step.ByThread? ==> Respects(s, step.i, step.act))
  }

  function Apply(s: State, step: Step): State
    requires Possible(s, step)
  {
    match step
    case ByThread(i, act) => Put(s, i, ThreadStep(s.nodes[i], act))
    case BySim(j, result) => SimStep(s, j, result)
    case ByDaemon(pick) => DaemonStep(s, pick)
  }

  /** Any interleaving of steps from a fresh start. */
  ghost predicate IsRun(run: seq<State>, steps: seq<Step>) {
    && |run| == |steps| + 1 && Init(run[0])
    && (forall k | 0 <= k < |steps| :: Enabled(run[k], steps[k]) && run[k + 1] == Apply(run[k], steps[k]))
  }
}
