/** Source-port steering as a transition system: any number of request tasks, each of which may steer
    after it has an answer, and the response router. Every lock operation and every access to shared
    state is a step of its own, and steps interleave arbitrarily. */
module Steering {
  import opened Prelude
  import opened FairLock

  const ROUTER: Who := -1
  const EPOCHS: nat := 0x1_0000_0000_0000_0000

  /** request_activity, steering_apply_lock, steering_stats, socket_epoch_ready, socket. */
  datatype LockId = Activity | Apply | Stats | Ready | Sock

  datatype Locks = Locks(activity: Lock, apply: Lock, stats: Lock, ready: Lock, sock: Lock)
  {
    function Get(id: LockId): Lock {
      match id
      case Activity => activity
      case Apply => apply
      case Stats => stats
      case Ready => ready
      case Sock => sock
    }

    function Set(id: LockId, l: Lock): Locks {
      match id
      case Activity => this.(activity := l)
      case Apply => this.(apply := l)
      case Stats => this.(stats := l)
      case Ready => this.(ready := l)
      case Sock => this.(sock := l)
    }
  }

  /** Where a task is. `Want*` waits for a lock, `Enter*` is about to queue for one. */
  datatype Pc =
    | Idle | WantActivity | Active | WantSocket | Sending                     // the request
    | Store | EnterApply | WantApply | CheckPending                           // an advisory
    | EnterWrite | WantWrite | ClearPending
    | EnterStats | WantStats | EnterPort | WantPort | ReadPort | Binding      // a rebind attempt
    | EnterReady | WantReady | EnterSwap | WantSwap | Swap | Bump | DropSocket | AwaitAck
    | LeaveReady | LeaveStats | LeaveWrite | LeaveApply
    | Done

  /** A request task: transmissions it may still make, its local next_epoch, and as history when it stored
      its advisory and which socket was the shared one then. */
  datatype Task = Task(pc: Pc, sends: nat, nextEpoch: nat, storedAt: Option<nat>, storedSocket: nat)

  datatype RouterPc = RStart | RWant | RRead | RPublish | RSelect

  /** The router's snapshot: the socket it receives on, the epoch it took with it, and the last watch
      version it has seen. */
  datatype Router = Router(pc: RouterPc, activeSocket: nat, activeEpoch: nat, seen: nat)

  /** History: one rebind attempt, started when its task cleared `steering_pending` with `base` as the shared
      socket; the socket it installed, if it came that far, and whether local_addr or bind failed. */
  datatype Attempt = Attempt(
    task: nat, clearedAt: nat, base: nat, installed: Option<nat>, failed: bool, finished: bool)

  /** `socket` numbers the shared sockets in order of installation and `version` counts the epoch's
      publications; the epoch itself is `version` modulo 2^64. `now`, `stores`, `attempts` and
      `ackedVersion` are history. */
  datatype State = State(
    tasks: seq<Task>, router: Router, locks: Locks,
    socket: nat, version: nat, ready: nat, pending: bool,
    now: nat, stores: nat, attempts: seq<Attempt>, ackedVersion: nat)

  function Epoch(version: nat): nat { version % EPOCHS }

  /** What the environment decides: whether a request sends again, how it ends, whether local_addr and
      bind succeed, and whether the router's select sees a datagram or an epoch change. */
  datatype Choice = Go | Send | EndQuietly | EndAdvised | Fail

  datatype Action = TaskStep(t: nat, choice: Choice) | RouterStep | RouterReceive

  datatype Op = Local | EnterOp(id: LockId, exclusive: bool) | AcquireOp(id: LockId) | ReleaseOp(id: LockId)

  // ---------------------------------------------------------------- the steps

  /** What a task's next step depends on besides its control point: whether it may send again, the
      pending flag, and whether the router has acknowledged the task's epoch. */
  datatype View = View(maySend: bool, pending: bool, acked: bool)

  function ViewOf(s: State, task: Task): View {
    View(task.sends > 0, s.pending, s.ready == task.nextEpoch)
  }

  /** Whether the choice applies at the control point, lock waits aside. */
  predicate Applies(pc: Pc, view: View, c: Choice) {
    match pc
    case Active => c.EndQuietly? || c.EndAdvised? || (c.Send? && view.maySend)
    case ReadPort | Binding => c.Go? || c.Fail?
    case AwaitAck => c.Go? && view.acked
    case Done => false
    case _ => c.Go?
  }

  /** The control point an applicable choice leads to. */
  function Target(pc: Pc, view: View, c: Choice): Pc {
    match pc
    case Idle => WantActivity
    case WantActivity => Active
    case Active => if c.Send? then WantSocket else if c.EndAdvised? then Store else Done
    case WantSocket => Sending
    case Sending => Active
    case Store => EnterApply
    case EnterApply => WantApply
    case WantApply => CheckPending
    case CheckPending => if view.pending then EnterWrite else LeaveApply
    case EnterWrite => WantWrite
    case WantWrite => ClearPending
    case ClearPending => if view.pending then EnterStats else LeaveWrite
    case EnterStats => WantStats
    case WantStats => EnterPort
    case EnterPort => WantPort
    case WantPort => ReadPort
    case ReadPort => if c.Fail? then LeaveStats else Binding
    case Binding => if c.Fail? then LeaveStats else EnterReady
    case EnterReady => WantReady
    case WantReady => EnterSwap
    case EnterSwap => WantSwap
    case WantSwap => Swap
    case Swap => Bump
    case Bump => DropSocket
    case DropSocket => AwaitAck
    case AwaitAck => LeaveReady
    case LeaveReady => LeaveStats
    case LeaveStats => LeaveWrite
    case LeaveWrite => LeaveApply
    case LeaveApply | Done => Done
  }

  /** The lock operation of an applicable choice. */
  function OpAt(pc: Pc, c: Choice): Op {
    match pc
    case Idle => EnterOp(Activity, false)
    case WantActivity | WantWrite => AcquireOp(Activity)
    case Active => if c.Send? then EnterOp(Sock, false) else ReleaseOp(Activity)
    case WantSocket | WantPort | WantSwap => AcquireOp(Sock)
    case Sending | ReadPort | DropSocket => ReleaseOp(Sock)
    case EnterApply => EnterOp(Apply, true)
    case WantApply => AcquireOp(Apply)
    case EnterWrite => EnterOp(Activity, true)
    case EnterStats => EnterOp(Stats, true)
    case WantStats => AcquireOp(Stats)
    case EnterPort => EnterOp(Sock, false)
    case EnterReady => EnterOp(Ready, true)
    case WantReady => AcquireOp(Ready)
    case EnterSwap => EnterOp(Sock, true)
    case LeaveReady => ReleaseOp(Ready)
    case LeaveStats => ReleaseOp(Stats)
    case LeaveWrite => ReleaseOp(Activity)
    case LeaveApply => ReleaseOp(Apply)
    case _ => Local
  }

  /** The lock table after an operation by w; None while w must wait. */
  function Perform(locks: Locks, op: Op, w: Who): Option<Locks> {
    match op
    case Local => Some(locks)
    case EnterOp(id, exclusive) => Some(locks.Set(id, Enter(locks.Get(id), w, exclusive)))
    case AcquireOp(id) =>
      if CanAcquire(locks.Get(id), w) then Some(locks.Set(id, Acquire(locks.Get(id), w))) else None
    case ReleaseOp(id) => Some(locks.Set(id, Release(locks.Get(id), w)))
  }

  /** The record of the attempt in progress after its task's step from `pc` to `target`. */
  function Advanced(a: Attempt, pc: Pc, target: Pc, socket: nat): Attempt {
    if pc.Swap? then a.(installed := Some(socket + 1))
    else if (pc.ReadPort? || pc.Binding?) && target.LeaveStats? then a.(failed := true)
    else if pc.LeaveStats? then a.(finished := true)
    else a
  }

  function AttemptsAfter(s: State, t: nat, pc: Pc, target: Pc): seq<Attempt> {
    if pc.ClearPending? && s.pending then s.attempts + [Attempt(t, s.now + 1, s.socket, None, false, false)]
    else
      seq(|s.attempts|, i requires 0 <= i < |s.attempts| =>
        if s.attempts[i].task == t && !s.attempts[i].finished then Advanced(s.attempts[i], pc, target, s.socket)
        else s.attempts[i])
  }

  /** The change of shared state made by the step that takes task t from its control point to `pc`. */
  function Effect(s: State, t: nat, pc: Pc): State
    requires t < |s.tasks|
  {
    var task := s.tasks[t].(pc := pc);
    var clock := s.(now := s.now + 1, attempts := AttemptsAfter(s, t, s.tasks[t].pc, pc));
    match s.tasks[t].pc
    case Active =>
      clock.(tasks := s.tasks[t := if pc == WantSocket && task.sends > 0 then task.(sends := task.sends - 1) else task])
    case Store =>
      clock.(tasks := s.tasks[t := task.(storedAt := Some(s.now + 1), storedSocket := s.socket)], pending := true,
             stores := s.stores + 1)
    case ClearPending => clock.(tasks := s.tasks[t := task], pending := false)
    case Swap => clock.(tasks := s.tasks[t := task], socket := s.socket + 1)
    case Bump => clock.(tasks := s.tasks[t := task.(nextEpoch := Epoch(s.version + 1))], version := s.version + 1)
    case _ => clock.(tasks := s.tasks[t := task])
  }

  function TaskNext(s: State, t: nat, c: Choice): Option<State> {
    if t >= |s.tasks| then None
    else
      var pc, view := s.tasks[t].pc, ViewOf(s, s.tasks[t]);
      if !Applies(pc, view, c) then None
      else
        match Perform(s.locks, OpAt(pc, c), t)
        case None => None
        case Some(locks) => Some(Effect(s, t, Target(pc, view, c)).(locks := locks))
  }

  function RouterOp(pc: RouterPc): Op {
    match pc
    case RStart => EnterOp(Sock, false)
    case RWant => AcquireOp(Sock)
    case RRead => ReleaseOp(Sock)
    case _ => Local
  }

  /** One pass of the router's loop: queue for the socket, read it together with the epoch, publish the
      epoch, then select. `receive` is the arrival of a datagram. */
  function RouterNext(s: State, receive: bool): Option<State> {
    var r := s.router;
    if receive != (r.pc == RSelect && receive) then None
    else
      match Perform(s.locks, RouterOp(r.pc), ROUTER)
      case None => None
      case Some(locks) =>
        var k := s.(locks := locks, now := s.now + 1);
        match r.pc
        case RStart => Some(k.(router := r.(pc := RWant)))
        case RWant => Some(k.(router := r.(pc := RRead)))
        case RRead => Some(k.(router := Router(RPublish, s.socket, Epoch(s.version), s.version)))
        case RPublish => Some(k.(router := r.(pc := RSelect), ready := r.activeEpoch, ackedVersion := r.seen))
        case RSelect =>
          if receive || r.seen != s.version then Some(k.(router := r.(pc := RStart))) else None
  }

  function Step(s: State, a: Action): Option<State> {
    match a
    case TaskStep(t, c) => TaskNext(s, t, c)
    case RouterStep => RouterNext(s, false)
    case RouterReceive => RouterNext(s, true)
  }

  ghost predicate Initial(s: State) {
    && (forall t :: 0 <= t < |s.tasks| ==> s.tasks[t].pc == Idle && s.tasks[t].storedAt == None)
    && s.router == Router(RStart, 0, 0, 0)
    && s.locks == Locks(FREE, FREE, FREE, FREE, FREE)
    && s.socket == 0 && s.version == 0 && s.ready == 0 && !s.pending
    && s.now == 0 && s.stores == 0 && s.attempts == [] && s.ackedVersion == 0
  }

  // ---------------------------------------------------------------- which locks each control point holds

  /** Control points in program order: a guard is held over an interval of it. */
  function Stage(pc: Pc): nat {
    match pc
    case Idle => 0 case WantActivity => 1 case Active => 2 case WantSocket => 3
    case Sending => 4 case Store => 5 case EnterApply => 6 case WantApply => 7
    case CheckPending => 8 case EnterWrite => 9 case WantWrite => 10 case ClearPending => 11
    case EnterStats => 12 case WantStats => 13 case EnterPort => 14 case WantPort => 15
    case ReadPort => 16 case Binding => 17 case EnterReady => 18 case WantReady => 19
    case EnterSwap => 20 case WantSwap => 21 case Swap => 22 case Bump => 23
    case DropSocket => 24 case AwaitAck => 25 case LeaveReady => 26 case LeaveStats => 27
    case LeaveWrite => 28 case LeaveApply => 29 case Done => 30
  }

  function StandingAt(pc: Pc, id: LockId): Standing {
    StandingAtStage(Stage(pc), id)
  }

  function StandingAtStage(n: nat, id: LockId): Standing {
    match id
    case Activity =>
      if n == 1 then WaitsShared else if 2 <= n <= 4 then Shares
      else if n == 10 then WaitsExclusive else if 11 <= n <= 28 then Owns else Away
    case Apply => if n == 7 then WaitsExclusive else if 8 <= n <= 29 then Owns else Away
    case Stats => if n == 13 then WaitsExclusive else if 14 <= n <= 27 then Owns else Away
    case Ready => if n == 19 then WaitsExclusive else if 20 <= n <= 26 then Owns else Away
    case Sock =>
      if n == 3 || n == 15 then WaitsShared else if n == 4 || n == 16 then Shares
      else if n == 21 then WaitsExclusive else if 22 <= n <= 24 then Owns else Away
  }

  /** Holding the apply lock, the activity write guard, steering_stats. */
  predicate Applying(pc: Pc) { 8 <= Stage(pc) <= 29 }

  predicate Writing(pc: Pc) { 11 <= Stage(pc) <= 28 }

  predicate Attempting(pc: Pc) { 12 <= Stage(pc) <= 27 }

  predicate InRequest(pc: Pc) { StandingAt(pc, Activity) == Shares }

  function Expected(s: State, w: Who, id: LockId): Standing {
    if 0 <= w < |s.tasks| then StandingAt(s.tasks[w].pc, id)
    else if w == ROUTER && id == Sock then
      if s.router.pc == RWant then WaitsShared else if s.router.pc == RRead then Shares else Away
    else Away
  }

  /** Every lock's holders and waiters are exactly those the control points say. */
  ghost predicate LocksAgree(s: State) {
    forall id: LockId :: LockAgrees(s, id)
  }

  ghost predicate LockAgrees(s: State, id: LockId) {
    Sound(s.locks.Get(id)) && forall w :: StandingOf(s.locks.Get(id), w) == Expected(s, w, id)
  }

  function After(op: Op, id: LockId, before: Standing): Standing {
    match op
    case Local => before
    case EnterOp(i, exclusive) => if i != id then before else if exclusive then WaitsExclusive else WaitsShared
    case AcquireOp(i) => if i != id then before else if before == WaitsExclusive then Owns else Shares
    case ReleaseOp(i) => if i != id then before else Away
  }

  predicate OpAllowed(op: Op, pc: Pc) {
    match op
    case Local => true
    case EnterOp(id, _) => StandingAt(pc, id) == Away
    case AcquireOp(id) => StandingAt(pc, id).Waits()
    case ReleaseOp(id) => StandingAt(pc, id).Holds()
  }

  ghost predicate RowAgrees(pc: Pc, view: View, c: Choice, id: LockId) {
    OpAllowed(OpAt(pc, c), pc) && StandingAt(Target(pc, view, c), id) == After(OpAt(pc, c), id, StandingAt(pc, id))
  }

  lemma RequestRows(pc: Pc, view: View, c: Choice, id: LockId)
    requires 0 <= Stage(pc) <= 4 && Applies(pc, view, c)
    ensures RowAgrees(pc, view, c, id)
  {}

  lemma AdvisoryRows(pc: Pc, view: View, c: Choice, id: LockId)
    requires 5 <= Stage(pc) <= 8 && Applies(pc, view, c)
    ensures RowAgrees(pc, view, c, id)
  {}

  lemma WriteRows(pc: Pc, view: View, c: Choice, id: LockId)
    requires 9 <= Stage(pc) <= 13 && Applies(pc, view, c)
    ensures RowAgrees(pc, view, c, id)
  {}

  lemma PortRows(pc: Pc, view: View, c: Choice, id: LockId)
    requires 14 <= Stage(pc) <= 17 && Applies(pc, view, c)
    ensures RowAgrees(pc, view, c, id)
  {}

  lemma ReadyRows(pc: Pc, view: View, c: Choice, id: LockId)
    requires 18 <= Stage(pc) <= 21 && Applies(pc, view, c)
    ensures RowAgrees(pc, view, c, id)
  {}

  lemma SwapRows(pc: Pc, view: View, c: Choice, id: LockId)
    requires 22 <= Stage(pc) <= 25 && Applies(pc, view, c)
    ensures RowAgrees(pc, view, c, id)
  {}

  lemma LeaveRows(pc: Pc, view: View, c: Choice, id: LockId)
    requires 26 <= Stage(pc) <= 30 && Applies(pc, view, c)
    ensures RowAgrees(pc, view, c, id)
  {}

  /** The lock operation of every step is the one its two control points call for. */
  lemma TableAgrees(pc: Pc, view: View, c: Choice, id: LockId)
    requires Applies(pc, view, c)
    ensures RowAgrees(pc, view, c, id)
  {
    var n := Stage(pc);
    assert n <= 30;
    hide RowAgrees, Applies, Stage;
    if n <= 4 { RequestRows(pc, view, c, id); }
    else if n <= 8 { AdvisoryRows(pc, view, c, id); }
    else if n <= 13 { WriteRows(pc, view, c, id); }
    else if n <= 17 { PortRows(pc, view, c, id); }
    else if n <= 21 { ReadyRows(pc, view, c, id); }
    else if n <= 25 { SwapRows(pc, view, c, id); }
    else { LeaveRows(pc, view, c, id); }
  }

  lemma PerformMoves(locks: Locks, op: Op, w: Who, id: LockId)
    requires Perform(locks, op, w).Some? && Sound(locks.Get(id))
    requires op.EnterOp? && op.id == id ==> StandingOf(locks.Get(id), w) == Away
    requires op.ReleaseOp? && op.id == id ==> StandingOf(locks.Get(id), w).Holds()
    ensures var k := Perform(locks, op, w).value.Get(id);
            MovesOnly(locks.Get(id), k, w, After(op, id, StandingOf(locks.Get(id), w)))
  {
    var l := locks.Get(id);
    match op
    case Local =>
    case EnterOp(i, exclusive) => if i == id { EnterMoves(l, w, exclusive); }
    case AcquireOp(i) => if i == id { AcquireMoves(l, w); }
    case ReleaseOp(i) => if i == id { ReleaseMoves(l, w); }
  }

  lemma EffectTasks(s: State, t: nat, pc: Pc)
    requires t < |s.tasks|
    ensures var k := Effect(s, t, pc);
            |k.tasks| == |s.tasks| && k.tasks[t].pc == pc && k.router == s.router && k.now == s.now + 1
            && forall u :: 0 <= u < |s.tasks| && u != t ==> k.tasks[u] == s.tasks[u]
  {}

  lemma TaskKeepsLocks(s: State, t: nat, c: Choice)
    requires LocksAgree(s) && TaskNext(s, t, c).Some?
    ensures LocksAgree(TaskNext(s, t, c).value)
  {
    var pc, view := s.tasks[t].pc, ViewOf(s, s.tasks[t]);
    var k := TaskNext(s, t, c).value;
    EffectTasks(s, t, Target(pc, view, c));
    hide Applies, Target, OpAt, Effect, Perform, StandingOf, StandingAt, Sound;
    forall id ensures LockAgrees(k, id) {
      TableAgrees(pc, view, c, id);
      assert LockAgrees(s, id);
      PerformMoves(s.locks, OpAt(pc, c), t, id);
    }
  }

  lemma RouterKeepsLocks(s: State, receive: bool)
    requires LocksAgree(s) && RouterNext(s, receive).Some?
    ensures LocksAgree(RouterNext(s, receive).value)
  {
    var k := RouterNext(s, receive).value;
    forall id ensures LockAgrees(k, id) {
      assert LockAgrees(s, id);
      PerformMoves(s.locks, RouterOp(s.router.pc), ROUTER, id);
    }
  }

  lemma ApplierAlone(s: State, t: nat, u: nat)
    requires LocksAgree(s) && t < |s.tasks| && u < |s.tasks| && t != u && Applying(s.tasks[t].pc)
    ensures !Applying(s.tasks[u].pc)
  {
    assert LockAgrees(s, Apply);
    assert StandingOf(s.locks.apply, t) == Expected(s, t, Apply) == Owns;
    assert StandingOf(s.locks.apply, u) == Expected(s, u, Apply);
    Exclusion(s.locks.apply, u, t);
  }

  /** No request holds the activity guard while a steerer holds it for writing. */
  lemma WriterExcludesRequests(s: State, t: nat, u: nat)
    requires LocksAgree(s) && t < |s.tasks| && u < |s.tasks| && Writing(s.tasks[t].pc)
    ensures !InRequest(s.tasks[u].pc)
  {
    if u != t {
      assert LockAgrees(s, Activity);
      assert StandingOf(s.locks.activity, t) == Expected(s, t, Activity) == Owns;
      assert StandingOf(s.locks.activity, u) == Expected(s, u, Activity);
      Exclusion(s.locks.activity, u, t);
    }
  }

  lemma ReaderExcludesSwap(s: State, t: nat)
    requires LocksAgree(s) && t < |s.tasks| && s.router.pc == RRead
    ensures !s.tasks[t].pc.Bump?
  {
    if s.tasks[t].pc.Bump? {
      assert LockAgrees(s, Sock);
      assert StandingOf(s.locks.sock, t) == Expected(s, t, Sock) == Owns;
      assert StandingOf(s.locks.sock, ROUTER) == Expected(s, ROUTER, Sock) == Shares;
      Exclusion(s.locks.sock, ROUTER, t);
    }
  }

  // ---------------------------------------------------------------- socket and epoch are published together

  predicate Unacked(pc: Pc) { pc.DropSocket? || pc.AwaitAck? }

  ghost predicate SocketMatches(s: State) {
    && (forall t :: 0 <= t < |s.tasks| && s.tasks[t].pc.Bump? ==> s.socket == s.version + 1)
    && ((forall t :: 0 <= t < |s.tasks| ==> !s.tasks[t].pc.Bump?) ==> s.socket == s.version)
  }

  ghost predicate AckMatches(s: State) {
    && s.ready == Epoch(s.ackedVersion) && s.version - 1 <= s.ackedVersion <= s.version
    && ((forall t :: 0 <= t < |s.tasks| ==> !Unacked(s.tasks[t].pc)) ==> s.ackedVersion == s.version)
    && (forall t :: 0 <= t < |s.tasks| && Unacked(s.tasks[t].pc) ==> s.tasks[t].nextEpoch == Epoch(s.version))
  }

  ghost predicate RouterMatches(s: State) {
    var r := s.router;
    && r.seen <= s.version
    && (r.pc.RPublish? || r.pc.RSelect? ==>
          r.activeSocket == r.seen && r.activeEpoch == Epoch(r.seen) && s.ackedVersion <= r.seen)
    && (r.pc.RSelect? ==> s.ackedVersion == r.seen)
  }

  ghost predicate Published(s: State) {
    SocketMatches(s) && AckMatches(s) && RouterMatches(s)
  }

  /** Neighbouring epochs differ, so an acknowledged epoch is the acknowledged publication. */
  lemma EpochsDistinct(a: nat, b: nat)
    requires a <= b <= a + 1 && Epoch(a) == Epoch(b)
    ensures a == b
  {}

  /** What a task's step does to everything the publication invariant speaks of. */
  lemma TaskStepShared(s: State, t: nat, c: Choice)
    requires TaskNext(s, t, c).Some?
    ensures t < |s.tasks| && Applies(s.tasks[t].pc, ViewOf(s, s.tasks[t]), c)
    ensures var k, pc := TaskNext(s, t, c).value, s.tasks[t].pc;
            && |k.tasks| == |s.tasks| && k.tasks[t].pc == Target(pc, ViewOf(s, s.tasks[t]), c)
            && (forall u :: 0 <= u < |s.tasks| && u != t ==> k.tasks[u] == s.tasks[u])
            && k.router == s.router && k.ready == s.ready && k.ackedVersion == s.ackedVersion
            && k.socket == (if pc.Swap? then s.socket + 1 else s.socket)
            && k.version == (if pc.Bump? then s.version + 1 else s.version)
            && k.tasks[t].nextEpoch == (if pc.Bump? then Epoch(k.version) else s.tasks[t].nextEpoch)
  {
    hide Applies, Target, OpAt, Perform;
  }

  lemma TargetUnacked(pc: Pc, view: View, c: Choice)
    requires Applies(pc, view, c)
    ensures Target(pc, view, c).Bump? <==> pc.Swap?
    ensures Unacked(Target(pc, view, c)) <==> pc.Bump? || pc.DropSocket?
    ensures pc.AwaitAck? ==> view.acked
  {}

  /** What the other tasks can be doing while one takes a step: nothing of theirs changes, and beside an
      applying task none is about to publish or waiting for its acknowledgement. */
  lemma OthersStand(s: State, t: nat, c: Choice, u: nat)
    requires LocksAgree(s) && TaskNext(s, t, c).Some? && u < |s.tasks| && u != t
    ensures |TaskNext(s, t, c).value.tasks| == |s.tasks| && TaskNext(s, t, c).value.tasks[u] == s.tasks[u]
    ensures Applying(s.tasks[t].pc) ==> !s.tasks[u].pc.Bump? && !Unacked(s.tasks[u].pc)
  {
    TaskStepShared(s, t, c);
    if Applying(s.tasks[t].pc) {
      ApplierAlone(s, t, u);
    }
  }

  lemma TaskKeepsSocket(s: State, t: nat, c: Choice)
    requires LocksAgree(s) && Published(s) && TaskNext(s, t, c).Some?
    ensures SocketMatches(TaskNext(s, t, c).value)
  {
    TaskStepShared(s, t, c);
    TargetUnacked(s.tasks[t].pc, ViewOf(s, s.tasks[t]), c);
    forall u: nat | u < |s.tasks| && u != t
      ensures TaskNext(s, t, c).value.tasks[u] == s.tasks[u]
      ensures Applying(s.tasks[t].pc) ==> !s.tasks[u].pc.Bump? && !Unacked(s.tasks[u].pc)
    {
      OthersStand(s, t, c, u);
    }
    hide TaskNext, Target, Applies, LocksAgree, Stage, AckMatches, RouterMatches;
  }

  lemma TaskKeepsAck(s: State, t: nat, c: Choice)
    requires LocksAgree(s) && Published(s) && TaskNext(s, t, c).Some?
    ensures AckMatches(TaskNext(s, t, c).value)
  {
    TaskStepShared(s, t, c);
    TargetUnacked(s.tasks[t].pc, ViewOf(s, s.tasks[t]), c);
    forall u: nat | u < |s.tasks| && u != t
      ensures TaskNext(s, t, c).value.tasks[u] == s.tasks[u]
      ensures Applying(s.tasks[t].pc) ==> !s.tasks[u].pc.Bump? && !Unacked(s.tasks[u].pc)
    {
      OthersStand(s, t, c, u);
    }
    if s.tasks[t].pc.AwaitAck? {
      EpochsDistinct(s.ackedVersion, s.version);
    }
    hide TaskNext, Target, Applies, LocksAgree, Stage, RouterMatches;
  }

  lemma TaskKeepsPublished(s: State, t: nat, c: Choice)
    requires LocksAgree(s) && Published(s) && TaskNext(s, t, c).Some?
    ensures Published(TaskNext(s, t, c).value)
  {
    TaskStepShared(s, t, c);
    TaskKeepsSocket(s, t, c);
    TaskKeepsAck(s, t, c);
    hide TaskNext, Target, Applies, LocksAgree, Stage, SocketMatches;
  }

  lemma RouterKeepsPublished(s: State, receive: bool)
    requires LocksAgree(s) && Published(s) && RouterNext(s, receive).Some?
    ensures Published(RouterNext(s, receive).value)
  {
    var k := RouterNext(s, receive).value;
    assert k.tasks == s.tasks && k.socket == s.socket && k.version == s.version;
    if s.router.pc.RRead? {
      forall t | 0 <= t < |s.tasks| ensures !s.tasks[t].pc.Bump? {
        ReaderExcludesSwap(s, t);
      }
    }
  }

  // ---------------------------------------------------------------- advisories are coalesced, not lost

  ghost predicate CoveredAfter(attempts: seq<Attempt>, time: nat) {
    exists i :: 0 <= i < |attempts| && attempts[i].clearedAt > time
  }

  ghost predicate CompletedAfter(attempts: seq<Attempt>, time: nat) {
    exists i :: 0 <= i < |attempts| && attempts[i].clearedAt > time && attempts[i].finished
  }

  ghost predicate OwnAttemptAfter(attempts: seq<Attempt>, t: nat, time: nat) {
    exists i :: 0 <= i < |attempts| && attempts[i].clearedAt > time && attempts[i].task == t
  }

  /** What is known of one advisory at its task's control point. */
  ghost predicate AdvisoryAt(s: State, t: nat, task: Task) {
    var n := Stage(task.pc);
    && (n <= 5 ==> task.storedAt == None)
    && (6 <= n <= 29 ==> task.storedAt.Some?)
    && (9 <= n <= 11 ==> s.pending)
    && (task.storedAt.Some? ==>
          && task.storedAt.value <= s.now
          && (s.pending || CoveredAfter(s.attempts, task.storedAt.value))
          && (12 <= n <= 27 ==> OwnAttemptAfter(s.attempts, t, task.storedAt.value))
          && (28 <= n <= 30 ==> CompletedAfter(s.attempts, task.storedAt.value)))
  }

  /** An attempt in progress belongs to the task at its control points. */
  ghost predicate AttemptsOwned(s: State) {
    forall i :: 0 <= i < |s.attempts| && !s.attempts[i].finished ==>
      s.attempts[i].task < |s.tasks| && Attempting(s.tasks[s.attempts[i].task].pc)
  }

  ghost predicate Coalesced(s: State) {
    && (forall t :: 0 <= t < |s.tasks| ==> AdvisoryAt(s, t, s.tasks[t]))
    && AttemptsOwned(s)
    && |s.attempts| + (if s.pending then 1 else 0) <= s.stores
  }

  /** What a task's step does to the advisory bookkeeping. */
  lemma TaskStepAdvisory(s: State, t: nat, c: Choice)
    requires TaskNext(s, t, c).Some?
    ensures t < |s.tasks| && Applies(s.tasks[t].pc, ViewOf(s, s.tasks[t]), c)
    ensures var k, pc := TaskNext(s, t, c).value, s.tasks[t].pc;
            && |k.tasks| == |s.tasks| && k.tasks[t].pc == Target(pc, ViewOf(s, s.tasks[t]), c)
            && (forall u :: 0 <= u < |s.tasks| && u != t ==> k.tasks[u] == s.tasks[u])
            && k.now == s.now + 1
            && k.tasks[t].storedAt == (if pc.Store? then Some(k.now) else s.tasks[t].storedAt)
            && k.pending == (pc.Store? || (s.pending && !pc.ClearPending?))
            && k.stores == (if pc.Store? then s.stores + 1 else s.stores)
            && k.attempts == AttemptsAfter(s, t, pc, k.tasks[t].pc)
  {
    hide Applies, Target, OpAt, Perform, AttemptsAfter;
  }

  lemma TargetStage(pc: Pc, view: View, c: Choice)
    requires Applies(pc, view, c)
    ensures var n, m := Stage(pc), Stage(Target(pc, view, c));
            && (m <= 5 <==> n <= 4 && !(n == 2 && c.EndQuietly?))
            && (n <= 4 && m > 5 ==> m == 30)
            && (n == 5 ==> m == 6) && (6 <= n <= 7 ==> m == n + 1)
            && (n == 8 ==> m == if view.pending then 9 else 29)
            && (9 <= n <= 10 ==> m == n + 1)
            && (n == 11 ==> m == if view.pending then 12 else 28)
            && (12 <= n <= 26 ==> 12 < m <= 27) && (27 <= n <= 29 ==> m == n + 1) && n < 30
    ensures Stage(pc) == 5 <==> pc.Store?
    ensures Stage(pc) == 11 <==> pc.ClearPending?
    ensures Stage(pc) == 27 <==> pc.LeaveStats?
  {}

  /** The attempt log only grows, and attempts only become finished. */
  ghost predicate LogGrows(a: seq<Attempt>, b: seq<Attempt>) {
    |a| <= |b| && forall i :: 0 <= i < |a| ==>
      b[i].task == a[i].task && b[i].clearedAt == a[i].clearedAt && (a[i].finished ==> b[i].finished)
  }

  lemma LogKeepsCover(a: seq<Attempt>, b: seq<Attempt>, t: nat, time: nat)
    requires LogGrows(a, b)
    ensures CoveredAfter(a, time) ==> CoveredAfter(b, time)
    ensures CompletedAfter(a, time) ==> CompletedAfter(b, time)
    ensures OwnAttemptAfter(a, t, time) ==> OwnAttemptAfter(b, t, time)
  {
    if CoveredAfter(a, time) {
      var i :| 0 <= i < |a| && a[i].clearedAt > time;
      assert b[i].clearedAt > time;
    }
    if CompletedAfter(a, time) {
      var i :| 0 <= i < |a| && a[i].clearedAt > time && a[i].finished;
      assert b[i].clearedAt > time && b[i].finished;
    }
    if OwnAttemptAfter(a, t, time) {
      var i :| 0 <= i < |a| && a[i].clearedAt > time && a[i].task == t;
      assert b[i].clearedAt > time && b[i].task == t;
    }
  }

  /** A task's step keeps the log growing; clearing the flag adds an attempt that covers every earlier
      advisory, and leaving the attempt finishes it. */
  lemma AttemptsGrow(s: State, t: nat, pc: Pc, target: Pc)
    ensures LogGrows(s.attempts, AttemptsAfter(s, t, pc, target))
  {
    forall i: nat | i < |s.attempts|
      ensures var a, b := s.attempts[i], AttemptsAfter(s, t, pc, target)[i];
        b.task == a.task && b.clearedAt == a.clearedAt && (a.finished ==> b.finished)
    {
      AdvancedKeeps(s.attempts[i], pc, target, s.socket);
      hide Advanced;
    }
    assert |AttemptsAfter(s, t, pc, target)| >= |s.attempts|;
    hide AttemptsAfter;
  }

  lemma AdvancedKeeps(a: Attempt, pc: Pc, target: Pc, socket: nat)
    ensures var b := Advanced(a, pc, target, socket);
      b.task == a.task && b.clearedAt == a.clearedAt && b.base == a.base && (a.finished ==> b.finished)
  {}

  lemma NewAttemptCovers(s: State, t: nat, pc: Pc, target: Pc, time: nat)
    requires pc.ClearPending? && s.pending && time <= s.now
    ensures CoveredAfter(AttemptsAfter(s, t, pc, target), time) && OwnAttemptAfter(AttemptsAfter(s, t, pc, target), t, time)
  {
    var b := AttemptsAfter(s, t, pc, target);
    assert b[|s.attempts|].clearedAt > time && b[|s.attempts|].task == t;
  }

  lemma FinishedCompletes(s: State, t: nat, pc: Pc, target: Pc, time: nat)
    requires pc.LeaveStats? && OwnAttemptAfter(s.attempts, t, time)
    ensures CompletedAfter(AttemptsAfter(s, t, pc, target), time)
  {
    var b := AttemptsAfter(s, t, pc, target);
    var i :| 0 <= i < |s.attempts| && s.attempts[i].clearedAt > time && s.attempts[i].task == t;
    assert b[i].finished && b[i].clearedAt > time;
  }

  /** While a task holds the apply lock outside an attempt, every recorded attempt has finished. */
  lemma NoAttemptInProgress(s: State, t: nat, time: nat)
    requires LocksAgree(s) && AttemptsOwned(s) && t < |s.tasks|
    requires Applying(s.tasks[t].pc) && !Attempting(s.tasks[t].pc)
    requires CoveredAfter(s.attempts, time)
    ensures CompletedAfter(s.attempts, time)
  {
    var i :| 0 <= i < |s.attempts| && s.attempts[i].clearedAt > time;
    if !s.attempts[i].finished {
      ApplierAlone(s, t, s.attempts[i].task);
    }
  }

  lemma OtherAdvisoriesKept(s: State, t: nat, c: Choice, u: nat)
    requires LocksAgree(s) && Coalesced(s) && TaskNext(s, t, c).Some? && u < |s.tasks| && u != t
    requires LogGrows(s.attempts, TaskNext(s, t, c).value.attempts)
    ensures AdvisoryAt(TaskNext(s, t, c).value, u, TaskNext(s, t, c).value.tasks[u])
  {
    var k, task, pc := TaskNext(s, t, c).value, s.tasks[u], s.tasks[t].pc;
    TaskStepAdvisory(s, t, c);
    TargetStage(pc, ViewOf(s, s.tasks[t]), c);
    assert AdvisoryAt(s, u, task);
    if Applying(pc) {
      ApplierAlone(s, t, u);
    }
    hide TaskNext, Stage, LocksAgree, AttemptsAfter;
    if task.storedAt.Some? {
      LogKeepsCover(s.attempts, k.attempts, u, task.storedAt.value);
      if pc.ClearPending? && s.pending {
        NewAttemptCovers(s, t, pc, k.tasks[t].pc, task.storedAt.value);
      }
    }
  }

  lemma OwnAdvisoryKept(s: State, t: nat, c: Choice)
    requires LocksAgree(s) && Coalesced(s) && TaskNext(s, t, c).Some?
    requires LogGrows(s.attempts, TaskNext(s, t, c).value.attempts)
    ensures AdvisoryAt(TaskNext(s, t, c).value, t, TaskNext(s, t, c).value.tasks[t])
  {
    var k, task, pc := TaskNext(s, t, c).value, s.tasks[t], s.tasks[t].pc;
    TaskStepAdvisory(s, t, c);
    TargetStage(pc, ViewOf(s, s.tasks[t]), c);
    assert AdvisoryAt(s, t, task);
    var n := Stage(pc);
    assert Stage(pc) == 8 ==> Applying(pc) && !Attempting(pc);
    hide TaskNext, LocksAgree, Target, AttemptsAfter;
    if task.storedAt.Some? {
      var time := task.storedAt.value;
      LogKeepsCover(s.attempts, k.attempts, t, time);
      if pc.ClearPending? && s.pending {
        NewAttemptCovers(s, t, pc, k.tasks[t].pc, time);
      }
      if n == 8 && !s.pending {
        NoAttemptInProgress(s, t, time);
      }
      if n == 27 {
        FinishedCompletes(s, t, pc, k.tasks[t].pc, time);
      }
    }
  }

  lemma TaskKeepsCoalesced(s: State, t: nat, c: Choice)
    requires LocksAgree(s) && Coalesced(s) && TaskNext(s, t, c).Some?
    ensures Coalesced(TaskNext(s, t, c).value)
  {
    var k, pc := TaskNext(s, t, c).value, s.tasks[t].pc;
    TaskStepAdvisory(s, t, c);
    TargetStage(pc, ViewOf(s, s.tasks[t]), c);
    assert AdvisoryAt(s, t, s.tasks[t]);
    AttemptsGrow(s, t, pc, k.tasks[t].pc);
    hide TaskNext, Stage, LocksAgree, AdvisoryAt;
    OwnAdvisoryKept(s, t, c);
    forall u | 0 <= u < |k.tasks| ensures AdvisoryAt(k, u, k.tasks[u]) {
      if u != t {
        OtherAdvisoriesKept(s, t, c, u);
      }
    }
    forall i | 0 <= i < |k.attempts| && !k.attempts[i].finished
      ensures k.attempts[i].task < |k.tasks| && Attempting(k.tasks[k.attempts[i].task].pc)
    {
      if i < |s.attempts| {
        assert !s.attempts[i].finished && s.attempts[i].task == k.attempts[i].task;
      }
    }
  }

  lemma RouterKeepsCoalesced(s: State, receive: bool)
    requires Coalesced(s) && RouterNext(s, receive).Some?
    ensures Coalesced(RouterNext(s, receive).value)
  {
    var k := RouterNext(s, receive).value;
    assert k.tasks == s.tasks && k.pending == s.pending && k.attempts == s.attempts && k.stores == s.stores;
    assert k.now == s.now + 1;
    hide RouterNext;
    forall t | 0 <= t < |k.tasks| ensures AdvisoryAt(k, t, k.tasks[t]) {
      assert AdvisoryAt(s, t, s.tasks[t]);
    }
  }

  // ---------------------------------------------------------------- what the attempts came to

  /** What is recorded of an attempt in progress at its task's stage: before the swap nothing, behind it the
      installed socket, and before it is over exactly one of a socket and a failure. */
  ghost predicate AtStage(a: Attempt, n: nat) {
    && (12 <= n <= 22 ==> a.installed == None && !a.failed)
    && (23 <= n <= 26 ==> a.installed.Some?)
    && (n == 27 ==> (a.installed.Some? <==> !a.failed))
  }

  /** An attempt that is over installed a socket newer than the one it started with, unless it failed. */
  ghost predicate AttemptRecorded(s: State, a: Attempt) {
    && a.clearedAt <= s.now && a.base <= s.socket
    && (a.installed.Some? ==> a.base < a.installed.value <= s.socket && !a.failed)
    && (a.finished ==> (a.installed.Some? <==> !a.failed))
    && (!a.finished && a.task < |s.tasks| ==> AtStage(a, Stage(s.tasks[a.task].pc)))
  }

  /** Attempts that cleared the flag after an advisory's store started with that advisory's socket or a newer
      one. */
  ghost predicate StoreRecorded(s: State, task: Task) {
    task.storedAt.Some? ==>
      && task.storedSocket <= s.socket
      && forall i :: 0 <= i < |s.attempts| && s.attempts[i].clearedAt > task.storedAt.value ==>
           task.storedSocket <= s.attempts[i].base
  }

  ghost predicate Recorded(s: State) {
    && (forall i :: 0 <= i < |s.attempts| ==> AttemptRecorded(s, s.attempts[i]))
    && (forall t :: 0 <= t < |s.tasks| ==> StoreRecorded(s, s.tasks[t]))
  }

  lemma TaskStepRecord(s: State, t: nat, c: Choice)
    requires TaskNext(s, t, c).Some?
    ensures t < |s.tasks| && Applies(s.tasks[t].pc, ViewOf(s, s.tasks[t]), c)
    ensures var k, pc := TaskNext(s, t, c).value, s.tasks[t].pc;
            && |k.tasks| == |s.tasks| && k.tasks[t].pc == Target(pc, ViewOf(s, s.tasks[t]), c)
            && (forall u :: 0 <= u < |s.tasks| && u != t ==> k.tasks[u] == s.tasks[u])
            && k.now == s.now + 1 && k.socket == (if pc.Swap? then s.socket + 1 else s.socket)
            && k.tasks[t].storedAt == (if pc.Store? then Some(k.now) else s.tasks[t].storedAt)
            && k.tasks[t].storedSocket == (if pc.Store? then s.socket else s.tasks[t].storedSocket)
            && k.attempts == AttemptsAfter(s, t, pc, k.tasks[t].pc)
  {
    hide Applies, Target, OpAt, Perform, AttemptsAfter;
  }

  /** The record of an attempt in progress stays right across its task's step. */
  lemma AdvancedAtStage(a: Attempt, pc: Pc, view: View, c: Choice, socket: nat)
    requires Applies(pc, view, c) && Attempting(pc) && AtStage(a, Stage(pc)) && a.base <= socket
    requires a.installed.Some? ==> a.base < a.installed.value <= socket && !a.failed
    ensures var b, target := Advanced(a, pc, Target(pc, view, c), socket), Target(pc, view, c);
      && (b.installed.Some? ==> b.base < b.installed.value <= (if pc.Swap? then socket + 1 else socket) && !b.failed)
      && (b.finished && !a.finished ==> (b.installed.Some? <==> !b.failed))
      && (pc.LeaveStats? || AtStage(b, Stage(target)))
      && b.task == a.task && b.clearedAt == a.clearedAt && b.base == a.base
      && (b.finished <==> a.finished || pc.LeaveStats?)
  {}

  lemma AttemptStaysRecorded(s: State, t: nat, c: Choice, i: nat)
    requires AttemptsOwned(s) && Recorded(s) && TaskNext(s, t, c).Some? && i < |s.attempts|
    ensures i < |TaskNext(s, t, c).value.attempts|
    ensures AttemptRecorded(TaskNext(s, t, c).value, TaskNext(s, t, c).value.attempts[i])
    ensures TaskNext(s, t, c).value.attempts[i].clearedAt == s.attempts[i].clearedAt
    ensures TaskNext(s, t, c).value.attempts[i].base == s.attempts[i].base
  {
    var a, pc := s.attempts[i], s.tasks[t].pc;
    TaskStepRecord(s, t, c);
    assert AttemptRecorded(s, a);
    if a.task == t && !a.finished {
      AdvancedAtStage(a, pc, ViewOf(s, s.tasks[t]), c, s.socket);
      ClearingHasNoAttempt(pc);
    }
    hide TaskNext, Target, Applies, Advanced, Stage, Attempting;
  }

  lemma ClearingHasNoAttempt(pc: Pc)
    ensures Attempting(pc) ==> !pc.ClearPending?
  {}

  lemma NewAttemptRecorded(s: State, t: nat, c: Choice)
    requires TaskNext(s, t, c).Some? && s.tasks[t].pc.ClearPending? && s.pending
    ensures var k := TaskNext(s, t, c).value;
      |k.attempts| == |s.attempts| + 1 && AttemptRecorded(k, k.attempts[|s.attempts|])
      && k.attempts[|s.attempts|].base == s.socket
  {
    TaskStepRecord(s, t, c);
    hide TaskNext;
  }

  lemma AttemptCount(s: State, t: nat, pc: Pc, target: Pc)
    ensures |AttemptsAfter(s, t, pc, target)| == if pc.ClearPending? && s.pending then |s.attempts| + 1 else |s.attempts|
  {}

  lemma TaskKeepsRecorded(s: State, t: nat, c: Choice)
    requires AttemptsOwned(s) && Recorded(s) && TaskNext(s, t, c).Some?
    ensures Recorded(TaskNext(s, t, c).value)
  {
    var k, pc := TaskNext(s, t, c).value, s.tasks[t].pc;
    TaskStepRecord(s, t, c);
    AttemptCount(s, t, pc, k.tasks[t].pc);
    if pc.ClearPending? && s.pending {
      NewAttemptRecorded(s, t, c);
    }
    forall i: nat | i < |s.attempts|
      ensures AttemptRecorded(k, k.attempts[i]) && k.attempts[i].clearedAt == s.attempts[i].clearedAt
      ensures k.attempts[i].base == s.attempts[i].base && s.attempts[i].clearedAt <= s.now
    {
      assert AttemptRecorded(s, s.attempts[i]);
      AttemptStaysRecorded(s, t, c, i);
    }
    hide TaskNext, AttemptsAfter, AttemptRecorded, Target, Applies;
    forall u | 0 <= u < |k.tasks| ensures StoreRecorded(k, k.tasks[u]) {
      assert StoreRecorded(s, s.tasks[u]);
    }
  }

  lemma RouterKeepsRecorded(s: State, receive: bool)
    requires Recorded(s) && RouterNext(s, receive).Some?
    ensures Recorded(RouterNext(s, receive).value)
  {
    var k := RouterNext(s, receive).value;
    assert k.tasks == s.tasks && k.attempts == s.attempts && k.socket == s.socket && k.now == s.now + 1;
    hide RouterNext, Stage;
    forall i | 0 <= i < |k.attempts| ensures AttemptRecorded(k, k.attempts[i]) {
      assert AttemptRecorded(s, s.attempts[i]);
    }
    forall u | 0 <= u < |k.tasks| ensures StoreRecorded(k, k.tasks[u]) {
      assert StoreRecorded(s, s.tasks[u]);
    }
  }

  // ---------------------------------------------------------------- the invariant, on every run

  ghost predicate Inv(s: State) {
    LocksAgree(s) && Published(s) && Coalesced(s) && Recorded(s)
  }

  lemma InitialInv(s: State)
    requires Initial(s)
    ensures Inv(s)
  {
    forall id: LockId ensures LockAgrees(s, id) {
      assert s.locks.Get(id) == FREE;
    }
    forall t | 0 <= t < |s.tasks| ensures AdvisoryAt(s, t, s.tasks[t]) {}
  }

  /** Every step of any task, of the router, and every arrival of a datagram keeps the invariant. */
  lemma StepKeepsInv(s: State, a: Action)
    requires Inv(s) && Step(s, a).Some?
    ensures Inv(Step(s, a).value)
  {
    hide LocksAgree, Published, Recorded, TaskNext, RouterNext;
    assert AttemptsOwned(s);
    hide Coalesced;
    match a
    case TaskStep(t, c) =>
      TaskKeepsLocks(s, t, c);
      TaskKeepsPublished(s, t, c);
      TaskKeepsCoalesced(s, t, c);
      TaskKeepsRecorded(s, t, c);
    case RouterStep =>
      RouterKeepsLocks(s, false);
      RouterKeepsPublished(s, false);
      RouterKeepsCoalesced(s, false);
      RouterKeepsRecorded(s, false);
    case RouterReceive =>
      RouterKeepsLocks(s, true);
      RouterKeepsPublished(s, true);
      RouterKeepsCoalesced(s, true);
      RouterKeepsRecorded(s, true);
  }

  ghost predicate IsStep(s: State, k: State) {
    exists a :: Step(s, a) == Some(k)
  }

  /** A run: any interleaving of any number of tasks, the router and arriving datagrams. */
  ghost predicate IsRun(run: seq<State>) {
    && run != [] && Initial(run[0])
    && forall i :: 0 <= i < |run| - 1 ==> IsStep(run[i], run[i + 1])
  }

  lemma {:induction false} RunInv(run: seq<State>, i: nat)
    requires IsRun(run) && i < |run|
    ensures Inv(run[i])
  {
    if i == 0 {
      InitialInv(run[0]);
    } else {
      RunInv(run, i - 1);
      assert IsStep(run[i - 1], run[i - 1 + 1]);
      var a :| Step(run[i - 1], a) == Some(run[i]);
      hide Step, Inv;
      StepKeepsInv(run[i - 1], a);
    }
  }

  // ---------------------------------------------------------------- main results: exclusion

  /** Task t holds the activity read guard: it has a request on the shared socket. */
  ghost predicate RequestActive(s: State, t: nat) {
    t < |s.tasks| && InRequest(s.tasks[t].pc)
  }

  /** While a request holds the activity guard, no steerer is between swapping the socket and the
      router's acknowledgement, and a router waiting in its select receives on the current socket. */
  lemma RouterListensOnCurrentSocket(s: State, t: nat)
    requires Inv(s) && RequestActive(s, t)
    ensures s.socket == s.version && s.ready == Epoch(s.version)
    ensures s.router.pc.RSelect? ==> s.router.activeSocket == s.socket
  {
    forall u | 0 <= u < |s.tasks| ensures !Writing(s.tasks[u].pc) {
      if Writing(s.tasks[u].pc) {
        WriterExcludesRequests(s, u, t);
      }
    }
    forall u | 0 <= u < |s.tasks| ensures !s.tasks[u].pc.Bump? && !Unacked(s.tasks[u].pc) {}
  }

  lemma SocketFixedByStep(s: State, a: Action, t: nat)
    requires Inv(s) && RequestActive(s, t) && Step(s, a).Some?
    ensures Step(s, a).value.socket == s.socket
  {
    if a.TaskStep? {
      TaskStepShared(s, a.t, a.choice);
      if Writing(s.tasks[a.t].pc) {
        WriterExcludesRequests(s, a.t, t);
      }
    }
  }

  /** From the moment a request takes the activity guard until it drops it, the shared socket is the
      one it started with, and whenever the router selects in between it receives on that socket. */
  lemma {:induction false} SocketStableDuringRequest(run: seq<State>, t: nat, i: nat, j: nat)
    requires IsRun(run) && i <= j < |run|
    requires forall m :: i <= m <= j ==> RequestActive(run[m], t)
    ensures run[j].socket == run[i].socket
    ensures run[j].router.pc.RSelect? ==> run[j].router.activeSocket == run[i].socket
    decreases j - i
  {
    hide *;
    RunInv(run, j);
    assert RequestActive(run[j], t);
    RouterListensOnCurrentSocket(run[j], t);
    if i < j {
      SocketStableDuringRequest(run, t, i, j - 1);
      RunInv(run, j - 1);
      assert RequestActive(run[j - 1], t);
      RunStep(run, j - 1, t);
    }
  }

  lemma RunStep(run: seq<State>, i: nat, t: nat)
    requires IsRun(run) && i + 1 < |run| && Inv(run[i]) && RequestActive(run[i], t)
    ensures run[i + 1].socket == run[i].socket
  {
    assert IsStep(run[i], run[i + 1]);
    hide Step, Inv, RequestActive;
    var a :| Step(run[i], a) == Some(run[i + 1]);
    SocketFixedByStep(run[i], a, t);
  }

  // ---------------------------------------------------------------- main results: coalescing

  /** The second check of the pending flag never finds it cleared. */
  lemma SecondCheckFindsPending(s: State, t: nat)
    requires Inv(s) && t < |s.tasks| && s.tasks[t].pc.ClearPending?
    ensures s.pending
  {
    assert AdvisoryAt(s, t, s.tasks[t]);
  }

  /** Some attempt cleared the flag after a time and is over; unless local_addr or bind failed in it, and only
      then, it installed a socket newer than a given one. */
  ghost predicate Covered(attempts: seq<Attempt>, time: nat, socket: nat) {
    exists i :: 0 <= i < |attempts| && attempts[i].clearedAt > time && attempts[i].finished
                && (attempts[i].failed <==> attempts[i].installed == None)
                && (attempts[i].installed.Some? ==> attempts[i].installed.value > socket)
  }

  lemma CompletedCovers(s: State, task: Task)
    requires Recorded(s) && StoreRecorded(s, task) && task.storedAt.Some?
    requires CompletedAfter(s.attempts, task.storedAt.value)
    ensures Covered(s.attempts, task.storedAt.value, task.storedSocket)
  {
    hide Stage, AtStage;
    var i :| 0 <= i < |s.attempts| && s.attempts[i].clearedAt > task.storedAt.value && s.attempts[i].finished;
    assert AttemptRecorded(s, s.attempts[i]);
  }

  lemma DoneIsCompleted(s: State, t: nat)
    requires Coalesced(s) && t < |s.tasks|
    ensures s.tasks[t].pc.Done? && s.tasks[t].storedAt.Some? ==> CompletedAfter(s.attempts, s.tasks[t].storedAt.value)
    ensures |s.attempts| <= s.stores
  {
    assert AdvisoryAt(s, t, s.tasks[t]);
  }

  lemma AdvisoryCoveredAt(s: State, t: nat)
    requires Coalesced(s) && Recorded(s) && t < |s.tasks|
    ensures s.tasks[t].pc.Done? && s.tasks[t].storedAt.Some? ==>
              Covered(s.attempts, s.tasks[t].storedAt.value, s.tasks[t].storedSocket)
    ensures |s.attempts| <= s.stores
  {
    DoneIsCompleted(s, t);
    assert StoreRecorded(s, s.tasks[t]);
    hide *;
    if s.tasks[t].pc.Done? && s.tasks[t].storedAt.Some? {
      CompletedCovers(s, s.tasks[t]);
    }
  }

  /** When an advisory's handler has returned, some rebind attempt cleared the flag after that advisory's
      store and is over, and either it installed a socket newer than the one the advisory was about, or
      local_addr or bind failed in it. Attempts never outnumber advisories. */
  lemma AdvisoryCovered(run: seq<State>, i: nat, t: nat)
    requires IsRun(run) && i < |run| && t < |run[i].tasks|
    ensures var task := run[i].tasks[t];
      task.pc.Done? && task.storedAt.Some? ==> Covered(run[i].attempts, task.storedAt.value, task.storedSocket)
    ensures |run[i].attempts| <= run[i].stores
  {
    RunInv(run, i);
    hide IsRun, LocksAgree, Published, Coalesced, Recorded, Covered;
    AdvisoryCoveredAt(run[i], t);
  }

  // ---------------------------------------------------------------- main results: progress

  /** Control points that wait for a lock. */
  predicate WaitsForLock(pc: Pc) {
    var n := Stage(pc);
    n == 1 || n == 3 || n == 7 || n == 10 || n == 13 || n == 15 || n == 19 || n == 21
  }

  predicate Movable(pc: Pc) {
    !WaitsForLock(pc) && !pc.AwaitAck? && !pc.Done?
  }

  function EagerChoice(pc: Pc): Choice {
    if pc.Active? then EndQuietly else Go
  }

  predicate Enabled(s: State, a: Action) { Step(s, a).Some? }

  lemma MovableIsEnabled(s: State, t: nat)
    requires t < |s.tasks| && Movable(s.tasks[t].pc)
    ensures Enabled(s, TaskStep(t, EagerChoice(s.tasks[t].pc)))
  {
    var pc := s.tasks[t].pc;
    MovableOp(pc, ViewOf(s, s.tasks[t]));
    hide Applies, OpAt, EagerChoice, Effect, Target, Movable;
  }

  lemma MovableOp(pc: Pc, view: View)
    requires Movable(pc)
    ensures Applies(pc, view, EagerChoice(pc)) && !OpAt(pc, EagerChoice(pc)).AcquireOp?
  {}

  lemma WaitingOp(pc: Pc, view: View, id: LockId)
    requires StandingAt(pc, id).Waits()
    ensures WaitsForLock(pc) && Applies(pc, view, Go) && OpAt(pc, Go) == AcquireOp(id)
  {}

  /** If somebody waits for a lock that nobody holds, the head of its queue can move. */
  lemma HeadMoves(s: State, id: LockId, w: Who) returns (a: Action)
    requires LocksAgree(s) && Expected(s, w, id).Waits()
    requires forall v :: !Expected(s, v, id).Holds()
    ensures Enabled(s, a) && !a.RouterReceive?
  {
    var l := s.locks.Get(id);
    assert LockAgrees(s, id);
    assert StandingOf(l, w) == Expected(s, w, id);
    WaiterQueues(l, w);
    forall v ensures !StandingOf(l, v).Holds() {
      assert StandingOf(l, v) == Expected(s, v, id);
    }
    HeadEnters(l);
    var head := l.queue[0].who;
    assert StandingOf(l, head) == Expected(s, head, id);
    hide StandingOf, LocksAgree, Stage, StandingAtStage, Effect, Target;
    if 0 <= head < |s.tasks| {
      a := TaskStep(head, Go);
      WaitingOp(s.tasks[head].pc, ViewOf(s, s.tasks[head]), id);
    } else {
      a := RouterStep;
    }
  }

  ghost predicate NoneMovable(s: State) {
    forall t :: 0 <= t < |s.tasks| ==> !Movable(s.tasks[t].pc)
  }

  /** Every control point that holds the socket lock is movable. */
  lemma SocketUnheld(s: State)
    requires NoneMovable(s) && !s.router.pc.RRead?
    ensures forall v :: !Expected(s, v, Sock).Holds()
  {
    forall v ensures !Expected(s, v, Sock).Holds() {
      if 0 <= v < |s.tasks| {
        assert !Movable(s.tasks[v].pc);
        SocketHolderMovable(s.tasks[v].pc);
      }
    }
  }

  lemma SocketHolderMovable(pc: Pc)
    ensures StandingAt(pc, Sock).Holds() ==> Movable(pc)
  {}

  /** Nobody is at an attempt: the only ones that wait are outside it. */
  ghost predicate StagesWithin(s: State, allowed: set<nat>) {
    forall t :: 0 <= t < |s.tasks| ==> Stage(s.tasks[t].pc) in allowed
  }

  lemma Unheld(s: State, id: LockId, allowed: set<nat>)
    requires StagesWithin(s, allowed) && id != Sock
    requires forall n :: n in allowed ==> !StandingAtStage(n, id).Holds()
    ensures forall v :: !Expected(s, v, id).Holds()
  {
    forall v ensures !Expected(s, v, id).Holds() {
      if 0 <= v < |s.tasks| {
        assert Stage(s.tasks[v].pc) in allowed;
      }
    }
  }

  lemma StageOf(pc: Pc)
    ensures Stage(pc) == 1 <==> pc.WantActivity?
    ensures Stage(pc) == 7 <==> pc.WantApply?
    ensures Stage(pc) == 10 <==> pc.WantWrite?
    ensures Stage(pc) == 13 <==> pc.WantStats?
    ensures Stage(pc) == 19 <==> pc.WantReady?
    ensures Stage(pc) == 25 <==> pc.AwaitAck?
    ensures Stage(pc) == 30 <==> pc.Done?
    ensures 0 <= Stage(pc) <= 30
  {}

  /** With the router at rest on the newest epoch, a waiting steerer has its acknowledgement. */
  lemma AckIsGiven(s: State, t: nat)
    requires Published(s) && t < |s.tasks| && s.tasks[t].pc.AwaitAck?
    requires s.router.pc.RSelect? && s.router.seen == s.version
    ensures Enabled(s, TaskStep(t, Go))
  {
    assert Unacked(s.tasks[t].pc);
    hide Target, Effect;
  }

  lemma LockWaiterMoves(s: State, t: nat) returns (a: Action)
    requires LocksAgree(s) && t < |s.tasks| && !s.tasks[t].pc.Done?
    requires StagesWithin(s, {1, 7, 10, 13, 19, 30})
    ensures Enabled(s, a) && !a.RouterReceive?
  {
    hide LocksAgree, Enabled, Stage, Expected;
    if u :| 0 <= u < |s.tasks| && Stage(s.tasks[u].pc) == 19 {
      Unheld(s, Ready, {1, 7, 10, 13, 19, 30});
      a := HeadMoves(s, Ready, WaiterAt(s, u, Ready));
    } else if u :| 0 <= u < |s.tasks| && Stage(s.tasks[u].pc) == 13 {
      assert StagesWithin(s, {1, 7, 10, 13, 30});
      Unheld(s, Stats, {1, 7, 10, 13, 30});
      a := HeadMoves(s, Stats, WaiterAt(s, u, Stats));
    } else if u :| 0 <= u < |s.tasks| && (Stage(s.tasks[u].pc) == 1 || Stage(s.tasks[u].pc) == 10) {
      assert StagesWithin(s, {1, 7, 10, 30});
      Unheld(s, Activity, {1, 7, 10, 30});
      a := HeadMoves(s, Activity, WaiterAt(s, u, Activity));
    } else {
      assert StagesWithin(s, {7, 30});
      Unheld(s, Apply, {7, 30});
      StageOf(s.tasks[t].pc);
      a := HeadMoves(s, Apply, WaiterAt(s, t, Apply));
    }
  }

  function WaiterAt(s: State, t: nat, id: LockId): (w: Who)
    requires t < |s.tasks| && StandingAtStage(Stage(s.tasks[t].pc), id).Waits()
    ensures w == t && Expected(s, w, id).Waits()
  {
    t
  }

  lemma RouterCanMove(s: State)
    requires s.router.pc.RStart? || s.router.pc.RRead? || s.router.pc.RPublish?
             || (s.router.pc.RSelect? && s.router.seen != s.version)
    ensures Enabled(s, RouterStep)
  {}

  /** Nothing is left to do: every task is done and the router receives on the current socket. */
  ghost predicate Settled(s: State) {
    AllDone(s) && s.router.pc.RSelect? && s.router.seen == s.version
  }

  ghost predicate AllDone(s: State) {
    forall t :: 0 <= t < |s.tasks| ==> s.tasks[t].pc.Done?
  }

  /** No deadlock: until every task is done and the router receives on the current socket, some task or the
      router has a step, without waiting for a datagram. */
  lemma SomeStepEnabled(s: State) returns (a: Action)
    requires Inv(s) && !Settled(s)
    ensures Enabled(s, a) && !a.RouterReceive?
  {
    hide LocksAgree, Published, Coalesced, Recorded, Enabled, Stage, Movable, Expected, StagesWithin;
    if u :| 0 <= u < |s.tasks| && Movable(s.tasks[u].pc) {
      a := TaskStep(u, EagerChoice(s.tasks[u].pc));
      MovableIsEnabled(s, u);
    } else if s.router.pc.RStart? || s.router.pc.RRead? || s.router.pc.RPublish?
              || (s.router.pc.RSelect? && s.router.seen != s.version) {
      a := RouterStep;
      RouterCanMove(s);
    } else {
      assert NoneMovable(s);
      SocketUnheld(s);
      if w: Who :| Expected(s, w, Sock).Waits() {
        a := HeadMoves(s, Sock, w);
      } else {
        assert !Expected(s, ROUTER, Sock).Waits();
        RouterWaits(s);
        if u :| 0 <= u < |s.tasks| && s.tasks[u].pc.AwaitAck? {
          a := TaskStep(u, Go);
          AckIsGiven(s, u);
        } else {
          OnlyWaitersLeft(s);
          var t :| 0 <= t < |s.tasks| && !s.tasks[t].pc.Done?;
          a := LockWaiterMoves(s, t);
        }
      }
    }
  }

  lemma RouterWaits(s: State)
    ensures Expected(s, ROUTER, Sock).Waits() <==> s.router.pc.RWant?
  {}

  /** With no task movable, nobody waiting for the socket and nobody for an acknowledgement, only waiters for
      the other locks and finished tasks remain. */
  lemma OnlyWaitersLeft(s: State)
    requires NoneMovable(s)
    requires forall w: Who :: !Expected(s, w, Sock).Waits()
    requires forall u :: 0 <= u < |s.tasks| ==> !s.tasks[u].pc.AwaitAck?
    ensures StagesWithin(s, {1, 7, 10, 13, 19, 30})
  {
    forall u | 0 <= u < |s.tasks| ensures Stage(s.tasks[u].pc) in {1, 7, 10, 13, 19, 30} {
      assert !Movable(s.tasks[u].pc);
      assert !Expected(s, u, Sock).Waits();
      StageOf(s.tasks[u].pc);
    }
  }

  // ---------------------------------------------------------------- main results: termination

  /** Steps a task can still make, at most. */
  function TaskRank(task: Task): nat {
    var n := Stage(task.pc);
    if n >= 5 then 30 - n
    else 3 * task.sends + if n == 2 then 30 else if n == 4 || n == 1 then 31 else 32
  }

  function TotalRank(tasks: seq<Task>): nat {
    if tasks == [] then 0 else TotalRank(tasks[..|tasks| - 1]) + TaskRank(tasks[|tasks| - 1])
  }

  /** Steps the router can still make before it rests on the current version, without a datagram. */
  function RouterRank(s: State): nat {
    match s.router.pc
    case RStart => 4
    case RWant => 3
    case RRead => 2
    case RPublish => if s.router.seen == s.version then 1 else 6
    case RSelect => if s.router.seen == s.version then 0 else 5
  }

  function Work(s: State): nat { 8 * TotalRank(s.tasks) + RouterRank(s) }

  lemma {:induction false} OneTaskLess(a: seq<Task>, b: seq<Task>, t: nat)
    requires |a| == |b| && t < |a| && TaskRank(b[t]) < TaskRank(a[t])
    requires forall u :: 0 <= u < |a| && u != t ==> b[u] == a[u]
    ensures TotalRank(b) < TotalRank(a)
  {
    var n := |a| - 1;
    if t == n {
      assert a[..n] == b[..n];
    } else {
      OneTaskLess(a[..n], b[..n], t);
    }
  }

  lemma TargetRank(pc: Pc, view: View, c: Choice)
    requires Applies(pc, view, c)
    ensures var n, m := Stage(pc), Stage(Target(pc, view, c));
            || (n == 0 && m == 1) || (n == 1 && m == 2) || (n == 2 && c.Send? && view.maySend && m == 3)
            || (n == 2 && !c.Send? && m >= 5)
            || (n == 3 && m == 4) || (n == 4 && m == 2) || (5 <= n < m)
    ensures Stage(pc) == 2 <==> pc.Active?
  {}

  lemma TaskStepRank(s: State, t: nat, c: Choice)
    requires TaskNext(s, t, c).Some?
    ensures TotalRank(TaskNext(s, t, c).value.tasks) < TotalRank(s.tasks)
  {
    var k := TaskNext(s, t, c).value;
    TaskStepShared(s, t, c);
    TaskStepSends(s, t, c);
    TargetRank(s.tasks[t].pc, ViewOf(s, s.tasks[t]), c);
    hide TaskNext, Target, Applies, Stage;
    OneTaskLess(s.tasks, k.tasks, t);
  }

  lemma TaskStepSends(s: State, t: nat, c: Choice)
    requires TaskNext(s, t, c).Some?
    ensures t < |s.tasks|
    ensures var task := s.tasks[t];
            TaskNext(s, t, c).value.tasks[t].sends
            == if task.pc.Active? && c.Send? && task.sends > 0 then task.sends - 1 else task.sends
  {
    assert s.tasks[t].pc.Active? ==> (Target(s.tasks[t].pc, ViewOf(s, s.tasks[t]), c).WantSocket? <==> c.Send?);
    hide Applies, Target, OpAt, Perform;
  }

  /** Every step other than the arrival of a datagram uses up work: however tasks and router are
      scheduled, only finitely many steps remain. */
  lemma StepUsesWork(s: State, a: Action)
    requires Inv(s) && Enabled(s, a) && !a.RouterReceive?
    ensures Work(Step(s, a).value) < Work(s)
  {
    var k := Step(s, a).value;
    if a.TaskStep? {
      TaskStepRank(s, a.t, a.choice);
      hide TotalRank, TaskNext;
    } else {
      assert k.tasks == s.tasks && k.version == s.version;
      hide TotalRank;
    }
  }

  ghost predicate IsInternalRun(run: seq<State>) {
    run != [] && Inv(run[0]) && forall i :: 0 <= i < |run| - 1 ==> IsInternalStep(run[i], run[i + 1])
  }

  ghost predicate IsInternalStep(s: State, k: State) {
    exists a: Action :: !a.RouterReceive? && Step(s, a) == Some(k)
  }

  ghost predicate Stuck(s: State) {
    forall k :: !IsInternalStep(s, k)
  }

  /** A run without further datagrams has at most `Work` steps, and when it cannot be continued every task is
      done and the router receives on the current socket: no request, steerer, advisory handler or router is
      left waiting for a lock or an acknowledgement. */
  lemma {:induction false} InternalRunsFinish(run: seq<State>)
    requires IsInternalRun(run)
    ensures |run| - 1 + Work(run[|run| - 1]) <= Work(run[0])
    ensures Inv(run[|run| - 1])
    ensures Stuck(run[|run| - 1]) ==> Settled(run[|run| - 1])
  {
    hide Inv, Step, Work;
    var n := |run| - 1;
    if n > 0 {
      InternalPrefix(run);
      InternalRunsFinish(run[..n]);
      assert IsInternalStep(run[n - 1], run[n - 1 + 1]);
      var a: Action :| !a.RouterReceive? && Step(run[n - 1], a) == Some(run[n]);
      StepUsesWork(run[n - 1], a);
      StepKeepsInv(run[n - 1], a);
    }
    if !Settled(run[n]) {
      var a := SomeStepEnabled(run[n]);
      assert IsInternalStep(run[n], Step(run[n], a).value);
    }
  }

  lemma InternalPrefix(run: seq<State>)
    requires IsInternalRun(run) && |run| > 1
    ensures var init := run[..|run| - 1];
            IsInternalRun(init) && init[0] == run[0] && init[|init| - 1] == run[|run| - 2]
  {
    hide Inv, IsInternalStep;
    var init := run[..|run| - 1];
    forall i | 0 <= i < |init| - 1 ensures IsInternalStep(init[i], init[i + 1]) {
      assert IsInternalStep(run[i], run[i + 1]);
    }
  }

  // ---------------------------------------------------------------- main results: acknowledgement

  lemma SocketStages(pc: Pc)
    ensures StandingAt(pc, Sock) != Away ==> InRequest(pc) || (Applying(pc) && !pc.AwaitAck?)
  {}

  lemma RouterAdmitted(s: State, t: nat)
    requires LocksAgree(s) && t < |s.tasks| && s.tasks[t].pc.AwaitAck? && s.router.pc.RWant?
    ensures CanAcquire(s.locks.sock, ROUTER)
  {
    var l := s.locks.sock;
    assert LockAgrees(s, Sock);
    assert Applying(s.tasks[t].pc) && Writing(s.tasks[t].pc);
    forall v | v != ROUTER ensures StandingOf(l, v) == Away {
      assert StandingOf(l, v) == Expected(s, v, Sock);
      if 0 <= v < |s.tasks| {
        SocketStages(s.tasks[v].pc);
        WriterExcludesRequests(s, t, v);
        if v != t {
          ApplierAlone(s, t, v);
        }
      }
    }
    assert StandingOf(l, ROUTER) == Expected(s, ROUTER, Sock);
    hide StandingOf, LocksAgree, LockAgrees, Expected, Stage;
    WaiterQueues(l, ROUTER);
    HeadEnters(l);
  }

  lemma OthersLeaveRouter(s: State, t: nat, u: nat, c: Choice)
    requires LocksAgree(s) && t < |s.tasks| && s.tasks[t].pc.AwaitAck? && TaskNext(s, u, c).Some?
    ensures RouterRank(TaskNext(s, u, c).value) == RouterRank(s)
  {
    TaskStepShared(s, u, c);
    if s.tasks[u].pc.Bump? {
      ApplierAlone(s, t, u);
    }
    hide TaskNext, Stage, LocksAgree, Applies;
  }

  /** While a steerer waits for its acknowledgement the router always has a step, each of its steps,
      receptions included, brings the acknowledgement closer, and no other step moves it away. */
  lemma AckApproaches(s: State, t: nat)
    requires Inv(s) && t < |s.tasks| && s.tasks[t].pc.AwaitAck? && s.ready != s.tasks[t].nextEpoch
    ensures Enabled(s, RouterStep)
    ensures forall b :: RouterNext(s, b).Some? ==> RouterRank(RouterNext(s, b).value) < RouterRank(s)
    ensures forall u: nat, c :: TaskNext(s, u, c).Some? ==> RouterRank(TaskNext(s, u, c).value) == RouterRank(s)
  {
    assert Unacked(s.tasks[t].pc);
    if s.router.pc.RWant? {
      RouterAdmitted(s, t);
    }
    forall u: nat, c | TaskNext(s, u, c).Some?
      ensures RouterRank(TaskNext(s, u, c).value) == RouterRank(s)
    {
      OthersLeaveRouter(s, t, u, c);
    }
    hide TaskNext, LocksAgree, Coalesced, CanAcquire, Acquire, Enter, Release;
    StaleRouterMoves(s);
  }

  lemma StaleRouterMoves(s: State)
    requires Published(s) && s.ackedVersion != s.version
    requires s.router.pc.RWant? ==> CanAcquire(s.locks.sock, ROUTER)
    ensures Enabled(s, RouterStep)
    ensures forall b :: RouterNext(s, b).Some? ==> RouterRank(RouterNext(s, b).value) < RouterRank(s)
  {}
}
