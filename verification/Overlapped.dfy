/** The overlapped-operation protocol of `overlapped.rs`, as a state machine.

    Tasks, completion threads and the kernel interleave freely.  A step is one
    atomic action of one of them; `Enabled` is its guard and `Next` its effect.
    Kernel and library contracts are built into the guards:
      - an accepted operation gets exactly one packet, a refused call and an
        inline success in skip mode get none (`Call`, `KernelComplete`);
      - a task can be dropped only where it is suspended (`DropTask`), so
        `finish` is entered in the same task step as the submission;
      - `AtomicWaker::register` and `wake` are atomic with each other. */
module Overlapped {
  import opened Basics

  /** `ERROR_IO_PENDING`. */
  const ERROR_IO_PENDING: nat := 997

  /** What `finish` resolves to. */
  datatype Reply = Ok(bytes: nat) | Err(code: nat)

  /** `OverlappedWrap::result`. */
  function ToReply(err: nat, len: nat): Reply {
    if err == 0 then Ok(len) else Err(err)
  }

  /** `Arc<OverlappedWrap>`: the strong count and the fields behind it.  `status` is
      what the kernel records in the OVERLAPPED and `GetOverlappedResult` reads back.
      `gen` is a history variable: the operation that last took this wrap. */
  datatype Wrap = Wrap(rc: nat, status: nat, bytes: nat, completed: bool, waker: Option<nat>,
                       err: nat, len: nat, gen: nat)

  /** A wrap as `OverlappedWrap::new` and `reset` leave it. */
  function Fresh(rc: nat, gen: nat): Wrap {
    Wrap(rc, 0, 0, false, None, 0, 0, gen)
  }

  /** How the kernel answered the `Http*` call. */
  datatype Call =
    | NotYet
    | Refuse(code: nat)          // no packet will come
    | Inline(bytes: nat)         // done, packet suppressed by skip mode
    | InlinePosted(bytes: nat)   // done, packet posted (no skip mode)
    | Pending                    // a packet will come

  /** The status code the call returned. */
  function StatusOf(c: Call): nat {
    match c
    case Refuse(code) => code
    case Pending => ERROR_IO_PENDING
    case _ => 0
  }

  predicate Accepted(c: Call) { c.Pending? || c.InlinePosted? }

  /** Progress of a completion thread inside `deliver_completion`. */
  datatype Stage = Taken | ErrStored | LenStored | Flagged | Woken

  /** Where the reference leaked by `Op::new` is. */
  datatype Phase =
    | Leaked                             // the call has not been made yet
    | Refused                            // call refused, not reclaimed yet
    | Inlined                            // inline success, not reclaimed yet
    | InKernel(cancelled: bool)          // the kernel may write the buffer
    | Queued                             // packet in the port
    | Batched(thread: nat)               // packet in a thread's entries array
    | Delivering(io: nat, stage: Stage)  // thread inside deliver_completion
    | Reclaimed

  predicate Open(p: Phase) { !p.Reclaimed? }

  /** The completion flag has been stored, or will never be needed again. */
  predicate Done(p: Phase) {
    p.Reclaimed? || (p.Delivering? && (p.stage.Flagged? || p.stage.Woken?))
  }

  /** The wake step has run, or will never run. */
  predicate Past(p: Phase) {
    p.Reclaimed? || (p.Delivering? && p.stage.Woken?)
  }

  datatype Party = Finish | Port

  /** One operation ever started; its index in `State.ops` is its generation.
      `reclaims` logs who took the leaked reference back. */
  datatype Op = Op(task: nat, wrap: nat, buf: nat, call: Call,
                   err: nat, len: nat, phase: Phase, reclaims: seq<Party>)

  /** Program counter of a task; the argument is the operation it is inside. */
  datatype Pc =
    | Ended                // no task here
    | Idle                 // between operations, free to use its buffer
    | HasOp(g: nat)        // Op::new done
    | Called(g: nat)       // Http* call returned
    | FirstLoad(g: nat)    // poll_complete: first load of completed
    | Register(g: nat)     // poll_complete: register the waker
    | SecondLoad(g: nat)   // poll_complete: re-check
    | Suspended(g: nat)    // poll returned Pending
    | Reading(g: nat)      // poll saw completed: read the result
    | Resolved(g: nat)     // poll returned Ready
    | Returning(g: nat)    // about to give the wrap back
    | DropLoad(g: nat)     // future dropped: is it completed already?
    | Cancelling(g: nat)   // about to call CancelIoEx
    | Spinning(g: nat)     // block_until_complete
    | Released(g: nat)     // future's drop body is over
    | Unwinding(g: nat)    // future gone, Op about to be dropped

  function OpOf(pc: Pc): Option<nat> {
    if pc.Ended? || pc.Idle? then None else Some(pc.g)
  }

  /** Strong references a task holds through the `Op` and the future. */
  function HandlesOf(pc: Pc): nat {
    match pc
    case Ended | Idle => 0
    case HasOp(_) | Called(_) | Returning(_) | Unwinding(_) => 1
    case _ => 2
  }

  datatype Task = Task(pc: Pc, buf: nat, notified: bool, got: Reply)

  /** `skip`, `poolCap` and `threads` never change.  `live` maps each allocated
      buffer to its owning task. */
  datatype State = State(skip: bool, poolCap: nat, threads: nat,
                         tasks: seq<Task>, ops: seq<Op>,
                         wraps: map<nat, Wrap>, free: seq<nat>, live: map<nat, nat>)

  ghost predicate Init(s: State) {
    && s.ops == [] && s.wraps == map[] && s.free == [] && s.live == map[]
    && s.poolCap >= 1 && s.threads >= 1
    && forall t :: 0 <= t < |s.tasks| ==> s.tasks[t].pc == Ended
  }

  /** What a task does inside an operation, one atomic action at a time. */
  datatype Action =
    | Submit(call: Call) | EnterFinish
    | Load1 | RegisterWaker | Load2 | Repoll | ReadResult | DropFuture | GiveBack
    | DropTask | CheckDrop | CancelIo | Spin | UnwindFuture | UnwindOp

  datatype Step =
    | Spawn(t: nat, b: nat)
    | Regrow(t: nat, b: nat)
    | End(t: nat)
    | NewOp(t: nat, w: nat)
    | Act(t: nat, x: Action)
    | KernelComplete(op: nat, e: nat, n: nat)
    | Dequeue(i: nat, batch: set<nat>)
    | Take(op: nat)
    | Deliver(op: nat)

  /** A completion thread is back in `GetQueuedCompletionStatusEx`. */
  ghost predicate ThreadIdle(s: State, i: nat) {
    forall g :: 0 <= g < |s.ops| ==> !OnThread(s.ops[g].phase, i)
  }

  predicate OnThread(p: Phase, i: nat) {
    (p.Batched? && p.thread == i) || (p.Delivering? && p.io == i)
  }

  /** No entry of thread `i`'s batch is being delivered right now. */
  ghost predicate BetweenEntries(s: State, i: nat) {
    forall g :: 0 <= g < |s.ops| ==> !(s.ops[g].phase.Delivering? && s.ops[g].phase.io == i)
  }

  /** Task `t` is inside an operation whose records are all there. */
  predicate Inside(s: State, t: nat) {
    t < |s.tasks| && OpOf(s.tasks[t].pc).Some? && s.tasks[t].pc.g < |s.ops|
    && s.ops[s.tasks[t].pc.g].wrap in s.wraps
  }

  predicate Callable(skip: bool, c: Call) {
    match c
    case NotYet => false
    case Refuse(code) => code != 0 && code != ERROR_IO_PENDING
    case Inline(_) => skip
    case InlinePosted(_) => !skip
    case Pending => true
  }

  /** Where a task must be to take action `x`. */
  predicate At(skip: bool, pc: Pc, w: Wrap, x: Action) {
    match x
    case Submit(c) => pc.HasOp? && Callable(skip, c)
    case EnterFinish => pc.Called?
    case Load1 => pc.FirstLoad?
    case RegisterWaker => pc.Register?
    case Load2 => pc.SecondLoad?
    case Repoll => pc.Suspended?
    case ReadResult => pc.Reading?
    case DropFuture => pc.Resolved?
    case GiveBack => pc.Returning?
    case DropTask => pc.Suspended?
    case CheckDrop => pc.DropLoad?
    case CancelIo => pc.Cancelling?
    case Spin => pc.Spinning? && w.completed
    case UnwindFuture => pc.Released?
    case UnwindOp => pc.Unwinding?
  }

  ghost predicate Enabled(s: State, a: Step) {
    match a
    case Spawn(t, b) => t < |s.tasks| && s.tasks[t].pc.Ended? && b !in s.live
    case Regrow(t, b) => t < |s.tasks| && s.tasks[t].pc.Idle? && b !in s.live
    case End(t) => t < |s.tasks| && s.tasks[t].pc.Idle?
    case NewOp(t, w) => t < |s.tasks| && s.tasks[t].pc.Idle?
                        && (if s.free != [] then w == s.free[0] && w in s.wraps else w !in s.wraps)
    case Act(t, x) => Inside(s, t) && At(s.skip, s.tasks[t].pc, s.wraps[s.ops[s.tasks[t].pc.g].wrap], x)
    case KernelComplete(g, _, _) => g < |s.ops| && s.ops[g].phase.InKernel? && Present(s, s.ops[g].task, g)
    case Dequeue(i, b) => i < s.threads && ThreadIdle(s, i) && 0 < |b| <= BATCH
                          && forall g :: g in b ==> g < |s.ops| && s.ops[g].phase.Queued?
    case Take(g) => g < |s.ops| && s.ops[g].phase.Batched? && Present(s, s.ops[g].task, g)
                    && BetweenEntries(s, s.ops[g].phase.thread)
    case Deliver(g) => g < |s.ops| && s.ops[g].phase.Delivering? && Present(s, s.ops[g].task, g)
  }

  /** An operation, its wrap and its task: all that one step reads and writes. */
  datatype View = View(task: Task, op: Op, wrap: Wrap)

  function Goto(v: View, pc: Pc): View { v.(task := v.task.(pc := pc)) }

  /** Drop one strong reference. */
  function Unref(v: View): View { v.(wrap := v.wrap.(rc := if v.wrap.rc == 0 then 0 else v.wrap.rc - 1)) }

  /** The kernel answers the `Http*` call. */
  function SubmitView(g: nat, v: View, c: Call): View {
    var phase := match c case NotYet => Leaked case Refuse(_) => Refused case Inline(_) => Inlined
                         case InlinePosted(_) => Queued case Pending => InKernel(false);
    var bytes := if c.Inline? || c.InlinePosted? then c.bytes else 0;
    View(v.task.(pc := Called(g)), v.op.(call := c, phase := phase, err := 0, len := bytes),
         v.wrap.(status := 0, bytes := bytes))
  }

  /** `Op::finish` up to its first poll: dispatch on the status code. */
  function EnterFinishView(skip: bool, g: nat, v: View): View {
    var ec := StatusOf(v.op.call);
    if ec == 0 && skip then ReclaimByFinish(g, v, Ok(v.wrap.bytes))
    else if ec == 0 || ec == ERROR_IO_PENDING then
      Goto(v, FirstLoad(g)).(wrap := v.wrap.(rc := v.wrap.rc + 1))
    else ReclaimByFinish(g, v, Err(ec))
  }

  /** `Op::reclaim`, and the value `finish` will return. */
  function ReclaimByFinish(g: nat, v: View, reply: Reply): View {
    Unref(v).(task := v.task.(pc := Returning(g), got := reply),
              op := v.op.(phase := Reclaimed, reclaims := v.op.reclaims + [Finish]))
  }

  /** One action of a task inside operation `g`. */
  function TaskView(skip: bool, t: nat, g: nat, v: View, x: Action): View {
    match x
    case Submit(c) => SubmitView(g, v, c)
    case EnterFinish => EnterFinishView(skip, g, v)
    case Load1 => Goto(v, if v.wrap.completed then Reading(g) else Register(g))
    case RegisterWaker => Goto(v, SecondLoad(g)).(wrap := v.wrap.(waker := Some(t)))
    case Load2 => Goto(v, if v.wrap.completed then Reading(g) else Suspended(g))
    case Repoll => v.(task := v.task.(pc := FirstLoad(g), notified := false))
    case ReadResult => v.(task := v.task.(pc := Resolved(g), got := ToReply(v.wrap.err, v.wrap.len)))
    case DropFuture => Unref(Goto(v, Returning(g)))
    case GiveBack => Unref(Goto(v, Idle))
    case DropTask => Goto(v, DropLoad(g))
    case CheckDrop => Goto(v, if v.wrap.completed then Released(g) else Cancelling(g))
    case CancelIo =>
      Goto(v, Spinning(g)).(op := if v.op.phase.InKernel? then v.op.(phase := InKernel(true)) else v.op)
    case Spin => Goto(v, Released(g))
    case UnwindFuture => Unref(Goto(v, Unwinding(g)))
    case UnwindOp => Unref(Goto(v, Ended))
  }

  /** One step of `deliver_completion`, the notification itself apart.  The status is
      read back from the wrap, the byte count comes with the packet. */
  function DeliverView(v: View): View
    requires v.op.phase.Delivering?
  {
    var io := v.op.phase.io;
    match v.op.phase.stage
    case Taken => v.(op := v.op.(phase := Delivering(io, ErrStored)), wrap := v.wrap.(err := v.wrap.status))
    case ErrStored => v.(op := v.op.(phase := Delivering(io, LenStored)), wrap := v.wrap.(len := v.op.len))
    case LenStored => v.(op := v.op.(phase := Delivering(io, Flagged)), wrap := v.wrap.(completed := true))
    case Flagged => v.(op := v.op.(phase := Delivering(io, Woken)), wrap := v.wrap.(waker := None))
    case Woken => Unref(v).(op := v.op.(phase := Reclaimed, reclaims := v.op.reclaims + [Port]))
  }

  function KernelView(v: View, e: nat, n: nat): View {
    v.(op := v.op.(phase := Queued, err := e, len := n), wrap := v.wrap.(status := e, bytes := n))
  }

  function TakeView(v: View): View
    requires v.op.phase.Batched?
  {
    v.(op := v.op.(phase := Delivering(v.op.phase.thread, Taken)))
  }

  predicate Present(s: State, t: nat, g: nat) {
    t < |s.tasks| && g < |s.ops| && s.ops[g].wrap in s.wraps
  }

  function Get(s: State, t: nat, g: nat): View
    requires Present(s, t, g)
  {
    View(s.tasks[t], s.ops[g], s.wraps[s.ops[g].wrap])
  }

  /** Write a view back; a wrap without references is freed. */
  function Put(s: State, t: nat, g: nat, v: View): State
    requires Present(s, t, g)
  {
    var w := s.ops[g].wrap;
    s.(tasks := s.tasks[t := v.task], ops := s.ops[g := v.op],
       wraps := if v.wrap.rc == 0 then s.wraps - {w} else s.wraps[w := v.wrap])
  }

  /** `AtomicWaker::wake` on the waker that was registered. */
  function Notify(s: State, waker: Option<nat>): State {
    if waker.Some? && waker.value < |s.tasks|
    then s.(tasks := s.tasks[waker.value := s.tasks[waker.value].(notified := true)]) else s
  }

  /** `Op::new`: take a wrap from the pool or allocate one, and leak a clone. */
  function StartOp(s: State, t: nat, w: nat): State
    requires t < |s.tasks| && (s.free != [] ==> w in s.wraps)
  {
    var g := |s.ops|;
    var wrap := if s.free != [] then s.wraps[w].(rc := s.wraps[w].rc + 1, gen := g) else Fresh(2, g);
    s.(tasks := s.tasks[t := s.tasks[t].(pc := HasOp(g))],
       ops := s.ops + [Op(t, w, s.tasks[t].buf, NotYet, 0, 0, Leaked, [])],
       wraps := s.wraps[w := wrap],
       free := if s.free != [] then s.free[1..] else [])
  }

  /** `OpPool::give_back`: reset and pool the wrap if this is the only reference
      and the pool has room, otherwise just drop the reference. */
  function GiveBackOp(s: State, t: nat, g: nat): State
    requires Present(s, t, g)
  {
    var v := Get(s, t, g);
    if v.wrap.rc == 1 && |s.free| < s.poolCap then
      Put(s, t, g, Goto(v, Idle).(wrap := Fresh(1, v.wrap.gen))).(free := s.free + [v.op.wrap])
    else Put(s, t, g, TaskView(s.skip, t, g, v, GiveBack))
  }

  ghost function Next(s: State, a: Step): State
    requires Enabled(s, a)
  {
    match a
    case Spawn(t, b) =>
      s.(tasks := s.tasks[t := Task(Idle, b, false, Ok(0))], live := s.live[b := t])
    case Regrow(t, b) =>
      s.(tasks := s.tasks[t := s.tasks[t].(buf := b)], live := (s.live - {s.tasks[t].buf})[b := t])
    case End(t) =>
      s.(tasks := s.tasks[t := s.tasks[t].(pc := Ended)], live := s.live - {s.tasks[t].buf})
    case NewOp(t, w) => StartOp(s, t, w)
    case Act(t, x) => ActStep(s, t, x)
    case KernelComplete(g, e, n) => Put(s, s.ops[g].task, g, KernelView(Get(s, s.ops[g].task, g), e, n))
    case Dequeue(i, b) =>
      s.(ops := seq(|s.ops|, g requires 0 <= g < |s.ops| =>
           if g in b then s.ops[g].(phase := Batched(i)) else s.ops[g]))
    case Take(g) => Put(s, s.ops[g].task, g, TakeView(Get(s, s.ops[g].task, g)))
    case Deliver(g) => DeliverStep(s, g)
  }

  /** The pool is involved at the end of a finished operation; a dropped task
      releases its buffer once the `Op` is gone. */
  function ActStep(s: State, t: nat, x: Action): State
    requires Inside(s, t)
  {
    var g := s.tasks[t].pc.g;
    var s' := Put(s, t, g, TaskView(s.skip, t, g, Get(s, t, g), x));
    if x.GiveBack? then GiveBackOp(s, t, g)
    else if x.UnwindOp? then s'.(live := s.live - {s.tasks[t].buf})
    else s'
  }

  function DeliverStep(s: State, g: nat): State
    requires g < |s.ops| && Present(s, s.ops[g].task, g) && s.ops[g].phase.Delivering?
  {
    var t := s.ops[g].task;
    var s' := Put(s, t, g, DeliverView(Get(s, t, g)));
    if s.ops[g].phase.stage.Flagged? then Notify(s', s.wraps[s.ops[g].wrap].waker) else s'
  }

  /** `s` is reached from `s0` by the steps `run`, each enabled where it is taken. */
  ghost predicate Reaches(s0: State, run: seq<Step>, s: State)
    decreases |run|
  {
    if run == [] then s == s0
    else Enabled(s0, run[0]) && Reaches(Next(s0, run[0]), run[1..], s)
  }

  ghost predicate Reachable(s: State) {
    exists s0: State, run: seq<Step> :: Init(s0) && Reaches(s0, run, s)
  }
}
