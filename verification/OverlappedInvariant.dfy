/** The inductive invariant of the overlapped-operation protocol, and the proof
    that every step keeps it.

    What a step does to an operation, its wrap and its task is proved on `View`
    values alone (`...ViewOk`).  `PutKeepsInv` carries that to the whole state:
    no other operation shares the wrap, so nothing else is affected. */
module OverlappedInvariant {
  import opened Basics
  import opened Overlapped

  /** A task is inside operation `g`. */
  predicate In(task: Task, g: nat) { OpOf(task.pc) == Some(g) }

  predicate Uses(s: State, g: nat)
    requires g < |s.ops|
  {
    s.ops[g].task < |s.tasks| && In(s.tasks[s.ops[g].task], g)
  }

  /** Somebody still holds a reference to the wrap on behalf of `g`. */
  predicate Active(s: State, g: nat)
    requires g < |s.ops|
  {
    Open(s.ops[g].phase) || Uses(s, g)
  }

  /** References held on behalf of `g`: by its task, and the leaked one. */
  function Handles(g: nat, task: Task, o: Op): nat {
    (if In(task, g) then HandlesOf(task.pc) else 0) + (if Open(o.phase) then 1 else 0)
  }

  /** The phase agrees with the kernel's answer, and with who reclaimed. */
  predicate PhaseOk(skip: bool, threads: nat, o: Op) {
    && (o.call.NotYet? <==> o.phase.Leaked?)
    && (o.phase.Refused? ==> o.call.Refuse?)
    && (o.phase.Inlined? ==> o.call.Inline?)
    && (o.phase.InKernel? ==> o.call.Pending?)
    && (o.phase.Queued? || o.phase.Batched? || o.phase.Delivering? ==> Accepted(o.call))
    && (o.phase.Batched? ==> o.phase.thread < threads)
    && (o.phase.Delivering? ==> o.phase.io < threads)
    && (o.call.NotYet? || Callable(skip, o.call))
    && (o.call.InlinePosted? ==> o.err == 0 && o.len == o.call.bytes)
    && o.reclaims == (if Open(o.phase) then [] else if Accepted(o.call) then [Port] else [Finish])
  }

  /** The value `finish` must return for `o`. */
  function ReplyOf(o: Op): Reply {
    match o.call
    case Refuse(code) => Err(code)
    case Inline(bytes) => Ok(bytes)
    case _ => ToReply(o.err, o.len)
  }

  /** Where its task may be, given how far the operation has got. */
  predicate PcOk(task: Task, o: Op) {
    match task.pc
    case Ended | Idle => true
    case HasOp(_) => o.phase.Leaked?
    case Called(_) => !o.phase.Leaked? && (Accepted(o.call) || o.phase.Refused? || o.phase.Inlined?)
    case FirstLoad(_) | Register(_) | SecondLoad(_) | Suspended(_) | DropLoad(_) | Cancelling(_) =>
      Accepted(o.call)
    case Spinning(_) => Accepted(o.call) && o.phase != InKernel(false)
    case Reading(_) | Released(_) | Unwinding(_) => Accepted(o.call) && Done(o.phase)
    case Resolved(_) => Accepted(o.call) && Done(o.phase) && task.got == ReplyOf(o)
    case Returning(_) => Done(o.phase) && task.got == ReplyOf(o)
  }

  /** What the wrap holds, given how far the operation has got. */
  predicate CellOk(o: Op, w: Wrap) {
    && (w.completed <==> Accepted(o.call) && Done(o.phase))
    && (o.phase.Queued? || o.phase.Batched? || o.phase.Delivering? ==> w.status == o.err)
    && (o.phase.Delivering? && !o.phase.stage.Taken? ==> w.err == o.err)
    && (o.phase.Delivering? && !o.phase.stage.Taken? && !o.phase.stage.ErrStored? ==> w.len == o.len)
    && (w.completed ==> w.err == o.err && w.len == o.len)
    && (w.waker.Some? ==> w.waker.value == o.task)
    && (o.phase.Inlined? && o.call.Inline? ==> w.bytes == o.call.bytes)
  }

  /** The wake handshake: a suspended task is notified, or will be. */
  predicate WakeOk(task: Task, o: Op, w: Wrap) {
    && (task.pc.SecondLoad? ==> w.waker == Some(o.task) || Past(o.phase))
    && (task.pc.Suspended? ==> task.notified || (w.waker == Some(o.task) && !Past(o.phase)))
  }

  /** An operation with references out. */
  predicate ViewOk(skip: bool, threads: nat, g: nat, v: View) {
    && PhaseOk(skip, threads, v.op)
    && (!Done(v.op.phase) ==> In(v.task, g))
    && (In(v.task, g) ==> PcOk(v.task, v.op) && v.op.buf == v.task.buf && WakeOk(v.task, v.op, v.wrap))
    && v.wrap.gen == g && v.wrap.rc == Handles(g, v.task, v.op)
    && CellOk(v.op, v.wrap)
  }

  predicate OpOk(s: State, g: nat)
    requires g < |s.ops|
  {
    var o := s.ops[g];
    && o.task < |s.tasks|
    && if Active(s, g)
       then o.wrap in s.wraps && o.wrap !in s.free && ViewOk(s.skip, s.threads, g, Get(s, o.task, g))
       else PhaseOk(s.skip, s.threads, o)
  }

  predicate TaskOk(s: State, t: nat)
    requires t < |s.tasks|
  {
    var task := s.tasks[t];
    && (!task.pc.Ended? ==> task.buf in s.live && s.live[task.buf] == t)
    && (OpOf(task.pc).Some? ==> task.pc.g < |s.ops| && s.ops[task.pc.g].task == t)
  }

  predicate WrapOk(s: State, w: nat)
    requires w in s.wraps
  {
    if w in s.free then s.wraps[w] == Fresh(1, s.wraps[w].gen)
    else var g := s.wraps[w].gen; g < |s.ops| && s.ops[g].wrap == w && Active(s, g)
  }

  predicate PoolOk(s: State) {
    && |s.free| <= s.poolCap
    && (forall i :: 0 <= i < |s.free| ==> s.free[i] in s.wraps)
    && (forall i, j :: 0 <= i < j < |s.free| ==> s.free[i] != s.free[j])
  }

  ghost predicate Inv(s: State) {
    && s.poolCap >= 1 && s.threads >= 1
    && PoolOk(s)
    && (forall t :: 0 <= t < |s.tasks| ==> TaskOk(s, t))
    && (forall g :: 0 <= g < |s.ops| ==> OpOk(s, g))
    && (forall w :: w in s.wraps ==> WrapOk(s, w))
  }

  // ----- Steps on a view -----

  /** `v'` may replace `v`: same operation, and its task stays in `g`, leaves it,
      or is only notified. */
  predicate Replaces(g: nat, v: View, v': View) {
    && v'.op.task == v.op.task && v'.op.wrap == v.op.wrap && v'.wrap.gen == v.wrap.gen
    && (|| v'.task == v.task
        || v'.task == v.task.(notified := true)
        || (In(v.task, g) && v'.task.buf == v.task.buf && (In(v'.task, g) || OpOf(v'.task.pc) == None)))
  }

  /** `v'` is again in order, or nobody holds a reference any more. */
  predicate Outcome(skip: bool, threads: nat, g: nat, v: View, v': View) {
    && Replaces(g, v, v')
    && if Open(v'.op.phase) || In(v'.task, g) then ViewOk(skip, threads, g, v')
       else PhaseOk(skip, threads, v'.op) && v'.wrap.rc == 0
  }

  /** The submission, and `finish` up to its first poll. */
  lemma SubmitViewOk(skip: bool, threads: nat, t: nat, g: nat, v: View, x: Action)
    requires ViewOk(skip, threads, g, v) && In(v.task, g) && v.op.task == t && At(skip, v.task.pc, v.wrap, x)
    requires x.Submit? || x.EnterFinish?
    ensures Outcome(skip, threads, g, v, TaskView(skip, t, g, v, x))
  {}

  /** `poll_complete` up to its verdict. */
  lemma PollViewOk(skip: bool, threads: nat, t: nat, g: nat, v: View, x: Action)
    requires ViewOk(skip, threads, g, v) && In(v.task, g) && v.op.task == t && At(skip, v.task.pc, v.wrap, x)
    requires x.Load1? || x.RegisterWaker? || x.Load2? || x.Repoll?
    ensures Outcome(skip, threads, g, v, TaskView(skip, t, g, v, x))
  {}

  /** Reading the result, dropping handles, and cancellation. */
  lemma LeaveViewOk(skip: bool, threads: nat, t: nat, g: nat, v: View, x: Action)
    requires ViewOk(skip, threads, g, v) && In(v.task, g) && v.op.task == t && At(skip, v.task.pc, v.wrap, x)
    requires !x.Submit? && !x.EnterFinish? && !x.Load1? && !x.RegisterWaker? && !x.Load2? && !x.Repoll?
    ensures Outcome(skip, threads, g, v, TaskView(skip, t, g, v, x))
  {}

  /** Every step of a task inside an operation. */
  lemma TaskViewOk(skip: bool, threads: nat, t: nat, g: nat, v: View, x: Action)
    requires ViewOk(skip, threads, g, v) && In(v.task, g) && v.op.task == t && At(skip, v.task.pc, v.wrap, x)
    ensures Outcome(skip, threads, g, v, TaskView(skip, t, g, v, x))
  {
    if x.Submit? || x.EnterFinish? { SubmitViewOk(skip, threads, t, g, v, x); }
    else if x.Load1? || x.RegisterWaker? || x.Load2? || x.Repoll? { PollViewOk(skip, threads, t, g, v, x); }
    else { LeaveViewOk(skip, threads, t, g, v, x); }
  }

  lemma KernelViewOk(skip: bool, threads: nat, g: nat, v: View, e: nat, n: nat)
    requires ViewOk(skip, threads, g, v) && v.op.phase.InKernel?
    ensures Outcome(skip, threads, g, v, KernelView(v, e, n))
  {}

  lemma TakeViewOk(skip: bool, threads: nat, g: nat, v: View)
    requires ViewOk(skip, threads, g, v) && v.op.phase.Batched?
    ensures Outcome(skip, threads, g, v, TakeView(v))
  {}

  /** `DeliverView` together with the wake-up of the registered task. */
  function DeliverAndWake(v: View): View
    requires v.op.phase.Delivering?
  {
    var v' := DeliverView(v);
    if v.op.phase.stage.Flagged? && v.wrap.waker.Some? then v'.(task := v'.task.(notified := true)) else v'
  }

  lemma DeliverViewOk(skip: bool, threads: nat, g: nat, v: View)
    requires ViewOk(skip, threads, g, v) && v.op.phase.Delivering?
    ensures Outcome(skip, threads, g, v, DeliverAndWake(v))
  {}

  // ----- From a view to the whole state -----

  /** Two operations with references out never share a wrap. */
  lemma DistinctWraps(s: State, g: nat, h: nat)
    requires Inv(s) && g < |s.ops| && h < |s.ops| && g != h
    requires Active(s, g) && Active(s, h)
    ensures s.ops[g].wrap != s.ops[h].wrap
  {
    assert OpOk(s, g) && OpOk(s, h);
  }

  /** `s'` is `s` with the view of `g` replaced, wraps of others untouched. */
  ghost predicate Swapped(s: State, s': State, g: nat, v': View) {
    && g < |s.ops| && Active(s, g) && OpOk(s, g)
    && var t := s.ops[g].task; var w := s.ops[g].wrap;
    && Replaces(g, Get(s, t, g), v')
    && s'.skip == s.skip && s'.threads == s.threads && s'.poolCap == s.poolCap
    && s'.tasks == s.tasks[t := v'.task] && s'.ops == s.ops[g := v'.op]
    && s'.wraps - {w} == s.wraps - {w}
    && (forall x :: x in s'.free ==> x in s.free || x == w)
    && (forall x :: x in s.free ==> x in s'.free)
  }

  lemma OthersOk(s: State, s': State, g: nat, v': View, h: nat)
    requires Inv(s) && Swapped(s, s', g, v') && h < |s.ops| && h != g
    ensures OpOk(s', h) && (Active(s', h) <==> Active(s, h))
  {
    assert OpOk(s, h);
    if Active(s, h) {
      DistinctWraps(s, g, h);
      assert s.ops[h].wrap in s.wraps - {s.ops[g].wrap};
      assert s'.wraps[s.ops[h].wrap] == (s'.wraps - {s.ops[g].wrap})[s.ops[h].wrap];
    }
  }

  lemma OtherWrapsOk(s: State, s': State, g: nat, v': View, w: nat)
    requires Inv(s) && Swapped(s, s', g, v') && w in s'.wraps && w != s.ops[g].wrap
    ensures WrapOk(s', w)
  {
    assert w in s'.wraps - {s.ops[g].wrap};
    assert s'.wraps[w] == (s.wraps - {s.ops[g].wrap})[w] == s.wraps[w];
    assert WrapOk(s, w);
    if w !in s.free { OthersOk(s, s', g, v', s.wraps[w].gen); }
  }

  /** Writing back a view in order keeps the invariant. */
  lemma PutKeepsInv(s: State, g: nat, v': View)
    requires Inv(s) && g < |s.ops| && Active(s, g) && OpOk(s, g)
    requires Outcome(s.skip, s.threads, g, Get(s, s.ops[g].task, g), v')
    requires v'.task.pc != Ended || s.tasks[s.ops[g].task].pc == Ended
    ensures Inv(Put(s, s.ops[g].task, g, v'))
  {
    var t := s.ops[g].task;
    var s' := Put(s, t, g, v');
    assert Swapped(s, s', g, v');
    forall h | 0 <= h < |s'.ops| ensures OpOk(s', h) {
      if h != g { OthersOk(s, s', g, v', h); }
    }
    forall u | 0 <= u < |s'.tasks| ensures TaskOk(s', u) { assert TaskOk(s, u); }
    forall w | w in s'.wraps ensures WrapOk(s', w) {
      if w != s.ops[g].wrap { OtherWrapsOk(s, s', g, v', w); }
    }
  }

  // ----- One lemma per kind of step -----

  /** The facts every task step starts from. */
  lemma TaskInside(s: State, t: nat)
    requires Inv(s) && t < |s.tasks| && OpOf(s.tasks[t].pc).Some?
    ensures var g := s.tasks[t].pc.g;
            && g < |s.ops| && s.ops[g].task == t && Uses(s, g) && OpOk(s, g) && Inside(s, t)
            && ViewOk(s.skip, s.threads, g, Get(s, t, g))
  {
    assert TaskOk(s, t);
  }

  predicate BufferStep(a: Step) { a.Spawn? || a.Regrow? || a.End? }

  lemma BufferStepKeepsInv(s: State, a: Step)
    requires Inv(s) && Enabled(s, a) && BufferStep(a)
    ensures Inv(Next(s, a))
  {
    var s' := Next(s, a);
    forall u | 0 <= u < |s'.tasks| ensures TaskOk(s', u) {
      assert TaskOk(s, u) && TaskOk(s, a.t);
    }
    forall g | 0 <= g < |s'.ops| ensures OpOk(s', g) && (Active(s', g) <==> Active(s, g)) {
      assert OpOk(s, g);
    }
    forall w | w in s'.wraps ensures WrapOk(s', w) { assert WrapOk(s, w); }
  }

  /** The wrap `Op::new` gets is nobody else's: fresh, or alone in the pool. */
  lemma TakenWrap(s: State, t: nat, w: nat)
    requires Inv(s) && Enabled(s, NewOp(t, w))
    ensures w !in StartOp(s, t, w).free
    ensures forall h :: 0 <= h < |s.ops| && Active(s, h) ==> s.ops[h].wrap != w
    ensures StartOp(s, t, w).wraps[w] == Fresh(2, |s.ops|)
  {
    assert s.free != [] ==> w in s.free && WrapOk(s, w);
    forall h | 0 <= h < |s.ops| && Active(s, h) ensures s.ops[h].wrap != w { assert OpOk(s, h); }
  }

  lemma NewOpOthers(s: State, t: nat, w: nat, h: nat)
    requires Inv(s) && Enabled(s, NewOp(t, w)) && h < |s.ops|
    ensures OpOk(StartOp(s, t, w), h) && (Active(StartOp(s, t, w), h) <==> Active(s, h))
  {
    assert OpOk(s, h) && TaskOk(s, t);
    TakenWrap(s, t, w);
  }

  lemma NewOpKeepsInv(s: State, t: nat, w: nat)
    requires Inv(s) && Enabled(s, NewOp(t, w))
    ensures Inv(StartOp(s, t, w))
  {
    var s' := StartOp(s, t, w);
    TakenWrap(s, t, w);
    forall h | 0 <= h < |s'.ops| ensures OpOk(s', h) {
      if h < |s.ops| { NewOpOthers(s, t, w, h); }
    }
    forall u | 0 <= u < |s'.tasks| ensures TaskOk(s', u) { assert TaskOk(s, u); }
    forall v | v in s'.wraps ensures WrapOk(s', v) {
      if v != w { assert WrapOk(s, v); if v !in s.free { NewOpOthers(s, t, w, s.wraps[v].gen); } }
    }
  }

  lemma QuietActKeepsInv(s: State, t: nat, x: Action)
    requires Inv(s) && Enabled(s, Act(t, x)) && !x.GiveBack? && !x.UnwindOp?
    ensures Inv(ActStep(s, t, x))
  {
    TaskInside(s, t);
    var g := s.tasks[t].pc.g;
    TaskViewOk(s.skip, s.threads, t, g, Get(s, t, g), x);
    PutKeepsInv(s, g, TaskView(s.skip, t, g, Get(s, t, g), x));
  }

  /** The only reference comes back and is reset: it joins the free list. */
  lemma PoolKeepsInv(s: State, t: nat, g: nat)
    requires Inv(s) && t < |s.tasks| && s.tasks[t].pc == Returning(g)
    requires g < |s.ops| && Present(s, t, g) && s.wraps[s.ops[g].wrap].rc == 1 && |s.free| < s.poolCap
    ensures Inv(GiveBackOp(s, t, g))
  {
    TaskInside(s, t);
    var s' := GiveBackOp(s, t, g);
    var v' := Goto(Get(s, t, g), Idle).(wrap := Fresh(1, g));
    assert Swapped(s, s', g, v');
    forall h | 0 <= h < |s'.ops| ensures OpOk(s', h) {
      if h != g { OthersOk(s, s', g, v', h); }
    }
    forall u | 0 <= u < |s'.tasks| ensures TaskOk(s', u) { assert TaskOk(s, u); }
    forall w | w in s'.wraps ensures WrapOk(s', w) {
      if w != s.ops[g].wrap { OtherWrapsOk(s, s', g, v', w); }
    }
  }

  lemma GiveBackKeepsInv(s: State, t: nat)
    requires Inv(s) && Enabled(s, Act(t, GiveBack))
    ensures Inv(GiveBackOp(s, t, s.tasks[t].pc.g))
  {
    TaskInside(s, t);
    var g := s.tasks[t].pc.g;
    var v := Get(s, t, g);
    if v.wrap.rc == 1 && |s.free| < s.poolCap {
      PoolKeepsInv(s, t, g);
    } else {
      TaskViewOk(s.skip, s.threads, t, g, v, GiveBack);
      PutKeepsInv(s, g, TaskView(s.skip, t, g, v, GiveBack));
    }
  }

  /** A dropped task first leaves the operation, then releases its buffer. */
  lemma UnwindOpKeepsInv(s: State, t: nat)
    requires Inv(s) && Enabled(s, Act(t, UnwindOp))
    ensures Inv(ActStep(s, t, UnwindOp))
  {
    TaskInside(s, t);
    var g := s.tasks[t].pc.g;
    var v := Get(s, t, g);
    var left := TaskView(s.skip, t, g, v, UnwindOp);
    TaskViewOk(s.skip, s.threads, t, g, v, UnwindOp);
    var mid := Put(s, t, g, left.(task := left.task.(pc := Idle)));
    PutKeepsInv(s, g, left.(task := left.task.(pc := Idle)));
    BufferStepKeepsInv(mid, End(t));
    assert Next(mid, End(t)).tasks == ActStep(s, t, UnwindOp).tasks;
    assert Next(mid, End(t)) == ActStep(s, t, UnwindOp);
  }

  lemma KernelCompleteKeepsInv(s: State, g: nat, e: nat, n: nat)
    requires Inv(s) && Enabled(s, KernelComplete(g, e, n))
    ensures Inv(Next(s, KernelComplete(g, e, n)))
  {
    assert OpOk(s, g);
    var v := Get(s, s.ops[g].task, g);
    KernelViewOk(s.skip, s.threads, g, v, e, n);
    PutKeepsInv(s, g, KernelView(v, e, n));
  }

  lemma DequeueKeepsInv(s: State, i: nat, b: set<nat>)
    requires Inv(s) && Enabled(s, Dequeue(i, b))
    ensures Inv(Next(s, Dequeue(i, b)))
  {
    var s' := Next(s, Dequeue(i, b));
    forall g | 0 <= g < |s'.ops| ensures OpOk(s', g) && (Active(s', g) <==> Active(s, g)) {
      assert OpOk(s, g);
    }
    forall t | 0 <= t < |s'.tasks| ensures TaskOk(s', t) { assert TaskOk(s, t); }
    forall w | w in s'.wraps ensures WrapOk(s', w) { assert WrapOk(s, w); }
  }

  lemma TakeKeepsInv(s: State, g: nat)
    requires Inv(s) && Enabled(s, Take(g))
    ensures Inv(Next(s, Take(g)))
  {
    assert OpOk(s, g);
    var v := Get(s, s.ops[g].task, g);
    TakeViewOk(s.skip, s.threads, g, v);
    PutKeepsInv(s, g, TakeView(v));
  }

  lemma DeliverKeepsInv(s: State, g: nat)
    requires Inv(s) && Enabled(s, Deliver(g))
    ensures Inv(DeliverStep(s, g))
  {
    assert OpOk(s, g);
    var t := s.ops[g].task;
    var v := Get(s, t, g);
    DeliverViewOk(s.skip, s.threads, g, v);
    PutKeepsInv(s, g, DeliverAndWake(v));
    assert DeliverStep(s, g).tasks == Put(s, t, g, DeliverAndWake(v)).tasks;
  }

  lemma ActKeepsInv(s: State, t: nat, x: Action)
    requires Inv(s) && Enabled(s, Act(t, x))
    ensures Inv(ActStep(s, t, x))
  {
    if x.GiveBack? { GiveBackKeepsInv(s, t); }
    else if x.UnwindOp? { UnwindOpKeepsInv(s, t); }
    else { QuietActKeepsInv(s, t, x); }
  }

  lemma StepKeepsInv(s: State, a: Step)
    requires Inv(s) && Enabled(s, a)
    ensures Inv(Next(s, a))
  {
    match a
    case Act(t, x) => ActKeepsInv(s, t, x);
    case NewOp(t, w) => NewOpKeepsInv(s, t, w);
    case KernelComplete(g, e, n) => KernelCompleteKeepsInv(s, g, e, n);
    case Dequeue(i, b) => DequeueKeepsInv(s, i, b);
    case Take(g) => TakeKeepsInv(s, g);
    case Deliver(g) => DeliverKeepsInv(s, g);
    case _ => BufferStepKeepsInv(s, a);
  }

  /** The invariant holds after every run. */
  lemma {:induction false} RunKeepsInv(s0: State, run: seq<Step>, s: State)
    requires Inv(s0) && Reaches(s0, run, s)
    ensures Inv(s)
    decreases |run|
  {
    if run != [] {
      StepKeepsInv(s0, run[0]);
      RunKeepsInv(Next(s0, run[0]), run[1..], s);
    }
  }

  lemma ReachableInv(s: State)
    requires Reachable(s)
    ensures Inv(s)
  {
    var s0: State, run: seq<Step> :| Init(s0) && Reaches(s0, run, s);
    RunKeepsInv(s0, run, s);
  }
}
