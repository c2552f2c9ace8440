/** What every run of the overlapped-operation protocol guarantees. */
module OverlappedTheorems {
  import opened Basics
  import opened Overlapped
  import opened OverlappedInvariant

  // ----- Reference counts -----

  /** A place that owns one strong reference. */
  datatype Holder = TaskOp(t: nat) | TaskFuture(t: nat) | LeakedRef(g: nat) | Pooled

  predicate OpOn(s: State, t: nat, w: nat) {
    Inside(s, t) && s.ops[s.tasks[t].pc.g].wrap == w
  }

  predicate FutureOn(s: State, t: nat, w: nat) {
    OpOn(s, t, w) && HandlesOf(s.tasks[t].pc) == 2
  }

  predicate LeakOn(s: State, g: nat, w: nat) {
    g < |s.ops| && Open(s.ops[g].phase) && s.ops[g].wrap == w
  }

  /** Everybody holding wrap `w`. */
  function Holders(s: State, w: nat): set<Holder> {
    (set t | 0 <= t < |s.tasks| && OpOn(s, t, w) :: TaskOp(t))
    + (set t | 0 <= t < |s.tasks| && FutureOn(s, t, w) :: TaskFuture(t))
    + (set g | 0 <= g < |s.ops| && LeakOn(s, g, w) :: LeakedRef(g))
    + (if w in s.free then {Pooled} else {})
  }

  /** The holders of the wrap of an active operation: its task's, and the leaked one. */
  lemma HoldersOfActive(s: State, g: nat)
    requires Inv(s) && g < |s.ops| && Active(s, g)
    ensures Holders(s, s.ops[g].wrap)
         == (if Uses(s, g) then {TaskOp(s.ops[g].task)} else {})
          + (if Uses(s, g) && HandlesOf(s.tasks[s.ops[g].task].pc) == 2 then {TaskFuture(s.ops[g].task)} else {})
          + (if Open(s.ops[g].phase) then {LeakedRef(g)} else {})
  {
    var w := s.ops[g].wrap;
    assert OpOk(s, g);
    forall t | 0 <= t < |s.tasks| && OpOn(s, t, w) ensures t == s.ops[g].task && Uses(s, g) {
      TaskInside(s, t);
    }
    forall h | 0 <= h < |s.ops| && LeakOn(s, h, w) ensures h == g {
      assert OpOk(s, h);
    }
  }

  /** Nobody but the pool holds a pooled wrap. */
  lemma HoldersOfPooled(s: State, w: nat)
    requires Inv(s) && w in s.free
    ensures Holders(s, w) == {Pooled}
  {
    forall t | 0 <= t < |s.tasks| ensures !OpOn(s, t, w) {
      if OpOn(s, t, w) { TaskInside(s, t); }
    }
    forall g | 0 <= g < |s.ops| ensures !LeakOn(s, g, w) { assert OpOk(s, g); }
  }

  /** Nobody holds a wrap that is gone. */
  lemma NoHolders(s: State, w: nat)
    requires Inv(s) && w !in s.wraps
    ensures Holders(s, w) == {}
  {
    forall t | 0 <= t < |s.tasks| ensures !OpOn(s, t, w) {
      if OpOn(s, t, w) { TaskInside(s, t); }
    }
    forall g | 0 <= g < |s.ops| ensures !LeakOn(s, g, w) { assert OpOk(s, g); }
  }

  lemma CountOfActive(s: State, g: nat)
    requires Inv(s) && g < |s.ops| && Active(s, g)
    ensures s.ops[g].task < |s.tasks|
    ensures |Holders(s, s.ops[g].wrap)| == Handles(g, s.tasks[s.ops[g].task], s.ops[g]) > 0
  {
    HoldersOfActive(s, g);
    assert OpOk(s, g);
    var t := s.ops[g].task;
    AtMostThree(t, g, Uses(s, g), Uses(s, g) && HandlesOf(s.tasks[t].pc) == 2, Open(s.ops[g].phase));
  }

  lemma AtMostThree(t: nat, g: nat, op: bool, future: bool, leak: bool)
    ensures |(if op then {TaskOp(t)} else {}) + (if future then {TaskFuture(t)} else {})
             + (if leak then {LeakedRef(g)} else {})|
         == (if op then 1 else 0) + (if future then 1 else 0) + (if leak then 1 else 0)
  {
    var a: set<Holder> := if op then {TaskOp(t)} else {};
    var b: set<Holder> := if future then {TaskFuture(t)} else {};
    var c: set<Holder> := if leak then {LeakedRef(g)} else {};
    assert a !! b && a + b !! c;
  }

  /** Each wrap's strong count is the number of places holding it; it is never zero. */
  lemma CountsAreExact(s: State, w: nat)
    requires Reachable(s) && w in s.wraps
    ensures s.wraps[w].rc == |Holders(s, w)| > 0
  {
    ReachableInv(s);
    assert WrapOk(s, w);
    if w in s.free {
      HoldersOfPooled(s, w);
    } else {
      CountOfActive(s, s.wraps[w].gen);
      assert OpOk(s, s.wraps[w].gen);
    }
  }

  /** No reference dangles: whatever is held is still allocated. */
  lemma NoDangling(s: State)
    requires Reachable(s)
    ensures forall t :: 0 <= t < |s.tasks| && OpOf(s.tasks[t].pc).Some? ==> Inside(s, t)
    ensures forall g :: 0 <= g < |s.ops| && Open(s.ops[g].phase) ==> s.ops[g].wrap in s.wraps
    ensures forall i :: 0 <= i < |s.free| ==> s.free[i] in s.wraps
  {
    ReachableInv(s);
    forall t | 0 <= t < |s.tasks| && OpOf(s.tasks[t].pc).Some? ensures Inside(s, t) { TaskInside(s, t); }
    forall g | 0 <= g < |s.ops| && Open(s.ops[g].phase) ensures s.ops[g].wrap in s.wraps { assert OpOk(s, g); }
  }

  /** The leaked reference is never taken back twice; `finish` takes it back exactly
      for a refused call or an inline success, a completion thread otherwise. */
  lemma ReclaimedOnce(s: State, g: nat)
    requires Reachable(s) && g < |s.ops|
    ensures |s.ops[g].reclaims| == if s.ops[g].phase.Reclaimed? then 1 else 0
    ensures s.ops[g].reclaims == [Finish] ==> s.ops[g].call.Refuse? || s.ops[g].call.Inline?
    ensures s.ops[g].reclaims == [Port] ==> s.ops[g].call.Pending? || s.ops[g].call.InlinePosted?
  {
    ReachableInv(s);
    assert OpOk(s, g);
  }

  /** `o'` extends the history of `o`: same operation, the log of reclaims has only
      grown, and a packet's status has not been rewritten. */
  predicate Extends(o: Op, o': Op) {
    && o'.task == o.task && o'.wrap == o.wrap && o.reclaims <= o'.reclaims
    && (!o.call.NotYet? ==> o'.call == o.call)
    && (Accepted(o.call) && !o.phase.InKernel? ==>
          o'.call == o.call && o'.err == o.err && o'.len == o.len && !o'.phase.InKernel?)
  }

  lemma ActKeepsHistory(s: State, t: nat, x: Action, g: nat)
    requires Inv(s) && Enabled(s, Act(t, x)) && g < |s.ops|
    ensures |ActStep(s, t, x).ops| == |s.ops| && Extends(s.ops[g], ActStep(s, t, x).ops[g])
  {
    TaskInside(s, t);
    var h := s.tasks[t].pc.g;
    var v' := TaskView(s.skip, t, h, Get(s, t, h), x);
    assert Extends(s.ops[h], v'.op);
    assert x.GiveBack? ==> v'.op == s.ops[h];
    assert ActStep(s, t, x).ops == s.ops[h := v'.op];
  }

  lemma StepKeepsHistory(s: State, a: Step, g: nat)
    requires Inv(s) && Enabled(s, a) && g < |s.ops|
    ensures g < |Next(s, a).ops| && Extends(s.ops[g], Next(s, a).ops[g])
  {
    if a.Act? { ActKeepsHistory(s, a.t, a.x, g); }
  }

  /** Over any further run an operation's history is only extended; so the one
      reclaim it can have stays the only one for ever. */
  lemma {:induction false} HistoryIsKept(s: State, run: seq<Step>, s': State, g: nat)
    requires Inv(s) && Reaches(s, run, s') && g < |s.ops|
    ensures g < |s'.ops| && Extends(s.ops[g], s'.ops[g])
    ensures s.ops[g].reclaims != [] ==> s'.ops[g].reclaims == s.ops[g].reclaims
    decreases |run|
  {
    if run == [] {
    } else {
      StepKeepsHistory(s, run[0], g);
      StepKeepsInv(s, run[0]);
      HistoryIsKept(Next(s, run[0]), run[1..], s', g);
    }
    RunKeepsInv(s, run, s');
    assert OpOk(s, g) && OpOk(s', g);
  }

  // ----- Generations -----

  /** A pooled wrap is unique, reset, and no earlier operation can still reach it. */
  lemma PooledWrapsAreClean(s: State, w: nat)
    requires Reachable(s) && w in s.free
    ensures w in s.wraps && s.wraps[w] == Fresh(1, s.wraps[w].gen)
    ensures forall g :: 0 <= g < |s.ops| && s.ops[g].wrap == w ==> s.ops[g].phase.Reclaimed? && !Uses(s, g)
    ensures |s.free| <= s.poolCap && forall i, j :: 0 <= i < j < |s.free| ==> s.free[i] != s.free[j]
  {
    ReachableInv(s);
    assert WrapOk(s, w);
    forall g | 0 <= g < |s.ops| && s.ops[g].wrap == w ensures !Active(s, g) { assert OpOk(s, g); }
  }

  /** Nothing of anybody else's changed: no other operation's wrap, no pooled wrap, no task
      but the one that started `g`. */
  ghost predicate OnlyItsOwn(s: State, s': State, g: nat)
    requires g < |s.ops|
  {
    && |s'.tasks| == |s.tasks|
    && (forall h :: 0 <= h < |s.ops| && h != g && Active(s, h) ==>
          && s.ops[h].wrap in s.wraps && s.ops[h].wrap in s'.wraps
          && s'.wraps[s.ops[h].wrap] == s.wraps[s.ops[h].wrap])
    && (forall w :: w in s.free ==> w in s.wraps && w in s'.wraps && s'.wraps[w] == s.wraps[w])
    && s'.free == s.free
    && (forall t :: 0 <= t < |s.tasks| && t != s.ops[g].task ==> s'.tasks[t] == s.tasks[t])
  }

  /** The wraps of other operations and of the pool are not the wrap of an open one. */
  lemma OtherWrapsDiffer(s: State, g: nat)
    requires Inv(s) && g < |s.ops| && Open(s.ops[g].phase)
    ensures forall h :: 0 <= h < |s.ops| && Active(s, h) ==>
              s.ops[h].wrap in s.wraps && (h != g ==> s.ops[h].wrap != s.ops[g].wrap)
    ensures forall w :: w in s.free ==> w in s.wraps && w != s.ops[g].wrap
  {
    assert OpOk(s, g);
    forall h | 0 <= h < |s.ops| && Active(s, h)
      ensures s.ops[h].wrap in s.wraps && (h != g ==> s.ops[h].wrap != s.ops[g].wrap)
    {
      assert OpOk(s, h);
      if h != g { DistinctWraps(s, g, h); }
    }
  }

  /** What the kernel and the completion threads write for `g`, the result into its wrap,
      the flag, the wake, touches nothing of anybody else's. */
  lemma NoCrossGeneration(s: State, a: Step, g: nat)
    requires Reachable(s) && Enabled(s, a) && (a.KernelComplete? || a.Take? || a.Deliver?) && a.op == g
    ensures g < |s.ops| && OnlyItsOwn(s, Next(s, a), g)
  {
    ReachableInv(s);
    OtherWrapsDiffer(s, g);
    assert OpOk(s, g);
  }

  /** `give_back`, by the strong count. */
  lemma GiveBackByCount(s: State, t: nat)
    requires Inv(s) && Enabled(s, Act(t, GiveBack))
    ensures var s', w := Next(s, Act(t, GiveBack)), s.ops[s.tasks[t].pc.g].wrap;
            && s'.ops == s.ops && |s'.tasks| == |s.tasks| && s'.tasks[t].pc == Idle
            && if s.wraps[w].rc == 1 && |s.free| < s.poolCap
               then s'.free == s.free + [w] && w in s'.wraps && s'.wraps[w].rc == 1
               else s'.free == s.free && (s.wraps[w].rc == 1 ==> w !in s'.wraps)
  {
    TaskInside(s, t);
  }

  /** At that point the wrap's holders are its task and perhaps the leaked reference. */
  lemma HoldersAtGiveBack(s: State, t: nat)
    requires Inv(s) && Enabled(s, Act(t, GiveBack))
    ensures var g := s.tasks[t].pc.g; var w := s.ops[g].wrap;
            && Holders(s, w) == {TaskOp(t)} + (if Open(s.ops[g].phase) then {LeakedRef(g)} else {})
            && s.wraps[w].rc == (if Open(s.ops[g].phase) then 2 else 1)
  {
    TaskInside(s, t);
    HoldersOfActive(s, s.tasks[t].pc.g);
  }

  /** The pool or nobody holds a wrap whose only holder gave it back. */
  lemma GivenBackAlone(s: State, t: nat)
    requires Inv(s) && Enabled(s, Act(t, GiveBack)) && !Open(s.ops[s.tasks[t].pc.g].phase)
    ensures var s', w := Next(s, Act(t, GiveBack)), s.ops[s.tasks[t].pc.g].wrap;
            if |s.free| < s.poolCap then s'.free == s.free + [w] && Holders(s', w) == {Pooled}
            else s'.free == s.free && Holders(s', w) == {}
  {
    var s', w := Next(s, Act(t, GiveBack)), s.ops[s.tasks[t].pc.g].wrap;
    StepKeepsInv(s, Act(t, GiveBack));
    GiveBackByCount(s, t);
    HoldersAtGiveBack(s, t);
    if |s.free| < s.poolCap {
      assert s'.free[|s.free|] == w;
      HoldersOfPooled(s', w);
    } else {
      NoHolders(s', w);
    }
  }

  /** `give_back`, by who holds the wrap: it is pooled exactly if its operation's task is its
      only holder and there is room, and is then the pool's alone; otherwise the pool stays
      as it is and the wrap has that holder less. */
  lemma GiveBackIsExact(s: State, t: nat)
    requires Reachable(s) && Enabled(s, Act(t, GiveBack))
    ensures var s', w := Next(s, Act(t, GiveBack)), s.ops[s.tasks[t].pc.g].wrap;
            if Holders(s, w) == {TaskOp(t)} && |s.free| < s.poolCap
            then s'.free == s.free + [w] && Holders(s', w) == {Pooled}
            else s'.free == s.free && Holders(s', w) == Holders(s, w) - {TaskOp(t)}
  {
    ReachableInv(s);
    var g := s.tasks[t].pc.g;
    HoldersAtGiveBack(s, t);
    if Open(s.ops[g].phase) {
      assert LeakedRef(g) in Holders(s, s.ops[g].wrap);
      StillLeaked(s, t);
    } else {
      GivenBackAlone(s, t);
    }
  }

  lemma StillLeaked(s: State, t: nat)
    requires Inv(s) && Enabled(s, Act(t, GiveBack)) && Open(s.ops[s.tasks[t].pc.g].phase)
    ensures var g, s' := s.tasks[t].pc.g, Next(s, Act(t, GiveBack));
            Holders(s', s.ops[g].wrap) == {LeakedRef(g)} && s'.free == s.free
  {
    var g, s' := s.tasks[t].pc.g, Next(s, Act(t, GiveBack));
    TaskInside(s, t);
    GiveBackByCount(s, t);
    HoldersAtGiveBack(s, t);
    StepKeepsInv(s, Act(t, GiveBack));
    HoldersOfActive(s', g);
  }

  // ----- Lent memory -----

  /** Until an operation's completion is recorded its task stays inside it and its
      buffer stays allocated to that task. */
  lemma LentMemoryIsHeld(s: State, g: nat)
    requires Reachable(s) && g < |s.ops| && !Done(s.ops[g].phase)
    ensures var o := s.ops[g];
            o.task < |s.tasks| && OpOf(s.tasks[o.task].pc) == Some(g) && s.tasks[o.task].buf == o.buf
            && o.buf in s.live && s.live[o.buf] == o.task
  {
    ReachableInv(s);
    assert OpOk(s, g);
    assert TaskOk(s, s.ops[g].task);
  }

  /** Operation `o` was given a buffer that its task still owns. */
  predicate Lent(s: State, o: Op) {
    o.buf in s.live && s.live[o.buf] == o.task && o.task < |s.tasks| && s.tasks[o.task].buf == o.buf
  }

  lemma ActKeepsLent(s: State, t: nat, x: Action, g: nat)
    requires Inv(s) && Enabled(s, Act(t, x)) && g < |s.ops| && !Done(s.ops[g].phase) && Lent(s, s.ops[g])
    ensures Lent(ActStep(s, t, x), s.ops[g])
  {
    TaskInside(s, t);
    assert OpOk(s, g);
    assert TaskOk(s, t);
    var h := s.tasks[t].pc.g;
    assert TaskView(s.skip, t, h, Get(s, t, h), x).task.buf == s.tasks[t].buf;
  }

  /** No step, dropping a task included, releases, hands on or replaces a buffer that
      an operation without a recorded completion was given. */
  lemma LentMemoryIsNotReleased(s: State, a: Step, g: nat)
    requires Reachable(s) && Enabled(s, a) && g < |s.ops| && !Done(s.ops[g].phase)
    ensures Lent(Next(s, a), s.ops[g])
  {
    ReachableInv(s);
    LentMemoryIsHeld(s, g);
    if a.Act? { ActKeepsLent(s, a.t, a.x, g); }
    else if BufferStep(a) { assert TaskOk(s, a.t); }
  }

  // ----- The wake handshake -----

  /** A task whose last poll returned Pending has been notified, or its waker is
      registered and the wake step of its operation is still to come. */
  lemma NoLostWakeup(s: State, t: nat)
    requires Reachable(s) && t < |s.tasks| && s.tasks[t].pc.Suspended?
    ensures s.tasks[t].pc.g < |s.ops|
    ensures var o := s.ops[s.tasks[t].pc.g];
            || s.tasks[t].notified
            || (!Past(o.phase) && o.wrap in s.wraps && s.wraps[o.wrap].waker == Some(t))
  {
    ReachableInv(s);
    TaskInside(s, t);
  }

  /** That wake step does notify it. */
  lemma WakeReachesTask(s: State, g: nat)
    requires Reachable(s) && Enabled(s, Deliver(g)) && s.ops[g].phase.stage.Flagged?
    requires s.tasks[s.ops[g].task].pc == Suspended(g)
    ensures Next(s, Deliver(g)).tasks[s.ops[g].task].notified
  {
    ReachableInv(s);
    TaskInside(s, s.ops[g].task);
  }

  /** Either load of a poll goes on to the result exactly if the completion is recorded, and
      then without registering; the first one else registers, the re-check suspends. */
  lemma LoadIsExact(s: State, t: nat, x: Action)
    requires Reachable(s) && (x.Load1? || x.Load2?) && Enabled(s, Act(t, x))
    ensures var g, s' := s.tasks[t].pc.g, Next(s, Act(t, x));
            && g < |s.ops| && s'.ops == s.ops && s'.wraps == s.wraps && |s'.tasks| == |s.tasks|
            && s'.tasks[t].pc == if Done(s.ops[g].phase) then Reading(g)
                                 else if x.Load1? then Register(g) else Suspended(g)
  {
    ReachableInv(s);
    TaskInside(s, t);
  }

  /** A poll before the flag is stored finds nothing, uses the notification up, and leaves
      its task registered for the wake to come. */
  lemma EarlyPollWaitsAgain(s: State, t: nat) returns (s': State)
    requires Reachable(s) && t < |s.tasks| && s.tasks[t].pc.Suspended? && Inside(s, t)
    requires !s.wraps[s.ops[s.tasks[t].pc.g].wrap].completed
    ensures Reachable(s') && |s'.tasks| == |s.tasks| && s'.ops == s.ops && s'.tasks[t].pc == s.tasks[t].pc
    ensures !s'.tasks[t].notified
    ensures var w := s.ops[s.tasks[t].pc.g].wrap; w in s'.wraps && s'.wraps[w].waker == Some(t)
  {
    s' := PollStep(s, t, Repoll);
    s' := PollStep(s', t, Load1);
    s' := PollStep(s', t, RegisterWaker);
    s' := PollStep(s', t, Load2);
  }

  /** One action of a poll, on its task's own view. */
  lemma PollStep(s: State, t: nat, x: Action) returns (s': State)
    requires Reachable(s) && Inside(s, t) && Enabled(s, Act(t, x)) && !s.wraps[s.ops[s.tasks[t].pc.g].wrap].completed
    requires x.Repoll? || x.Load1? || x.RegisterWaker? || x.Load2?
    ensures Reachable(s') && s' == Next(s, Act(t, x)) && |s'.tasks| == |s.tasks| && s'.ops == s.ops && Inside(s', t)
    ensures var g := s.tasks[t].pc.g;
            s'.tasks[t].pc.g == g && Get(s', t, g) == TaskView(s.skip, t, g, Get(s, t, g), x)
  {
    ReachableInv(s);
    TaskInside(s, t);
    s' := Go(s, Act(t, x));
  }

  /** Dropping a pending future cancels its operation exactly if it is not complete yet, and
      no other; only then does the drop have to wait. */
  lemma DropCancelsExactly(s: State, t: nat)
    requires Reachable(s) && Enabled(s, Act(t, CheckDrop))
    ensures var g, s' := s.tasks[t].pc.g, Next(s, Act(t, CheckDrop));
            && g < |s.ops| && s'.ops == s.ops && |s'.tasks| == |s.tasks|
            && s'.tasks[t].pc == if Done(s.ops[g].phase) then Released(g) else Cancelling(g)
  {
    ReachableInv(s);
    TaskInside(s, t);
  }

  lemma CancelIsExact(s: State, t: nat)
    requires Reachable(s) && Enabled(s, Act(t, CancelIo))
    ensures var g, s' := s.tasks[t].pc.g, Next(s, Act(t, CancelIo));
            && g < |s.ops| && |s'.tasks| == |s.tasks| && s'.tasks[t].pc == Spinning(g)
            && |s'.ops| == |s.ops| && (forall h :: 0 <= h < |s.ops| && h != g ==> s'.ops[h] == s.ops[h])
            && s'.ops[g].phase == if s.ops[g].phase.InKernel? then InKernel(true) else s.ops[g].phase
  {
    ReachableInv(s);
    TaskInside(s, t);
  }

  /** What `finish` returns is the refusal code, the inline byte count, or exactly the
      status and length of the operation's own packet. */
  lemma NoTornResult(s: State, t: nat)
    requires Reachable(s) && t < |s.tasks| && (s.tasks[t].pc.Resolved? || s.tasks[t].pc.Returning?)
    ensures s.tasks[t].pc.g < |s.ops|
    ensures var o := s.ops[s.tasks[t].pc.g];
            && (Accepted(o.call) ==> s.tasks[t].got == (if o.err == 0 then Ok(o.len) else Err(o.err)))
            && (o.call.Refuse? ==> s.tasks[t].got == Err(o.call.code))
            && (o.call.Inline? ==> s.tasks[t].got == Ok(o.call.bytes))
            && !o.call.NotYet?
  {
    ReachableInv(s);
    TaskInside(s, t);
  }

  /** What the kernel completes an operation with is what its record says ever after. */
  lemma CompletedWith(s: State, a: Step, rest: seq<Step>, s': State)
    requires Inv(s) && a.KernelComplete? && Enabled(s, a) && Reaches(Next(s, a), rest, s')
    ensures a.op < |s'.ops| && s'.ops[a.op].err == a.e && s'.ops[a.op].len == a.n
  {
    assert OpOk(s, a.op);
    StepKeepsInv(s, a);
    HistoryIsKept(Next(s, a), rest, s', a.op);
  }

  /** Only its completion by the kernel takes an operation out of it. */
  lemma LeavesTheKernel(s: State, a: Step, g: nat)
    requires Inv(s) && Enabled(s, a) && g < |s.ops| && s.ops[g].phase.InKernel? && !(a.KernelComplete? && a.op == g)
    ensures g < |Next(s, a).ops| && Next(s, a).ops[g].phase.InKernel?
  {
    if a.Act? {
      TaskInside(s, a.t);
      var h := s.tasks[a.t].pc.g;
      var v' := TaskView(s.skip, a.t, h, Get(s, a.t, h), a.x);
      assert h == g ==> v'.op.phase.InKernel?;
      assert ActStep(s, a.t, a.x).ops == s.ops[h := v'.op];
    }
  }

  /** The step of `run` that completed `g`. */
  predicate Completes(run: seq<Step>, j: nat, g: nat) {
    j < |run| && run[j].KernelComplete? && run[j].op == g
  }

  /** An operation that has left the kernel was completed by it, with the status and length
      its record has. */
  lemma {:induction false} KernelCompletedIt(s: State, run: seq<Step>, s': State, g: nat) returns (j: nat)
    requires Inv(s) && Reaches(s, run, s') && g < |s.ops| && s.ops[g].phase.InKernel?
    requires g < |s'.ops| && !s'.ops[g].phase.InKernel?
    ensures Completes(run, j, g) && s'.ops[g].err == run[j].e && s'.ops[g].len == run[j].n
    decreases |run|
  {
    if Completes(run, 0, g) {
      j := 0;
      CompletedWith(s, run[0], run[1..], s');
    } else {
      LeavesTheKernel(s, run[0], g);
      StepKeepsInv(s, run[0]);
      j := KernelCompletedIt(Next(s, run[0]), run[1..], s', g);
      j := j + 1;
    }
  }

  lemma SubmitRecords(s: State, t: nat, c: Call)
    requires Inv(s) && Enabled(s, Act(t, Submit(c)))
    ensures var g := s.tasks[t].pc.g; var s' := Next(s, Act(t, Submit(c)));
            && g < |s'.ops| && s'.ops[g].call == c && (c.Pending? ==> s'.ops[g].phase.InKernel?)
  {
    TaskInside(s, t);
  }

  /** From the call to the result, over every run: `finish` yields the code of a refusal, the
      bytes of a call done at once whether or not a packet follows, and otherwise exactly
      the status and length the kernel completed this operation with. */
  lemma FinishYieldsTheAnswer(s: State, t: nat, c: Call, run: seq<Step>, s': State, u: nat) returns (j: nat)
    requires Reachable(s) && Enabled(s, Act(t, Submit(c))) && Reaches(Next(s, Act(t, Submit(c))), run, s')
    requires u < |s'.tasks|
    requires s'.tasks[u].pc == Resolved(s.tasks[t].pc.g) || s'.tasks[u].pc == Returning(s.tasks[t].pc.g)
    ensures c.Refuse? ==> s'.tasks[u].got == Err(c.code)
    ensures c.Inline? || c.InlinePosted? ==> s'.tasks[u].got == Ok(c.bytes)
    ensures c.Pending? ==>
              && Completes(run, j, s.tasks[t].pc.g)
              && s'.tasks[u].got == if run[j].e == 0 then Ok(run[j].n) else Err(run[j].e)
  {
    j := 0;
    var g, s1 := s.tasks[t].pc.g, Next(s, Act(t, Submit(c)));
    ReachableInv(s);
    StepKeepsInv(s, Act(t, Submit(c)));
    SubmitRecords(s, t, c);
    HistoryIsKept(s1, run, s', g);
    RunKeepsInv(s1, run, s');
    TaskInside(s', u);
    if c.Pending? { j := KernelCompletedIt(s1, run, s', g); }
  }

  // ----- Cancellation makes progress -----

  /** Steps left until an accepted operation's flag is stored. */
  function Distance(p: Phase): nat {
    match p
    case InKernel(_) => 6
    case Queued => 5
    case Batched(_) => 4
    case Delivering(_, Taken) => 3
    case Delivering(_, ErrStored) => 2
    case Delivering(_, LenStored) => 1
    case _ => 0
  }

  lemma DistanceIsExact(s: State, t: nat)
    requires Reachable(s) && t < |s.tasks| && s.tasks[t].pc.Spinning?
    ensures Inside(s, t)
    ensures var o := s.ops[s.tasks[t].pc.g]; Distance(o.phase) == 0 <==> s.wraps[o.wrap].completed
  {
    ReachableInv(s);
    TaskInside(s, t);
  }

  /** Kernel and completion-thread steps left for an operation. */
  function Rank(o: Op): nat {
    match o.phase
    case Delivering(_, Flagged) => 2
    case Delivering(_, Woken) => 1
    case p => if Distance(p) == 0 then 0 else Distance(p) + 2
  }

  function Work(ops: seq<Op>): nat {
    if ops == [] then 0 else Rank(ops[0]) + Work(ops[1..])
  }

  /** Steps of the kernel and of completion threads; none looks at a task. */
  predicate IoStep(a: Step) { a.KernelComplete? || a.Dequeue? || a.Take? || a.Deliver? }

  /** Steps that happen without anything arriving from outside: the kernel finishes
      a cancelled operation, completion threads run. */
  ghost predicate Owed(s: State, a: Step) {
    IoStep(a) && Enabled(s, a)
    && (a.KernelComplete? ==> a.op < |s.ops| && s.ops[a.op].phase == InKernel(true))
  }

  lemma {:induction false} WorkLess(a: seq<Op>, b: seq<Op>, k: nat)
    requires |a| == |b| && k < |a|
    requires forall i :: 0 <= i < |a| ==> Rank(a[i]) <= Rank(b[i])
    requires Rank(a[k]) < Rank(b[k])
    ensures Work(a) < Work(b)
  {
    if k == 0 {
      WorkLeq(a[1..], b[1..]);
    } else {
      WorkLess(a[1..], b[1..], k - 1);
    }
  }

  lemma {:induction false} WorkLeq(a: seq<Op>, b: seq<Op>)
    requires |a| == |b| && forall i :: 0 <= i < |a| ==> Rank(a[i]) <= Rank(b[i])
    ensures Work(a) <= Work(b)
  {
    if a != [] { WorkLeq(a[1..], b[1..]); }
  }

  /** What an I/O step does to the operations. */
  lemma IoStepOps(s: State, a: Step)
    requires Enabled(s, a) && IoStep(a) && !a.Dequeue?
    ensures Next(s, a).ops == s.ops[a.op := Next(s, a).ops[a.op]]
    ensures Rank(Next(s, a).ops[a.op]) < Rank(s.ops[a.op])
  {}

  lemma DequeueWorks(s: State, i: nat, b: set<nat>)
    requires Enabled(s, Dequeue(i, b))
    ensures Work(Next(s, Dequeue(i, b)).ops) < Work(s.ops)
  {
    var k :| k in b;
    WorkLess(Next(s, Dequeue(i, b)).ops, s.ops, k);
  }

  /** Every I/O step does some of the work, and moves no task. */
  lemma IoStepWorks(s: State, a: Step)
    requires Enabled(s, a) && IoStep(a)
    ensures SamePlaces(s, Next(s, a))
    ensures Work(Next(s, a).ops) < Work(s.ops)
  {
    if a.Dequeue? {
      DequeueWorks(s, a.i, a.batch);
    } else {
      IoStepOps(s, a);
      WorkLess(Next(s, a).ops, s.ops, a.op);
    }
  }

  /** Cancelled, or past the kernel and not yet fully delivered. */
  predicate Unfinished(p: Phase) { p == InKernel(true) || p.Queued? || p.Batched? || p.Delivering? }

  /** As long as an operation is unfinished some step is owed. */
  lemma UnfinishedIsOwedAStep(s: State, g: nat)
    requires Inv(s) && g < |s.ops| && Unfinished(s.ops[g].phase)
    ensures exists a :: Owed(s, a)
  {
    assert OpOk(s, g);
    match s.ops[g].phase
    case InKernel(_) => assert Owed(s, KernelComplete(g, 0, 0));
    case Queued => QueuedIsOwedAStep(s, g);
    case _ => BusyThreadIsOwedAStep(s, g);
  }

  /** A spinning task whose operation is not completed always has an owed step. */
  lemma SpinningIsOwedAStep(s: State, t: nat)
    requires Inv(s) && t < |s.tasks| && s.tasks[t].pc.Spinning? && !Enabled(s, Act(t, Spin))
    ensures exists a :: Owed(s, a)
  {
    TaskInside(s, t);
    UnfinishedIsOwedAStep(s, s.tasks[t].pc.g);
  }

  /** A queued packet can be dequeued, or the thread that should is busy. */
  lemma QueuedIsOwedAStep(s: State, g: nat)
    requires Inv(s) && g < |s.ops| && s.ops[g].phase.Queued?
    ensures exists a :: Owed(s, a)
  {
    if ThreadIdle(s, 0) {
      assert |{g}| == 1;
      assert Owed(s, Dequeue(0, {g}));
    } else {
      var h: nat :| h < |s.ops| && OnThread(s.ops[h].phase, 0);
      BusyThreadIsOwedAStep(s, h);
    }
  }

  /** A thread with a packet in hand can always take its next step. */
  lemma BusyThreadIsOwedAStep(s: State, h: nat)
    requires Inv(s) && h < |s.ops| && (s.ops[h].phase.Batched? || s.ops[h].phase.Delivering?)
    ensures exists a :: Owed(s, a)
  {
    assert OpOk(s, h);
    if s.ops[h].phase.Delivering? {
      assert Owed(s, Deliver(h));
    } else if BetweenEntries(s, s.ops[h].phase.thread) {
      assert Owed(s, Take(h));
    } else {
      var k: nat :| k < |s.ops| && s.ops[k].phase.Delivering? && s.ops[k].phase.io == s.ops[h].phase.thread;
      assert OpOk(s, k);
      assert Owed(s, Deliver(k));
    }
  }

  /** No task has moved. */
  predicate SamePlaces(s: State, s': State) {
    |s'.tasks| == |s.tasks| && forall t :: 0 <= t < |s.tasks| ==> s'.tasks[t].pc == s.tasks[t].pc
  }

  /** The kernel and the threads have nothing left to do. */
  ghost predicate Rested(s: State) { forall a :: !Owed(s, a) }

  /** At rest, every packet has been delivered and every reference out is held by an
      operation the kernel is still waiting to complete, or not yet handed over. */
  lemma RestedPhases(s: State, g: nat)
    requires Inv(s) && Rested(s) && g < |s.ops|
    ensures var p := s.ops[g].phase; p.Reclaimed? || p == InKernel(false) || p.Leaked? || p.Refused? || p.Inlined?
  {
    if Unfinished(s.ops[g].phase) { UnfinishedIsOwedAStep(s, g); }
  }

  ghost predicate OnlyIo(run: seq<Step>) { forall i :: 0 <= i < |run| ==> IoStep(run[i]) }

  lemma {:induction false} IoRunIsBounded(s: State, run: seq<Step>, s': State)
    requires Reaches(s, run, s') && OnlyIo(run)
    ensures |run| + Work(s'.ops) <= Work(s.ops)
    ensures SamePlaces(s, s')
    decreases |run|
  {
    if run != [] {
      IoStepWorks(s, run[0]);
      IoRunIsBounded(Next(s, run[0]), run[1..], s');
    }
  }

  /** With every other task stopped, kernel and completion threads alone free every
      spinning drop: such a run is bounded, and when it can go no further no drop
      is still waiting. */
  lemma CancellationTerminates(s: State, run: seq<Step>, s': State)
    requires Reachable(s) && Reaches(s, run, s') && OnlyIo(run)
    ensures |run| <= Work(s.ops) && SamePlaces(s, s')
    ensures Rested(s') ==>
              forall t :: 0 <= t < |s'.tasks| && s'.tasks[t].pc.Spinning? ==> Enabled(s', Act(t, Spin))
  {
    ReachableInv(s);
    IoRunIsBounded(s, run, s');
    RunKeepsInv(s, run, s');
    forall t | 0 <= t < |s'.tasks| && s'.tasks[t].pc.Spinning? && !Enabled(s', Act(t, Spin))
      ensures exists a :: Owed(s', a)
    {
      SpinningIsOwedAStep(s', t);
    }
  }

  /** Likewise for waiting tasks: such a run is bounded, and when it can go no further
      every task whose last poll returned Pending has been notified, unless the kernel
      is still waiting for its operation to happen. */
  lemma WaitersAreNotified(s: State, run: seq<Step>, s': State)
    requires Reachable(s) && Reaches(s, run, s') && OnlyIo(run)
    ensures |run| <= Work(s.ops) && SamePlaces(s, s')
    ensures Rested(s') ==>
              forall t :: 0 <= t < |s'.tasks| && s'.tasks[t].pc.Suspended? ==>
                s'.tasks[t].notified
                || (s'.tasks[t].pc.g < |s'.ops| && s'.ops[s'.tasks[t].pc.g].phase == InKernel(false))
  {
    ReachableInv(s);
    IoRunIsBounded(s, run, s');
    RunKeepsInv(s, run, s');
    if Rested(s') {
      forall t | 0 <= t < |s'.tasks| && s'.tasks[t].pc.Suspended?
        ensures s'.tasks[t].notified
                || (s'.tasks[t].pc.g < |s'.ops| && s'.ops[s'.tasks[t].pc.g].phase == InKernel(false))
      {
        TaskInside(s', t);
        RestedPhases(s', s'.tasks[t].pc.g);
      }
    }
  }

  // ----- Progress while everybody else keeps running -----

  /** The step is taken for operation `g`. */
  predicate For(a: Step, g: nat) {
    (a.Dequeue? && g in a.batch) || ((a.KernelComplete? || a.Take? || a.Deliver?) && a.op == g)
  }

  /** Steps of a run taken for `g`. */
  function OwnSteps(run: seq<Step>, g: nat): nat {
    if run == [] then 0 else (if For(run[0], g) then 1 else 0) + OwnSteps(run[1..], g)
  }

  lemma ActKeepsDistance(s: State, t: nat, x: Action, g: nat)
    requires Inv(s) && Enabled(s, Act(t, x)) && g < |s.ops| && Accepted(s.ops[g].call)
    ensures |ActStep(s, t, x).ops| == |s.ops| && Accepted(ActStep(s, t, x).ops[g].call)
    ensures Distance(ActStep(s, t, x).ops[g].phase) == Distance(s.ops[g].phase)
    ensures Rank(ActStep(s, t, x).ops[g]) == Rank(s.ops[g])
  {
    TaskInside(s, t);
    var h := s.tasks[t].pc.g;
    var v' := TaskView(s.skip, t, h, Get(s, t, h), x);
    assert x.GiveBack? ==> v'.op == s.ops[h];
    assert ActStep(s, t, x).ops == s.ops[h := v'.op];
  }

  /** `o'` is no further from its flag and its reclaim than `o`, and nearer if the step
      was taken for it. */
  predicate Nearer(o: Op, o': Op, own: bool) {
    && Accepted(o'.call)
    && Distance(o'.phase) <= Distance(o.phase) && Rank(o') <= Rank(o)
    && (own ==> Rank(o') < Rank(o))
    && (own && Distance(o.phase) > 0 ==> Distance(o'.phase) < Distance(o.phase))
  }

  lemma DequeueFalls(s: State, i: nat, b: set<nat>, g: nat)
    requires Enabled(s, Dequeue(i, b)) && g < |s.ops| && Accepted(s.ops[g].call)
    ensures g < |Next(s, Dequeue(i, b)).ops| && Nearer(s.ops[g], Next(s, Dequeue(i, b)).ops[g], g in b)
  {}

  lemma IoFalls(s: State, a: Step, g: nat)
    requires Enabled(s, a) && IoStep(a) && !a.Dequeue? && g < |s.ops| && Accepted(s.ops[g].call)
    ensures g < |Next(s, a).ops| && Nearer(s.ops[g], Next(s, a).ops[g], a.op == g)
  {
    IoStepOps(s, a);
  }

  /** No step of anybody raises an accepted operation's distance from its flag, and each
      step taken for it lowers it until it is zero. */
  lemma DistanceFalls(s: State, a: Step, g: nat)
    requires Inv(s) && Enabled(s, a) && g < |s.ops| && Accepted(s.ops[g].call)
    ensures g < |Next(s, a).ops| && Nearer(s.ops[g], Next(s, a).ops[g], For(a, g))
  {
    if a.Act? { ActKeepsDistance(s, a.t, a.x, g); }
    else if a.Dequeue? { DequeueFalls(s, a.i, a.batch, g); }
    else if IoStep(a) { IoFalls(s, a, g); }
  }

  lemma {:induction false} OwnStepsCount(s: State, run: seq<Step>, s': State, g: nat)
    requires Inv(s) && Reaches(s, run, s') && g < |s.ops| && Accepted(s.ops[g].call)
    ensures g < |s'.ops| && Accepted(s'.ops[g].call)
    ensures Rank(s'.ops[g]) + OwnSteps(run, g) <= Rank(s.ops[g])
    ensures Distance(s'.ops[g].phase) + Min(OwnSteps(run, g), Distance(s.ops[g].phase)) <= Distance(s.ops[g].phase)
    decreases |run|
  {
    if run != [] {
      DistanceFalls(s, run[0], g);
      StepKeepsInv(s, run[0]);
      OwnStepsCount(Next(s, run[0]), run[1..], s', g);
    }
  }

  /** Over every run, other tasks submitting as they like: after six steps taken for its
      operation a spinning drop has its flag, and no run holds more than eight. */
  lemma SixStepsFreeADrop(s: State, run: seq<Step>, s': State, t: nat)
    requires Reachable(s) && Reaches(s, run, s') && t < |s.tasks| && s.tasks[t].pc.Spinning?
    ensures var g := s.tasks[t].pc.g;
            && g < |s'.ops| && OwnSteps(run, g) <= 8
            && (OwnSteps(run, g) >= 6 ==> Done(s'.ops[g].phase))
            && (OwnSteps(run, g) >= 6 && t < |s'.tasks| && s'.tasks[t].pc == Spinning(g) ==> Enabled(s', Act(t, Spin)))
  {
    ReachableInv(s);
    TaskInside(s, t);
    var g := s.tasks[t].pc.g;
    OwnStepsCount(s, run, s', g);
    RunKeepsInv(s, run, s');
    assert OpOk(s', g);
    if t < |s'.tasks| && s'.tasks[t].pc == Spinning(g) { TaskInside(s', t); }
  }

  /** Likewise a pending task: after seven steps for its operation it has been notified,
      if it is still (or again) suspended on it. */
  lemma SevenStepsWakeATask(s: State, run: seq<Step>, s': State, t: nat)
    requires Reachable(s) && Reaches(s, run, s') && t < |s.tasks| && s.tasks[t].pc.Suspended?
    ensures var g := s.tasks[t].pc.g;
            OwnSteps(run, g) >= 7 && t < |s'.tasks| && s'.tasks[t].pc == Suspended(g) ==> s'.tasks[t].notified
  {
    ReachableInv(s);
    TaskInside(s, t);
    var g := s.tasks[t].pc.g;
    OwnStepsCount(s, run, s', g);
    RunKeepsInv(s, run, s');
    if t < |s'.tasks| && s'.tasks[t].pc == Suspended(g) { TaskInside(s', t); }
  }

  // ----- Every task can be brought to an end -----

  /** Steps of its own a task is from its end, if it submits nothing more and is dropped
      where it is suspended. */
  function Left(pc: Pc): nat {
    match pc
    case Ended => 0
    case Idle | Unwinding(_) => 1
    case Returning(_) | Released(_) => 2
    case Resolved(_) | Spinning(_) => 3
    case Reading(_) | Cancelling(_) => 4
    case DropLoad(_) => 5
    case Suspended(_) => 6
    case SecondLoad(_) => 7
    case Register(_) => 8
    case FirstLoad(_) => 9
    case Called(_) => 10
    case HasOp(_) => 11
  }

  function AllLeft(tasks: seq<Task>): nat {
    if tasks == [] then 0 else Left(tasks[0].pc) + AllLeft(tasks[1..])
  }

  lemma {:induction false} AllLeftUpdate(tasks: seq<Task>, t: nat, task: Task)
    requires t < |tasks|
    ensures AllLeft(tasks[t := task]) == AllLeft(tasks) - Left(tasks[t].pc) + Left(task.pc)
  {
    if t > 0 {
      AllLeftUpdate(tasks[1..], t - 1, task);
      assert tasks[t := task][1..] == tasks[1..][t - 1 := task];
    } else {
      assert tasks[t := task][1..] == tasks[1..];
    }
  }

  lemma {:induction false} AllLeftSame(a: seq<Task>, b: seq<Task>)
    requires |a| == |b| && forall t :: 0 <= t < |a| ==> a[t].pc == b[t].pc
    ensures AllLeft(a) == AllLeft(b)
  {
    if a != [] { AllLeftSame(a[1..], b[1..]); }
  }

  /** What a task does next on its way out. */
  function WayOut(pc: Pc): Action
    requires OpOf(pc).Some?
  {
    match pc
    case HasOp(_) => Submit(Refuse(1))
    case Called(_) => EnterFinish
    case FirstLoad(_) => Load1
    case Register(_) => RegisterWaker
    case SecondLoad(_) => Load2
    case Suspended(_) => DropTask
    case Reading(_) => ReadResult
    case Resolved(_) => DropFuture
    case Returning(_) => GiveBack
    case DropLoad(_) => CheckDrop
    case Cancelling(_) => CancelIo
    case Spinning(_) => Spin
    case Released(_) => UnwindFuture
    case Unwinding(_) => UnwindOp
  }

  lemma WayOutIsShorter(s: State, t: nat)
    requires Inv(s) && t < |s.tasks| && OpOf(s.tasks[t].pc).Some?
    requires Enabled(s, Act(t, WayOut(s.tasks[t].pc)))
    ensures AllLeft(Next(s, Act(t, WayOut(s.tasks[t].pc))).tasks) < AllLeft(s.tasks)
  {
    var g, x := s.tasks[t].pc.g, WayOut(s.tasks[t].pc);
    var s' := ActStep(s, t, x);
    ActMovesOne(s, t, x);
    WayOutView(s.skip, t, g, Get(s, t, g));
    AllLeftUpdate(s.tasks, t, s'.tasks[t]);
  }

  /** An action moves its own task, as its view says. */
  lemma ActMovesOne(s: State, t: nat, x: Action)
    requires Inside(s, t)
    ensures |ActStep(s, t, x).tasks| == |s.tasks| && ActStep(s, t, x).tasks == s.tasks[t := ActStep(s, t, x).tasks[t]]
    ensures ActStep(s, t, x).tasks[t].pc == TaskView(s.skip, t, s.tasks[t].pc.g, Get(s, t, s.tasks[t].pc.g), x).task.pc
  {}

  lemma WayOutView(skip: bool, t: nat, g: nat, v: View)
    requires OpOf(v.task.pc).Some? && At(skip, v.task.pc, v.wrap, WayOut(v.task.pc))
    ensures Left(TaskView(skip, t, g, v, WayOut(v.task.pc)).task.pc) < Left(v.task.pc)
  {}

  /** Nearer to the end of all tasks: fewer steps of theirs, or as many and less work for
      the kernel and the threads. */
  predicate Closer(s: State, s': State) {
    AllLeft(s'.tasks) < AllLeft(s.tasks) || (AllLeft(s'.tasks) == AllLeft(s.tasks) && Work(s'.ops) < Work(s.ops))
  }

  /** While a task runs, some step leads nearer to the end of all. */
  lemma SomeWayOut(s: State, t: nat) returns (a: Step)
    requires Inv(s) && t < |s.tasks| && !s.tasks[t].pc.Ended?
    ensures Enabled(s, a) && !a.Spawn? && Closer(s, Next(s, a))
  {
    if s.tasks[t].pc.Idle? {
      a := End(t);
      AllLeftUpdate(s.tasks, t, Next(s, a).tasks[t]);
    } else {
      TaskInside(s, t);
      a := Act(t, WayOut(s.tasks[t].pc));
      if Enabled(s, a) {
        WayOutIsShorter(s, t);
      } else {
        SpinningIsOwedAStep(s, t);
        a :| Owed(s, a);
        IoStepWorks(s, a);
        AllLeftSame(Next(s, a).tasks, s.tasks);
      }
    }
  }

  lemma {:induction false} RunSnoc(s0: State, run: seq<Step>, s: State, a: Step)
    requires Reaches(s0, run, s) && Enabled(s, a)
    ensures Reaches(s0, run + [a], Next(s, a))
    decreases |run|
  {
    if run == [] {
      assert Reaches(Next(s, a), [], Next(s, a));
      assert (run + [a])[1..] == [];
    } else {
      RunSnoc(Next(s0, run[0]), run[1..], s, a);
      assert (run + [a])[1..] == run[1..] + [a];
    }
  }

  /** One more step from a reachable state. */
  lemma Go(s: State, a: Step) returns (s': State)
    requires Reachable(s) && Enabled(s, a)
    ensures Reachable(s') && s' == Next(s, a)
  {
    var s0: State, run: seq<Step> :| Init(s0) && Reaches(s0, run, s);
    RunSnoc(s0, run, s, a);
    s' := Next(s, a);
  }

  /** One task inside the only operation there is. */
  predicate Alone(s: State) {
    |s.tasks| == 1 && |s.ops| == 1 && OpOf(s.tasks[0].pc) == Some(0) && Present(s, 0, 0)
  }

  lemma GoAlone(s: State, x: Action) returns (s': State)
    requires Reachable(s) && Alone(s) && At(s.skip, s.tasks[0].pc, Get(s, 0, 0).wrap, x)
    requires || x.Submit? || x.EnterFinish? || x.Load1? || x.RegisterWaker?
             || x.Load2? || x.DropTask? || x.CheckDrop? || x.CancelIo?
    requires TaskView(s.skip, 0, 0, Get(s, 0, 0), x).wrap.rc > 0
    ensures Reachable(s') && Alone(s') && s'.skip == s.skip && Get(s', 0, 0) == TaskView(s.skip, 0, 0, Get(s, 0, 0), x)
    ensures s'.free == s.free && s'.poolCap == s.poolCap
  {
    s' := Go(s, Act(0, x));
  }

  lemma FirstOp(s0: State) returns (s: State)
    requires Init(s0) && |s0.tasks| == 1
    ensures Reachable(s) && Alone(s) && s.tasks[0].pc == HasOp(0) && Get(s, 0, 0).wrap == Fresh(2, 0)
    ensures s.free == [] && s.poolCap == s0.poolCap
  {
    assert Reaches(s0, [], s0);
    s := Go(s0, Spawn(0, 0));
    s := Go(s, NewOp(0, 0));
  }

  /** A poll that returned Pending. */
  lemma SuspendedIsReachable(s0: State) returns (s: State)
    requires Init(s0) && |s0.tasks| == 1
    ensures Reachable(s) && Alone(s) && s.tasks[0].pc == Suspended(0)
    ensures s.ops[0].phase == InKernel(false) && !Get(s, 0, 0).wrap.completed && Get(s, 0, 0).wrap.rc == 3
  {
    s := FirstOp(s0);
    s := GoAlone(s, Submit(Pending));
    s := GoAlone(s, EnterFinish);
    s := GoAlone(s, Load1);
    s := GoAlone(s, RegisterWaker);
    s := GoAlone(s, Load2);
  }

  /** The wait is real: a task can be dropped while the kernel still has its buffer,
      and then spins until the cancelled operation's packet has been delivered. */
  lemma SpinningIsReachable(s0: State) returns (s: State)
    requires Init(s0) && |s0.tasks| == 1
    ensures Reachable(s) && Alone(s) && s.tasks[0].pc == Spinning(0)
    ensures s.ops[0].phase == InKernel(true) && !Get(s, 0, 0).wrap.completed
  {
    s := SuspendedIsReachable(s0);
    s := GoAlone(s, DropTask);
    s := GoAlone(s, CheckDrop);
    s := GoAlone(s, CancelIo);
  }

  lemma RefusedIsReachable(s0: State) returns (s: State)
    requires Init(s0) && |s0.tasks| == 1
    ensures Reachable(s) && Alone(s) && s.tasks[0].pc == Returning(0) && s.free == [] && s.poolCap == s0.poolCap
    ensures s.ops[0].reclaims == [Finish] && Get(s, 0, 0).wrap.rc == 1
  {
    s := FirstOp(s0);
    s := GoAlone(s, Submit(Refuse(5)));
    s := GoAlone(s, EnterFinish);
    ReachableInv(s);
    assert OpOk(s, 0);
  }

  lemma PooledIsReachable(s0: State) returns (s: State)
    requires Init(s0) && |s0.tasks| == 1
    ensures Reachable(s) && |s.tasks| == 1 && s.tasks[0].pc == Idle && |s.ops| == 1 && s.free == [s.ops[0].wrap]
    ensures s.ops[0].reclaims == [Finish] && s.ops[0].wrap in s.wraps
  {
    s := RefusedIsReachable(s0);
    ReachableInv(s);
    GiveBackByCount(s, 0);
    s := Go(s, Act(0, GiveBack));
  }

  /** Wraps are reused: a second operation on the wrap an earlier one gave back. */
  lemma WrapIsReused(s0: State) returns (s: State)
    requires Init(s0) && |s0.tasks| == 1
    ensures Reachable(s) && |s.ops| == 2 && s.ops[0].wrap == s.ops[1].wrap
    ensures |s.tasks| == 1 && s.tasks[0].pc == HasOp(1) && s.ops[0].reclaims == [Finish] && s.free == []
  {
    s := PooledIsReachable(s0);
    s := Go(s, NewOp(0, s.free[0]));
  }

  // ----- Nobody left -----

  /** When every task is gone, every accepted operation has been completed, every refused
      or inline one reclaimed, and with the threads idle only pooled wraps are left. */
  lemma NobodyLeft(s: State)
    requires Inv(s)
    requires forall t :: 0 <= t < |s.tasks| ==> s.tasks[t].pc.Ended? || s.tasks[t].pc.Idle?
    ensures forall g :: 0 <= g < |s.ops| ==> Done(s.ops[g].phase)
    ensures forall g :: 0 <= g < |s.ops| && !Accepted(s.ops[g].call) ==> s.ops[g].reclaims == [Finish]
    ensures Rested(s) ==>
              (forall g :: 0 <= g < |s.ops| ==> |s.ops[g].reclaims| == 1) && s.wraps.Keys == set w | w in s.free
  {
    forall g | 0 <= g < |s.ops|
      ensures Done(s.ops[g].phase) && PhaseOk(s.skip, s.threads, s.ops[g]) && !Uses(s, g)
    {
      assert OpOk(s, g);
    }
    if Rested(s) {
      forall g | 0 <= g < |s.ops| ensures s.ops[g].phase.Reclaimed? { RestedPhases(s, g); }
      forall w | w in s.wraps ensures w in s.free { assert WrapOk(s, w); }
    }
  }

  // ----- Buffers -----

  /** Every allocated buffer belongs to a task that is still there. */
  ghost predicate LiveOk(s: State) {
    forall b :: b in s.live ==>
      s.live[b] < |s.tasks| && !s.tasks[s.live[b]].pc.Ended? && s.tasks[s.live[b]].buf == b
  }

  lemma ActKeepsLive(s: State, t: nat, x: Action)
    requires Inv(s) && LiveOk(s) && Enabled(s, Act(t, x))
    ensures LiveOk(ActStep(s, t, x))
  {
    TaskInside(s, t);
    ActMovesOne(s, t, x);
    var s' := ActStep(s, t, x);
    assert TaskOk(s, t);
    assert s'.tasks[t].buf == s.tasks[t].buf;
    assert s'.tasks[t].pc.Ended? ==> x.UnwindOp?;
  }

  lemma BufferStepKeepsLive(s: State, a: Step)
    requires Inv(s) && LiveOk(s) && Enabled(s, a) && BufferStep(a)
    ensures LiveOk(Next(s, a))
  {
    assert TaskOk(s, a.t);
  }

  lemma StepKeepsLive(s: State, a: Step)
    requires Inv(s) && LiveOk(s) && Enabled(s, a)
    ensures LiveOk(Next(s, a))
  {
    if a.Act? {
      ActKeepsLive(s, a.t, a.x);
    } else if BufferStep(a) {
      BufferStepKeepsLive(s, a);
    } else if IoStep(a) {
      IoKeepsBuffers(s, a);
    }
  }

  lemma IoKeepsBuffers(s: State, a: Step)
    requires Enabled(s, a) && IoStep(a)
    ensures var s' := Next(s, a);
            && s'.live == s.live && |s'.tasks| == |s.tasks|
            && forall t :: 0 <= t < |s.tasks| ==> s'.tasks[t].buf == s.tasks[t].buf && s'.tasks[t].pc == s.tasks[t].pc
  {}

  lemma {:induction false} RunKeepsLive(s: State, run: seq<Step>, s': State)
    requires Inv(s) && LiveOk(s) && Reaches(s, run, s')
    ensures LiveOk(s')
    decreases |run|
  {
    if run != [] {
      StepKeepsLive(s, run[0]);
      StepKeepsInv(s, run[0]);
      RunKeepsLive(Next(s, run[0]), run[1..], s');
    }
  }

  /** The buffers allocated are exactly those of the tasks that are not gone: none leaks,
      and no two tasks share one. */
  lemma LiveIsExact(s: State)
    requires Reachable(s)
    ensures s.live.Keys == set t | 0 <= t < |s.tasks| && !s.tasks[t].pc.Ended? :: s.tasks[t].buf
    ensures forall t, u :: 0 <= t < u < |s.tasks| && !s.tasks[t].pc.Ended? && !s.tasks[u].pc.Ended? ==>
              s.tasks[t].buf != s.tasks[u].buf
  {
    var s0: State, run: seq<Step> :| Init(s0) && Reaches(s0, run, s);
    ReachableInv(s);
    RunKeepsLive(s0, run, s);
    forall t | 0 <= t < |s.tasks| && !s.tasks[t].pc.Ended?
      ensures s.tasks[t].buf in s.live && s.live[s.tasks[t].buf] == t
    {
      assert TaskOk(s, t);
    }
    var bufs := set t | 0 <= t < |s.tasks| && !s.tasks[t].pc.Ended? :: s.tasks[t].buf;
    forall b | b in s.live ensures b in bufs { assert s.tasks[s.live[b]].buf == b; }
  }

  // ----- Notifications -----

  predicate Awoke(o: Op) { Past(o.phase) && Accepted(o.call) }

  /** Some accepted operation of task `t` has had its wake. */
  ghost predicate HadAWake(s: State, t: nat) {
    exists g :: 0 <= g < |s.ops| && s.ops[g].task == t && Awoke(s.ops[g])
  }

  predicate Told(task: Task) { task.notified && !task.pc.Ended? }

  ghost predicate NotifiedOk(s: State) {
    forall t :: 0 <= t < |s.tasks| && Told(s.tasks[t]) ==> HadAWake(s, t)
  }

  lemma ActKeepsWakes(s: State, t: nat, x: Action)
    requires Inv(s) && Enabled(s, Act(t, x))
    ensures var s' := ActStep(s, t, x);
            && |s'.ops| == |s.ops| && |s'.tasks| == |s.tasks|
            && (forall g :: 0 <= g < |s.ops| && Awoke(s.ops[g]) ==>
                  Awoke(s'.ops[g]) && s'.ops[g].task == s.ops[g].task)
            && (forall u :: 0 <= u < |s.tasks| && Told(s'.tasks[u]) ==> Told(s.tasks[u]))
  {
    TaskInside(s, t);
    var h := s.tasks[t].pc.g;
    var v' := TaskView(s.skip, t, h, Get(s, t, h), x);
    assert ActStep(s, t, x).ops == s.ops[h := v'.op];
    assert Awoke(s.ops[h]) ==> Awoke(v'.op);
    assert Told(v'.task) ==> Told(s.tasks[t]);
  }

  lemma DeliverKeepsWakes(s: State, g: nat)
    requires Inv(s) && NotifiedOk(s) && Enabled(s, Deliver(g))
    ensures NotifiedOk(Next(s, Deliver(g)))
  {
    var s' := Next(s, Deliver(g));
    assert OpOk(s, g);
    assert s'.ops == s.ops[g := s'.ops[g]] && s'.ops[g].task == s.ops[g].task;
    forall t | 0 <= t < |s'.tasks| && Told(s'.tasks[t]) ensures HadAWake(s', t) {
      if Told(s.tasks[t]) {
        var h :| 0 <= h < |s.ops| && s.ops[h].task == t && Awoke(s.ops[h]);
        assert s'.ops[h].task == t && Awoke(s'.ops[h]);
      } else {
        assert s'.ops[g].task == t && Awoke(s'.ops[g]);
      }
    }
  }

  lemma OtherStepKeepsWakes(s: State, a: Step)
    requires Inv(s) && Enabled(s, a) && !a.Act? && !a.Deliver?
    ensures var s' := Next(s, a);
            && |s'.ops| >= |s.ops| && |s'.tasks| == |s.tasks|
            && (forall g :: 0 <= g < |s.ops| && Awoke(s.ops[g]) ==>
                  Awoke(s'.ops[g]) && s'.ops[g].task == s.ops[g].task)
            && (forall u :: 0 <= u < |s.tasks| && Told(s'.tasks[u]) ==> Told(s.tasks[u]))
  {}

  lemma StepKeepsWakes(s: State, a: Step)
    requires Inv(s) && NotifiedOk(s) && Enabled(s, a)
    ensures NotifiedOk(Next(s, a))
  {
    if a.Deliver? {
      DeliverKeepsWakes(s, a.op);
    } else {
      if a.Act? { ActKeepsWakes(s, a.t, a.x); } else { OtherStepKeepsWakes(s, a); }
      var s' := Next(s, a);
      forall t | 0 <= t < |s'.tasks| && Told(s'.tasks[t]) ensures HadAWake(s', t) {
        var h :| 0 <= h < |s.ops| && s.ops[h].task == t && Awoke(s.ops[h]);
        assert s'.ops[h].task == t && Awoke(s'.ops[h]);
      }
    }
  }

  lemma {:induction false} RunKeepsWakes(s: State, run: seq<Step>, s': State)
    requires Inv(s) && NotifiedOk(s) && Reaches(s, run, s')
    ensures NotifiedOk(s')
    decreases |run|
  {
    if run != [] {
      StepKeepsWakes(s, run[0]);
      StepKeepsInv(s, run[0]);
      RunKeepsWakes(Next(s, run[0]), run[1..], s');
    }
  }

  /** No task is notified out of nothing: one of its operations has had its wake. */
  lemma NotificationsAreReal(s: State, t: nat)
    requires Reachable(s) && t < |s.tasks| && s.tasks[t].notified && !s.tasks[t].pc.Ended?
    ensures HadAWake(s, t)
  {
    var s0: State, run: seq<Step> :| Init(s0) && Reaches(s0, run, s);
    assert Inv(s0);
    RunKeepsWakes(s0, run, s);
  }
}
