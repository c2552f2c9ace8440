/** The server around the slots (`server.rs`): route ids, shutdown, and the end of the
    server thread. */
module Server {
  import opened Basics
  import CP = CompletionPort

  // ----- Routes -----

  /** One `route` call: the handler, and whether the kernel accepted the prefix. */
  datatype Registration = Registration(handler: nat, accepted: bool)

  /** Route ids handed out by a sequence of `route` calls. */
  function RoutesAfter(regs: seq<Registration>): map<nat, nat> {
    if regs == [] then map[]
    else
      var last := regs[|regs| - 1];
      var before := RoutesAfter(regs[..|regs| - 1]);
      if last.accepted then before[|regs| := last.handler] else before
  }

  /** The i-th call owns id i + 1 whether or not it succeeds: an accepted handler is
      never displaced, a refused one never reachable, and no route has id 0. */
  lemma {:induction false} RoutesAreExact(regs: seq<Registration>)
    ensures forall id :: id in RoutesAfter(regs) <==> 1 <= id <= |regs| && regs[id - 1].accepted
    ensures forall id :: id in RoutesAfter(regs) ==> RoutesAfter(regs)[id] == regs[id - 1].handler
    ensures 0 !in RoutesAfter(regs)
  {
    if regs != [] { RoutesAreExact(regs[..|regs| - 1]); }
  }

  class ServerBuilder {
    var routes: map<nat, nat>
    var nextId: nat
    ghost var regs: seq<Registration>

    ghost predicate Valid()
      reads this
    {
      routes == RoutesAfter(regs) && nextId == |regs| + 1
    }

    constructor ()
      ensures Valid() && regs == []
    {
      routes, nextId, regs := map[], 1, [];
    }

    /** `route`: the id is spent before the kernel is asked. */
    method Route(handler: nat, accepted: bool) returns (ok: bool)
      requires Valid()
      modifies this
      ensures Valid() && regs == old(regs) + [Registration(handler, accepted)] && ok == accepted
      ensures forall id :: id in old(routes) ==> id in routes && routes[id] == old(routes)[id]
      ensures accepted ==> old(nextId) in routes && routes[old(nextId)] == handler
      ensures 0 !in routes
    {
      RoutesAreExact(regs);
      RoutesAreExact(regs + [Registration(handler, accepted)]);
      assert (regs + [Registration(handler, accepted)])[..|regs|] == regs;
      var id := nextId;
      nextId := nextId + 1;
      regs := regs + [Registration(handler, accepted)];
      if !accepted { return false; }
      routes := routes[id := handler];
      ok := true;
    }
  }

  // ----- Shutdown -----

  /** The server thread: inside `serve` (`Waiting` counts undelivered messages), dropping
      the handles, then dropping the runtime, which waits for its worker threads.
      `ClosingPort`: the queue field was the last reference, and `IoPort::drop` runs. */
  datatype Worker =
    | Starting | Waiting(pending: nat) | Draining | Dropping | ClosingPort | DroppingRuntime | Finished

  /** Who drops the last reference to the queue, and so runs `IoPort::drop`: the server
      thread with its field, a worker of its runtime with a task that holds a request, or
      somebody else. */
  datatype Closer = ServerThread | RuntimeWorker | Outsider

  /** The owner of the `Server`: `join` takes it exclusively, so nothing can be sent
      through it while joining. */
  datatype Owner = Free | Joining | Joined

  /** `inside` and `outside` count the requests that handlers handed on: to tasks of the
      runtime, and to anybody else.  `joined`: `IoPort::drop` has returned. */
  datatype State = State(worker: Worker, owner: Owner, port: CP.State, inside: nat, outside: nat,
                         closer: Option<Closer>, joined: bool)

  function Start(port: CP.State): State { State(Starting, Free, port, 0, 0, None, false) }

  datatype Step =
    | Send                   // Server::shutdown: a broadcast to the receivers there are
    | Subscribe              // serve subscribes
    | Wake                   // recv returns
    | Drained                // slots drained, or aborted after the timeout; serve returns
    | DropQueue              // the queue field goes
    | HandOn(spawned: bool)  // a handler hands its request on, to a spawned task or elsewhere
    | Move(spawned: bool)    // such a request changes hands, into a task or out of one
    | TaskEnds               // a task lets its request go by itself
    | OutsiderDrops          // somebody outside does
    | TaskDropped            // a task is dropped with the runtime
    | RuntimeDropped         // every worker of the runtime is done
    | PortStep(a: CP.Step)   // a packet, a sentinel, or a completion thread
    | PortJoined             // every completion thread joined
    | Join                   // Server::join begins
    | Return                 // Server::join returns

  /** `serve` is running, and with it the slots. */
  predicate Serving(s: State) { s.worker.Starting? || s.worker.Waiting? || s.worker.Draining? }

  /** The handles are still there. */
  predicate HasField(s: State) { Serving(s) || s.worker.Dropping? }

  /** References to the queue that outlive the slots. */
  function Refs(s: State): nat { (if HasField(s) then 1 else 0) + s.inside + s.outside }

  predicate Closing(s: State) { s.closer.Some? && !s.joined }

  predicate Enabled(s: State, a: Step) {
    match a
    case Send => !s.owner.Joining?
    case Subscribe => s.worker.Starting?
    case Wake => s.worker.Waiting? && s.worker.pending > 0
    case Drained => s.worker.Draining?
    case DropQueue => s.worker.Dropping?
    case HandOn(_) => Serving(s)
    case Move(spawned) => if spawned then HasField(s) && s.outside > 0 else s.inside > 0
    case TaskEnds => s.inside > 0
    case OutsiderDrops => s.outside > 0
    case TaskDropped => s.worker.DroppingRuntime? && s.inside > 0
    case RuntimeDropped =>
      s.worker.DroppingRuntime? && s.inside == 0 && (s.closer == Some(RuntimeWorker) ==> s.joined)
    case PortStep(b) => CP.Enabled(s.port, b) && (b.PostSentinel? ==> Closing(s))
    case PortJoined => Closing(s) && CP.Sentinels(s.port.posted) == |s.port.threads| && CP.AllExited(s.port)
    case Join => s.owner.Free?
    case Return => s.owner.Joining? && s.worker.Finished?
  }

  /** With no reference left, whoever dropped the last one drops the port. */
  function Settle(s: State, who: Closer): State { if Refs(s) == 0 then s.(closer := Some(who)) else s }

  function Next(s: State, a: Step): State
    requires Enabled(s, a)
  {
    match a
    case Send => if s.worker.Waiting? then s.(worker := Waiting(s.worker.pending + 1)) else s
    case Subscribe => s.(worker := Waiting(0))
    case Wake => s.(worker := Draining)
    case Drained => s.(worker := Dropping)
    case DropQueue => Settle(s.(worker := if Refs(s) == 1 then ClosingPort else DroppingRuntime), ServerThread)
    case HandOn(spawned) => if spawned then s.(inside := s.inside + 1) else s.(outside := s.outside + 1)
    case Move(spawned) =>
      if spawned then s.(inside := s.inside + 1, outside := s.outside - 1)
      else s.(inside := s.inside - 1, outside := s.outside + 1)
    case TaskEnds => Settle(s.(inside := s.inside - 1), RuntimeWorker)
    case OutsiderDrops => Settle(s.(outside := s.outside - 1), Outsider)
    case TaskDropped => Settle(s.(inside := s.inside - 1), RuntimeWorker)
    case RuntimeDropped => s.(worker := Finished)
    case PortStep(b) => s.(port := CP.Next(s.port, b))
    case PortJoined => s.(joined := true, worker := if s.worker.ClosingPort? then DroppingRuntime else s.worker)
    case Join => s.(owner := Joining)
    case Return => s.(owner := Joined)
  }

  /** The state after `run` from the start, if every step was enabled. */
  function After(port: CP.State, run: seq<Step>): Option<State> {
    if run == [] then Some(Start(port))
    else
      var before := After(port, run[..|run| - 1]);
      var last := run[|run| - 1];
      if before.Some? && Enabled(before.value, last) then Some(Next(before.value, last)) else None
  }

  /** Some shutdown was sent after `serve` subscribed. */
  ghost predicate Heard(run: seq<Step>) {
    exists i, j :: 0 <= i < j < |run| && run[i] == Subscribe && run[j] == Send
  }

  predicate LeftWait(s: State) { !s.worker.Starting? && !s.worker.Waiting? }

  /** Out of its wait, or about to be woken. */
  predicate Notified(s: State) { LeftWait(s) || (s.worker.Waiting? && s.worker.pending > 0) }

  /** `Heard` of a run one step longer. */
  lemma HeardSnoc(run: seq<Step>, a: Step)
    ensures Heard(run + [a]) <==> Heard(run) || (a == Send && Subscribe in run)
  {
    var longer := run + [a];
    if Heard(run) {
      var i, j :| 0 <= i < j < |run| && run[i] == Subscribe && run[j] == Send;
      assert longer[i] == Subscribe && longer[j] == Send;
    }
    if a == Send && Subscribe in run {
      var i :| 0 <= i < |run| && run[i] == Subscribe;
      assert longer[i] == Subscribe && longer[|run|] == Send;
    }
    if Heard(longer) {
      var i, j :| 0 <= i < j < |longer| && longer[i] == Subscribe && longer[j] == Send;
      if j < |run| { assert run[i] == Subscribe && run[j] == Send; } else { assert run[i] == Subscribe; }
    }
  }

  lemma StepTracks(s: State, a: Step)
    requires Enabled(s, a)
    ensures Next(s, a).worker.Starting? <==> s.worker.Starting? && a != Subscribe
    ensures Notified(Next(s, a)) <==> Notified(s) || (a == Send && !s.worker.Starting?)
    ensures Next(s, a).owner.Joined? && (s.owner.Joined? ==> s.worker.Finished?) ==> Next(s, a).worker.Finished?
  {}

  lemma {:induction false} Tracks(port: CP.State, run: seq<Step>)
    requires After(port, run).Some?
    ensures var s := After(port, run).value;
            && (s.worker.Starting? <==> Subscribe !in run)
            && (Notified(s) <==> Heard(run))
            && (s.owner.Joined? ==> s.worker.Finished?)
  {
    if run != [] {
      var before, a := run[..|run| - 1], run[|run| - 1];
      Tracks(port, before);
      StepTracks(After(port, before).value, a);
      HeardSnoc(before, a);
      assert run == before + [a];
    }
  }

  /** Over every interleaving, `serve` is out of its wait or about to be woken if and
      only if some shutdown was sent after it subscribed; a message sent earlier is
      dropped. */
  lemma {:induction false} ShutdownDeliveryExactly(port: CP.State, run: seq<Step>)
    requires After(port, run).Some?
    ensures LeftWait(After(port, run).value) ==> Heard(run)
    ensures Heard(run) ==> LeftWait(After(port, run).value) || Enabled(After(port, run).value, Wake)
    ensures !Heard(run) ==> !Enabled(After(port, run).value, Wake) && !After(port, run).value.owner.Joined?
  {
    Tracks(port, run);
  }

  // ----- Who drops the port -----

  /** The port's drop belongs to the server thread or to a worker of its runtime. */
  predicate Ours(closer: Option<Closer>) { closer == Some(ServerThread) || closer == Some(RuntimeWorker) }

  /** Exactly when no reference is left somebody is dropping the port or has dropped it,
      and the server thread is past whatever it has to wait for. */
  predicate CloserOk(s: State) {
    && (s.closer.Some? <==> Refs(s) == 0)
    && (s.joined ==> s.closer.Some?)
    && (s.worker.ClosingPort? <==> s.closer == Some(ServerThread) && !s.joined)
    && (s.worker.Finished? ==> s.inside == 0 && (Ours(s.closer) ==> s.joined))
  }

  lemma StepKeepsCloser(s: State, a: Step)
    requires CloserOk(s) && Enabled(s, a)
    ensures CloserOk(Next(s, a))
    ensures s.closer.Some? ==> Next(s, a).closer == s.closer
  {}

  ghost predicate PortOk(s: State, threads: nat) {
    CP.Reachable(s.port) && |s.port.threads| == threads && (s.joined ==> CP.AllExited(s.port))
  }

  lemma ExitedStays(p: CP.State, a: CP.Step)
    requires CP.AllExited(p) && CP.Enabled(p, a)
    ensures CP.AllExited(CP.Next(p, a))
  {}

  lemma StepKeepsPort(s: State, a: Step, threads: nat)
    requires PortOk(s, threads) && Enabled(s, a)
    ensures PortOk(Next(s, a), threads)
  {
    if a.PortStep? {
      CP.ReachableStep(s.port, a.a);
      if CP.AllExited(s.port) { ExitedStays(s.port, a.a); }
    }
  }

  lemma {:induction false} RunKeepsInv(port: CP.State, run: seq<Step>)
    requires CP.Init(port) && After(port, run).Some?
    ensures CloserOk(After(port, run).value) && PortOk(After(port, run).value, |port.threads|)
  {
    if run == [] {
      CP.InitReachable(port);
    } else {
      var before := After(port, run[..|run| - 1]).value;
      RunKeepsInv(port, run[..|run| - 1]);
      StepKeepsCloser(before, run[|run| - 1]);
      StepKeepsPort(before, run[|run| - 1], |port.threads|);
    }
  }

  /** Some step of the run let the last reference to the queue go, on the server thread or
      in a task of its runtime. */
  ghost predicate LastWentWithUs(port: CP.State, run: seq<Step>) {
    exists k :: 0 <= k < |run| && LetsLastGo(After(port, run[..k]), run[k])
  }

  predicate LetsLastGo(s: Option<State>, a: Step) {
    s.Some? && Refs(s.value) == 1 && (a.DropQueue? || a.TaskEnds? || a.TaskDropped?)
  }

  lemma LastWentSnoc(port: CP.State, run: seq<Step>, a: Step)
    ensures LastWentWithUs(port, run + [a]) <==> LastWentWithUs(port, run) || LetsLastGo(After(port, run), a)
  {
    var longer := run + [a];
    assert longer[..|run|] == run && longer[|run|] == a;
    forall k | 0 <= k < |run| ensures longer[..k] == run[..k] && longer[k] == run[k] {}
    if LastWentWithUs(port, run) {
      var k :| 0 <= k < |run| && LetsLastGo(After(port, run[..k]), run[k]);
      assert LetsLastGo(After(port, longer[..k]), longer[k]);
    }
    if LetsLastGo(After(port, run), a) { assert LetsLastGo(After(port, longer[..|run|]), longer[|run|]); }
  }

  lemma OursStep(s: State, a: Step)
    requires CloserOk(s) && Enabled(s, a)
    ensures Ours(Next(s, a).closer) <==> Ours(s.closer) || LetsLastGo(Some(s), a)
  {}

  /** The state remembers it. */
  lemma {:induction false} OursIsHistory(port: CP.State, run: seq<Step>)
    requires CP.Init(port) && After(port, run).Some?
    ensures LastWentWithUs(port, run) <==> Ours(After(port, run).value.closer)
  {
    if run != [] {
      var before, a := run[..|run| - 1], run[|run| - 1];
      OursIsHistory(port, before);
      assert run == before + [a];
      LastWentSnoc(port, before, a);
      RunKeepsInv(port, before);
      OursStep(After(port, before).value, a);
    }
  }

  // ----- When `join` returns -----

  /** What the server thread, its runtime, the completion threads and a join in progress do
      on their own; the rest is up to others. */
  predicate Progress(a: Step) {
    match a
    case Send | Join | HandOn(_) | Move(_) | TaskEnds | OutsiderDrops => false
    case PortStep(b) => !b.Post?
    case _ => true
  }

  /** Nothing more will happen by itself. */
  ghost predicate Stuck(s: State) { forall a :: Progress(a) ==> !Enabled(s, a) }

  /** No dequeue ever returned two sentinels. */
  predicate NoDoubleSentinel(p: CP.State) { forall k :: 0 <= k < |p.batches| ==> CP.Sentinels(p.batches[k]) <= 1 }

  lemma StuckPort(s: State)
    requires CP.Reachable(s.port) && Closing(s) && Stuck(s)
    ensures !NoDoubleSentinel(s.port)
  {
    CP.ReachableInv(s.port);
    assert !Enabled(s, PortStep(CP.PostSentinel)) && !Enabled(s, PortJoined);
    forall a | CP.ThreadStep(a) ensures !CP.Enabled(s.port, a) { assert !Enabled(s, PortStep(a)); }
    CP.DropEndsExactly(s.port);
  }

  /** Where the server thread can be when nothing moves. */
  lemma StuckPlaces(s: State)
    requires CloserOk(s) && Stuck(s)
    ensures || (s.worker.Waiting? && s.worker.pending == 0)
            || (Closing(s) && Ours(s.closer) && !s.worker.Finished?)
            || (s.worker.Finished? && !s.owner.Joining?)
  {
    assert !Enabled(s, Subscribe) && !Enabled(s, Wake) && !Enabled(s, Drained) && !Enabled(s, DropQueue);
    assert !Enabled(s, TaskDropped) && !Enabled(s, RuntimeDropped) && !Enabled(s, Return);
  }

  /** Every run that can go no further by itself, the owner being inside `join` or past
      it, has returned from `join` if and only if a shutdown was sent after `serve`
      subscribed and, should the last reference to the queue have gone on the server thread
      or in a task of its runtime, no completion thread dequeued two sentinels at once. */
  lemma JoinReturnsExactly(port: CP.State, run: seq<Step>)
    requires CP.Init(port) && After(port, run).Some?
    requires !After(port, run).value.owner.Free? && Stuck(After(port, run).value)
    ensures var s := After(port, run).value;
            s.owner.Joined? <==> Heard(run) && (LastWentWithUs(port, run) ==> NoDoubleSentinel(s.port))
  {
    var s := After(port, run).value;
    Tracks(port, run);
    RunKeepsInv(port, run);
    OursIsHistory(port, run);
    StuckPlaces(s);
    if Closing(s) && Ours(s.closer) {
      StuckPort(s);
    } else if s.worker.Finished? && s.joined {
      ExitedMeansNoDouble(s.port);
    }
  }

  lemma ExitedMeansNoDouble(p: CP.State)
    requires CP.Reachable(p) && CP.AllExited(p)
    ensures NoDoubleSentinel(p)
  {
    assert CP.After(p, []) == Some(p);
    forall k | 0 <= k < |p.batches| ensures CP.Sentinels(p.batches[k]) <= 1 {
      if CP.Sentinels(p.batches[k]) >= 2 { CP.TwoSentinelsHang(p, [], p, k); }
    }
  }

  predicate Counted(p: CP.State) { p.head <= |p.posted| && CP.Sentinels(p.posted) <= |p.threads| }

  /** Bound on the steps left to take. */
  function Rank(s: State): nat
    requires Counted(s.port)
  {
    (match s.worker
     case Starting => 6 case Waiting(_) => 5 case Draining => 4 case Dropping => 3 case ClosingPort => 2
     case DroppingRuntime => 1 case Finished => 0)
    + (if s.owner.Joined? then 0 else 1) + (if s.joined then 0 else 1) + s.inside
    + PortRank(s.port)
  }

  /** What the port contributes to the bound. */
  function PortRank(p: CP.State): nat
    requires Counted(p)
  {
    4 * (|p.threads| - CP.Sentinels(p.posted)) + CP.Left(p)
  }

  lemma PortStepLowersRank(p: CP.State, a: CP.Step)
    requires Counted(p) && CP.Enabled(p, a) && !a.Post?
    ensures Counted(CP.Next(p, a)) && PortRank(CP.Next(p, a)) < PortRank(p)
  {
    if a.PostSentinel? {
      CP.SentinelsConcat(p.posted, [CP.Sentinel]);
    } else {
      CP.ThreadStepWorks(p, a);
    }
  }

  lemma ProgressLowersRank(s: State, a: Step)
    requires Counted(s.port) && Progress(a) && Enabled(s, a)
    ensures Counted(Next(s, a).port) && Rank(Next(s, a)) < Rank(s)
  {
    if a.PortStep? { PortStepLowersRank(s.port, a.a); }
  }

  lemma AfterSnoc(port: CP.State, run: seq<Step>, a: Step)
    requires After(port, run).Some? && Enabled(After(port, run).value, a)
    ensures After(port, run + [a]) == Some(Next(After(port, run).value, a))
  {
    assert (run + [a])[..|run + [a]| - 1] == run;
  }

  /** The last step of a continuation. */
  lemma Unsnoc(port: CP.State, run: seq<Step>, more: seq<Step>)
    requires more != [] && After(port, run + more).Some?
    ensures var before := After(port, run + more[..|more| - 1]);
            && before.Some? && Enabled(before.value, more[|more| - 1])
            && After(port, run + more) == Some(Next(before.value, more[|more| - 1]))
  {
    assert (run + more)[..|run + more| - 1] == run + more[..|more| - 1];
  }

  /** Progress is bounded, so every run gets to a point where it is stuck. */
  lemma {:induction false} ProgressIsBounded(port: CP.State, run: seq<Step>, more: seq<Step>)
    requires CP.Init(port) && After(port, run).Some? && After(port, run + more).Some?
    requires forall i :: 0 <= i < |more| ==> Progress(more[i])
    ensures Counted(After(port, run).value.port) && Counted(After(port, run + more).value.port)
    ensures |more| + Rank(After(port, run + more).value) <= Rank(After(port, run).value)
  {
    if more == [] {
      assert run + more == run;
      RunKeepsInv(port, run);
      CP.ReachableInv(After(port, run).value.port);
    } else {
      var prefix := more[..|more| - 1];
      Unsnoc(port, run, more);
      ProgressIsBounded(port, run, prefix);
      ProgressLowersRank(After(port, run + prefix).value, more[|more| - 1]);
    }
  }

  /** While the owner joins and nothing was heard, nothing ever will be. */
  lemma {:induction false} DeafStaysDeaf(port: CP.State, run: seq<Step>, more: seq<Step>)
    requires After(port, run).Some? && After(port, run + more).Some?
    requires After(port, run).value.owner.Joining? && !Heard(run)
    ensures After(port, run + more).value.owner.Joining? && !Heard(run + more)
  {
    if more == [] {
      assert run + more == run;
    } else {
      var prefix, a := more[..|more| - 1], more[|more| - 1];
      assert run + more == (run + prefix) + [a];
      Unsnoc(port, run, more);
      DeafStaysDeaf(port, run, prefix);
      HeardSnoc(run + prefix, a);
      Tracks(port, run + prefix);
    }
  }

  /** A join that begins before `serve` has subscribed never returns, as when the `Server`
      is dropped at once: whatever was sent until then is lost. */
  lemma EarlyDropHangs(port: CP.State, run: seq<Step>, more: seq<Step>)
    requires After(port, run).Some? && Subscribe !in run && After(port, run).value.owner.Joining?
    requires After(port, run + more).Some?
    ensures After(port, run + more).value.owner.Joining?
  {
    DeafStaysDeaf(port, run, more);
  }

  // ----- Which servers can be joined safely -----

  function Lift(run: seq<CP.Step>): seq<Step> { seq(|run|, i requires 0 <= i < |run| => PortStep(run[i])) }

  /** While the port is being dropped it runs as it does alone. */
  lemma {:induction false} PortRuns(port: CP.State, run: seq<Step>, more: seq<CP.Step>)
    requires After(port, run).Some? && Closing(After(port, run).value)
    requires CP.After(After(port, run).value.port, more).Some?
    ensures After(port, run + Lift(more))
         == Some(After(port, run).value.(port := CP.After(After(port, run).value.port, more).value))
  {
    if more == [] {
      assert run + Lift(more) == run;
    } else {
      PortRuns(port, run, more[..|more| - 1]);
      assert run + Lift(more) == run + Lift(more[..|more| - 1]) + [PortStep(more[|more| - 1])];
      AfterSnoc(port, run + Lift(more[..|more| - 1]), PortStep(more[|more| - 1]));
    }
  }

  /** A heard shutdown up to the drop of the queue field. */
  const TO_THE_DROP := [Subscribe, Send, Join, Wake]

  lemma ReachesTheDrop(port: CP.State)
    ensures After(port, TO_THE_DROP) == Some(Start(port).(worker := Draining, owner := Joining))
    ensures Heard(TO_THE_DROP)
  {
    var run := TO_THE_DROP;
    assert run[..1] == run[..0] + [Subscribe];
    AfterSnoc(port, run[..0], Subscribe);
    assert run[..2] == run[..1] + [Send];
    AfterSnoc(port, run[..1], Send);
    assert run[..3] == run[..2] + [Join];
    AfterSnoc(port, run[..2], Join);
    assert run == run[..3] + [Wake];
    AfterSnoc(port, run[..3], Wake);
    assert run[0] == Subscribe && run[1] == Send;
  }

  /** The last reference then goes with the field, or, if a handler spawned a task that
      holds its request, with that task when the runtime is dropped. */
  function LastSteps(spawned: bool): seq<Step> {
    if spawned then [HandOn(true), Drained, DropQueue, TaskDropped] else [Drained, DropQueue]
  }

  lemma ReachesThePort(port: CP.State, spawned: bool)
    ensures After(port, TO_THE_DROP + LastSteps(spawned))
         == Some(State(if spawned then DroppingRuntime else ClosingPort, Joining, port, 0, 0,
                       Some(if spawned then RuntimeWorker else ServerThread), false))
  {
    ReachesTheDrop(port);
    var run := TO_THE_DROP;
    if spawned {
      AfterSnoc(port, run, HandOn(true));
      AfterSnoc(port, run + [HandOn(true)], Drained);
      AfterSnoc(port, run + [HandOn(true)] + [Drained], DropQueue);
      AfterSnoc(port, run + [HandOn(true)] + [Drained] + [DropQueue], TaskDropped);
      assert run + LastSteps(true) == run + [HandOn(true)] + [Drained] + [DropQueue] + [TaskDropped];
    } else {
      AfterSnoc(port, run, Drained);
      AfterSnoc(port, run + [Drained], DropQueue);
      assert run + LastSteps(false) == run + [Drained] + [DropQueue];
    }
  }

  lemma HungIsStuck(s: State)
    requires CloserOk(s) && Closing(s) && Ours(s.closer)
    requires CP.Rested(s.port) && !CP.AllExited(s.port) && CP.Sentinels(s.port.posted) == |s.port.threads|
    ensures Stuck(s)
  {
    forall a | Progress(a) ensures !Enabled(s, a) {
      if a.PortStep? { assert CP.ThreadStep(a.a) || a.a.PostSentinel?; }
    }
  }

  /** With two completion threads or more, some join hangs although the shutdown was heard,
      and it can do so either way: on the server thread, or in the runtime's drop. */
  lemma SomeJoinHangs(n: nat, spawned: bool) returns (port: CP.State, run: seq<Step>)
    requires n >= 2
    ensures CP.Init(port) && |port.threads| == n && After(port, run).Some? && Heard(run)
    ensures After(port, run).value.owner.Joining? && Stuck(After(port, run).value)
    ensures After(port, run).value.closer == Some(if spawned then RuntimeWorker else ServerThread)
  {
    var p := CP.SomeDropHangs(n);
    var more: seq<CP.Step>;
    port, more :| CP.Init(port) && CP.After(port, more) == Some(p);
    var start := TO_THE_DROP + LastSteps(spawned);
    ReachesThePort(port, spawned);
    PortRuns(port, start, more);
    run := start + Lift(more);
    assert run[0] == Subscribe && run[1] == Send;
    CP.InitReachable(port);
    CP.Onward(port, more, p);
    HungIsStuck(After(port, run).value);
  }

  /** A run that went as far as it could, with the shutdown heard and a join begun. */
  ghost predicate HeardAndStuck(port: CP.State, run: seq<Step>) {
    && CP.Init(port) && After(port, run).Some? && Heard(run)
    && !After(port, run).value.owner.Free? && Stuck(After(port, run).value)
  }

  /** What a caller can check beforehand: every shutdown that was heard lets `join` return
      if and only if the port has at most one completion thread. */
  lemma JoinIsSafeExactly(n: nat)
    ensures (forall port, run :: HeardAndStuck(port, run) && |port.threads| == n ==>
               After(port, run).value.owner.Joined?)
              <==> n <= 1
  {
    if n >= 2 {
      var port, run := SomeJoinHangs(n, true);
      assert HeardAndStuck(port, run);
    } else {
      forall port, run | HeardAndStuck(port, run) && |port.threads| == n
        ensures After(port, run).value.owner.Joined?
      {
        RunKeepsInv(port, run);
        CP.FewSentinels(After(port, run).value.port);
        JoinReturnsExactly(port, run);
      }
    }
  }

  /** With any number of threads, `join` returns if only outsiders are left with a request
      when the runtime has been dropped: then the port's drop is theirs. */
  lemma OutsidersDoNotDelayJoin(port: CP.State, run: seq<Step>)
    requires HeardAndStuck(port, run) && !Ours(After(port, run).value.closer)
    ensures After(port, run).value.owner.Joined?
  {
    OursIsHistory(port, run);
    JoinReturnsExactly(port, run);
  }
}
