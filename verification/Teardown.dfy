/** Who keeps the request queue alive, and in which order the handles close
    (`queue.rs`, `server.rs`).

    The protocol machine runs inside: every task, every request, `serve` and the first
    field of `OwnedHandles` hold one `Arc<RequestQueue>`, and the last one to let go
    closes the queue.  Nothing orders the drop of a request that a handler kept against
    the drops of the fields. */
module Teardown {
  import opened Basics
  import P = Overlapped
  import OverlappedInvariant
  import OverlappedTheorems

  datatype Resource = Queue | Group | Session | Initializer

  /** `refs` is the queue's strong count, `session` the session's (the URL group holds
      one); `kept` counts the live requests, in the hands of a slot's handler or kept beyond
      it; `fields` counts the fields of `OwnedHandles` dropped so far, in declaration
      order.  `closeAt` is a history variable: how many fields had been dropped when the
      queue closed. */
  datatype Handles = Handles(refs: nat, serving: bool, kept: nat, fields: nat, session: nat,
                             closed: seq<Resource>, closeAt: nat)

  /** Tasks below `slots` are the request slots. */
  datatype Life = Life(core: P.State, slots: nat, own: Handles)

  ghost predicate Start(q: Life) { P.Init(q.core) && q.own == Handles(2, true, 0, 0, 2, [], 0) }

  datatype Move =
    | Core(a: P.Step)   // anything the tasks, the kernel and the threads do
    | Keep              // a slot makes a request of what it received, for a handler to keep
    | DropKept          // the request goes, in the handler or long after it
    | ServeReturns      // every slot joined
    | DropField         // the next field of `OwnedHandles`

  function Running(s: P.State): set<nat> { set t | 0 <= t < |s.tasks| && !s.tasks[t].pc.Ended? }

  /** Somebody outside `serve` holds a reference that can be cloned or handed on. */
  predicate Shared(q: Life) { q.own.kept > 0 || Running(q.core) != {} }

  ghost predicate Enabled(q: Life, m: Move) {
    match m
    case Core(a) => P.Enabled(q.core, a) && (a.Spawn? ==> q.own.serving || (q.slots <= a.t && Shared(q)))
    case Keep => Shared(q)
    case DropKept => q.own.kept > 0
    case ServeReturns => q.own.serving && forall t :: t in Running(q.core) ==> q.slots <= t
    case DropField => !q.own.serving && q.own.fields < 4
  }

  /** Drop one `Arc<RequestQueue>`. */
  function LetGo(h: Handles): Handles {
    if h.refs != 1 then h.(refs := if h.refs == 0 then 0 else h.refs - 1)
    else h.(refs := 0, closed := h.closed + [Queue], closeAt := h.fields)
  }

  function LetGoSession(h: Handles): Handles {
    if h.session != 1 then h.(session := if h.session == 0 then 0 else h.session - 1)
    else h.(session := 0, closed := h.closed + [Session])
  }

  function DropNextField(h: Handles): Handles {
    var h' := h.(fields := h.fields + 1);
    match h.fields
    case 0 => LetGo(h')
    case 1 => LetGoSession(h'.(closed := h.closed + [Group]))
    case 2 => LetGoSession(h')
    case _ => h'.(closed := h.closed + [Initializer])
  }

  /** The task of this step is gone afterwards, and its captures with it. */
  predicate Leaves(a: P.Step) { a.End? || (a.Act? && a.x.UnwindOp?) }

  function NextHandles(h: Handles, m: Move): Handles {
    match m
    case Core(a) => if a.Spawn? then h.(refs := h.refs + 1) else if Leaves(a) then LetGo(h) else h
    case Keep => h.(kept := h.kept + 1, refs := h.refs + 1)
    case DropKept => LetGo(h.(kept := if h.kept == 0 then 0 else h.kept - 1))
    case ServeReturns => LetGo(h.(serving := false))
    case DropField => DropNextField(h)
  }

  ghost function Next(q: Life, m: Move): Life
    requires Enabled(q, m)
  {
    q.(core := if m.Core? then P.Next(q.core, m.a) else q.core, own := NextHandles(q.own, m))
  }

  ghost function After(q: Life, run: seq<Move>): Option<Life> {
    if run == [] then Some(q)
    else
      var before := After(q, run[..|run| - 1]);
      var last := run[|run| - 1];
      if before.Some? && Enabled(before.value, last) then Some(Next(before.value, last)) else None
  }

  // ----- The invariant -----

  /** References there should be, with `running` tasks alive. */
  function Count(h: Handles, running: nat): nat {
    (if h.serving then 1 else 0) + (if h.fields == 0 then 1 else 0) + h.kept + running
  }

  /** What the n-th field closes; the first holds one of many references. */
  function FieldCloses(n: nat): seq<Resource> {
    match n
    case 2 => [Group]
    case 3 => [Session]
    case 4 => [Initializer]
    case _ => []
  }

  /** What has closed after `fields` fields, if the queue did after `at` of them (0: not
      yet). */
  function Order(at: nat, fields: nat): seq<Resource> {
    if fields == 0 then []
    else Order(at, fields - 1) + FieldCloses(fields) + (if at == fields then [Queue] else [])
  }

  lemma {:induction false} OrderBefore(at: nat, fields: nat)
    requires at > fields
    ensures Order(at, fields) == Order(0, fields)
  {
    if fields > 0 { OrderBefore(at, fields - 1); }
  }

  /** The queue closes now. */
  lemma OrderCloses(fields: nat)
    requires fields > 0
    ensures Order(fields, fields) == Order(0, fields) + [Queue]
  {
    OrderBefore(fields, fields - 1);
  }

  /** How often the queue occurs. */
  function Closings(s: seq<Resource>): nat {
    if s == [] then 0 else Closings(s[..|s| - 1]) + if s[|s| - 1] == Queue then 1 else 0
  }

  lemma ClosingsSnoc(s: seq<Resource>, r: Resource)
    ensures Closings(s + [r]) == Closings(s) + if r == Queue then 1 else 0
  {
    assert (s + [r])[..|s + [r]| - 1] == s;
  }

  lemma ClosingsField(s: seq<Resource>, n: nat)
    ensures Closings(s + FieldCloses(n)) == Closings(s)
  {
    if FieldCloses(n) == [] {
      assert s + FieldCloses(n) == s;
    } else {
      ClosingsSnoc(s, FieldCloses(n)[0]);
    }
  }

  lemma {:induction false} OrderHasTheQueueOnce(at: nat, fields: nat)
    ensures Closings(Order(at, fields)) == if 1 <= at <= fields then 1 else 0
  {
    if fields > 0 {
      OrderHasTheQueueOnce(at, fields - 1);
      var before := Order(at, fields - 1) + FieldCloses(fields);
      ClosingsField(Order(at, fields - 1), fields);
      if at == fields {
        ClosingsSnoc(before, Queue);
      } else {
        assert Order(at, fields) == before + [] == before;
      }
    }
  }

  lemma {:induction false} QueueNotInOrder(fields: nat)
    ensures Queue !in Order(0, fields)
  {
    if fields > 0 { QueueNotInOrder(fields - 1); }
  }

  predicate HandlesOk(h: Handles, running: nat) {
    && h.refs == Count(h, running)
    && (h.serving ==> h.fields == 0)
    && h.fields <= 4 && h.session == (if h.fields <= 1 then 2 else if h.fields == 2 then 1 else 0)
    && (h.refs == 0 ==> 1 <= h.closeAt <= h.fields)
    && h.closed == Order(if h.refs == 0 then h.closeAt else 0, h.fields)
  }

  ghost predicate Inv(q: Life) {
    && OverlappedInvariant.Inv(q.core)
    && HandlesOk(q.own, |Running(q.core)|)
    && (!q.own.serving ==> forall t :: t in Running(q.core) ==> q.slots <= t)
  }

  /** A step of the protocol starts or ends no task but the one it names. */
  lemma CoreTasks(s: P.State, a: P.Step)
    requires P.Enabled(s, a)
    ensures a.Spawn? ==> a.t !in Running(s) && Running(P.Next(s, a)) == Running(s) + {a.t}
    ensures Leaves(a) ==> a.t in Running(s) && Running(P.Next(s, a)) == Running(s) - {a.t}
    ensures !a.Spawn? && !Leaves(a) ==> Running(P.Next(s, a)) == Running(s)
  {
    var s' := P.Next(s, a);
    assert |s'.tasks| == |s.tasks|;
    assert forall t: nat :: t < |s.tasks| ==>
             (s'.tasks[t].pc.Ended? <==> (Leaves(a) && t == a.t) || (s.tasks[t].pc.Ended? && !(a.Spawn? && t == a.t)));
  }

  /** What `Enabled` says about the handles alone. */
  predicate Fits(h: Handles, m: Move, running: nat) {
    match m
    case Core(a) => (a.Spawn? ==> h.refs > 0) && (Leaves(a) ==> running > 0)
    case Keep => h.kept > 0 || running > 0
    case DropKept => h.kept > 0
    case ServeReturns => h.serving
    case DropField => !h.serving && h.fields < 4
  }

  /** All is well but for one reference too many. */
  predicate OneTooMany(h: Handles, running: nat) {
    && h.refs == Count(h, running) + 1
    && (h.serving ==> h.fields == 0)
    && h.fields <= 4 && h.session == (if h.fields <= 1 then 2 else if h.fields == 2 then 1 else 0)
    && h.closed == Order(0, h.fields)
  }

  lemma LetGoOk(h: Handles, running: nat)
    requires OneTooMany(h, running)
    ensures HandlesOk(LetGo(h), running)
  {
    if h.refs == 1 { OrderCloses(h.fields); }
  }

  lemma DropFieldOk(h: Handles, running: nat)
    requires HandlesOk(h, running) && !h.serving && h.fields < 4
    ensures HandlesOk(DropNextField(h), running)
  {
    if h.fields == 0 {
      assert Order(0, 1) == [] && Order(0, 0) == [];
      LetGoOk(h.(fields := 1), running);
    } else {
      var at := if h.refs == 0 then h.closeAt else 0;
      assert Order(at, h.fields + 1) == Order(at, h.fields) + FieldCloses(h.fields + 1);
    }
  }

  lemma HandlesStayOk(h: Handles, m: Move, running: nat)
    requires HandlesOk(h, running) && Fits(h, m, running)
    ensures HandlesOk(NextHandles(h, m), if !m.Core? then running else if m.a.Spawn? then running + 1
                                         else if Leaves(m.a) then running - 1 else running)
  {
    match m
    case Core(a) => if Leaves(a) { LetGoOk(h, running - 1); }
    case Keep =>
    case DropKept => LetGoOk(h.(kept := h.kept - 1), running);
    case ServeReturns => LetGoOk(h.(serving := false), running);
    case DropField => DropFieldOk(h, running);
  }

  lemma EnabledFits(q: Life, m: Move)
    requires Inv(q) && Enabled(q, m)
    ensures Fits(q.own, m, |Running(q.core)|)
  {
    if m.Core? { CoreTasks(q.core, m.a); }
  }

  lemma MoveKeepsInv(q: Life, m: Move)
    requires Inv(q) && Enabled(q, m)
    ensures Inv(Next(q, m))
  {
    EnabledFits(q, m);
    HandlesStayOk(q.own, m, |Running(q.core)|);
    if m.Core? {
      OverlappedInvariant.StepKeepsInv(q.core, m.a);
      CoreTasks(q.core, m.a);
    }
  }

  lemma StartInv(q: Life)
    requires Start(q)
    ensures Inv(q)
  {
    assert Running(q.core) == {};
  }

  lemma {:induction false} RunKeepsInv(q: Life, run: seq<Move>)
    requires Inv(q) && After(q, run).Some?
    ensures Inv(After(q, run).value)
  {
    if run != [] {
      RunKeepsInv(q, run[..|run| - 1]);
      MoveKeepsInv(After(q, run[..|run| - 1]).value, run[|run| - 1]);
    }
  }

  ghost predicate Reachable(q: Life) {
    exists q0: Life, run: seq<Move> :: Start(q0) && After(q0, run) == Some(q)
  }

  lemma ReachableInv(q: Life)
    requires Reachable(q)
    ensures Inv(q)
  {
    var q0: Life, run: seq<Move> :| Start(q0) && After(q0, run) == Some(q);
    StartInv(q0);
    RunKeepsInv(q0, run);
  }

  // ----- The count is exact -----

  datatype Holder = Serve | QueueField | TaskHolds(t: nat) | KeptHolds(i: nat)

  function ThreadHolders(serving: bool, queueField: bool): set<Holder> {
    (if serving then {Serve} else {}) + (if queueField then {QueueField} else {})
  }

  function TaskHolders(running: set<nat>): set<Holder> { set t | t in running :: TaskHolds(t) }

  function KeptHolders(kept: nat): set<Holder> { set i | 0 <= i < kept :: KeptHolds(i) }

  /** Everything that holds an `Arc<RequestQueue>`. */
  function Holders(q: Life): set<Holder> {
    ThreadHolders(q.own.serving, q.own.fields == 0) + TaskHolders(Running(q.core)) + KeptHolders(q.own.kept)
  }

  lemma {:induction false} TasksCounted(running: set<nat>)
    ensures |TaskHolders(running)| == |running|
  {
    if running != {} {
      var t :| t in running;
      TasksCounted(running - {t});
      assert TaskHolders(running) == TaskHolders(running - {t}) + {TaskHolds(t)};
    }
  }

  lemma {:induction false} KeptCounted(kept: nat)
    ensures |KeptHolders(kept)| == kept
  {
    if kept > 0 {
      KeptCounted(kept - 1);
      assert KeptHolders(kept) == KeptHolders(kept - 1) + {KeptHolds(kept - 1)};
    }
  }

  lemma HoldersSum(serving: bool, queueField: bool, running: set<nat>, kept: nat)
    ensures |ThreadHolders(serving, queueField) + TaskHolders(running) + KeptHolders(kept)|
         == (if serving then 1 else 0) + (if queueField then 1 else 0) + |running| + kept
  {
    TasksCounted(running);
    KeptCounted(kept);
    assert ThreadHolders(serving, queueField) !! TaskHolders(running);
    assert ThreadHolders(serving, queueField) + TaskHolders(running) !! KeptHolders(kept);
  }

  lemma HoldersCounted(q: Life)
    ensures |Holders(q)| == Count(q.own, |Running(q.core)|)
  {
    HoldersSum(q.own.serving, q.own.fields == 0, Running(q.core), q.own.kept);
  }

  /** In every reachable state the queue's strong count is the number of its holders,
      and the queue is closed, once, exactly if there are none. */
  lemma QueueCountIsExact(q: Life)
    requires Reachable(q)
    ensures q.own.refs == |Holders(q)|
    ensures Closings(q.own.closed) == if Holders(q) == {} then 1 else 0
  {
    ReachableInv(q);
    HoldersCounted(q);
    OrderHasTheQueueOnce(if q.own.refs == 0 then q.own.closeAt else 0, q.own.fields);
  }

  // ----- What is true of a closed queue -----

  lemma NoReferenceLeft(q: Life)
    requires Reachable(q) && Queue in q.own.closed
    ensures Inv(q) && q.own.refs == 0
  {
    ReachableInv(q);
    QueueNotInOrder(q.own.fields);
  }

  /** When `RequestQueue::drop` runs, no task is left, every accepted operation has been
      completed and every other one taken back by `finish`; when the completion threads
      have nothing more to do, every leaked reference is back and only pooled wraps
      exist. */
  lemma ClosedQueueIsQuiet(q: Life)
    requires Reachable(q) && Queue in q.own.closed
    ensures Running(q.core) == {} && q.own.kept == 0 && !q.own.serving
    ensures forall g :: 0 <= g < |q.core.ops| ==> P.Done(q.core.ops[g].phase)
    ensures forall g :: 0 <= g < |q.core.ops| && !P.Accepted(q.core.ops[g].call) ==>
              q.core.ops[g].reclaims == [P.Finish]
    ensures OverlappedTheorems.Rested(q.core) ==>
              && (forall g :: 0 <= g < |q.core.ops| ==> |q.core.ops[g].reclaims| == 1)
              && q.core.wraps.Keys == set w | w in q.core.free
  {
    NoReferenceLeft(q);
    forall t | 0 <= t < |q.core.tasks| ensures q.core.tasks[t].pc.Ended? { assert t !in Running(q.core); }
    OverlappedTheorems.NobodyLeft(q.core);
  }

  /** A closed queue stays closed, and nothing is ever submitted to it or written by the
      kernel again: what is left of the protocol are deliveries already past their flag. */
  lemma ClosedForGood(q: Life, m: Move)
    requires Reachable(q) && Queue in q.own.closed && Enabled(q, m)
    ensures Next(q, m).own.refs == 0 && Queue in Next(q, m).own.closed
    ensures m.DropField? || (m.Core? && m.a.Deliver?)
  {
    NoReferenceLeft(q);
    ClosedQueueIsQuiet(q);
    if m.Core? { QuietCore(q.core, m.a); }
    ClosedHandles(q.own, m);
  }

  lemma ClosedHandles(h: Handles, m: Move)
    requires h.refs == 0 && h.fields > 0 && !(m.Core? && m.a.Spawn?) && !m.Keep?
    ensures NextHandles(h, m).refs == 0 && h.closed <= NextHandles(h, m).closed
  {}

  /** Without tasks, and with every operation done, only deliveries can go on. */
  lemma QuietCore(s: P.State, a: P.Step)
    requires P.Enabled(s, a) && Running(s) == {}
    requires forall g :: 0 <= g < |s.ops| ==> P.Done(s.ops[g].phase)
    ensures a.Spawn? || a.Deliver?
  {
    forall t | 0 <= t < |s.tasks| ensures s.tasks[t].pc.Ended? { assert t !in Running(s); }
  }

  // ----- In which order everything closes -----

  const INTENDED := [Queue, Group, Session, Initializer]

  /** Everything is closed. */
  predicate Over(q: Life) { q.own.fields == 4 && q.own.refs == 0 }

  /** When the `Group` field was dropped, no reference to the queue was left. */
  ghost predicate QueueGoneFirst(q0: Life, run: seq<Move>) {
    exists k :: 0 <= k < |run| && DropsGroupAfterQueue(After(q0, run[..k]), run[k])
  }

  predicate DropsGroupAfterQueue(q: Option<Life>, m: Move) {
    m.DropField? && q.Some? && q.value.own.fields == 1 && q.value.own.refs == 0
  }

  lemma QueueGoneFirstSnoc(q0: Life, run: seq<Move>, m: Move)
    ensures QueueGoneFirst(q0, run + [m]) <==> QueueGoneFirst(q0, run) || DropsGroupAfterQueue(After(q0, run), m)
  {
    var longer := run + [m];
    assert longer[..|run|] == run && longer[|run|] == m;
    forall k | 0 <= k < |run| ensures longer[..k] == run[..k] && longer[k] == run[k] {}
    if QueueGoneFirst(q0, run) {
      var k :| 0 <= k < |run| && DropsGroupAfterQueue(After(q0, run[..k]), run[k]);
      assert DropsGroupAfterQueue(After(q0, longer[..k]), longer[k]);
    }
    if DropsGroupAfterQueue(After(q0, run), m) {
      assert DropsGroupAfterQueue(After(q0, longer[..|run|]), longer[|run|]);
    }
  }

  /** The queue was closed when the `Group` field went. */
  predicate ClosedFirst(h: Handles) { h.fields >= 2 && h.refs == 0 && h.closeAt == 1 }

  lemma ClosedFirstStep(h: Handles, m: Move, running: nat)
    requires HandlesOk(h, running) && Fits(h, m, running)
    ensures ClosedFirst(NextHandles(h, m)) <==> ClosedFirst(h) || (m.DropField? && h.fields == 1 && h.refs == 0)
  {}

  lemma ClosedFirstMove(q: Life, m: Move)
    requires Inv(q) && Enabled(q, m)
    ensures ClosedFirst(Next(q, m).own) <==> ClosedFirst(q.own) || DropsGroupAfterQueue(Some(q), m)
  {
    EnabledFits(q, m);
    ClosedFirstStep(q.own, m, |Running(q.core)|);
  }

  lemma ClosedFirstSnoc(q0: Life, run: seq<Move>, q: Life, m: Move)
    requires After(q0, run) == Some(q) && Inv(q) && Enabled(q, m)
    requires QueueGoneFirst(q0, run) <==> ClosedFirst(q.own)
    ensures QueueGoneFirst(q0, run + [m]) <==> ClosedFirst(Next(q, m).own)
  {
    QueueGoneFirstSnoc(q0, run, m);
    ClosedFirstMove(q, m);
  }

  /** The history variable tells what the run did. */
  lemma {:induction false} ClosedFirstIsHistory(q0: Life, run: seq<Move>)
    requires Start(q0) && After(q0, run).Some?
    ensures QueueGoneFirst(q0, run) <==> ClosedFirst(After(q0, run).value.own)
  {
    if run != [] {
      var before, m := run[..|run| - 1], run[|run| - 1];
      ClosedFirstIsHistory(q0, before);
      StartInv(q0);
      RunKeepsInv(q0, before);
      assert run == before + [m];
      ClosedFirstSnoc(q0, before, After(q0, before).value, m);
    }
  }

  lemma OrderTable(at: nat)
    requires 1 <= at <= 4
    ensures at == 1 ==> Order(at, 4) == INTENDED
    ensures at == 2 ==> Order(at, 4) == [Group, Queue, Session, Initializer]
    ensures at == 3 ==> Order(at, 4) == [Group, Session, Queue, Initializer]
    ensures at == 4 ==> Order(at, 4) == [Group, Session, Initializer, Queue]
  {
    assert Order(at, 0) == [];
    assert Order(at, 1) == if at == 1 then [Queue] else [];
    assert Order(at, 2) == if at == 1 then [Queue, Group] else if at == 2 then [Group, Queue] else [Group];
    assert Order(at, 3) == Order(at, 2) + [Session] + if at == 3 then [Queue] else [];
    assert Order(at, 4) == Order(at, 3) + [Initializer] + if at == 4 then [Queue] else [];
  }

  /** Over every complete run: queue, URL group, session and initializer close in that
      order if and only if the last reference to the queue goes before the `Group` field
      does.  Otherwise the queue alone is out of place. */
  lemma TeardownOrderExactly(q0: Life, run: seq<Move>)
    requires Start(q0) && After(q0, run).Some? && Over(After(q0, run).value)
    ensures After(q0, run).value.own.closed == INTENDED <==> QueueGoneFirst(q0, run)
    ensures !QueueGoneFirst(q0, run) ==>
              After(q0, run).value.own.closed in [[Group, Queue, Session, Initializer],
                                                  [Group, Session, Queue, Initializer],
                                                  [Group, Session, Initializer, Queue]]
  {
    StartInv(q0);
    RunKeepsInv(q0, run);
    ClosedFirstIsHistory(q0, run);
    OrderTable(After(q0, run).value.own.closeAt);
  }

  /** `serve` has returned, its slots are joined, and the handles are about to go. */
  predicate AboutToDrop(q: Life) { !q.own.serving && q.own.fields == 0 }

  lemma {:induction false} NothingKeptStays(q: Life, more: seq<Move>)
    requires Inv(q) && AboutToDrop(q) && !Shared(q) && After(q, more).Some?
    ensures var q' := After(q, more).value;
            !q'.own.serving && !Shared(q') && (q'.own.fields > 0 ==> q'.own.refs == 0 && q'.own.closeAt == 1)
  {
    if more != [] {
      var before, m := After(q, more[..|more| - 1]).value, more[|more| - 1];
      NothingKeptStays(q, more[..|more| - 1]);
      RunKeepsInv(q, more[..|more| - 1]);
      MoveKeepsInv(before, m);
      if m.Core? { CoreTasks(before.core, m.a); }
    }
  }

  /** If nobody outside the slots kept a request, the order is the intended one however
      the run goes on. */
  lemma NothingKeptClosesInOrder(q: Life, more: seq<Move>)
    requires Reachable(q) && AboutToDrop(q) && !Shared(q)
    requires After(q, more).Some? && After(q, more).value.own.fields == 4
    ensures After(q, more).value.own.closed == INTENDED
  {
    ReachableInv(q);
    NothingKeptStays(q, more);
    RunKeepsInv(q, more);
    OrderTable(1);
  }

  // ----- A kept request may go at any time -----

  lemma {:induction false} AfterConcat(q: Life, a: seq<Move>, b: seq<Move>)
    requires After(q, a).Some?
    ensures After(q, a + b) == After(After(q, a).value, b)
  {
    if b == [] {
      assert a + b == a;
    } else {
      AfterConcat(q, a, b[..|b| - 1]);
      assert (a + b)[..|a + b| - 1] == a + b[..|b| - 1];
    }
  }

  lemma DropOneField(q: Life)
    requires Inv(q) && !q.own.serving && q.own.fields < 4
    ensures var q' := Next(q, DropField);
            && Inv(q') && q'.core == q.core && q'.own.fields == q.own.fields + 1
            && q'.own.kept == q.own.kept && !q'.own.serving
            && (q.own.refs == 0 ==> q'.own.refs == 0 && q'.own.closeAt == q.own.closeAt)
  {
    DropFieldOk(q.own, |Running(q.core)|);
  }

  lemma {:induction false} DropFields(q: Life, n: nat)
    requires Inv(q) && !q.own.serving && q.own.fields + n <= 4
    ensures var q' := After(q, seq(n, _ => DropField));
            && q'.Some? && q'.value.own.fields == q.own.fields + n && q'.value.own.kept == q.own.kept
            && !q'.value.own.serving && q'.value.core == q.core && Inv(q'.value)
            && (q.own.refs == 0 ==> q'.value.own.refs == 0 && q'.value.own.closeAt == q.own.closeAt)
  {
    if n > 0 {
      DropFields(q, n - 1);
      assert seq(n, _ => DropField)[..n - 1] == seq(n - 1, _ => DropField);
      DropOneField(After(q, seq(n - 1, _ => DropField)).value);
    }
  }

  lemma {:induction false} DropAllKept(q: Life, n: nat)
    requires Inv(q) && !q.own.serving && q.own.fields > 0 && Running(q.core) == {} && n <= q.own.kept
    ensures var q' := After(q, seq(n, _ => DropKept));
            && q'.Some? && q'.value.own.fields == q.own.fields && q'.value.own.kept == q.own.kept - n
            && !q'.value.own.serving && q'.value.core == q.core && Inv(q'.value)
            && (0 < n == q.own.kept ==> q'.value.own.refs == 0 && q'.value.own.closeAt == q.own.fields)
  {
    if n > 0 {
      DropAllKept(q, n - 1);
      assert seq(n, _ => DropKept)[..n - 1] == seq(n - 1, _ => DropKept);
      MoveKeepsInv(After(q, seq(n - 1, _ => DropKept)).value, DropKept);
    }
  }

  /** With requests kept, the queue can close at any of the four places: in order, or
      after any of the other handles. */
  lemma KeptClosesAnywhere(q: Life, at: nat) returns (run: seq<Move>)
    requires Reachable(q) && AboutToDrop(q) && Running(q.core) == {} && q.own.kept > 0
    requires 1 <= at <= 4
    ensures After(q, run).Some? && Over(After(q, run).value)
    ensures After(q, run).value.own.closed == Order(at, 4)
  {
    ReachableInv(q);
    var a, b, c := seq(at, _ => DropField), seq(q.own.kept, _ => DropKept), seq(4 - at, _ => DropField);
    DropFields(q, at);
    var q1 := After(q, a).value;
    DropAllKept(q1, q1.own.kept);
    var q2 := After(q1, b).value;
    DropFields(q2, 4 - at);
    AfterConcat(q, a, b);
    AfterConcat(q, a + b, c);
    run := a + b + c;
  }

  /** All fields are gone, and the queue was still held when the `Group` field went. */
  ghost predicate Late(q: Life) { Inv(q) && !q.own.serving && q.own.fields == 4 && !ClosedFirst(q.own) }

  lemma LateStays(q: Life, m: Move)
    requires Late(q) && Enabled(q, m)
    ensures Late(Next(q, m))
  {
    MoveKeepsInv(q, m);
    ClosedFirstMove(q, m);
    assert NextHandles(q.own, m).fields == 4;
  }

  /** The tasks that still run can all be brought to an end. */
  lemma WindDown(q: Life) returns (run: seq<Move>, q': Life)
    requires Late(q)
    ensures After(q, run) == Some(q') && Late(q') && Running(q'.core) == {}
    decreases OverlappedTheorems.AllLeft(q.core.tasks), OverlappedTheorems.Work(q.core.ops)
  {
    run, q' := [], q;
    if t :| t in Running(q.core) {
      var a := OverlappedTheorems.SomeWayOut(q.core, t);
      var next := Next(q, Core(a));
      LateStays(q, Core(a));
      assert After(q, [Core(a)]) == Some(next) by { assert [Core(a)][..0] == []; }
      run, q' := WindDown(next);
      AfterConcat(q, [Core(a)], run);
      run := [Core(a)] + run;
    }
  }

  lemma DropOneKept(q: Life)
    requires Late(q) && q.own.kept > 0
    ensures var q' := Next(q, DropKept); Late(q') && q'.core == q.core && q'.own.kept == q.own.kept - 1
  {
    LateStays(q, DropKept);
  }

  lemma {:induction false} DropTheRest(q: Life, n: nat)
    requires Late(q) && n <= q.own.kept
    ensures var q' := After(q, seq(n, _ => DropKept));
            q'.Some? && Late(q'.value) && q'.value.core == q.core && q'.value.own.kept == q.own.kept - n
  {
    if n > 0 {
      DropTheRest(q, n - 1);
      assert seq(n, _ => DropKept)[..n - 1] == seq(n - 1, _ => DropKept);
      DropOneKept(After(q, seq(n - 1, _ => DropKept)).value);
    }
  }

  /** While anybody else holds the queue, some way to go on closes everything in another
      order. */
  lemma SharedClosesLate(q: Life) returns (run: seq<Move>)
    requires Reachable(q) && AboutToDrop(q) && Shared(q)
    ensures After(q, run).Some? && Over(After(q, run).value) && After(q, run).value.own.closed != INTENDED
  {
    ReachableInv(q);
    DropFields(q, 4);
    var a := seq(4, _ => DropField);
    var q1 := After(q, a).value;
    var b, q2 := WindDown(q1);
    var c := seq(q2.own.kept, _ => DropKept);
    DropTheRest(q2, q2.own.kept);
    AfterConcat(q, a, b);
    AfterConcat(q, a + b, c);
    run := a + b + c;
    OrderTable(After(q2, c).value.own.closeAt);
  }

  /** What the server thread could check before it drops the handles: every way to go on
      until everything is closed closes it in the intended order if and only if nobody
      outside the slots holds a request. */
  lemma OrderIsSafeExactly(q: Life)
    requires Reachable(q) && AboutToDrop(q)
    ensures (forall more :: After(q, more).Some? && Over(After(q, more).value) ==>
               After(q, more).value.own.closed == INTENDED)
              <==> !Shared(q)
  {
    if !Shared(q) {
      forall more | After(q, more).Some? && Over(After(q, more).value)
        ensures After(q, more).value.own.closed == INTENDED
      {
        NothingKeptClosesInOrder(q, more);
      }
    } else {
      var more := SharedClosesLate(q);
    }
  }

  lemma Go(q: Life, m: Move) returns (q': Life)
    requires Reachable(q) && Enabled(q, m)
    ensures Reachable(q') && q' == Next(q, m)
  {
    var q0: Life, run: seq<Move> :| Start(q0) && After(q0, run) == Some(q);
    assert (run + [m])[..|run + [m]| - 1] == run;
    q' := Next(q, m);
    assert After(q0, run + [m]) == Some(q');
  }

  /** A handler can keep a request past the end of `serve`. */
  lemma KeptIsReachable(q0: Life) returns (q: Life)
    requires Start(q0) && |q0.core.tasks| > 0
    ensures Reachable(q) && AboutToDrop(q) && Running(q.core) == {} && q.own.kept == 1 && q.own.refs == 2
  {
    assert After(q0, []) == Some(q0) && Running(q0.core) == {};
    q := Go(q0, Core(P.Spawn(0, 0)));
    CoreTasks(q0.core, P.Spawn(0, 0));
    q := Go(q, Keep);
    CoreTasks(q.core, P.End(0));
    q := Go(q, Core(P.End(0)));
    q := Go(q, ServeReturns);
  }
}
