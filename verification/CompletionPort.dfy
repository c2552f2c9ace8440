/** The completion port of `iocp.rs`: a FIFO of packets drained in batches by a
    fixed set of threads, and the sentinels `IoPort::drop` posts to stop them.
    No dequeue fails, since the port is closed only after the joins. */
module CompletionPort {
  import opened Basics

  datatype Entry = Packet(op: nat) | Sentinel

  function Sentinels(b: seq<Entry>): nat {
    if b == [] then 0 else (if b[0].Sentinel? then 1 else 0) + Sentinels(b[1..])
  }

  lemma {:induction false} SentinelsConcat(a: seq<Entry>, b: seq<Entry>)
    ensures Sentinels(a + b) == Sentinels(a) + Sentinels(b)
  {
    if a == [] {
      assert a + b == b;
    } else {
      SentinelsConcat(a[1..], b);
      assert (a + b)[1..] == a[1..] + b;
    }
  }

  lemma {:induction false} SentinelsPositive(b: seq<Entry>)
    ensures Sentinels(b) > 0 <==> exists k :: 0 <= k < |b| && b[k].Sentinel?
  {
    if b != [] {
      SentinelsPositive(b[1..]);
      assert forall k :: 1 <= k < |b| ==> b[k] == b[1..][k - 1];
    }
  }

  // ----- One thread -----

  /** The operations of the packets among `b`, in order. */
  function Packets(b: seq<Entry>): seq<nat> {
    if b == [] then []
    else if b[|b| - 1].Packet? then Packets(b[..|b| - 1]) + [b[|b| - 1].op]
    else Packets(b[..|b| - 1])
  }

  function Flatten(bs: seq<seq<Entry>>): seq<Entry> {
    if bs == [] then [] else Flatten(bs[..|bs| - 1]) + bs[|bs| - 1]
  }

  lemma {:induction false} PacketsConcat(a: seq<Entry>, b: seq<Entry>)
    ensures Packets(a + b) == Packets(a) + Packets(b)
  {
    if b == [] {
      assert a + b == a;
    } else {
      PacketsConcat(a, b[..|b| - 1]);
      assert (a + b)[..|a + b| - 1] == a + b[..|b| - 1];
    }
  }

  /** `delivered` are the packets of `b`, each once and in order: `at` lists where they are,
      ascending, and no packet of `b` is anywhere else. */
  ghost predicate EachPacketOnce(b: seq<Entry>, delivered: seq<nat>, at: seq<nat>) {
    && |at| == |delivered|
    && (forall j :: 0 <= j < |at| ==> at[j] < |b| && b[at[j]] == Packet(delivered[j]))
    && (forall i, j :: 0 <= i < j < |at| ==> at[i] < at[j])
    && (forall k :: 0 <= k < |b| && b[k].Packet? ==> k in at)
  }

  lemma OneMoreEntry(b: seq<Entry>, delivered: seq<nat>, at: seq<nat>, e: Entry)
    requires EachPacketOnce(b, delivered, at)
    ensures e.Packet? ==> EachPacketOnce(b + [e], delivered + [e.op], at + [|b|])
    ensures e.Sentinel? ==> EachPacketOnce(b + [e], delivered, at)
  {
    var longer := b + [e];
    if e.Packet? {
      var more := at + [|b|];
      forall k | 0 <= k < |longer| && longer[k].Packet? ensures k in more {
        if k < |b| { assert longer[k] == b[k] && k in at; } else { assert more[|at|] == k; }
      }
    } else {
      forall k | 0 <= k < |longer| && longer[k].Packet? ensures k in at { assert longer[k] == b[k]; }
    }
  }

  /** What the loop below delivers of a batch: every packet, each once and in order. */
  lemma {:induction false} PacketsAreExact(b: seq<Entry>) returns (at: seq<nat>)
    ensures EachPacketOnce(b, Packets(b), at)
  {
    at := [];
    if b != [] {
      var init, last := b[..|b| - 1], b[|b| - 1];
      at := PacketsAreExact(init);
      OneMoreEntry(init, Packets(init), at, last);
      assert b == init + [last];
      if last.Packet? { at := at + [|init|]; }
    }
  }

  lemma {:induction false} PacketsCount(b: seq<Entry>)
    ensures |Packets(b)| + Sentinels(b) == |b|
  {
    if b != [] {
      PacketsCount(b[..|b| - 1]);
      SentinelsConcat(b[..|b| - 1], [b[|b| - 1]]);
      assert b == b[..|b| - 1] + [b[|b| - 1]];
    }
  }

  /** One batch of `completion_loop`: every packet is delivered, sentinels only ask
      the thread to stop. */
  method HandleBatch(entries: seq<Entry>) returns (delivered: seq<nat>, stop: bool)
    ensures delivered == Packets(entries) && |delivered| == |entries| - Sentinels(entries)
    ensures stop <==> exists k :: 0 <= k < |entries| && entries[k].Sentinel?
  {
    delivered, stop := [], false;
    for i := 0 to |entries|
      invariant delivered == Packets(entries[..i])
      invariant stop <==> exists k :: 0 <= k < i && entries[k].Sentinel?
    {
      assert entries[..i + 1][..i] == entries[..i];
      if entries[i].Sentinel? {
        stop := true;
      } else {
        delivered := delivered + [entries[i].op];
      }
    }
    assert entries[..|entries|] == entries;
    PacketsCount(entries);
  }

  lemma OneMoreBatch(batches: seq<seq<Entry>>, used: nat)
    requires used < |batches|
    ensures Packets(Flatten(batches[..used + 1])) == Packets(Flatten(batches[..used])) + Packets(batches[used])
  {
    assert batches[..used + 1][..used] == batches[..used];
    PacketsConcat(Flatten(batches[..used]), batches[used]);
  }

  /** `completion_loop`, given what each dequeue returns; running out of `batches`
      is the failed dequeue.  It leaves after the first batch with a sentinel, and
      by then has delivered every packet it ever dequeued, in order. */
  method CompletionLoop(batches: seq<seq<Entry>>) returns (delivered: seq<nat>, used: nat)
    ensures used <= |batches|
    ensures delivered == Packets(Flatten(batches[..used]))
    ensures |delivered| == |Flatten(batches[..used])| - Sentinels(Flatten(batches[..used]))
    ensures forall k :: 0 <= k < used - 1 ==> Sentinels(batches[k]) == 0
    ensures used < |batches| ==> used > 0 && Sentinels(batches[used - 1]) > 0
  {
    var stop := false;
    delivered, used := [], 0;
    while used < |batches| && !stop
      invariant used <= |batches|
      invariant delivered == Packets(Flatten(batches[..used]))
      invariant forall k :: 0 <= k < used - 1 ==> Sentinels(batches[k]) == 0
      invariant used > 0 ==> (stop <==> Sentinels(batches[used - 1]) > 0)
      invariant stop ==> used > 0
    {
      var handled;
      handled, stop := HandleBatch(batches[used]);
      SentinelsPositive(batches[used]);
      OneMoreBatch(batches, used);
      delivered := delivered + handled;
      used := used + 1;
    }
    PacketsCount(Flatten(batches[..used]));
  }

  // ----- All threads over one FIFO -----

  /** `Busy`: the batch `posted[lo..lo + |batch|]`, `cur` entries of it handled. */
  datatype Thread = Waiting | Busy(lo: nat, batch: seq<Entry>, cur: nat, stop: bool) | Exited

  /** `posted` is everything ever posted, `head` how much of it was dequeued;
      `delivered` holds positions in `posted`; `batches` what each dequeue returned. */
  datatype State = State(threads: seq<Thread>, posted: seq<Entry>, head: nat,
                         delivered: seq<nat>, batches: seq<seq<Entry>>)

  ghost predicate Init(s: State) {
    s.posted == [] && s.head == 0 && s.delivered == [] && s.batches == []
    && forall i :: 0 <= i < |s.threads| ==> s.threads[i] == Waiting
  }

  datatype Step =
    | Post(op: nat)
    | PostSentinel            // one round of the loop in `IoPort::drop`
    | Dequeue(i: nat, k: nat)
    | Handle(i: nat)
    | EndBatch(i: nat)

  predicate Enabled(s: State, a: Step) {
    match a
    case Post(_) => true
    case PostSentinel => Sentinels(s.posted) < |s.threads|
    case Dequeue(i, k) => i < |s.threads| && s.threads[i].Waiting? && 1 <= k <= BATCH && s.head + k <= |s.posted|
    case Handle(i) => i < |s.threads| && s.threads[i].Busy? && s.threads[i].cur < |s.threads[i].batch|
    case EndBatch(i) => i < |s.threads| && s.threads[i].Busy? && s.threads[i].cur == |s.threads[i].batch|
  }

  function Next(s: State, a: Step): State
    requires Enabled(s, a)
  {
    match a
    case Post(op) => s.(posted := s.posted + [Packet(op)])
    case PostSentinel => s.(posted := s.posted + [Sentinel])
    case Dequeue(i, k) =>
      var batch := s.posted[s.head..s.head + k];
      s.(threads := s.threads[i := Busy(s.head, batch, 0, false)], head := s.head + k,
         batches := s.batches + [batch])
    case Handle(i) =>
      var th := s.threads[i];
      if th.batch[th.cur].Sentinel?
      then s.(threads := s.threads[i := th.(cur := th.cur + 1, stop := true)])
      else s.(threads := s.threads[i := th.(cur := th.cur + 1)], delivered := s.delivered + [th.lo + th.cur])
    case EndBatch(i) => s.(threads := s.threads[i := if s.threads[i].stop then Exited else Waiting])
  }

  /** The state after `run`, if every step was enabled where it was taken. */
  function After(s0: State, run: seq<Step>): Option<State> {
    if run == [] then Some(s0)
    else
      var before := After(s0, run[..|run| - 1]);
      var last := run[|run| - 1];
      if before.Some? && Enabled(before.value, last) then Some(Next(before.value, last)) else None
  }

  ghost predicate Reachable(s: State) {
    exists s0: State, run: seq<Step> :: Init(s0) && After(s0, run) == Some(s)
  }

  // ----- Sentinel conservation -----

  /** Sentinels a batch swallowed beyond the one that stops its thread. */
  function Surplus(b: seq<Entry>): nat { if Sentinels(b) == 0 then 0 else Sentinels(b) - 1 }

  function Excess(bs: seq<seq<Entry>>): nat {
    if bs == [] then 0 else Excess(bs[..|bs| - 1]) + Surplus(bs[|bs| - 1])
  }

  predicate Leaves(th: Thread) { th.Exited? || (th.Busy? && Sentinels(th.batch) > 0) }

  /** Threads that have left or will leave after their batch. */
  function Leaving(ths: seq<Thread>): nat {
    if ths == [] then 0 else (if Leaves(ths[0]) then 1 else 0) + Leaving(ths[1..])
  }

  function Idle(ths: seq<Thread>): nat {
    if ths == [] then 0 else (if ths[0].Waiting? then 1 else 0) + Idle(ths[1..])
  }

  lemma {:induction false} LeavingUpdate(ths: seq<Thread>, i: nat, th: Thread)
    requires i < |ths|
    ensures Leaving(ths[i := th]) == Leaving(ths) - (if Leaves(ths[i]) then 1 else 0) + (if Leaves(th) then 1 else 0)
  {
    if i > 0 {
      LeavingUpdate(ths[1..], i - 1, th);
      assert ths[i := th][1..] == ths[1..][i - 1 := th];
    } else {
      assert ths[i := th][1..] == ths[1..];
    }
  }

  lemma {:induction false} LeavingBounds(ths: seq<Thread>)
    ensures Leaving(ths) <= |ths|
    ensures (forall i :: 0 <= i < |ths| ==> Leaves(ths[i])) ==> Leaving(ths) == |ths|
    ensures Leaving(ths) == |ths| ==> forall i :: 0 <= i < |ths| ==> Leaves(ths[i])
    ensures (forall i :: 0 <= i < |ths| ==> !ths[i].Busy?) ==> Idle(ths) == |ths| - Leaving(ths)
  {
    if ths != [] {
      LeavingBounds(ths[1..]);
      assert forall i :: 1 <= i < |ths| ==> ths[i] == ths[1..][i - 1];
    }
  }

  predicate BatchOk(s: State, th: Thread) {
    th.Busy? ==>
      && th.lo + |th.batch| <= s.head <= |s.posted| && th.cur <= |th.batch|
      && th.batch == s.posted[th.lo..th.lo + |th.batch|]
      && (th.stop <==> Sentinels(th.batch[..th.cur]) > 0)
  }

  ghost predicate CountInv(s: State) {
    && s.head <= |s.posted| && Sentinels(s.posted) <= |s.threads|
    && (forall i :: 0 <= i < |s.threads| ==> BatchOk(s, s.threads[i]))
    && Sentinels(s.posted[..s.head]) == Leaving(s.threads) + Excess(s.batches)
    && Flatten(s.batches) == s.posted[..s.head]
  }

  lemma PostKeepsCount(s: State, e: Entry)
    requires CountInv(s) && (e.Sentinel? ==> Sentinels(s.posted) < |s.threads|)
    ensures CountInv(s.(posted := s.posted + [e]))
  {
    var s' := s.(posted := s.posted + [e]);
    SentinelsConcat(s.posted, [e]);
    assert s'.posted[..s.head] == s.posted[..s.head];
    forall i | 0 <= i < |s.threads| ensures BatchOk(s', s.threads[i]) {
      assert BatchOk(s, s.threads[i]);
    }
  }

  /** Threads that did not move keep their batch while the port grows. */
  lemma BatchesStay(s: State, s': State, i: nat)
    requires CountInv(s) && i < |s.threads|
    requires s'.posted == s.posted && s.head <= s'.head <= |s.posted|
    requires |s'.threads| == |s.threads| && s'.threads == s.threads[i := s'.threads[i]]
    requires BatchOk(s', s'.threads[i])
    ensures forall j :: 0 <= j < |s'.threads| ==> BatchOk(s', s'.threads[j])
  {
    forall j | 0 <= j < |s'.threads| ensures BatchOk(s', s'.threads[j]) {
      assert BatchOk(s, s.threads[j]);
    }
  }

  lemma DequeueKeepsCount(s: State, i: nat, k: nat)
    requires CountInv(s) && Enabled(s, Dequeue(i, k))
    ensures CountInv(Next(s, Dequeue(i, k)))
  {
    var s' := Next(s, Dequeue(i, k));
    var batch := s.posted[s.head..s.head + k];
    BatchesStay(s, s', i);
    assert s.posted[..s.head + k] == s.posted[..s.head] + batch;
    SentinelsConcat(s.posted[..s.head], batch);
    LeavingUpdate(s.threads, i, s'.threads[i]);
    assert s'.batches[..|s'.batches| - 1] == s.batches;
  }

  lemma HandleKeepsCount(s: State, i: nat)
    requires CountInv(s) && Enabled(s, Handle(i))
    ensures CountInv(Next(s, Handle(i)))
  {
    var s' := Next(s, Handle(i));
    var th := s.threads[i];
    assert BatchOk(s, th);
    assert th.batch[..th.cur + 1] == th.batch[..th.cur] + [th.batch[th.cur]];
    SentinelsConcat(th.batch[..th.cur], [th.batch[th.cur]]);
    BatchesStay(s, s', i);
    LeavingUpdate(s.threads, i, s'.threads[i]);
  }

  lemma EndBatchKeepsCount(s: State, i: nat)
    requires CountInv(s) && Enabled(s, EndBatch(i))
    ensures CountInv(Next(s, EndBatch(i)))
  {
    var s' := Next(s, EndBatch(i));
    var th := s.threads[i];
    assert BatchOk(s, th);
    assert th.batch[..th.cur] == th.batch;
    LeavingUpdate(s.threads, i, s'.threads[i]);
    forall j | 0 <= j < |s'.threads| ensures BatchOk(s', s'.threads[j]) {
      assert BatchOk(s, s.threads[j]);
    }
  }

  lemma StepKeepsCount(s: State, a: Step)
    requires CountInv(s) && Enabled(s, a)
    ensures CountInv(Next(s, a))
  {
    match a
    case Post(op) => PostKeepsCount(s, Packet(op));
    case PostSentinel => PostKeepsCount(s, Sentinel);
    case Dequeue(i, k) => DequeueKeepsCount(s, i, k);
    case Handle(i) => HandleKeepsCount(s, i);
    case EndBatch(i) => EndBatchKeepsCount(s, i);
  }

  lemma InitCount(s: State)
    requires Init(s)
    ensures CountInv(s)
  {
    NoneLeaving(s.threads);
  }

  lemma {:induction false} NoneLeaving(ths: seq<Thread>)
    requires forall i :: 0 <= i < |ths| ==> ths[i].Waiting?
    ensures Leaving(ths) == 0
  {
    if ths != [] { NoneLeaving(ths[1..]); }
  }

  /** The joins of `IoPort::drop` can all return. */
  predicate AllExited(s: State) { forall i :: 0 <= i < |s.threads| ==> s.threads[i].Exited? }

  /** Every sentinel has been posted and dequeued, and no batch is being worked on. */
  ghost predicate Settled(s: State) {
    && Sentinels(s.posted) == |s.threads|
    && s.head <= |s.posted| && Sentinels(s.posted[s.head..]) == 0
    && forall i :: 0 <= i < |s.threads| ==> !s.threads[i].Busy?
  }

  lemma {:induction false} ExcessIsZero(bs: seq<seq<Entry>>)
    ensures Excess(bs) == 0 <==> forall k :: 0 <= k < |bs| ==> Sentinels(bs[k]) <= 1
  {
    if bs != [] { ExcessIsZero(bs[..|bs| - 1]); }
  }

  /** Sentinels posted are still queued, stopped a thread, or were surplus. */
  lemma SentinelConservation(s: State)
    requires Reachable(s)
    ensures s.head <= |s.posted|
    ensures Sentinels(s.posted) == Sentinels(s.posted[s.head..]) + Leaving(s.threads) + Excess(s.batches)
  {
    ReachableInv(s);
    assert s.posted == s.posted[..s.head] + s.posted[s.head..];
    SentinelsConcat(s.posted[..s.head], s.posted[s.head..]);
  }

  /** Once all sentinels are consumed, as many threads wait for ever as batches
      swallowed surplus sentinels. */
  lemma WaitersAreSurplus(s: State)
    requires Reachable(s) && Settled(s)
    ensures Idle(s.threads) == Excess(s.batches)
  {
    SentinelConservation(s);
    LeavingBounds(s.threads);
  }

  /** Settled, the joins all return exactly when no batch held two sentinels. */
  lemma JoinsReturnExactly(s: State)
    requires Reachable(s) && Settled(s)
    ensures AllExited(s) <==> forall k :: 0 <= k < |s.batches| ==> Sentinels(s.batches[k]) <= 1
  {
    WaitersAreSurplus(s);
    LeavingBounds(s.threads);
    ExcessIsZero(s.batches);
    assert AllExited(s) <==> forall i :: 0 <= i < |s.threads| ==> Leaves(s.threads[i]);
  }

  lemma ReachableStep(s: State, a: Step)
    requires Reachable(s) && Enabled(s, a)
    ensures Reachable(Next(s, a))
  {
    var s0: State, run: seq<Step> :| Init(s0) && After(s0, run) == Some(s);
    assert (run + [a])[..|run + [a]| - 1] == run;
    assert After(s0, run + [a]) == Some(Next(s, a));
  }

  /** Going on from a reachable state keeps what was dequeued. */
  lemma {:induction false} Onward(s: State, run: seq<Step>, s': State)
    requires Reachable(s) && After(s, run) == Some(s')
    ensures Reachable(s') && s.batches <= s'.batches && |s'.threads| == |s.threads|
  {
    if run != [] {
      var before := After(s, run[..|run| - 1]).value;
      Onward(s, run[..|run| - 1], before);
      ReachableStep(before, run[|run| - 1]);
    }
  }

  /** After a batch that held two sentinels, whatever is still to happen, the threads
      never all exit: `IoPort::drop` hangs. */
  lemma TwoSentinelsHang(s: State, run: seq<Step>, s': State, k: nat)
    requires Reachable(s) && After(s, run) == Some(s') && k < |s.batches| && Sentinels(s.batches[k]) >= 2
    ensures !AllExited(s')
  {
    Onward(s, run, s');
    SentinelConservation(s');
    ExcessIsZero(s'.batches);
    assert s'.batches[k] == s.batches[k];
    LeavingBounds(s'.threads);
    ReachableInv(s');
  }

  // ----- Dropping the port ends, one way or the other -----

  /** What the completion threads do on their own. */
  predicate ThreadStep(a: Step) { a.Dequeue? || a.Handle? || a.EndBatch? }

  /** Steps a thread still owes its batch. */
  function Owes(th: Thread): nat {
    if th.Busy? && th.cur <= |th.batch| then |th.batch| - th.cur + 1 else 0
  }

  function TotalOwed(ths: seq<Thread>): nat {
    if ths == [] then 0 else Owes(ths[0]) + TotalOwed(ths[1..])
  }

  lemma {:induction false} TotalOwedUpdate(ths: seq<Thread>, i: nat, th: Thread)
    requires i < |ths|
    ensures TotalOwed(ths[i := th]) == TotalOwed(ths) - Owes(ths[i]) + Owes(th)
  {
    if i > 0 {
      TotalOwedUpdate(ths[1..], i - 1, th);
      assert ths[i := th][1..] == ths[1..][i - 1 := th];
    } else {
      assert ths[i := th][1..] == ths[1..];
    }
  }

  /** Bound on the thread steps left, if nothing more is posted. */
  function Left(s: State): nat
    requires s.head <= |s.posted|
  {
    3 * (|s.posted| - s.head) + TotalOwed(s.threads)
  }

  lemma ThreadStepWorks(s: State, a: Step)
    requires s.head <= |s.posted| && ThreadStep(a) && Enabled(s, a)
    ensures Next(s, a).head <= |Next(s, a).posted| && Left(Next(s, a)) < Left(s)
  {
    TotalOwedUpdate(s.threads, a.i, Next(s, a).threads[a.i]);
  }

  /** Any run of thread steps alone is bounded. */
  lemma {:induction false} ThreadRunIsBounded(s: State, run: seq<Step>, s': State)
    requires s.head <= |s.posted| && After(s, run) == Some(s')
    requires forall i :: 0 <= i < |run| ==> ThreadStep(run[i])
    ensures s'.head <= |s'.posted| && |run| + Left(s') <= Left(s)
  {
    if run != [] {
      var before := After(s, run[..|run| - 1]).value;
      ThreadRunIsBounded(s, run[..|run| - 1], before);
      ThreadStepWorks(before, run[|run| - 1]);
    }
  }

  /** The threads can do nothing more. */
  ghost predicate Rested(s: State) { forall a :: ThreadStep(a) ==> !Enabled(s, a) }

  /** The outcome of `IoPort::drop`: with all sentinels posted, when the threads can do
      nothing more, the joins have all returned if and only if no batch ever held two
      sentinels. */
  lemma DropEndsExactly(s: State)
    requires Reachable(s) && Sentinels(s.posted) == |s.threads| && Rested(s)
    ensures AllExited(s) <==> forall k :: 0 <= k < |s.batches| ==> Sentinels(s.batches[k]) <= 1
  {
    ReachableInv(s);
    SentinelConservation(s);
    ExcessIsZero(s.batches);
    LeavingBounds(s.threads);
    assert AllExited(s) ==> forall i :: 0 <= i < |s.threads| ==> Leaves(s.threads[i]);
    forall i | 0 <= i < |s.threads| ensures !s.threads[i].Busy? {
      assert BatchOk(s, s.threads[i]);
      assert !Enabled(s, Handle(i)) && !Enabled(s, EndBatch(i));
    }
    if !AllExited(s) {
      var i :| 0 <= i < |s.threads| && !s.threads[i].Exited?;
      assert !Enabled(s, Dequeue(i, 1));
      assert s.posted[s.head..] == [];
      JoinsReturnExactly(s);
    }
  }

  // ----- Which ports can be dropped safely -----

  /** The threads of any state can be run to rest. */
  lemma RunToRest(s: State) returns (s': State)
    requires Reachable(s)
    ensures Reachable(s') && Rested(s')
    ensures s'.posted == s.posted && |s'.threads| == |s.threads| && s.batches <= s'.batches
    decreases (ReachableInv(s); Left(s))
  {
    ReachableInv(s);
    s' := s;
    if !Rested(s) {
      var a :| ThreadStep(a) && Enabled(s, a);
      ThreadStepWorks(s, a);
      ReachableStep(s, a);
      s' := RunToRest(Next(s, a));
    }
  }

  /** `IoPort::drop` posts one sentinel per thread, all before any is dequeued. */
  lemma PostSentinels(s0: State, n: nat) returns (s: State)
    requires Init(s0) && n <= |s0.threads|
    ensures Reachable(s) && s == s0.(posted := seq(n, _ => Sentinel)) && Sentinels(s.posted) == n
  {
    InitReachable(s0);
    s := s0;
    if n > 0 {
      s := PostSentinels(s0, n - 1);
      SentinelsConcat(s.posted, [Sentinel]);
      ReachableStep(s, PostSentinel);
      s := Next(s, PostSentinel);
      assert s.posted == seq(n, _ => Sentinel);
    }
  }

  /** With two threads or more some drop hangs: one thread takes two sentinels at once. */
  lemma SomeDropHangs(n: nat) returns (s: State)
    requires n >= 2
    ensures Reachable(s) && |s.threads| == n && Sentinels(s.posted) == n && Rested(s) && !AllExited(s)
  {
    var s0 := State(seq(n, _ => Waiting), [], 0, [], []);
    var posted := PostSentinels(s0, n);
    ReachableStep(posted, Dequeue(0, 2));
    var taken := Next(posted, Dequeue(0, 2));
    assert taken.batches[0] == [Sentinel] + [Sentinel];
    SentinelsConcat([Sentinel], [Sentinel]);
    s := RunToRest(taken);
    assert After(s, []) == Some(s) && s.batches[0] == taken.batches[0];
    TwoSentinelsHang(s, [], s, 0);
  }

  lemma {:induction false} BatchWithinAll(bs: seq<seq<Entry>>, k: nat)
    requires k < |bs|
    ensures Sentinels(bs[k]) <= Sentinels(Flatten(bs))
  {
    var init := bs[..|bs| - 1];
    SentinelsConcat(Flatten(init), bs[|bs| - 1]);
    if k < |init| { BatchWithinAll(init, k); }
  }

  /** With at most one thread there is at most one sentinel. */
  lemma FewSentinels(s: State)
    requires Reachable(s) && |s.threads| <= 1
    ensures forall k :: 0 <= k < |s.batches| ==> Sentinels(s.batches[k]) <= 1
  {
    ReachableInv(s);
    assert s.posted == s.posted[..s.head] + s.posted[s.head..];
    SentinelsConcat(s.posted[..s.head], s.posted[s.head..]);
    forall k | 0 <= k < |s.batches| ensures Sentinels(s.batches[k]) <= 1 { BatchWithinAll(s.batches, k); }
  }

  /** What a caller can check beforehand: every drop returns if and only if the port has
      at most one thread. */
  lemma DropIsSafeExactly(n: nat)
    ensures (forall s :: Reachable(s) && |s.threads| == n && Sentinels(s.posted) == n && Rested(s) ==> AllExited(s))
              <==> n <= 1
  {
    if n >= 2 {
      var s := SomeDropHangs(n);
    } else {
      forall s | Reachable(s) && |s.threads| == n && Sentinels(s.posted) == n && Rested(s) ensures AllExited(s) {
        FewSentinels(s);
        DropEndsExactly(s);
      }
    }
  }

  lemma InitReachable(s: State)
    requires Init(s)
    ensures Reachable(s)
  {
    assert After(s, []) == Some(s);
  }

  // ----- No packet is dropped -----

  /** Position `p` is in the part of `th`'s batch still to be handled. */
  predicate InHand(th: Thread, p: nat) {
    th.Busy? && th.lo + th.cur <= p < th.lo + |th.batch|
  }

  /** No position is in two threads' hands. */
  ghost predicate Disjoint(ths: seq<Thread>) {
    forall i, j, p :: 0 <= i < |ths| && 0 <= j < |ths| && InHand(ths[i], p) && i != j ==> !InHand(ths[j], p)
  }

  /** Delivered positions are dequeued packets, listed once, in nobody's hands. */
  ghost predicate DeliveredOk(s: State) {
    && (forall k :: 0 <= k < |s.delivered| ==>
          s.delivered[k] < s.head <= |s.posted| && s.posted[s.delivered[k]].Packet?)
    && (forall k, l :: 0 <= k < l < |s.delivered| ==> s.delivered[k] != s.delivered[l])
    && (forall i, k :: 0 <= i < |s.threads| && 0 <= k < |s.delivered| ==> !InHand(s.threads[i], s.delivered[k]))
  }

  ghost predicate DeliveryInv(s: State) {
    && s.head <= |s.posted|
    && (forall i :: 0 <= i < |s.threads| ==> BatchOk(s, s.threads[i]))
    && Disjoint(s.threads) && DeliveredOk(s)
    && (forall p :: 0 <= p < s.head && s.posted[p].Packet? ==> p in s.delivered || Held(s, p))
  }

  ghost predicate Held(s: State, p: nat) { exists i :: 0 <= i < |s.threads| && InHand(s.threads[i], p) }

  ghost predicate Inv(s: State) { CountInv(s) && DeliveryInv(s) }

  lemma PostKeepsDelivery(s: State, e: Entry)
    requires DeliveryInv(s)
    ensures DeliveryInv(s.(posted := s.posted + [e]))
  {
    var s' := s.(posted := s.posted + [e]);
    forall i | 0 <= i < |s.threads| ensures BatchOk(s', s.threads[i]) { assert BatchOk(s, s.threads[i]); }
    forall p | 0 <= p < s.head && s'.posted[p].Packet? ensures p in s.delivered || Held(s', p) {
      if Held(s, p) {
        var i :| 0 <= i < |s.threads| && InHand(s.threads[i], p);
        assert InHand(s'.threads[i], p);
      }
    }
  }

  lemma DequeueKeepsDelivery(s: State, i: nat, k: nat)
    requires DeliveryInv(s) && Enabled(s, Dequeue(i, k))
    ensures DeliveryInv(Next(s, Dequeue(i, k)))
  {
    var s' := Next(s, Dequeue(i, k));
    forall j | 0 <= j < |s'.threads| ensures BatchOk(s', s'.threads[j]) { assert BatchOk(s, s.threads[j]); }
    forall p | 0 <= p < s'.head && s'.posted[p].Packet? ensures p in s'.delivered || Held(s', p) {
      if p >= s.head {
        assert InHand(s'.threads[i], p);
      } else if Held(s, p) {
        var j :| 0 <= j < |s.threads| && InHand(s.threads[j], p);
        assert InHand(s'.threads[j], p);
      }
    }
  }

  /** Handling one entry takes exactly that position out of the thread's hands. */
  lemma HandleInHand(s: State, i: nat, j: nat, p: nat)
    requires Enabled(s, Handle(i)) && j < |s.threads|
    ensures InHand(Next(s, Handle(i)).threads[j], p) <==>
              InHand(s.threads[j], p) && !(j == i && p == s.threads[i].lo + s.threads[i].cur)
  {}

  lemma HandleKeepsHeld(s: State, i: nat, p: nat)
    requires DeliveryInv(s) && Enabled(s, Handle(i)) && p < s.head && s.posted[p].Packet?
    ensures p in Next(s, Handle(i)).delivered || Held(Next(s, Handle(i)), p)
  {
    var s' := Next(s, Handle(i));
    var q := s.threads[i].lo + s.threads[i].cur;
    assert BatchOk(s, s.threads[i]);
    if p == q {
      assert s.posted[q] == s.threads[i].batch[s.threads[i].cur];
      assert s'.delivered[|s.delivered|] == q;
    } else if p in s.delivered {
      assert s.delivered <= s'.delivered;
    } else {
      var j :| 0 <= j < |s.threads| && InHand(s.threads[j], p);
      HandleInHand(s, i, j, p);
    }
  }

  lemma HandleKeepsDisjoint(s: State, i: nat)
    requires Disjoint(s.threads) && Enabled(s, Handle(i))
    ensures Disjoint(Next(s, Handle(i)).threads)
  {
    var ths' := Next(s, Handle(i)).threads;
    forall j, p | 0 <= j < |ths'| && InHand(ths'[j], p) ensures InHand(s.threads[j], p) { HandleInHand(s, i, j, p); }
  }

  lemma HandleKeepsDelivered(s: State, i: nat)
    requires DeliveryInv(s) && Enabled(s, Handle(i))
    ensures DeliveredOk(Next(s, Handle(i)))
  {
    var s' := Next(s, Handle(i));
    var th := s.threads[i];
    assert BatchOk(s, th);
    assert InHand(th, th.lo + th.cur) && s.posted[th.lo + th.cur] == th.batch[th.cur];
    forall j, p | 0 <= j < |s.threads| && InHand(s'.threads[j], p)
      ensures InHand(s.threads[j], p) && p != th.lo + th.cur
    {
      HandleInHand(s, i, j, p);
    }
  }

  lemma HandleKeepsDelivery(s: State, i: nat)
    requires Inv(s) && Enabled(s, Handle(i))
    ensures DeliveryInv(Next(s, Handle(i)))
  {
    var s' := Next(s, Handle(i));
    HandleKeepsCount(s, i);
    HandleKeepsDisjoint(s, i);
    HandleKeepsDelivered(s, i);
    forall p | 0 <= p < s'.head && s'.posted[p].Packet? ensures p in s'.delivered || Held(s', p) {
      HandleKeepsHeld(s, i, p);
    }
  }

  lemma EndBatchKeepsDelivery(s: State, i: nat)
    requires Inv(s) && Enabled(s, EndBatch(i))
    ensures DeliveryInv(Next(s, EndBatch(i)))
  {
    var s' := Next(s, EndBatch(i));
    EndBatchKeepsCount(s, i);
    forall p | 0 <= p < s'.head && s'.posted[p].Packet? ensures p in s'.delivered || Held(s', p) {
      if Held(s, p) {
        var j :| 0 <= j < |s.threads| && InHand(s.threads[j], p);
        assert InHand(s'.threads[j], p);
      }
    }
  }

  lemma StepKeepsInv(s: State, a: Step)
    requires Inv(s) && Enabled(s, a)
    ensures Inv(Next(s, a))
  {
    StepKeepsCount(s, a);
    match a
    case Post(op) => PostKeepsDelivery(s, Packet(op));
    case PostSentinel => PostKeepsDelivery(s, Sentinel);
    case Dequeue(i, k) => DequeueKeepsDelivery(s, i, k);
    case Handle(i) => HandleKeepsDelivery(s, i);
    case EndBatch(i) => EndBatchKeepsDelivery(s, i);
  }

  lemma {:induction false} RunKeepsInv(s0: State, run: seq<Step>)
    requires Inv(s0) && After(s0, run).Some?
    ensures Inv(After(s0, run).value)
  {
    if run != [] {
      RunKeepsInv(s0, run[..|run| - 1]);
      StepKeepsInv(After(s0, run[..|run| - 1]).value, run[|run| - 1]);
    }
  }

  lemma ReachableInv(s: State)
    requires Reachable(s)
    ensures Inv(s)
  {
    var s0: State, run: seq<Step> :| Init(s0) && After(s0, run) == Some(s);
    InitCount(s0);
    RunKeepsInv(s0, run);
  }

  /** Every packet ever dequeued is delivered once, or is still in the hands of
      exactly the thread that dequeued it. */
  lemma DeliveredOnce(s: State, p: nat)
    requires Reachable(s) && p < s.head
    ensures s.head <= |s.posted|
    ensures s.posted[p].Packet? ==> (p in s.delivered <==> !Held(s, p))
    ensures forall k, l :: 0 <= k < l < |s.delivered| ==> s.delivered[k] != s.delivered[l]
    ensures forall k :: 0 <= k < |s.delivered| ==> s.delivered[k] < s.head && s.posted[s.delivered[k]].Packet?
  {
    ReachableInv(s);
  }

  /** Once all threads have exited, every packet posted ahead of the first sentinel
      has been delivered. */
  lemma NoPacketDroppedAtStop(s: State, p: nat)
    requires Reachable(s) && |s.threads| > 0 && AllExited(s)
    requires p < |s.posted| && s.posted[p].Packet?
    requires forall q :: 0 <= q <= p ==> s.posted[q].Packet?
    ensures p in s.delivered
  {
    ReachableInv(s);
    LeavingBounds(s.threads);
    assert forall i :: 0 <= i < |s.threads| ==> Leaves(s.threads[i]);
    SentinelsPositive(s.posted[..s.head]);
    var k :| 0 <= k < s.head && s.posted[..s.head][k].Sentinel?;
    assert s.posted[k].Sentinel? && p < k;
  }

  // ----- The loop of one thread, among all -----

  predicate InRange(th: Thread, p: nat) { th.Busy? && th.lo <= p < th.lo + |th.batch| }

  function OpAt(posted: seq<Entry>, p: nat): nat {
    if p < |posted| && posted[p].Packet? then posted[p].op else 0
  }

  /** The operations delivered out of the batch of `th`, in the order of delivery. */
  function OpsOf(posted: seq<Entry>, delivered: seq<nat>, th: Thread): seq<nat> {
    if delivered == [] then []
    else
      var init, last := delivered[..|delivered| - 1], delivered[|delivered| - 1];
      OpsOf(posted, init, th) + if InRange(th, last) then [OpAt(posted, last)] else []
  }

  lemma OpsOfSnoc(posted: seq<Entry>, delivered: seq<nat>, th: Thread, p: nat)
    ensures OpsOf(posted, delivered + [p], th)
         == OpsOf(posted, delivered, th) + if InRange(th, p) then [OpAt(posted, p)] else []
  {
    assert (delivered + [p])[..|delivered + [p]| - 1] == delivered;
  }

  lemma {:induction false} OpsOfGrows(posted: seq<Entry>, e: Entry, delivered: seq<nat>, th: Thread)
    requires forall k :: 0 <= k < |delivered| ==> delivered[k] < |posted|
    ensures OpsOf(posted + [e], delivered, th) == OpsOf(posted, delivered, th)
  {
    if delivered != [] { OpsOfGrows(posted, e, delivered[..|delivered| - 1], th); }
  }

  lemma {:induction false} OpsOfNone(posted: seq<Entry>, delivered: seq<nat>, th: Thread)
    requires forall k :: 0 <= k < |delivered| ==> !InRange(th, delivered[k])
    ensures OpsOf(posted, delivered, th) == []
  {
    if delivered != [] { OpsOfNone(posted, delivered[..|delivered| - 1], th); }
  }

  /** What counts is where the batch lies. */
  lemma {:induction false} OpsOfSame(posted: seq<Entry>, delivered: seq<nat>, th: Thread, th': Thread)
    requires th.Busy? && th'.Busy? && th.lo == th'.lo && th.batch == th'.batch
    ensures OpsOf(posted, delivered, th) == OpsOf(posted, delivered, th')
  {
    if delivered != [] { OpsOfSame(posted, delivered[..|delivered| - 1], th, th'); }
  }

  predicate Apart(a: Thread, b: Thread) {
    a.Busy? && b.Busy? ==> a.lo + |a.batch| <= b.lo || b.lo + |b.batch| <= a.lo
  }

  /** No two threads work on the same part of the queue, and each has delivered the packets
      of its batch as far as it has got. */
  ghost predicate BatchInv(s: State) {
    && (forall i, j :: 0 <= i < |s.threads| && 0 <= j < |s.threads| && i != j ==> Apart(s.threads[i], s.threads[j]))
    && (forall i :: 0 <= i < |s.threads| ==> SoFar(s, s.threads[i]))
  }

  predicate SoFar(s: State, th: Thread) {
    th.Busy? && th.cur <= |th.batch| ==> OpsOf(s.posted, s.delivered, th) == Packets(th.batch[..th.cur])
  }

  lemma PostKeepsBatches(s: State, e: Entry)
    requires Inv(s) && BatchInv(s)
    ensures BatchInv(s.(posted := s.posted + [e]))
  {
    forall i | 0 <= i < |s.threads| ensures SoFar(s.(posted := s.posted + [e]), s.threads[i]) {
      assert SoFar(s, s.threads[i]);
      OpsOfGrows(s.posted, e, s.delivered, s.threads[i]);
    }
  }

  lemma DequeueKeepsBatches(s: State, i: nat, k: nat)
    requires Inv(s) && BatchInv(s) && Enabled(s, Dequeue(i, k))
    ensures BatchInv(Next(s, Dequeue(i, k)))
  {
    var s' := Next(s, Dequeue(i, k));
    forall j | 0 <= j < |s.threads| && j != i ensures Apart(s'.threads[i], s'.threads[j]) && SoFar(s', s'.threads[j]) {
      assert BatchOk(s, s.threads[j]) && SoFar(s, s.threads[j]);
    }
    OpsOfNone(s.posted, s.delivered, s'.threads[i]);
    assert s'.threads[i].batch[..0] == [];
  }

  /** One more entry handled, out of the thread's own batch. */
  lemma HandleOwn(s: State, i: nat)
    requires CountInv(s) && Enabled(s, Handle(i)) && SoFar(s, s.threads[i])
    ensures SoFar(Next(s, Handle(i)), Next(s, Handle(i)).threads[i])
  {
    var s', th := Next(s, Handle(i)), s.threads[i];
    assert BatchOk(s, th);
    assert th.batch[th.cur] == s.posted[th.lo + th.cur];
    assert th.batch[..th.cur + 1][..th.cur] == th.batch[..th.cur];
    OpsOfSame(s'.posted, s'.delivered, th, s'.threads[i]);
    if th.batch[th.cur].Packet? { OpsOfSnoc(s.posted, s.delivered, th, th.lo + th.cur); }
  }

  lemma HandleOther(s: State, i: nat, j: nat)
    requires j < |s.threads| && j != i && Enabled(s, Handle(i)) && BatchOk(s, s.threads[i])
    requires SoFar(s, s.threads[j]) && Apart(s.threads[i], s.threads[j])
    ensures SoFar(Next(s, Handle(i)), Next(s, Handle(i)).threads[j])
  {
    OpsOfSnoc(s.posted, s.delivered, s.threads[j], s.threads[i].lo + s.threads[i].cur);
    assert !InRange(s.threads[j], s.threads[i].lo + s.threads[i].cur);
  }

  lemma HandleKeepsSoFar(s: State, i: nat, j: nat)
    requires Inv(s) && BatchInv(s) && Enabled(s, Handle(i)) && j < |s.threads|
    ensures SoFar(Next(s, Handle(i)), Next(s, Handle(i)).threads[j])
  {
    assert SoFar(s, s.threads[j]) && BatchOk(s, s.threads[i]);
    if j == i { HandleOwn(s, i); } else { HandleOther(s, i, j); }
  }

  lemma HandleKeepsBatches(s: State, i: nat)
    requires Inv(s) && BatchInv(s) && Enabled(s, Handle(i))
    ensures BatchInv(Next(s, Handle(i)))
  {
    var s' := Next(s, Handle(i));
    forall j | 0 <= j < |s'.threads| ensures SoFar(s', s'.threads[j]) { HandleKeepsSoFar(s, i, j); }
    forall j | 0 <= j < |s'.threads| && j != i ensures Apart(s'.threads[i], s'.threads[j]) {
      assert Apart(s.threads[i], s.threads[j]);
    }
  }

  lemma EndBatchKeepsBatches(s: State, i: nat)
    requires BatchInv(s) && Enabled(s, EndBatch(i))
    ensures BatchInv(Next(s, EndBatch(i)))
  {
    var s' := Next(s, EndBatch(i));
    forall j | 0 <= j < |s'.threads| ensures SoFar(s', s'.threads[j]) { assert SoFar(s, s.threads[j]); }
  }

  lemma {:induction false} RunKeepsBatches(s0: State, run: seq<Step>)
    requires Init(s0) && After(s0, run).Some?
    ensures BatchInv(After(s0, run).value)
  {
    if run != [] {
      var before := After(s0, run[..|run| - 1]).value;
      RunKeepsBatches(s0, run[..|run| - 1]);
      InitCount(s0);
      RunKeepsInv(s0, run[..|run| - 1]);
      match run[|run| - 1]
      case Post(op) => PostKeepsBatches(before, Packet(op));
      case PostSentinel => PostKeepsBatches(before, Sentinel);
      case Dequeue(i, k) => DequeueKeepsBatches(before, i, k);
      case Handle(i) => HandleKeepsBatches(before, i);
      case EndBatch(i) => EndBatchKeepsBatches(before, i);
    }
  }

  /** Whatever the other threads do meanwhile, when a thread is done with a batch exactly
      what `HandleBatch` delivers has been delivered out of it, in that order. */
  lemma BatchIsDelivered(s: State, i: nat)
    requires Reachable(s) && Enabled(s, EndBatch(i))
    ensures OpsOf(s.posted, s.delivered, s.threads[i]) == Packets(s.threads[i].batch)
    ensures s.threads[i].stop <==> exists k :: 0 <= k < |s.threads[i].batch| && s.threads[i].batch[k].Sentinel?
  {
    var s0: State, run: seq<Step> :| Init(s0) && After(s0, run) == Some(s);
    RunKeepsBatches(s0, run);
    ReachableInv(s);
    var th := s.threads[i];
    assert SoFar(s, th) && BatchOk(s, th) && th.batch[..th.cur] == th.batch;
    SentinelsPositive(th.batch);
  }
}
