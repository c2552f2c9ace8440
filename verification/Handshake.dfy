/** The memory ordering of `complete` and `poll_complete`.

    The protocol model of module `Overlapped` interleaves whole stores.  Here the
    atomics are weak: a location keeps every value ever stored, a load may return any
    of them that is not older than what the loading thread already knows, and
    knowledge travels only from a release store to an acquire load of it.  The
    orderings are parameters, so the results say exactly which of them the source
    needs.  `AtomicWaker` is one location changed only by read-modify-writes, each of
    which reads the latest one. */
module Handshake {
  import opened Basics

  /** For each location, the oldest stored value still readable. */
  datatype Clock = Clock(err: nat, len: nat, completed: nat)

  const START := Clock(0, 0, 0)

  function Join(a: Clock, b: Clock): Clock {
    Clock(Max(a.err, b.err), Max(a.len, b.len), Max(a.completed, b.completed))
  }

  /** A stored value, and what an acquire load of it learns. */
  datatype Message = Message(value: nat, clock: Clock)

  const ZEROED: seq<Message> := [Message(0, START)]

  /** Program counter of a thread inside `poll_complete`. */
  datatype Place = Polling | Registering | Rechecking | Suspended | SawCompleted | HasErr | Ready

  datatype Reader = Reader(place: Place, clock: Clock, notified: bool, err: nat, len: nat)

  /** `release`: ordering of the store to `completed`; `acquire`: of its loads; `sync`:
      whether the waker's read-modify-writes acquire and release.  `waker` is the thread
      registered, `waking` what the next read-modify-write of the waker learns. */
  datatype Memory = Memory(release: bool, acquire: bool, sync: bool, e: nat, n: nat,
                           err: seq<Message>, len: seq<Message>, completed: seq<Message>,
                           stores: nat, writer: Clock, woken: bool,
                           waker: Option<nat>, waking: Clock, readers: seq<Reader>)

  ghost predicate Init(m: Memory) {
    && m.err == m.len == m.completed == ZEROED && m.stores == 0 && m.writer == START
    && !m.woken && m.waker == None && m.waking == START
    && forall i :: 0 <= i < |m.readers| ==> m.readers[i] == Reader(Polling, START, false, 0, 0)
  }

  datatype Step =
    | Store                           // the next store of `complete`
    | Wake                            // `complete`: waker.wake()
    | LoadCompleted(i: nat, k: nat)   // the first load, or the re-check
    | Register(i: nat)
    | Repoll(i: nat)
    | LoadErr(i: nat, k: nat)
    | LoadLen(i: nat, k: nat)

  predicate Enabled(m: Memory, a: Step) {
    match a
    case Store => m.stores < 3
    case Wake => m.stores == 3 && !m.woken
    case LoadCompleted(i, k) =>
      i < |m.readers| && (m.readers[i].place.Polling? || m.readers[i].place.Rechecking?)
      && m.readers[i].clock.completed <= k < |m.completed|
    case Register(i) => i < |m.readers| && m.readers[i].place.Registering?
    case Repoll(i) => i < |m.readers| && m.readers[i].place.Suspended?
    case LoadErr(i, k) =>
      i < |m.readers| && m.readers[i].place.SawCompleted? && m.readers[i].clock.err <= k < |m.err|
    case LoadLen(i, k) =>
      i < |m.readers| && m.readers[i].place.HasErr? && m.readers[i].clock.len <= k < |m.len|
  }

  /** `complete`: relaxed stores of `err` and `len`, then the store of the flag. */
  function StoreNext(m: Memory): Memory {
    if m.stores == 0 then
      m.(err := m.err + [Message(m.e, START)], writer := m.writer.(err := |m.err|), stores := 1)
    else if m.stores == 1 then
      m.(len := m.len + [Message(m.n, START)], writer := m.writer.(len := |m.len|), stores := 2)
    else
      var w := m.writer.(completed := |m.completed|);
      m.(completed := m.completed + [Message(1, if m.release then w else START)], writer := w, stores := 3)
  }

  /** `AtomicWaker::wake`: take the registered thread, if any, and notify it. */
  function WakeNext(m: Memory): Memory {
    var m' := m.(woken := true, waker := None, waking := if m.sync then Join(m.waking, m.writer) else m.waking);
    if m.waker.Some? && m.waker.value < |m.readers|
    then m'.(readers := m.readers[m.waker.value := m.readers[m.waker.value].(notified := true)]) else m'
  }

  function Next(m: Memory, a: Step): Memory
    requires Enabled(m, a)
  {
    match a
    case Store => StoreNext(m)
    case Wake => WakeNext(m)
    case LoadCompleted(i, k) =>
      var r := m.readers[i];
      var seen := r.clock.(completed := k);
      var clock := if m.acquire then Join(seen, m.completed[k].clock) else seen;
      var place := if m.completed[k].value != 0 then SawCompleted
                   else if r.place.Polling? then Registering else Suspended;
      m.(readers := m.readers[i := r.(clock := clock, place := place)])
    case Register(i) =>
      var r := m.readers[i];
      var clock := if m.sync then Join(r.clock, m.waking) else r.clock;
      m.(readers := m.readers[i := r.(clock := clock, place := Rechecking)], waker := Some(i),
         waking := if m.sync then Join(m.waking, r.clock) else m.waking)
    case Repoll(i) => m.(readers := m.readers[i := m.readers[i].(place := Polling, notified := false)])
    case LoadErr(i, k) =>
      var r := m.readers[i];
      m.(readers := m.readers[i := r.(clock := r.clock.(err := k), err := m.err[k].value, place := HasErr)])
    case LoadLen(i, k) =>
      var r := m.readers[i];
      m.(readers := m.readers[i := r.(clock := r.clock.(len := k), len := m.len[k].value, place := Ready)])
  }

  predicate Reaches(m0: Memory, run: seq<Step>, m: Memory)
    decreases |run|
  {
    if run == [] then m == m0
    else Enabled(m0, run[0]) && Reaches(Next(m0, run[0]), run[1..], m)
  }

  // ----- What is stored, whatever the orderings -----

  ghost predicate StoresOk(m: Memory) {
    && m.stores <= 3
    && m.err == (if m.stores < 1 then ZEROED else ZEROED + [Message(m.e, START)])
    && m.len == (if m.stores < 2 then ZEROED else ZEROED + [Message(m.n, START)])
    && |m.completed| == (if m.stores < 3 then 1 else 2)
    && m.completed[0] == Message(0, START)
    && (m.stores == 3 ==> m.completed[1] == Message(1, if m.release then Clock(1, 1, 1) else START))
    && m.writer == Clock(if m.stores < 1 then 0 else 1, if m.stores < 2 then 0 else 1, if m.stores < 3 then 0 else 1)
  }

  // ----- The payload -----

  predicate PastFlag(p: Place) { p.SawCompleted? || p.HasErr? || p.Ready? }

  /** A reader past the flag knows about both payload stores. */
  predicate ReaderOk(m: Memory, r: Reader) {
    && (PastFlag(r.place) ==> m.stores == 3 && r.clock.err >= 1 && r.clock.len >= 1)
    && (r.place.HasErr? || r.place.Ready? ==> r.err == m.e)
    && (r.place.Ready? ==> r.len == m.n)
  }

  ghost predicate Inv(m: Memory) {
    StoresOk(m) && forall i :: 0 <= i < |m.readers| ==> ReaderOk(m, m.readers[i])
  }

  lemma StepKeepsInv(m: Memory, a: Step)
    requires Inv(m) && m.release && m.acquire && Enabled(m, a)
    ensures Inv(Next(m, a))
  {
    var m' := Next(m, a);
    forall i | 0 <= i < |m'.readers| ensures ReaderOk(m', m'.readers[i]) {
      assert ReaderOk(m, m.readers[i]);
    }
  }

  /** With release and acquire, in every run any number of polling threads that see
      the flag read exactly the pair written. */
  lemma {:induction false} ReadersGetThePair(m0: Memory, run: seq<Step>, m: Memory)
    requires Inv(m0) && m0.release && m0.acquire && Reaches(m0, run, m)
    ensures m.e == m0.e && m.n == m0.n
    ensures forall i :: 0 <= i < |m.readers| && m.readers[i].place.Ready? ==>
              m.readers[i].err == m.e && m.readers[i].len == m.n
    decreases |run|
  {
    if run == [] {
      forall i | 0 <= i < |m.readers| ensures ReaderOk(m, m.readers[i]) {}
    } else {
      StepKeepsInv(m0, run[0]);
      ReadersGetThePair(Next(m0, run[0]), run[1..], m);
    }
  }

  /** Some thread polled Ready with another pair than the one written. */
  ghost predicate Torn(m0: Memory, run: seq<Step>, m: Memory) {
    Reaches(m0, run, m)
    && exists i :: 0 <= i < |m.readers| && m.readers[i].place.Ready?
                   && (m.readers[i].err != m0.e || m.readers[i].len != m0.n)
  }

  /** Weaken either ordering and a thread can see the flag with the old payload. */
  lemma StaleRun(m0: Memory) returns (run: seq<Step>, m: Memory)
    requires Init(m0) && |m0.readers| >= 1 && !(m0.release && m0.acquire)
    ensures Reaches(m0, run, m)
    ensures |m.readers| >= 1 && m.readers[0].place.Ready? && m.readers[0].err == 0 && m.readers[0].len == 0
  {
    var m1 := Next(m0, Store);
    var m2 := Next(m1, Store);
    var m3 := Next(m2, Store);
    var m4 := Next(m3, LoadCompleted(0, 1));
    var m5 := Next(m4, LoadErr(0, 0));
    m := Next(m5, LoadLen(0, 0));
    run := [];
    run := Prepend(LoadLen(0, 0), m5, run, m);
    run := Prepend(LoadErr(0, 0), m4, run, m);
    run := Prepend(LoadCompleted(0, 1), m3, run, m);
    run := Prepend(Store, m2, run, m);
    run := Prepend(Store, m1, run, m);
    run := Prepend(Store, m0, run, m);
  }

  /** A run with one more step in front. */
  lemma Prepend(a: Step, m: Memory, run: seq<Step>, last: Memory) returns (longer: seq<Step>)
    requires Enabled(m, a) && Reaches(Next(m, a), run, last)
    ensures Reaches(m, longer, last) && longer == [a] + run
  {
    longer := [a] + run;
    assert longer[1..] == run;
  }

  /** No run is torn exactly when the flag is stored with release and loaded with
      acquire (or the pair written is the initial one, and nothing can be told apart). */
  lemma OrderingsAreExact(m0: Memory)
    requires Init(m0) && |m0.readers| >= 1
    ensures (forall run, m :: !Torn(m0, run, m)) <==>
              (m0.release && m0.acquire) || (m0.e == 0 && m0.n == 0)
  {
    if m0.release && m0.acquire {
      forall run, m | Torn(m0, run, m) ensures false { ReadersGetThePair(m0, run, m); }
    } else if m0.e == 0 && m0.n == 0 {
      forall run, m | Torn(m0, run, m) ensures false { AllZero(m0, run, m); }
    } else {
      var run, m := StaleRun(m0);
      assert Torn(m0, run, m);
    }
  }

  ghost predicate OnlyZero(m: Memory) {
    && m.e == 0 && m.n == 0
    && (forall k :: 0 <= k < |m.err| ==> m.err[k].value == 0)
    && (forall k :: 0 <= k < |m.len| ==> m.len[k].value == 0)
    && (forall i :: 0 <= i < |m.readers| ==> m.readers[i].err == 0 && m.readers[i].len == 0)
  }

  lemma {:induction false} AllZero(m0: Memory, run: seq<Step>, m: Memory)
    requires OnlyZero(m0) && Reaches(m0, run, m)
    ensures OnlyZero(m)
    decreases |run|
  {
    if run != [] {
      ZeroStep(m0, run[0]);
      AllZero(Next(m0, run[0]), run[1..], m);
    }
  }

  lemma ZeroStep(m: Memory, a: Step)
    requires OnlyZero(m) && Enabled(m, a)
    ensures OnlyZero(Next(m, a))
  {}

  // ----- The wake -----

  /** One future polls a wrap: it is registered with the wake still to come, it has been
      notified, or it is sure to see the flag when it looks again. */
  predicate WillWake(m: Memory, r: Reader) {
    && (r.place.Rechecking? ==> (m.waker == Some(0) && !m.woken) || r.notified || r.clock.completed >= 1)
    && (r.place.Suspended? ==> (m.waker == Some(0) && !m.woken) || r.notified)
  }

  ghost predicate WakeInv(m: Memory) {
    && StoresOk(m) && |m.readers| == 1
    && (m.woken ==> m.stores == 3 && m.waking.completed >= 1)
    && (m.waker.Some? ==> m.waker.value == 0)
    && WillWake(m, m.readers[0])
  }

  lemma StepKeepsWakeInv(m: Memory, a: Step)
    requires WakeInv(m) && m.sync && Enabled(m, a)
    ensures WakeInv(Next(m, a)) && Next(m, a).sync
  {}

  /** If the waker synchronizes, in every run a future whose poll returned Pending has
      been notified, or is registered and the wake is still to come. */
  lemma {:induction false} NoWakeupIsLost(m0: Memory, run: seq<Step>, m: Memory)
    requires WakeInv(m0) && m0.sync && Reaches(m0, run, m)
    ensures |m.readers| == 1
    ensures m.readers[0].place.Suspended? ==> m.readers[0].notified || (m.waker == Some(0) && !m.woken)
    decreases |run|
  {
    if run != [] {
      StepKeepsWakeInv(m0, run[0]);
      NoWakeupIsLost(Next(m0, run[0]), run[1..], m);
    }
  }

  /** A new poll uses the notification up: until the next wake there is none. */
  lemma PollConsumesWake(m: Memory, i: nat)
    requires Enabled(m, Repoll(i))
    ensures var m' := Next(m, Repoll(i));
            && |m'.readers| == |m.readers| && !m'.readers[i].notified && m'.readers[i].place.Polling?
            && m'.waker == m.waker && m'.woken == m.woken
  {}

  /** The future sleeps and nobody will ever wake it. */
  ghost predicate Stranded(m0: Memory, run: seq<Step>, m: Memory) {
    Reaches(m0, run, m) && |m.readers| == 1 && m.readers[0].place.Suspended? && !m.readers[0].notified && m.woken
  }

  /** If it does not, the re-check can miss the flag after the wake has passed by. */
  lemma LostRun(m0: Memory) returns (run: seq<Step>, m: Memory)
    requires Init(m0) && |m0.readers| == 1 && !m0.sync
    ensures Stranded(m0, run, m)
  {
    var m1 := Next(m0, LoadCompleted(0, 0));
    var m2 := Next(m1, Store);
    var m3 := Next(m2, Store);
    var m4 := Next(m3, Store);
    var m5 := Next(m4, Wake);
    var m6 := Next(m5, Register(0));
    m := Next(m6, LoadCompleted(0, 0));
    run := [];
    run := Prepend(LoadCompleted(0, 0), m6, run, m);
    run := Prepend(Register(0), m5, run, m);
    run := Prepend(Wake, m4, run, m);
    run := Prepend(Store, m3, run, m);
    run := Prepend(Store, m2, run, m);
    run := Prepend(Store, m1, run, m);
    run := Prepend(LoadCompleted(0, 0), m0, run, m);
  }

  /** No future is ever stranded exactly when the waker's own read-modify-writes acquire
      and release; the orderings of the flag do not matter for that. */
  lemma WakerSyncIsExact(m0: Memory)
    requires Init(m0) && |m0.readers| == 1
    ensures (forall run, m :: !Stranded(m0, run, m)) <==> m0.sync
  {
    if m0.sync {
      forall run, m | Stranded(m0, run, m) ensures false { NoWakeupIsLost(m0, run, m); }
    } else {
      var run, m := LostRun(m0);
      assert Stranded(m0, run, m);
    }
  }
}
