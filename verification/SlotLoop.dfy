/** The request slot of `server.rs`: receive, route, reply, repeat. */
module SlotLoop {
  import opened Basics
  import opened ReceiveBuffers
  import opened Receive

  datatype Reply = FromHandler(handler: nat) | NotFound | TooLarge

  /** What a slot does, in order.  `Obtained` records the request the kernel delivered
      and whether resizing threw it away; `Oversized` the id left in the buffer. */
  datatype Event =
    | StopLoaded(v: bool)
    | ReceiveBegun
    | Obtained(delivered: Header, lost: bool)
    | Oversized(id: nat)
    | Failed(code: nat)
    | Invoked(handler: nat, id: nat)
    | Sent(id: nat, reply: Reply)

  /** What the environment does during one round: the value of the stop flag, the
      kernel's answers, and whether the handler keeps its request.  Requests kept earlier
      may be dropped before the take (`back`) or between it and the return of the round's
      own buffer (`during`); each entry picks one of those still kept. */
  datatype Round = Round(stop: bool, first: Answer, second: Answer, keeps: bool, back: seq<nat>, during: seq<nat>)

  /** `is_terminal`: aborted, invalid handle, no more files. */
  predicate Terminal(code: nat) { code == 995 || code == 6 || code == 18 }

  /** Which event may come next; `None` is the end of the trace. */
  predicate Follows(routes: map<nat, nat>, e: Event, next: Option<Event>) {
    match e
    case StopLoaded(v) => if v then next.None? else next == Some(ReceiveBegun)
    case ReceiveBegun => next.Some? && (next.value.Obtained? || next.value.Oversized? || next.value.Failed?)
    case Obtained(h, lost) =>
      var id := if lost then 0 else h.requestId;
      if !lost && h.urlContext in routes then next == Some(Invoked(routes[h.urlContext], id))
      else next == Some(Sent(id, NotFound))
    case Invoked(handler, id) => next == Some(Sent(id, FromHandler(handler)))
    case Oversized(id) => if id != 0 then next == Some(Sent(id, TooLarge)) else NewRound(next)
    case Failed(code) => if Terminal(code) then next.None? else NewRound(next)
    case Sent(_, _) => NewRound(next)
  }

  predicate NewRound(next: Option<Event>) { next.None? || next.value.StopLoaded? }

  /** Every event is followed by one that may follow it. */
  ghost predicate Linked(routes: map<nat, nat>, trace: seq<Event>) {
    forall i :: 0 <= i < |trace| - 1 ==> Follows(routes, trace[i], Some(trace[i + 1]))
  }

  /** The trace of a whole run. */
  ghost predicate Complete(routes: map<nat, nat>, trace: seq<Event>) {
    && Linked(routes, trace)
    && (trace != [] ==> trace[0].StopLoaded? && Follows(routes, trace[|trace| - 1], None))
  }

  lemma LinkedConcat(routes: map<nat, nat>, a: seq<Event>, b: seq<Event>)
    requires Linked(routes, a) && Linked(routes, b)
    requires a != [] && b != [] ==> Follows(routes, a[|a| - 1], Some(b[0]))
    ensures Linked(routes, a + b)
  {
    var t := a + b;
    forall i | 0 <= i < |t| - 1 ensures Follows(routes, t[i], Some(t[i + 1])) {
      if i < |a| - 1 {
        assert t[i] == a[i] && t[i + 1] == a[i + 1];
      } else if i >= |a| {
        assert t[i] == b[i - |a|] && t[i + 1] == b[i - |a| + 1];
      }
    }
  }

  /** The slot between rounds: its pool, its receive mode, and the buffers of requests
      that handlers still keep. */
  datatype SlotState = SlotState(block: nat, slots: nat, bytes: nat, maxBytes: nat, free: seq<Buf>, mode: bool,
                                 kept: seq<Buf>)

  /** How a receive into buffer `b` ended, as the trace records it. */
  function Verdict(block: nat, maxBytes: nat, b: Buf, mode: bool, round: Round): Event {
    var r := Receive.Receive(block, maxBytes, b, mode, round.first, round.second);
    var h := Final(mode, round.first, round.second).header;
    match r.result
    case Done => Obtained(h, Stripped(r) && Replaced(maxBytes, b.(header := h)))
    case HeadersTooLarge(_) => Oversized(round.second.header.requestId)
    case Win32(code) => Failed(code)
  }

  /** The buffer a take yields, and the free list without it. */
  function Taken(s: SlotState): (Buf, seq<Buf>) {
    if s.free == [] then (NewBuf(s.block, s.bytes), []) else (s.free[0], s.free[1..])
  }

  /** A buffer goes back to the pool, if there is room. */
  function Returned(s: SlotState, b: Buf): SlotState {
    if |s.free| < Max(1, s.slots) then s.(free := s.free + [b]) else s
  }

  /** Kept requests are dropped, one after the other. */
  function Restored(s: SlotState, picks: seq<nat>): SlotState
    decreases |picks|
  {
    if picks == [] then s
    else if picks[0] >= |s.kept| then Restored(s, picks[1..])
    else Restored(Returned(s, s.kept[picks[0]]).(kept := s.kept[..picks[0]] + s.kept[picks[0] + 1..]), picks[1..])
  }

  /** Every pick names a request that is still kept when its turn comes. */
  predicate Picks(picks: seq<nat>, kept: nat) {
    |picks| <= kept && forall i :: 0 <= i < |picks| ==> picks[i] < kept - i
  }

  lemma TakenOut(kept: seq<Buf>, i: nat)
    requires i < |kept|
    ensures multiset(kept) == multiset(kept[..i] + kept[i + 1..]) + multiset{kept[i]}
  {
    assert kept == kept[..i] + [kept[i]] + kept[i + 1..];
  }

  /** Each request dropped is kept no longer, and its buffer is in the pool as far as there is
      room: none is lost before the pool is full, and none is there twice. */
  lemma {:induction false} RestoredIsExact(s: SlotState, picks: seq<nat>)
    requires Picks(picks, |s.kept|) && |s.free| <= Max(1, s.slots)
    ensures var s' := Restored(s, picks);
            && |s'.kept| == |s.kept| - |picks|
            && |s'.free| == Min(Max(1, s.slots), |s.free| + |picks|) && s.free <= s'.free
            && multiset(s'.free) + multiset(s'.kept) <= multiset(s.free) + multiset(s.kept)
            && s' == s.(free := s'.free, kept := s'.kept)
    decreases |picks|
  {
    if picks != [] {
      var i := picks[0];
      var s1 := Returned(s, s.kept[i]).(kept := s.kept[..i] + s.kept[i + 1..]);
      TakenOut(s.kept, i);
      assert forall j :: 0 <= j < |picks| - 1 ==> picks[1..][j] == picks[j + 1];
      RestoredIsExact(s1, picks[1..]);
    }
  }

  /** The buffer a round receives into. */
  function BufferFor(s: SlotState, round: Round): Buf { Taken(Restored(s, round.back)).0 }

  function VerdictOn(s: SlotState, round: Round): Event {
    Verdict(s.block, s.maxBytes, BufferFor(s, round), s.mode, round)
  }

  /** What follows a verdict: the reply, if any. */
  function Replies(routes: map<nat, nat>, e: Event): seq<Event> {
    match e
    case Oversized(id) => if id != 0 then [Sent(id, TooLarge)] else []
    case Obtained(h, lost) =>
      var id, context := if lost then 0 else h.requestId, if lost then 0 else h.urlContext;
      if context in routes then [Invoked(routes[context], id), Sent(id, FromHandler(routes[context]))]
      else [Sent(id, NotFound)]
    case _ => []
  }

  /** The slot while a round's buffer is out. */
  function Underway(s: SlotState, round: Round): SlotState {
    var s' := Restored(s, round.back);
    Restored(s'.(free := Taken(s').1), round.during)
  }

  /** What the round's receive leaves behind. */
  function Got(s: SlotState, round: Round): Received {
    Receive.Receive(s.block, s.maxBytes, BufferFor(s, round), s.mode, round.first, round.second)
  }

  /** The slot after a round. */
  function NextSlot(routes: map<nat, nat>, s: SlotState, round: Round): SlotState {
    var r := Got(s, round);
    PutAway(Underway(s, round), r, r.result.Done? && r.buf.header.urlContext in routes && round.keeps)
  }

  /** The round's own buffer stays with the handler or goes back to the pool. */
  function PutAway(s: SlotState, r: Received, held: bool): SlotState {
    (if held then s.(kept := s.kept + [r.buf]) else Returned(s, r.buf)).(mode := r.copyBody)
  }

  /** A terminal failure ends the loop. */
  predicate Ends(verdict: Event) { verdict.Failed? && Terminal(verdict.code) }

  /** The events of a round once the flag was found clear. */
  function RoundEvents(routes: map<nat, nat>, verdict: Event): seq<Event> {
    [ReceiveBegun, verdict] + Replies(routes, verdict)
  }

  /** The whole trace of a slot. */
  function Trace(routes: map<nat, nat>, s: SlotState, script: seq<Round>): seq<Event>
    decreases |script|
  {
    if script == [] then []
    else if script[0].stop then [StopLoaded(true)]
    else
      var verdict := VerdictOn(s, script[0]);
      [StopLoaded(false)] + RoundEvents(routes, verdict)
      + (if Ends(verdict) then [] else Trace(routes, NextSlot(routes, s, script[0]), script[1..]))
  }

  /** Every trace is complete: each event is followed by one the grammar allows. */
  lemma {:induction false} TraceIsComplete(routes: map<nat, nat>, s: SlotState, script: seq<Round>)
    requires 0 !in routes
    ensures Complete(routes, Trace(routes, s, script))
    decreases |script|
  {
    if script != [] && !script[0].stop {
      var verdict := VerdictOn(s, script[0]);
      var head := [StopLoaded(false)] + RoundEvents(routes, verdict);
      RoundIsLinked(routes, verdict);
      if !Ends(verdict) {
        var rest := Trace(routes, NextSlot(routes, s, script[0]), script[1..]);
        TraceIsComplete(routes, NextSlot(routes, s, script[0]), script[1..]);
        LinkedConcat(routes, head, rest);
      }
    }
  }

  lemma RoundIsLinked(routes: map<nat, nat>, verdict: Event)
    requires 0 !in routes && (verdict.Obtained? || verdict.Oversized? || verdict.Failed?)
    ensures var head := [StopLoaded(false)] + RoundEvents(routes, verdict);
            && Linked(routes, head) && Follows(routes, head[|head| - 1], None)
            && (!Ends(verdict) ==>
                  forall v :: Follows(routes, head[|head| - 1], Some(StopLoaded(v))))
  {}

  /** A slot object's pool and the kept buffers, as a value. */
  ghost function Of(pool: BufferPool, mode: bool, kept: seq<Buf>): SlotState
    reads pool
  {
    SlotState(pool.block, pool.slots, pool.bytes, pool.maxBytes, pool.free, mode, kept)
  }

  predicate AllSized(block: nat, maxBytes: nat, bufs: seq<Buf>) {
    forall i :: 0 <= i < |bufs| ==> Sized(block, maxBytes, bufs[i])
  }

  /** One round of the trace, and the rest. */
  lemma TraceCons(routes: map<nat, nat>, s: SlotState, script: seq<Round>)
    requires script != [] && !script[0].stop
    ensures var verdict := VerdictOn(s, script[0]);
            Trace(routes, s, script)
              == [StopLoaded(false)] + RoundEvents(routes, verdict)
                 + if Ends(verdict) then [] else Trace(routes, NextSlot(routes, s, script[0]), script[1..])
  {}

  /** The slot after some rounds. */
  function StateAfter(routes: map<nat, nat>, s: SlotState, script: seq<Round>): SlotState
    decreases |script|
  {
    if script == [] then s else StateAfter(routes, NextSlot(routes, s, script[0]), script[1..])
  }

  /** None of the rounds ended the loop. */
  predicate Ongoing(routes: map<nat, nat>, s: SlotState, script: seq<Round>)
    decreases |script|
  {
    script == []
    || (&& !script[0].stop && !Ends(VerdictOn(s, script[0]))
        && Ongoing(routes, NextSlot(routes, s, script[0]), script[1..]))
  }

  lemma {:induction false} SlotSnoc(routes: map<nat, nat>, s: SlotState, script: seq<Round>, round: Round)
    requires Ongoing(routes, s, script)
    ensures var s' := StateAfter(routes, s, script);
            && StateAfter(routes, s, script + [round]) == NextSlot(routes, s', round)
            && (Ongoing(routes, s, script + [round]) <==> !round.stop && !Ends(VerdictOn(s', round)))
    decreases |script|
  {
    var longer := script + [round];
    if script == [] {
      assert longer[1..] == [] && longer[0] == round;
    } else {
      assert longer[0] == script[0] && longer[1..] == script[1..] + [round];
      SlotSnoc(routes, NextSlot(routes, s, script[0]), script[1..], round);
    }
  }

  /** What a round adds to the trace. */
  function Adds(routes: map<nat, nat>, s: SlotState, round: Round): seq<Event> {
    if round.stop then [StopLoaded(true)] else [StopLoaded(false)] + RoundEvents(routes, VerdictOn(s, round))
  }

  lemma TraceOne(routes: map<nat, nat>, s: SlotState, round: Round)
    ensures Trace(routes, s, [round]) == Adds(routes, s, round)
  {
    assert [round][1..] == [];
    if !round.stop { TraceCons(routes, s, [round]); }
  }

  /** The trace of a loop that goes on after its first round. */
  lemma TraceGoesOn(routes: map<nat, nat>, s: SlotState, round: Round, rest: seq<Round>)
    requires !round.stop && !Ends(VerdictOn(s, round))
    ensures Trace(routes, s, [round] + rest)
         == Adds(routes, s, round) + Trace(routes, NextSlot(routes, s, round), rest)
  {
    assert ([round] + rest)[0] == round && ([round] + rest)[1..] == rest;
    TraceCons(routes, s, [round] + rest);
  }

  lemma Glue(whole: seq<Event>, head: seq<Event>, more: seq<Event>, short: seq<Event>, rest: seq<Event>,
             last: seq<Event>)
    requires whole == head + more && more == rest + last && short == head + rest
    ensures whole == short + last
  {}

  /** One more round at the end of a trace. */
  lemma {:induction false} TraceSnoc(routes: map<nat, nat>, s: SlotState, script: seq<Round>, round: Round)
    requires Ongoing(routes, s, script)
    ensures Trace(routes, s, script + [round])
         == Trace(routes, s, script) + Adds(routes, StateAfter(routes, s, script), round)
    decreases |script|
  {
    if script == [] {
      assert script + [round] == [round];
      TraceOne(routes, s, round);
    } else {
      var next, rest := NextSlot(routes, s, script[0]), script[1..];
      TraceSnoc(routes, next, rest, round);
      assert script == [script[0]] + rest && script + [round] == [script[0]] + (rest + [round]);
      TraceGoesOn(routes, s, script[0], rest);
      TraceGoesOn(routes, s, script[0], rest + [round]);
      Glue(Trace(routes, s, script + [round]), Adds(routes, s, script[0]), Trace(routes, next, rest + [round]),
           Trace(routes, s, script), Trace(routes, next, rest), Adds(routes, StateAfter(routes, next, rest), round));
    }
  }

  lemma Unroll(routes: map<nat, nat>, s: SlotState, script: seq<Round>, k: nat, before: seq<Event>)
    requires k < |script| && !script[k].stop
    ensures var verdict := VerdictOn(s, script[k]);
            before + Trace(routes, s, script[k..])
              == before + [StopLoaded(false)] + RoundEvents(routes, verdict)
                 + if Ends(verdict) then [] else Trace(routes, NextSlot(routes, s, script[k]), script[k + 1..])
  {
    var verdict := VerdictOn(s, script[k]);
    assert script[k..][0] == script[k] && script[k..][1..] == script[k + 1..];
    TraceCons(routes, s, script[k..]);
    Regroup(before, [StopLoaded(false)], RoundEvents(routes, verdict),
            if Ends(verdict) then [] else Trace(routes, NextSlot(routes, s, script[k]), script[k + 1..]));
  }

  lemma Regroup(a: seq<Event>, b: seq<Event>, c: seq<Event>, d: seq<Event>)
    ensures a + (b + c + d) == a + b + c + d
  {}

  /** `slot_loop`, over any behaviour of its environment; the run ends where the
      script does, at the stop flag, or at a terminal error.  `kept` stands for the
      requests handlers have not dropped. */
  method SlotLoop(pool: BufferPool, routes: map<nat, nat>, script: seq<Round>) returns (trace: seq<Event>)
    requires pool.Valid() && SizesOk(pool.block, pool.maxBytes) && 0 !in routes
    modifies pool
    ensures pool.Valid() && trace == Trace(routes, old(Of(pool, true, [])), script) && Complete(routes, trace)
  {
    trace := [];
    var mode := true;
    var kept: seq<Buf> := [];
    ghost var s := Of(pool, mode, kept);
    ghost var whole := Trace(routes, s, script);
    TraceIsComplete(routes, s, script);
    for k := 0 to |script|
      invariant pool.Valid() && SizesOk(pool.block, pool.maxBytes) && AllSized(pool.block, pool.maxBytes, kept)
      invariant s == Of(pool, mode, kept) && whole == trace + Trace(routes, s, script[k..])
    {
      if script[k].stop {
        trace := trace + [StopLoaded(true)];
        return;
      }
      Unroll(routes, s, script, k, trace);
      trace := trace + [StopLoaded(false)];
      var events, stop;
      events, stop, mode, kept := ServeRound(pool, routes, mode, kept, script[k]);
      trace := trace + events;
      s := NextSlot(routes, s, script[k]);
      if stop { return; }
    }
  }

  /** Handlers drop some of the requests they kept. */
  method ReturnKept(pool: BufferPool, kept: seq<Buf>, picks: seq<nat>, ghost mode: bool) returns (kept': seq<Buf>)
    requires pool.Valid() && SizesOk(pool.block, pool.maxBytes) && AllSized(pool.block, pool.maxBytes, kept)
    modifies pool
    ensures pool.Valid() && AllSized(pool.block, pool.maxBytes, kept')
    ensures Of(pool, mode, kept') == Restored(old(Of(pool, mode, kept)), picks)
  {
    kept' := kept;
    for k := 0 to |picks|
      invariant pool.Valid() && AllSized(pool.block, pool.maxBytes, kept')
      invariant Restored(Of(pool, mode, kept'), picks[k..]) == Restored(old(Of(pool, mode, kept)), picks)
    {
      var i := picks[k];
      assert picks[k..][1..] == picks[k + 1..];
      if i < |kept'| {
        pool.Return(kept'[i]);
        kept' := kept'[..i] + kept'[i + 1..];
      }
    }
  }

  /** The body of the loop after the flag was found clear. */
  method ServeRound(pool: BufferPool, routes: map<nat, nat>, mode: bool, kept: seq<Buf>, round: Round)
    returns (events: seq<Event>, stop: bool, mode': bool, kept': seq<Buf>)
    requires pool.Valid() && SizesOk(pool.block, pool.maxBytes) && 0 !in routes
    requires AllSized(pool.block, pool.maxBytes, kept)
    modifies pool
    ensures pool.Valid() && AllSized(pool.block, pool.maxBytes, kept')
    ensures Of(pool, mode', kept') == NextSlot(routes, old(Of(pool, mode, kept)), round)
    ensures var verdict := VerdictOn(old(Of(pool, mode, kept)), round);
            events == RoundEvents(routes, verdict) && (stop <==> Ends(verdict))
  {
    var buffer, result;
    buffer, result, mode', kept' := TakeAndReceive(pool, mode, kept, round);
    var delivered := Final(mode, round.first, round.second).header;
    var held;
    events, stop, held := Conclude(pool, routes, buffer, result, delivered, round.keeps);
    if held { kept' := kept' + [buffer.Value()]; }
    events := [ReceiveBegun] + events;
  }

  /** Take a buffer and receive into it. */
  method TakeAndReceive(pool: BufferPool, mode: bool, kept: seq<Buf>, round: Round)
    returns (buffer: PooledBuffer, result: Result, mode': bool, kept': seq<Buf>)
    requires pool.Valid() && SizesOk(pool.block, pool.maxBytes) && AllSized(pool.block, pool.maxBytes, kept)
    modifies pool
    ensures pool.Valid() && AllSized(pool.block, pool.maxBytes, kept') && fresh(buffer)
    ensures var s := old(Of(pool, mode, kept)); var delivered := Final(mode, round.first, round.second).header;
            && Of(pool, mode, kept') == Underway(s, round)
            && buffer.Value() == Got(s, round).buf && result == Got(s, round).result && mode' == Got(s, round).copyBody
            && Concluded(result, buffer.header, delivered) == VerdictOn(s, round)
            && (buffer.header == delivered || buffer.header == ZERO || !result.Done?)
            && Sized(pool.block, pool.maxBytes, buffer.Value())
  {
    kept' := ReturnKept(pool, kept, round.back, mode);
    buffer := pool.Take();
    ConcludedIsVerdict(pool.block, pool.maxBytes, buffer.Value(), mode, round);
    var calls;
    mode', result, calls := ReceiveInto(buffer, mode, round.first, round.second);
    kept' := ReturnKept(pool, kept', round.during, mode);
  }

  /** The verdict as the loop sees it: from the result and the header block it finds. */
  function Concluded(result: Result, found: Header, delivered: Header): Event {
    match result
    case Done => Obtained(delivered, found != delivered)
    case HeadersTooLarge(_) => Oversized(found.requestId)
    case Win32(code) => Failed(code)
  }

  /** It is the verdict on the kernel's answers: what is found differs from what was
      delivered exactly when resizing threw the request away. */
  lemma ConcludedIsVerdict(block: nat, maxBytes: nat, b: Buf, mode: bool, round: Round)
    requires SizesOk(block, maxBytes) && Sized(block, maxBytes, b)
    ensures var r := Receive.Receive(block, maxBytes, b, mode, round.first, round.second);
            var delivered := Final(mode, round.first, round.second).header;
            && Concluded(r.result, r.buf.header, delivered) == Verdict(block, maxBytes, b, mode, round)
            && (r.buf.header == delivered || r.buf.header == ZERO || !r.result.Done?)
            && Sized(block, maxBytes, r.buf)
  {
    ReceiveStaysSized(block, maxBytes, b, mode, round.first, round.second);
    if Receive.Receive(block, maxBytes, b, mode, round.first, round.second).result.Done? {
      RequestSurvivesExactly(block, maxBytes, b, mode, round.first, round.second);
    }
  }

  /** What the loop does with the result of a receive; `delivered` is only recorded. */
  method Conclude(pool: BufferPool, routes: map<nat, nat>, buffer: PooledBuffer, result: Result, delivered: Header,
                  keeps: bool) returns (events: seq<Event>, stop: bool, held: bool)
    requires pool.Valid() && (SizesOk(pool.block, pool.maxBytes) ==> Sized(pool.block, pool.maxBytes, buffer.Value()))
    requires buffer.header == delivered || buffer.header == ZERO || !result.Done?
    requires 0 !in routes
    modifies pool
    ensures pool.Valid()
    ensures held <==> result.Done? && buffer.header.urlContext in routes && keeps
    ensures pool.free == if held || |old(pool.free)| >= Max(1, pool.slots) then old(pool.free)
                         else old(pool.free) + [buffer.Value()]
    ensures var verdict := Concluded(result, buffer.header, delivered);
            events == [verdict] + Replies(routes, verdict) && (stop <==> Ends(verdict))
  {
    stop, held := false, false;
    match result {
      case HeadersTooLarge(_) =>
        events := [Oversized(buffer.header.requestId)];
        if buffer.header.requestId != 0 {
          events := events + [Sent(buffer.header.requestId, TooLarge)];
        }
        pool.Return(buffer.Value());
      case Win32(code) =>
        events := [Failed(code)];
        pool.Return(buffer.Value());
        stop := Terminal(code);
      case Done =>
        var replies;
        replies, held := Route(pool, routes, buffer, keeps);
        events := [Obtained(delivered, buffer.header != delivered)] + replies;
    }
  }

  /** Look the handler up by URL context, let it answer, send. */
  method Route(pool: BufferPool, routes: map<nat, nat>, buffer: PooledBuffer, keeps: bool)
    returns (events: seq<Event>, held: bool)
    requires pool.Valid() && (SizesOk(pool.block, pool.maxBytes) ==> Sized(pool.block, pool.maxBytes, buffer.Value()))
    modifies pool
    ensures pool.Valid() && (held <==> buffer.header.urlContext in routes && keeps)
    ensures pool.free == if held || |old(pool.free)| >= Max(1, pool.slots) then old(pool.free)
                         else old(pool.free) + [buffer.Value()]
    ensures events == (var id := buffer.header.requestId; var context := buffer.header.urlContext;
                       if context in routes then [Invoked(routes[context], id), Sent(id, FromHandler(routes[context]))]
                       else [Sent(id, NotFound)])
  {
    var id := buffer.header.requestId;
    var context := buffer.header.urlContext;
    held := context in routes && keeps;
    if context in routes {
      events := [Invoked(routes[context], id)];
      if !keeps { pool.Return(buffer.Value()); }
      events := events + [Sent(id, FromHandler(routes[context]))];
    } else {
      pool.Return(buffer.Value());
      events := [Sent(id, NotFound)];
    }
  }

  lemma ReceiveStaysSized(block: nat, maxBytes: nat, b: Buf, copyBody: bool, first: Answer, second: Answer)
    requires SizesOk(block, maxBytes) && Sized(block, maxBytes, b)
    ensures Sized(block, maxBytes, Receive.Receive(block, maxBytes, b, copyBody, first, second).buf)
  {
    assert Capacity(b.(header := second.header)) == Capacity(b);
    FitIsExact(block, maxBytes, b.(header := second.header));
  }

  // ----- What the trace of every run says -----

  /** `trace[i..j]` is one round: from the start of a receive to the next one, or to
      the end. */
  ghost predicate OneRound(trace: seq<Event>, i: nat, j: nat) {
    && i < j <= |trace| && trace[i].ReceiveBegun?
    && (forall k :: i < k < j ==> !trace[k].ReceiveBegun?)
    && (j < |trace| ==> trace[j].ReceiveBegun?)
  }

  /** `trace[k]` is the only send of the round. */
  ghost predicate OnlySend(trace: seq<Event>, i: nat, j: nat, k: nat) {
    i < k < j <= |trace| && trace[k].Sent? && forall l :: i < l < j && trace[l].Sent? ==> l == k
  }

  /** Where the flag was found clear a receive begins, and only there. */
  lemma BegunExactlyAfterClearFlag(routes: map<nat, nat>, trace: seq<Event>, k: nat)
    requires Complete(routes, trace) && k + 1 < |trace|
    ensures trace[k].StopLoaded? ==> trace[k + 1].ReceiveBegun?
    ensures trace[k + 1].ReceiveBegun? ==> trace[k] == StopLoaded(false)
  {
    assert Follows(routes, trace[k], Some(trace[k + 1]));
  }

  /** An event that sends the loop back to its head is the last of its round, but for
      one load of the stop flag. */
  lemma HeadEndsRound(routes: map<nat, nat>, trace: seq<Event>, i: nat, j: nat, k: nat)
    requires Complete(routes, trace) && OneRound(trace, i, j) && i < k < j
    requires trace[k].Sent? || trace[k].Failed? || trace[k] == Oversized(0)
    ensures j <= k + 2 && (k + 1 < j ==> trace[k + 1].StopLoaded?)
  {
    if k + 1 < |trace| {
      assert Follows(routes, trace[k], Some(trace[k + 1]));
      if k + 2 < |trace| { BegunExactlyAfterClearFlag(routes, trace, k + 1); }
    }
  }

  /** Each delivered request gets exactly one send before the next receive begins;
      unless it was lost, that send carries its own id, and its route's handler is
      the one invoked; a lost one is answered 404 to id 0. */
  lemma OneSendPerRequest(routes: map<nat, nat>, trace: seq<Event>, i: nat, j: nat) returns (k: nat)
    requires Complete(routes, trace) && OneRound(trace, i, j)
    requires i + 1 < |trace| && trace[i + 1].Obtained?
    ensures OnlySend(trace, i, j, k)
    ensures var h := trace[i + 1].delivered;
            if trace[i + 1].lost then trace[k] == Sent(0, NotFound)
            else
              var reply := if h.urlContext in routes then FromHandler(routes[h.urlContext]) else NotFound;
              trace[k] == Sent(h.requestId, reply)
  {
    k := if trace[i + 2].Sent? then i + 2 else i + 3;
    assert Follows(routes, trace[i + 1], Some(trace[i + 2]));
    if !trace[i + 2].Sent? { assert Follows(routes, trace[i + 2], Some(trace[i + 3])); }
    HeadEndsRound(routes, trace, i, j, k);
  }

  /** Headers that do not fit get exactly one 431, to the id left in the buffer; none
      if that id is zero. */
  lemma OneReplyToOversized(routes: map<nat, nat>, trace: seq<Event>, i: nat, j: nat)
    requires Complete(routes, trace) && OneRound(trace, i, j)
    requires i + 1 < |trace| && trace[i + 1].Oversized?
    ensures var id := trace[i + 1].id;
            if id != 0 then OnlySend(trace, i, j, i + 2) && trace[i + 2] == Sent(id, TooLarge)
            else forall l :: i < l < j ==> !trace[l].Sent?
  {
    if trace[i + 1].id != 0 {
      assert Follows(routes, trace[i + 1], Some(trace[i + 2]));
      HeadEndsRound(routes, trace, i, j, i + 2);
    } else {
      HeadEndsRound(routes, trace, i, j, i + 1);
    }
  }

  /** A failed receive sends nothing. */
  lemma NoReplyToFailure(routes: map<nat, nat>, trace: seq<Event>, i: nat, j: nat)
    requires Complete(routes, trace) && OneRound(trace, i, j) && i + 1 < |trace| && trace[i + 1].Failed?
    ensures forall l :: i < l < j ==> !trace[l].Sent?
    ensures trace[i + 1].code == 995 || trace[i + 1].code == 6 || trace[i + 1].code == 18 ==> i + 2 == |trace|
  {
    HeadEndsRound(routes, trace, i, j, i + 1);
    if i + 2 < |trace| { assert Follows(routes, trace[i + 1], Some(trace[i + 2])); }
  }

  /** If from some point on every load of the stop flag reads true, at most one
      receive begins after that point. */
  lemma AtMostOneReceiveAfterStop(routes: map<nat, nat>, trace: seq<Event>, p: nat, i: nat, j: nat)
    requires Complete(routes, trace)
    requires forall q :: p <= q < |trace| ==> trace[q] != StopLoaded(false)
    requires p <= i < |trace| && p <= j < |trace| && trace[i].ReceiveBegun? && trace[j].ReceiveBegun?
    ensures i == j
  {
    if i < j { BegunExactlyAfterClearFlag(routes, trace, j - 1); }
    if j < i { BegunExactlyAfterClearFlag(routes, trace, i - 1); }
  }
}
