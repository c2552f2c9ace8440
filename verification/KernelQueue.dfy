/** A slot run against the kernel's request queue.

    The kernel's side of `HttpReceiveHttpRequest`: id 0 takes the head of the queue; a
    request that does not fit leaves only its id in the buffer and is set aside for a
    call that names it; a non-zero id is answered about that request.  Other slots take
    heads too, at any time; a queued request whose connection goes away is as good as
    taken elsewhere when it gets to the head. */
module KernelQueue {
  import opened Basics
  import opened ReceiveBuffers
  import opened Receive
  import opened SlotLoop

  /** No request has the null id. */
  type Id = n: nat | n != 0 witness 1

  /** `need`: bytes of its headers; `body`: how much of its body could be copied in. */
  datatype Req = Req(id: Id, context: nat, need: nat, body: nat, length: ContentLength)

  function HeaderOf(r: Req): Header { Header(r.id, r.context, r.length) }

  /** How a request left the queue:
        Answered   delivered, and still in the buffer when it is routed;
        Lost       delivered, then thrown away by resizing the buffer;
        TooBig     its headers do not fit;
        Abandoned  set aside by a copy attempt whose repetition failed;
        Elsewhere  another slot's. */
  datatype Fate = Answered | Lost | TooBig | Abandoned | Elsewhere

  datatype Entry = Entry(req: Req, fate: Fate)

  /** `pending` is the queue, `held` what was set aside.  History: everything that ever
      arrived, and every request that left `pending`, in order. */
  datatype Kernel = Kernel(pending: seq<Req>, held: map<Id, Req>, arrived: seq<Req>, log: seq<Entry>)

  const EMPTY := Kernel([], map[], [], [])

  /** What the call has no say in: a failure (any code but success and
      `ERROR_MORE_DATA`), and whether a size is reported. */
  datatype Luck = Luck(fault: nat, sync: Option<nat>)

  predicate Faulty(luck: Luck) { luck.fault != 0 && luck.fault != ERROR_MORE_DATA }

  const ERROR_OPERATION_ABORTED: nat := 995
  const ERROR_CONNECTION_INVALID: nat := 1229

  predicate Fits(r: Req, copy: bool, cap: nat) { r.need + (if copy then r.body else 0) <= cap }

  function AnswerAbout(r: Req, copy: bool, cap: nat, luck: Luck): Answer {
    if Fits(r, copy, cap) then Answer(0, HeaderOf(r), luck.sync)
    else Answer(ERROR_MORE_DATA, ZERO.(requestId := r.id), luck.sync)
  }

  /** One call with a buffer of `cap` bytes.  A call that finds no request waits, and only
      the shutdown ends it. */
  function Ask(k: Kernel, call: KernelCall, cap: nat, luck: Luck): (Kernel, Answer) {
    if Faulty(luck) then (k, Answer(luck.fault, ZERO, luck.sync))
    else if call.id == 0 then
      if k.pending == [] then (k, Answer(ERROR_OPERATION_ABORTED, ZERO, luck.sync))
      else
        var r := k.pending[0];
        (k.(pending := k.pending[1..], held := if Fits(r, call.copy, cap) then k.held else k.held[r.id := r]),
         AnswerAbout(r, call.copy, cap, luck))
    else if call.id !in k.held then (k, Answer(ERROR_CONNECTION_INVALID, ZERO, luck.sync))
    else
      var r := k.held[call.id];
      (if Fits(r, call.copy, cap) then k.(held := k.held - {call.id}) else k, AnswerAbout(r, call.copy, cap, luck))
  }

  /** What else happens to the queue. */
  datatype Outside = Arrive(r: Req) | TakeElsewhere

  function Once(k: Kernel, what: Outside): Kernel {
    match what
    case Arrive(r) => k.(pending := k.pending + [r], arrived := k.arrived + [r])
    case TakeElsewhere =>
      if k.pending == [] then k
      else k.(pending := k.pending[1..], log := k.log + [Entry(k.pending[0], Elsewhere)])
  }

  function Meanwhile(k: Kernel, what: seq<Outside>): Kernel
    decreases |what|
  {
    if what == [] then k else Meanwhile(Once(k, what[0]), what[1..])
  }

  /** The environment during one round of the slot. */
  datatype Turn = Turn(stop: bool, before: seq<Outside>, first: Luck, between: seq<Outside>, second: Luck,
                       keeps: bool, back: seq<nat>, during: seq<nat>)

  /** What becomes of the request at the head, told from its sizes alone. */
  function FateOf(r: Req, copy: bool, cap: nat, maxBytes: nat, second: Luck): Fate {
    if copy && Fits(r, true, cap) then Answered
    else if copy && Faulty(second) then Abandoned
    else if r.need > cap then TooBig
    else match DeclaredBodyLen(HeaderOf(r))
         case Some(d) => if cap < Room(d) <= maxBytes then Lost else Answered
         case None => Answered
  }

  /** The log entry for the head, if the first call takes it. */
  function Noted(k: Kernel, s: SlotState, cap: nat, t: Turn): seq<Entry> {
    if Faulty(t.first) || k.pending == [] then []
    else [Entry(k.pending[0], FateOf(k.pending[0], s.mode, cap, s.maxBytes, t.second))]
  }

  /** The buffer of a turn. */
  function CapOf(s: SlotState, t: Turn): nat { Capacity(Taken(Restored(s, t.back)).0) }

  /** The kernel up to the second call, and its answer to the first. */
  function FirstHalf(k: Kernel, s: SlotState, t: Turn): (Kernel, Answer) {
    var k1 := Meanwhile(k, t.before);
    var (k2, first) := Ask(k1, KernelCall(0, s.mode), CapOf(s, t), t.first);
    (Meanwhile(k2.(log := k2.log + Noted(k1, s, CapOf(s, t), t)), t.between), first)
  }

  /** The kernel's part of one round.  A request answered 431 is done with. */
  function Play(k: Kernel, s: SlotState, t: Turn): (Kernel, Round) {
    var (k', first) := FirstHalf(k, s, t);
    if s.mode && first.code == ERROR_MORE_DATA then
      var (k'', second) := Ask(k', KernelCall(first.header.requestId, false), CapOf(s, t), t.second);
      (Discharged(k'', second), Round(t.stop, first, second, t.keeps, t.back, t.during))
    else (Discharged(k', first), Round(t.stop, first, first, t.keeps, t.back, t.during))
  }

  function Discharged(k: Kernel, last: Answer): Kernel {
    if last.code == ERROR_MORE_DATA then k.(held := k.held - {last.header.requestId}) else k
  }

  /** A whole run: the script the kernel's answers make, and the kernel at its end. */
  function Run(routes: map<nat, nat>, k: Kernel, s: SlotState, turns: seq<Turn>): (seq<Round>, Kernel)
    decreases |turns|
  {
    if turns == [] then ([], k)
    else
      var (k', round) := Play(k, s, turns[0]);
      if turns[0].stop then ([round], k)
      else if Ends(VerdictOn(s, round)) then ([round], k')
      else
        var (rest, last) := Run(routes, k', NextSlot(routes, s, round), turns[1..]);
        ([round] + rest, last)
  }

  // ----- No request is skipped or delivered twice -----

  function Reqs(log: seq<Entry>): seq<Req> { seq(|log|, i requires 0 <= i < |log| => log[i].req) }

  /** Every request that arrived has left the queue once, in order, or is still in it. */
  predicate Conserved(k: Kernel) { Reqs(k.log) + k.pending == k.arrived }

  /** `k'` comes after `k`. */
  predicate Later(k: Kernel, k': Kernel) { k.arrived <= k'.arrived && k.log <= k'.log }

  lemma TakeConserves(k: Kernel, e: Entry)
    requires Conserved(k) && k.pending != [] && e.req == k.pending[0]
    ensures Conserved(k.(pending := k.pending[1..], log := k.log + [e]))
  {
    assert Reqs(k.log + [e]) == Reqs(k.log) + [e.req];
  }

  lemma {:induction false} MeanwhileConserves(k: Kernel, what: seq<Outside>)
    requires Conserved(k)
    ensures Conserved(Meanwhile(k, what)) && Later(k, Meanwhile(k, what))
    decreases |what|
  {
    if what != [] {
      if what[0].TakeElsewhere? && k.pending != [] { TakeConserves(k, Entry(k.pending[0], Elsewhere)); }
      assert Conserved(Once(k, what[0]));
      MeanwhileConserves(Once(k, what[0]), what[1..]);
    }
  }

  lemma FirstHalfConserves(k: Kernel, s: SlotState, t: Turn)
    requires Conserved(k)
    ensures Conserved(FirstHalf(k, s, t).0)
    ensures Later(k, FirstHalf(k, s, t).0) && Later(Meanwhile(k, t.before), FirstHalf(k, s, t).0)
  {
    var k1 := Meanwhile(k, t.before);
    MeanwhileConserves(k, t.before);
    var k2 := Ask(k1, KernelCall(0, s.mode), CapOf(s, t), t.first).0;
    var noted := Noted(k1, s, CapOf(s, t), t);
    if noted != [] {
      TakeConserves(k1, noted[0]);
      assert Conserved(k2.(log := k2.log + noted));
    }
    MeanwhileConserves(k2.(log := k2.log + noted), t.between);
  }

  lemma PlayConserves(k: Kernel, s: SlotState, t: Turn)
    requires Conserved(k)
    ensures Conserved(Play(k, s, t).0) && Later(k, Play(k, s, t).0) && Later(Meanwhile(k, t.before), Play(k, s, t).0)
  {
    FirstHalfConserves(k, s, t);
  }

  /** Over every run of a slot, with anything happening to the queue meanwhile, the
      requests that have left the queue are, in order and each once, those that arrived,
      and the rest is still queued: the fallback skips none and takes none twice. */
  lemma {:induction false} EveryRequestLeavesOnce(routes: map<nat, nat>, k: Kernel, s: SlotState, turns: seq<Turn>)
    requires Conserved(k)
    ensures Conserved(Run(routes, k, s, turns).1) && Later(k, Run(routes, k, s, turns).1)
    decreases |turns|
  {
    if turns != [] {
      var (k', round) := Play(k, s, turns[0]);
      PlayConserves(k, s, turns[0]);
      if !turns[0].stop && !Ends(VerdictOn(s, round)) {
        EveryRequestLeavesOnce(routes, k', NextSlot(routes, s, round), turns[1..]);
      }
    }
  }

  // ----- What the slot does about each -----

  predicate AboutRequest(e: Event) { e.Obtained? || e.Oversized? || e.Invoked? || e.Sent? }

  function Shows(e: Event): seq<Event> { if AboutRequest(e) then [e] else [] }

  /** The events about requests. */
  function Visible(trace: seq<Event>): seq<Event> {
    if trace == [] then []
    else Shows(trace[0]) + Visible(trace[1..])
  }

  /** What a request is due: delivered once and answered by its own route's handler under
      its own id; 404 to nobody if lost; 431 under its own id if too big. */
  function Due(routes: map<nat, nat>, e: Entry): seq<Event> {
    var r := e.req;
    match e.fate
    case Answered =>
      [Obtained(HeaderOf(r), false)]
      + if r.context in routes then [Invoked(routes[r.context], r.id), Sent(r.id, FromHandler(routes[r.context]))]
        else [Sent(r.id, NotFound)]
    case Lost => [Obtained(HeaderOf(r), true), Sent(0, NotFound)]
    case TooBig => [Oversized(r.id), Sent(r.id, TooLarge)]
    case Abandoned | Elsewhere => []
  }

  function AllDue(routes: map<nat, nat>, log: seq<Entry>): seq<Event> {
    if log == [] then [] else AllDue(routes, log[..|log| - 1]) + Due(routes, log[|log| - 1])
  }

  lemma AllDueSnoc(routes: map<nat, nat>, log: seq<Entry>, e: Entry)
    ensures AllDue(routes, log + [e]) == AllDue(routes, log) + Due(routes, e)
  {
    assert (log + [e])[..|log + [e]| - 1] == log;
  }

  lemma VisibleCons(e: Event, rest: seq<Event>)
    ensures Visible([e] + rest) == Shows(e) + Visible(rest)
  {
    assert ([e] + rest)[0] == e && ([e] + rest)[1..] == rest;
  }

  lemma Regrouped(a: seq<Event>, b: seq<Event>, c: seq<Event>)
    ensures a + (b + c) == (a + b) + c
  {}

  lemma {:induction false} VisibleConcat(a: seq<Event>, b: seq<Event>)
    ensures Visible(a + b) == Visible(a) + Visible(b)
  {
    if a == [] {
      assert a + b == b;
    } else {
      var e, rest := a[0], a[1..];
      assert a == [e] + rest && a + b == [e] + (rest + b);
      VisibleCons(e, rest);
      VisibleCons(e, rest + b);
      VisibleConcat(rest, b);
      Regrouped(Shows(e), Visible(rest), Visible(b));
    }
  }

  lemma {:induction false} MeanwhileIsQuiet(routes: map<nat, nat>, k: Kernel, what: seq<Outside>)
    ensures var k' := Meanwhile(k, what);
            k'.held == k.held && AllDue(routes, k'.log) == AllDue(routes, k.log)
    decreases |what|
  {
    if what != [] {
      var k' := Once(k, what[0]);
      if k'.log != k.log { AllDueSnoc(routes, k.log, Entry(k.pending[0], Elsewhere)); }
      MeanwhileIsQuiet(routes, k', what[1..]);
    }
  }

  /** The head of the queue when a turn's first call takes it. */
  predicate HeadIs(k: Kernel, t: Turn, r: Req) {
    !Faulty(t.first) && Meanwhile(k, t.before).pending != [] && Meanwhile(k, t.before).pending[0] == r
  }

  /** The answers a turn gives when it takes `r`: the second, if there is one, is about the
      request the first set aside. */
  lemma AnswersAboutTheHead(routes: map<nat, nat>, k: Kernel, s: SlotState, t: Turn, r: Req)
    requires HeadIs(k, t, r)
    ensures AnswersOn(s, t, r, Play(k, s, t).1.first, Play(k, s, t).1.second)
  {
    var k1 := Meanwhile(k, t.before);
    var k2 := Ask(k1, KernelCall(0, s.mode), CapOf(s, t), t.first).0;
    MeanwhileIsQuiet(routes, k2.(log := k2.log + Noted(k1, s, CapOf(s, t), t)), t.between);
  }

  /** The calls `receive` makes in that turn: the next request, and after a failed copy
      attempt that same request, headers only. */
  lemma FallbackAsksForTheHead(routes: map<nat, nat>, k: Kernel, s: SlotState, t: Turn, r: Req)
    requires HeadIs(k, t, r)
    ensures var round := Play(k, s, t).1;
            Receive.Receive(s.block, s.maxBytes, BufferFor(s, round), s.mode, round.first, round.second).calls
              == if s.mode && !Fits(r, true, CapOf(s, t)) then [KernelCall(0, true), KernelCall(r.id, false)]
                 else [KernelCall(0, s.mode)]
  {
    AnswersAboutTheHead(routes, k, s, t, r);
  }

  /** How a fate shows in the slot's trace. */
  function Shown(e: Entry, fault: nat): Event {
    match e.fate
    case Answered => Obtained(HeaderOf(e.req), false)
    case Lost => Obtained(HeaderOf(e.req), true)
    case TooBig => Oversized(e.req.id)
    case _ => Failed(fault)
  }

  /** The answers a slot gets when it takes `r` from the queue. */
  predicate AnswersOn(s: SlotState, t: Turn, r: Req, first: Answer, second: Answer) {
    var cap := CapOf(s, t);
    && first == AnswerAbout(r, s.mode, cap, t.first)
    && (!s.mode ==> second == first)
    && (s.mode && !Fits(r, true, cap) ==>
          second == if Faulty(t.second) then Answer(t.second.fault, ZERO, t.second.sync)
                    else AnswerAbout(r, false, cap, t.second))
  }

  /** The fate of `r`, if the slot takes it. */
  function FateIn(s: SlotState, t: Turn, r: Req): Fate { FateOf(r, s.mode, CapOf(s, t), s.maxBytes, t.second) }

  /** With those answers, what the loop finds is the request's fate. */
  lemma VerdictFromAnswers(s: SlotState, t: Turn, r: Req, round: Round)
    requires round.back == t.back && AnswersOn(s, t, r, round.first, round.second)
    ensures VerdictOn(s, round) == Shown(Entry(r, FateIn(s, t, r)), t.second.fault)
  {
    assert BufferFor(s, round) == Taken(Restored(s, t.back)).0;
  }

  /** The verdict on a turn that takes `r` is its fate. */
  lemma VerdictIsFate(routes: map<nat, nat>, k: Kernel, s: SlotState, t: Turn, r: Req)
    requires HeadIs(k, t, r)
    ensures VerdictOn(s, Play(k, s, t).1) == Shown(Entry(r, FateIn(s, t, r)), t.second.fault)
  {
    AnswersAboutTheHead(routes, k, s, t, r);
    VerdictFromAnswers(s, t, r, Play(k, s, t).1);
  }

  /** A turn that takes nothing fails. */
  lemma NothingTaken(k: Kernel, s: SlotState, t: Turn)
    requires Faulty(t.first) || Meanwhile(k, t.before).pending == []
    ensures VerdictOn(s, Play(k, s, t).1).Failed?
  {}

  lemma {:induction false} AllVisible(trace: seq<Event>)
    requires forall i :: 0 <= i < |trace| ==> AboutRequest(trace[i])
    ensures Visible(trace) == trace
  {
    if trace != [] { AllVisible(trace[1..]); }
  }

  lemma FailureIsSilent(routes: map<nat, nat>, code: nat)
    ensures Visible([StopLoaded(false)] + RoundEvents(routes, Failed(code))) == []
  {
    assert [StopLoaded(false)] + RoundEvents(routes, Failed(code))
        == [StopLoaded(false)] + [ReceiveBegun] + [Failed(code)];
    VisibleConcat([StopLoaded(false)] + [ReceiveBegun], [Failed(code)]);
    VisibleConcat([StopLoaded(false)], [ReceiveBegun]);
  }

  /** Unless the receive failed, what follows it is what the request is due. */
  lemma RepliesAreDue(routes: map<nat, nat>, e: Entry, fault: nat)
    requires 0 !in routes && !Shown(e, fault).Failed?
    ensures [Shown(e, fault)] + Replies(routes, Shown(e, fault)) == Due(routes, e)
  {}

  lemma PreludeIsSilent()
    ensures Visible([StopLoaded(false), ReceiveBegun]) == []
  {
    assert [StopLoaded(false), ReceiveBegun] == [StopLoaded(false)] + [ReceiveBegun];
    VisibleConcat([StopLoaded(false)], [ReceiveBegun]);
  }

  lemma DueIsAboutRequests(routes: map<nat, nat>, e: Entry)
    ensures forall i :: 0 <= i < |Due(routes, e)| ==> AboutRequest(Due(routes, e)[i])
  {}

  lemma DueIsVisible(routes: map<nat, nat>, e: Entry)
    ensures Visible([StopLoaded(false), ReceiveBegun] + Due(routes, e)) == Due(routes, e)
  {
    var due := Due(routes, e);
    PreludeIsSilent();
    VisibleConcat([StopLoaded(false), ReceiveBegun], due);
    DueIsAboutRequests(routes, e);
    AllVisible(due);
  }

  lemma RoundIsDue(routes: map<nat, nat>, e: Entry, fault: nat)
    requires 0 !in routes
    ensures Visible([StopLoaded(false)] + RoundEvents(routes, Shown(e, fault))) == Due(routes, e)
  {
    if Shown(e, fault).Failed? {
      FailureIsSilent(routes, fault);
    } else {
      RepliesAreDue(routes, e, fault);
      DueIsVisible(routes, e);
      assert [StopLoaded(false)] + RoundEvents(routes, Shown(e, fault))
          == [StopLoaded(false), ReceiveBegun] + Due(routes, e);
    }
  }

  /** The entry a turn adds to the log for its own request. */
  function OwnEntry(k: Kernel, s: SlotState, t: Turn): seq<Entry> {
    Noted(Meanwhile(k, t.before), s, CapOf(s, t), t)
  }

  lemma OnlyTheFirstHalfLogs(k: Kernel, s: SlotState, t: Turn)
    ensures Play(k, s, t).0.log == FirstHalf(k, s, t).0.log
  {}

  lemma TurnIsLogged(routes: map<nat, nat>, k: Kernel, s: SlotState, t: Turn)
    ensures var own := OwnEntry(k, s, t);
            AllDue(routes, FirstHalf(k, s, t).0.log)
              == AllDue(routes, k.log) + if own == [] then [] else Due(routes, own[0])
  {
    var k1, own := Meanwhile(k, t.before), OwnEntry(k, s, t);
    MeanwhileIsQuiet(routes, k, t.before);
    var k2 := Ask(k1, KernelCall(0, s.mode), CapOf(s, t), t.first).0;
    MeanwhileIsQuiet(routes, k2.(log := k2.log + own), t.between);
    if own == [] { assert k1.log + own == k1.log; } else { AllDueSnoc(routes, k1.log, own[0]); }
  }

  /** What the slot does in a turn is what the requests that left the queue are due. */
  lemma TurnIsDue(routes: map<nat, nat>, k: Kernel, s: SlotState, t: Turn)
    requires 0 !in routes
    ensures var own := OwnEntry(k, s, t);
            Visible([StopLoaded(false)] + RoundEvents(routes, VerdictOn(s, Play(k, s, t).1)))
              == if own == [] then [] else Due(routes, own[0])
  {
    var own := OwnEntry(k, s, t);
    if own == [] {
      NothingTaken(k, s, t);
      FailureIsSilent(routes, VerdictOn(s, Play(k, s, t).1).code);
    } else {
      VerdictIsFate(routes, k, s, t, own[0].req);
      RoundIsDue(routes, own[0], t.second.fault);
    }
  }

  lemma VisibleTrace(routes: map<nat, nat>, s: SlotState, script: seq<Round>)
    requires script != [] && !script[0].stop
    ensures var verdict := VerdictOn(s, script[0]);
            Visible(Trace(routes, s, script))
              == Visible([StopLoaded(false)] + RoundEvents(routes, verdict))
                 + if Ends(verdict) then [] else Visible(Trace(routes, NextSlot(routes, s, script[0]), script[1..]))
  {
    var verdict := VerdictOn(s, script[0]);
    TraceCons(routes, s, script);
    VisibleConcat([StopLoaded(false)] + RoundEvents(routes, verdict),
                  if Ends(verdict) then [] else Trace(routes, NextSlot(routes, s, script[0]), script[1..]));
  }

  lemma PlayIsDue(routes: map<nat, nat>, k: Kernel, s: SlotState, t: Turn)
    requires 0 !in routes
    ensures AllDue(routes, Play(k, s, t).0.log)
         == AllDue(routes, k.log) + Visible([StopLoaded(false)] + RoundEvents(routes, VerdictOn(s, Play(k, s, t).1)))
  {
    OnlyTheFirstHalfLogs(k, s, t);
    TurnIsLogged(routes, k, s, t);
    TurnIsDue(routes, k, s, t);
  }

  /** Over every run, deliveries, handler calls and sends are, in order, exactly what the
      requests that left the queue are due by their fates. */
  lemma {:induction false} SlotDoesWhatIsDue(routes: map<nat, nat>, k: Kernel, s: SlotState, turns: seq<Turn>)
    requires 0 !in routes
    ensures var (script, k') := Run(routes, k, s, turns);
            AllDue(routes, k'.log) == AllDue(routes, k.log) + Visible(Trace(routes, s, script))
    decreases |turns|
  {
    if turns != [] && !turns[0].stop {
      var (k', round) := Play(k, s, turns[0]);
      PlayIsDue(routes, k, s, turns[0]);
      var script := Run(routes, k, s, turns).0;
      VisibleTrace(routes, s, script);
      if !Ends(VerdictOn(s, round)) {
        var next := NextSlot(routes, s, round);
        SlotDoesWhatIsDue(routes, k', next, turns[1..]);
        assert script[1..] == Run(routes, k', next, turns[1..]).0;
      }
    }
  }

  // ----- Each request on its own -----

  function Tally(trace: seq<Event>, f: Event -> bool): nat {
    if trace == [] then 0 else (if f(trace[0]) then 1 else 0) + Tally(trace[1..], f)
  }

  function SendTo(id: nat): Event -> bool { (e: Event) => e.Sent? && e.id == id }

  function DeliveryOf(id: nat): Event -> bool { (e: Event) => e.Obtained? && e.delivered.requestId == id }

  lemma {:induction false} TallyConcat(a: seq<Event>, b: seq<Event>, f: Event -> bool)
    ensures Tally(a + b, f) == Tally(a, f) + Tally(b, f)
  {
    if a == [] {
      assert a + b == b;
    } else {
      TallyConcat(a[1..], b, f);
      assert (a + b)[1..] == a[1..] + b;
    }
  }

  lemma {:induction false} TallyVisible(trace: seq<Event>, f: Event -> bool)
    requires forall e :: f(e) ==> AboutRequest(e)
    ensures Tally(Visible(trace), f) == Tally(trace, f)
  {
    if trace != [] {
      TallyVisible(trace[1..], f);
      if AboutRequest(trace[0]) {
        assert Visible(trace)[1..] == Visible(trace[1..]);
      } else {
        assert Visible(trace) == Visible(trace[1..]);
      }
    }
  }

  predicate DistinctIds(rs: seq<Req>) { forall i, j :: 0 <= i < j < |rs| ==> rs[i].id != rs[j].id }

  predicate IsAnswered(fate: Fate) { fate.Answered? || fate.TooBig? }

  predicate IsDelivered(fate: Fate) { fate.Answered? || fate.Lost? }

  lemma TallyThree(x: Event, y: Event, z: Event, f: Event -> bool)
    ensures Tally([x, y], f) == (if f(x) then 1 else 0) + (if f(y) then 1 else 0)
    ensures Tally([x, y, z], f) == (if f(x) then 1 else 0) + (if f(y) then 1 else 0) + (if f(z) then 1 else 0)
  {
    assert [x, y] == [x] + [y] && [x, y, z] == [x, y] + [z];
    TallyConcat([x], [y], f);
    TallyConcat([x, y], [z], f);
  }

  lemma DueTally(routes: map<nat, nat>, e: Entry, id: Id)
    ensures Tally(Due(routes, e), SendTo(id)) == if e.req.id == id && IsAnswered(e.fate) then 1 else 0
    ensures Tally(Due(routes, e), DeliveryOf(id)) == if e.req.id == id && IsDelivered(e.fate) then 1 else 0
  {
    var due := Due(routes, e);
    if |due| >= 2 {
      TallyThree(due[0], due[1], due[|due| - 1], SendTo(id));
      TallyThree(due[0], due[1], due[|due| - 1], DeliveryOf(id));
      assert due == if |due| == 2 then [due[0], due[1]] else [due[0], due[1], due[2]];
    }
  }

  function Flat(parts: seq<seq<Event>>): seq<Event> {
    if parts == [] then [] else Flat(parts[..|parts| - 1]) + parts[|parts| - 1]
  }

  function Dues(routes: map<nat, nat>, log: seq<Entry>): seq<seq<Event>> {
    seq(|log|, i requires 0 <= i < |log| => Due(routes, log[i]))
  }

  lemma {:induction false} AllDueIsFlat(routes: map<nat, nat>, log: seq<Entry>)
    ensures AllDue(routes, log) == Flat(Dues(routes, log))
  {
    if log != [] {
      AllDueIsFlat(routes, log[..|log| - 1]);
      assert Dues(routes, log)[..|log| - 1] == Dues(routes, log[..|log| - 1]);
    }
  }

  lemma {:induction false} NoneTally(parts: seq<seq<Event>>, f: Event -> bool)
    requires forall q :: 0 <= q < |parts| ==> Tally(parts[q], f) == 0
    ensures Tally(Flat(parts), f) == 0
  {
    if parts != [] {
      NoneTally(parts[..|parts| - 1], f);
      TallyConcat(Flat(parts[..|parts| - 1]), parts[|parts| - 1], f);
    }
  }

  /** If only one part counts, it is all that counts. */
  lemma {:induction false} OneTally(parts: seq<seq<Event>>, f: Event -> bool, p: nat)
    requires p < |parts|
    requires forall q :: 0 <= q < |parts| && q != p ==> Tally(parts[q], f) == 0
    ensures Tally(Flat(parts), f) == Tally(parts[p], f)
  {
    var init, last := parts[..|parts| - 1], parts[|parts| - 1];
    TallyConcat(Flat(init), last, f);
    if p < |init| { OneTally(init, f, p); } else { NoneTally(init, f); }
  }

  /** In a log with distinct ids, only the entry of that id counts. */
  lemma TallyOfOne(routes: map<nat, nat>, log: seq<Entry>, id: Id, p: nat)
    requires forall q :: 0 <= q < |log| ==> (log[q].req.id == id <==> q == p)
    ensures Tally(AllDue(routes, log), SendTo(id)) == if p < |log| && IsAnswered(log[p].fate) then 1 else 0
    ensures Tally(AllDue(routes, log), DeliveryOf(id)) == if p < |log| && IsDelivered(log[p].fate) then 1 else 0
  {
    AllDueIsFlat(routes, log);
    var dues := Dues(routes, log);
    forall q | 0 <= q < |dues| && q != p
      ensures Tally(dues[q], SendTo(id)) == 0 == Tally(dues[q], DeliveryOf(id))
    {
      DueTally(routes, log[q], id);
    }
    if p < |log| {
      DueTally(routes, log[p], id);
      OneTally(dues, SendTo(id), p);
      OneTally(dues, DeliveryOf(id), p);
    } else {
      NoneTally(dues, SendTo(id));
      NoneTally(dues, DeliveryOf(id));
    }
  }

  /** Over every run from an empty queue, ids being distinct: a request that is still
      queued was neither delivered nor answered by this slot; one that left was delivered
      once if its fate says so, and answered once, under its own id, if its fate is
      Answered or TooBig.  Nothing is delivered or answered twice. */
  lemma EachRequestOnItsOwn(routes: map<nat, nat>, s: SlotState, turns: seq<Turn>, p: nat)
    requires 0 !in routes && p < |Run(routes, EMPTY, s, turns).1.arrived|
    requires DistinctIds(Run(routes, EMPTY, s, turns).1.arrived)
    ensures var (script, k) := Run(routes, EMPTY, s, turns);
            var trace := Trace(routes, s, script);
            && |k.log| <= |k.arrived| && (p < |k.log| ==> k.log[p].req == k.arrived[p])
            && (Tally(trace, SendTo(k.arrived[p].id)) == if p < |k.log| && IsAnswered(k.log[p].fate) then 1 else 0)
            && (Tally(trace, DeliveryOf(k.arrived[p].id)) == if p < |k.log| && IsDelivered(k.log[p].fate) then 1 else 0)
  {
    var (script, k) := Run(routes, EMPTY, s, turns);
    var id := k.arrived[p].id;
    EveryRequestLeavesOnce(routes, EMPTY, s, turns);
    SlotDoesWhatIsDue(routes, EMPTY, s, turns);
    assert AllDue(routes, k.log) == Visible(Trace(routes, s, script));
    TallyVisible(Trace(routes, s, script), SendTo(id));
    TallyVisible(Trace(routes, s, script), DeliveryOf(id));
    forall q | 0 <= q < |k.log| ensures k.log[q].req == k.arrived[q] { assert Reqs(k.log)[q] == k.arrived[q]; }
    TallyOfOne(routes, k.log, id, p);
  }

  // ----- What stays set aside -----

  /** Some entry of that id was abandoned. */
  ghost predicate AbandonedIn(log: seq<Entry>, id: Id) {
    exists p :: 0 <= p < |log| && log[p].fate.Abandoned? && log[p].req.id == id
  }

  /** Set aside are exactly the abandoned requests. */
  ghost predicate HeldOk(k: Kernel) { forall id: Id :: id in k.held <==> AbandonedIn(k.log, id) }

  lemma AbandonedSnoc(log: seq<Entry>, e: Entry, id: Id)
    ensures AbandonedIn(log + [e], id) <==> AbandonedIn(log, id) || (e.fate.Abandoned? && e.req.id == id)
  {
    var longer := log + [e];
    if AbandonedIn(log, id) {
      var p :| 0 <= p < |log| && log[p].fate.Abandoned? && log[p].req.id == id;
      assert longer[p].fate.Abandoned? && longer[p].req.id == id;
    }
    if e.fate.Abandoned? && e.req.id == id { assert longer[|log|] == e; }
  }

  lemma {:induction false} MeanwhileAbandonsNone(k: Kernel, what: seq<Outside>, id: Id)
    ensures AbandonedIn(Meanwhile(k, what).log, id) <==> AbandonedIn(k.log, id)
    decreases |what|
  {
    if what != [] {
      if what[0].TakeElsewhere? && k.pending != [] { AbandonedSnoc(k.log, Entry(k.pending[0], Elsewhere), id); }
      MeanwhileAbandonsNone(Once(k, what[0]), what[1..], id);
    }
  }

  lemma HeldAfterFirstHalf(routes: map<nat, nat>, k: Kernel, s: SlotState, t: Turn)
    ensures var own := OwnEntry(k, s, t); var (k', first) := FirstHalf(k, s, t);
            if own == [] then k'.held == k.held && first.code != ERROR_MORE_DATA
            else var r := own[0].req;
                 && first == AnswerAbout(r, s.mode, CapOf(s, t), t.first)
                 && k'.held == if Fits(r, s.mode, CapOf(s, t)) then k.held else k.held[r.id := r]
  {
    var k1 := Meanwhile(k, t.before);
    MeanwhileIsQuiet(routes, k, t.before);
    var k2 := Ask(k1, KernelCall(0, s.mode), CapOf(s, t), t.first).0;
    MeanwhileIsQuiet(routes, k2.(log := k2.log + OwnEntry(k, s, t)), t.between);
  }

  /** A turn leaves its own request set aside exactly if it abandons it. */
  lemma HeldAfterTurn(routes: map<nat, nat>, k: Kernel, s: SlotState, t: Turn)
    requires OwnEntry(k, s, t) != [] ==> OwnEntry(k, s, t)[0].req.id !in k.held
    ensures var own := OwnEntry(k, s, t);
            Play(k, s, t).0.held
              == if own != [] && own[0].fate.Abandoned? then k.held[own[0].req.id := own[0].req] else k.held
  {
    var own := OwnEntry(k, s, t);
    HeldAfterFirstHalf(routes, k, s, t);
    if own != [] {
      var r := own[0].req;
      assert own[0].fate == FateOf(r, s.mode, CapOf(s, t), s.maxBytes, t.second);
      assert k.held[r.id := r] - {r.id} == k.held;
    }
  }

  lemma AbandonedAfterTurn(k: Kernel, s: SlotState, t: Turn, id: Id)
    ensures var own := OwnEntry(k, s, t);
            AbandonedIn(Play(k, s, t).0.log, id) <==>
            AbandonedIn(k.log, id) || (own != [] && own[0].fate.Abandoned? && own[0].req.id == id)
  {
    OnlyTheFirstHalfLogs(k, s, t);
    var k1, own := Meanwhile(k, t.before), OwnEntry(k, s, t);
    MeanwhileAbandonsNone(k, t.before, id);
    var k2 := Ask(k1, KernelCall(0, s.mode), CapOf(s, t), t.first).0;
    MeanwhileAbandonsNone(k2.(log := k2.log + own), t.between, id);
    if own == [] { assert k1.log + own == k1.log; } else { AbandonedSnoc(k1.log, own[0], id); }
  }

  /** The request a turn takes has an id nobody had before. */
  lemma OwnIdIsNew(k: Kernel, s: SlotState, t: Turn)
    requires Conserved(k) && HeldOk(k) && DistinctIds(Meanwhile(k, t.before).arrived)
    requires OwnEntry(k, s, t) != []
    ensures OwnEntry(k, s, t)[0].req.id !in k.held
  {
    var k1 := Meanwhile(k, t.before);
    MeanwhileConserves(k, t.before);
    var r := OwnEntry(k, s, t)[0].req;
    assert k1.arrived[|k1.log|] == r;
    forall p | 0 <= p < |k.log| ensures k.log[p].req.id != r.id {
      assert k1.arrived[p] == Reqs(k1.log)[p] == k1.log[p].req == k.log[p].req;
    }
  }

  lemma TurnKeepsHeld(routes: map<nat, nat>, k: Kernel, s: SlotState, t: Turn)
    requires Conserved(k) && HeldOk(k) && DistinctIds(Meanwhile(k, t.before).arrived)
    ensures HeldOk(Play(k, s, t).0)
  {
    if OwnEntry(k, s, t) != [] { OwnIdIsNew(k, s, t); }
    HeldAfterTurn(routes, k, s, t);
    forall id: Id ensures id in Play(k, s, t).0.held <==> AbandonedIn(Play(k, s, t).0.log, id) {
      AbandonedAfterTurn(k, s, t, id);
    }
  }

  /** Over every run with distinct ids, a request stays set aside, its id forgotten by the
      slot, exactly if the call that should have repeated a copy attempt failed. */
  lemma {:induction false} OnlyAbandonedStaySetAside(routes: map<nat, nat>, k: Kernel, s: SlotState, turns: seq<Turn>)
    requires Conserved(k) && HeldOk(k) && DistinctIds(Run(routes, k, s, turns).1.arrived)
    ensures HeldOk(Run(routes, k, s, turns).1)
    decreases |turns|
  {
    if turns != [] && !turns[0].stop {
      var (k', round) := Play(k, s, turns[0]);
      PlayConserves(k, s, turns[0]);
      if Ends(VerdictOn(s, round)) {
        TurnKeepsHeld(routes, k, s, turns[0]);
      } else {
        EveryRequestLeavesOnce(routes, k', NextSlot(routes, s, round), turns[1..]);
        TurnKeepsHeld(routes, k, s, turns[0]);
        OnlyAbandonedStaySetAside(routes, k', NextSlot(routes, s, round), turns[1..]);
      }
    }
  }

  // ----- When a slot ends -----

  /** The errors that mean the queue is gone: aborted, invalid handle, no more files. */
  predicate QueueGone(code: nat) { code == 995 || code == 6 || code == 18 }

  /** A turn is the slot's last, told from its circumstances: it waits for a request until
      the shutdown, or one of its calls fails because the queue is gone. */
  predicate LastTurn(k: Kernel, s: SlotState, t: Turn) {
    var pending := Meanwhile(k, t.before).pending;
    if Faulty(t.first) then QueueGone(t.first.fault)
    else if pending == [] then true
    else s.mode && pending[0].need + pending[0].body > CapOf(s, t) && Faulty(t.second) && QueueGone(t.second.fault)
  }

  /** Exactly then the loop ends; after any other outcome, failures included, it goes on. */
  lemma TurnEndsExactly(routes: map<nat, nat>, k: Kernel, s: SlotState, t: Turn)
    ensures Ends(VerdictOn(s, Play(k, s, t).1)) <==> LastTurn(k, s, t)
  {
    if OwnEntry(k, s, t) != [] { VerdictIsFate(routes, k, s, t, OwnEntry(k, s, t)[0].req); }
  }

  /** Over a whole run: the rounds done are the turns up to the first stop or the first last
      turn, whichever comes first. */
  lemma {:induction false} RunEndsExactly(routes: map<nat, nat>, k: Kernel, s: SlotState, turns: seq<Turn>)
    ensures var done := |Run(routes, k, s, turns).0|;
            && done <= |turns| && (turns != [] ==> done > 0)
            && (|turns| > 1 ==> (done == 1 <==> turns[0].stop || LastTurn(k, s, turns[0])))
            && (|turns| > 1 && done > 1 ==>
                  var (k', round) := Play(k, s, turns[0]);
                  done == 1 + |Run(routes, k', NextSlot(routes, s, round), turns[1..]).0|)
    decreases |turns|
  {
    if turns != [] {
      var (k', round) := Play(k, s, turns[0]);
      TurnEndsExactly(routes, k, s, turns[0]);
      RunEndsExactly(routes, k', NextSlot(routes, s, round), turns[1..]);
    }
  }
}
