/** All the slots of a server over one request queue.  Each runs the slot loop; their calls
    interleave freely, also between the two calls of one `receive`. */
module ManySlots {
  import opened Basics
  import opened ReceiveBuffers
  import opened Receive
  import opened SlotLoop
  import opened KernelQueue

  /** A slot between its two calls: the circumstances of the turn, the first answer, and
      which entry of the log is its own. */
  datatype Going = Going(turn: Turn, first: Answer, at: nat)

  /** A slot: how it started, where it is, the rounds it has done and the trace it made. */
  datatype Lane = Lane(start: SlotState, s: SlotState, going: Option<Going>, rounds: seq<Round>,
                       events: seq<Event>, over: bool)

  /** `owners[p]` is the slot that took the p-th request of the kernel's log. */
  datatype System = System(k: Kernel, owners: seq<nat>, lanes: seq<Lane>)

  predicate Init(y: System) {
    && y.k == EMPTY && y.owners == []
    && forall i :: 0 <= i < |y.lanes| ==> var l := y.lanes[i]; l == Lane(l.start, l.start, None, [], [], false)
  }

  /** A turn's circumstances are drawn when it begins; what else happens to the queue
      meanwhile are the other steps. */
  datatype Step =
    | Comes(r: Req)
    | Begin(i: nat, t: Turn)   // load the flag, take a buffer, make the first call
    | Finish(i: nat)           // make the second call

  /** The kernel never uses an id twice. */
  predicate NewId(k: Kernel, r: Req) { forall p :: 0 <= p < |k.arrived| ==> k.arrived[p].id != r.id }

  predicate Enabled(y: System, a: Step) {
    match a
    case Comes(r) => NewId(y.k, r)
    case Begin(i, _) => i < |y.lanes| && !y.lanes[i].over && y.lanes[i].going.None?
    case Finish(i) => i < |y.lanes| && y.lanes[i].going.Some?
  }

  /** The rest of a round, given how its receive went. */
  function Concluding(routes: map<nat, nat>, l: Lane, round: Round): Lane {
    l.(s := NextSlot(routes, l.s, round), going := None, rounds := l.rounds + [round],
       events := l.events + Adds(routes, l.s, round), over := round.stop || Ends(VerdictOn(l.s, round)))
  }

  function RoundOf(t: Turn, first: Answer, second: Answer): Round {
    Round(t.stop, first, second, t.keeps, t.back, t.during)
  }

  /** The kernel after the first call, the head noted in the log if it was taken. */
  function FirstCall(k: Kernel, s: SlotState, t: Turn): (Kernel, Answer) {
    var (k', first) := Ask(k, KernelCall(0, s.mode), CapOf(s, t), t.first);
    (k'.(log := k'.log + Noted(k, s, CapOf(s, t), t)), first)
  }

  function SecondCall(k: Kernel, s: SlotState, g: Going): (Kernel, Answer) {
    Ask(k, KernelCall(g.first.header.requestId, false), CapOf(s, g.turn), g.turn.second)
  }

  function Beginning(routes: map<nat, nat>, y: System, i: nat, t: Turn): System
    requires i < |y.lanes|
  {
    var l := y.lanes[i];
    var (k, first) := FirstCall(y.k, l.s, t);
    var owners := y.owners + seq(|k.log| - |y.k.log|, _ => i);
    if t.stop then y.(lanes := y.lanes[i := Concluding(routes, l, RoundOf(t, first, first))])
    else if l.s.mode && first.code == ERROR_MORE_DATA then
      System(k, owners, y.lanes[i := l.(going := Some(Going(t, first, |y.k.log|)))])
    else System(Discharged(k, first), owners, y.lanes[i := Concluding(routes, l, RoundOf(t, first, first))])
  }

  function Next(routes: map<nat, nat>, y: System, a: Step): System
    requires Enabled(y, a)
  {
    match a
    case Comes(r) => y.(k := y.k.(pending := y.k.pending + [r], arrived := y.k.arrived + [r]))
    case Begin(i, t) => Beginning(routes, y, i, t)
    case Finish(i) =>
      var l := y.lanes[i];
      var (k, second) := SecondCall(y.k, l.s, l.going.value);
      y.(k := Discharged(k, second),
         lanes := y.lanes[i := Concluding(routes, l, RoundOf(l.going.value.turn, l.going.value.first, second))])
  }

  function After(routes: map<nat, nat>, y: System, run: seq<Step>): Option<System> {
    if run == [] then Some(y)
    else
      var before := After(routes, y, run[..|run| - 1]);
      var last := run[|run| - 1];
      if before.Some? && Enabled(before.value, last) then Some(Next(routes, before.value, last)) else None
  }

  // ----- The invariant -----

  /** The log as slot `i` sees it. */
  function Mine(log: seq<Entry>, owners: seq<nat>, i: nat): seq<Entry>
    requires |owners| == |log|
  {
    seq(|log|, p requires 0 <= p < |log| => if owners[p] == i then log[p] else Entry(log[p].req, Elsewhere))
  }

  predicate QueueOk(y: System) {
    && Conserved(y.k) && |y.owners| == |y.k.log| && DistinctIds(y.k.arrived)
    && forall p :: 0 <= p < |y.owners| ==> y.owners[p] < |y.lanes|
  }

  /** A slot between its calls: its request is set aside, and its fate is decided. */
  predicate GoingOk(k: Kernel, owners: seq<nat>, i: nat, s: SlotState, g: Going) {
    && g.at < |k.log| == |owners| && owners[g.at] == i && !g.turn.stop
    && var e := k.log[g.at];
       && s.mode && !Fits(e.req, true, CapOf(s, g.turn)) && e.fate == FateIn(s, g.turn, e.req)
       && g.first == AnswerAbout(e.req, true, CapOf(s, g.turn), g.turn.first)
       && e.req.id in k.held && k.held[e.req.id] == e.req
  }

  /** What the slot still owes the request it is about to ask for again. */
  function Owed(routes: map<nat, nat>, log: seq<Entry>, l: Lane): seq<Event> {
    if l.going.Some? && l.going.value.at < |log| then Due(routes, log[l.going.value.at]) else []
  }

  /** What the slot has done and still owes is what the requests it took are due. */
  predicate DueOk(routes: map<nat, nat>, log: seq<Entry>, owners: seq<nat>, i: nat, l: Lane)
    requires |owners| == |log|
  {
    AllDue(routes, Mine(log, owners, i)) == Visible(l.events) + Owed(routes, log, l)
  }

  /** Its events are the trace of the slot loop on the rounds it has done. */
  predicate TraceOk(routes: map<nat, nat>, l: Lane) {
    && l.events == Trace(routes, l.start, l.rounds)
    && (!l.over ==> Ongoing(routes, l.start, l.rounds) && l.s == StateAfter(routes, l.start, l.rounds))
  }

  predicate LaneOk(routes: map<nat, nat>, k: Kernel, owners: seq<nat>, i: nat, l: Lane)
    requires |owners| == |k.log|
  {
    && DueOk(routes, k.log, owners, i, l) && TraceOk(routes, l)
    && (l.going.Some? ==> !l.over && GoingOk(k, owners, i, l.s, l.going.value))
  }

  ghost predicate Inv(routes: map<nat, nat>, y: System) {
    QueueOk(y) && forall i :: 0 <= i < |y.lanes| ==> LaneOk(routes, y.k, y.owners, i, y.lanes[i])
  }

  /** A round done keeps the slot's trace. */
  lemma ConcludingKeepsTrace(routes: map<nat, nat>, l: Lane, round: Round)
    requires TraceOk(routes, l) && !l.over
    ensures TraceOk(routes, Concluding(routes, l, round))
  {
    TraceSnoc(routes, l.start, l.rounds, round);
    SlotSnoc(routes, l.start, l.rounds, round);
  }

  /** The requests of the log are those that arrived first, and their ids differ from one
      another and from the head's. */
  lemma LogIds(y: System, p: nat, q: nat)
    requires QueueOk(y) && p < q && p < |y.k.log| && q < |y.k.arrived|
    ensures y.k.log[p].req == y.k.arrived[p]
    ensures q < |y.k.log| ==> y.k.log[q].req == y.k.arrived[q]
    ensures q == |y.k.log| && y.k.pending != [] ==> y.k.pending[0] == y.k.arrived[q]
    ensures y.k.arrived[p].id != y.k.arrived[q].id
  {
    assert Reqs(y.k.log)[p] == y.k.arrived[p];
    if q < |y.k.log| { assert Reqs(y.k.log)[q] == y.k.arrived[q]; }
  }

  // ----- Steps -----

  /** Nothing set aside under another id has changed. */
  ghost predicate HeldBut(held: map<Id, Req>, held': map<Id, Req>, id: nat) {
    forall d: Id :: d != id ==> (d in held' <==> d in held) && (d in held ==> held'[d] == held[d])
  }

  /** The kernel after a step of slot `i` that was about the request `id`: the log has at
      most one entry more, of that slot. */
  ghost predicate StepOf(y: System, y': System, i: nat, id: nat) {
    && |y.owners| == |y.k.log| && |y'.owners| == |y'.k.log|
    && |y'.lanes| == |y.lanes| && (forall j :: 0 <= j < |y.lanes| && j != i ==> y'.lanes[j] == y.lanes[j])
    && HeldBut(y.k.held, y'.k.held, id)
    && ((y'.k.log == y.k.log && y'.owners == y.owners)
        || (|y'.k.log| == |y.k.log| + 1 && y'.k.log[..|y.k.log|] == y.k.log && y'.owners == y.owners + [i]))
  }

  lemma MineGrows(routes: map<nat, nat>, log: seq<Entry>, owners: seq<nat>, e: Entry, i: nat, j: nat)
    requires |owners| == |log|
    ensures AllDue(routes, Mine(log + [e], owners + [i], j))
         == AllDue(routes, Mine(log, owners, j)) + if i == j then Due(routes, e) else []
  {
    var mine := if i == j then e else Entry(e.req, Elsewhere);
    assert Mine(log + [e], owners + [i], j) == Mine(log, owners, j) + [mine];
    AllDueSnoc(routes, Mine(log, owners, j), mine);
  }

  /** Another slot's account does not change. */
  lemma OtherAccounts(routes: map<nat, nat>, log: seq<Entry>, owners: seq<nat>, e: Entry, i: nat, j: nat, l: Lane)
    requires |owners| == |log| && i != j && DueOk(routes, log, owners, j, l)
    requires l.going.Some? ==> l.going.value.at < |log|
    ensures DueOk(routes, log + [e], owners + [i], j, l)
  {
    MineGrows(routes, log, owners, e, i, j);
    if l.going.Some? { assert (log + [e])[l.going.value.at] == log[l.going.value.at]; }
  }

  lemma OthersGoOn(k: Kernel, k': Kernel, owners: seq<nat>, owners': seq<nat>, j: nat, s: SlotState, g: Going, id: nat)
    requires GoingOk(k, owners, j, s, g) && k.log <= k'.log && owners <= owners' && |owners'| == |k'.log|
    requires HeldBut(k.held, k'.held, id) && k.log[g.at].req.id != id
    ensures GoingOk(k', owners', j, s, g)
  {
    assert k'.log[g.at] == k.log[g.at] && owners'[g.at] == owners[g.at];
  }

  /** The other slots do not notice. */
  lemma OtherLanes(routes: map<nat, nat>, y: System, y': System, i: nat, id: nat, j: nat)
    requires StepOf(y, y', i, id) && j < |y.lanes| && j != i && LaneOk(routes, y.k, y.owners, j, y.lanes[j])
    requires y.lanes[j].going.Some? ==> y.k.log[y.lanes[j].going.value.at].req.id != id
    ensures LaneOk(routes, y'.k, y'.owners, j, y'.lanes[j])
  {
    var l := y.lanes[j];
    if y'.k.log != y.k.log {
      var e := y'.k.log[|y.k.log|];
      assert y'.k.log == y.k.log + [e];
      OtherAccounts(routes, y.k.log, y.owners, e, i, j, l);
    }
    if l.going.Some? { OthersGoOn(y.k, y'.k, y.owners, y'.owners, j, l.s, l.going.value, id); }
  }

  /** What the first call does to the kernel: nothing, or the head goes. */
  lemma FirstCallTakes(k: Kernel, s: SlotState, t: Turn)
    ensures var (k', first) := FirstCall(k, s, t); var own := Noted(k, s, CapOf(s, t), t);
            && k'.arrived == k.arrived && k'.log == k.log + own
            && if own == [] then k' == k && first.code != 0 && first.code != ERROR_MORE_DATA
               else var r := k.pending[0];
                    && own == [Entry(r, FateIn(s, t, r))] && k'.pending == k.pending[1..]
                    && first == AnswerAbout(r, s.mode, CapOf(s, t), t.first)
                    && k'.held == if Fits(r, s.mode, CapOf(s, t)) then k.held else k.held[r.id := r]
  {}

  lemma FirstCallConserves(k: Kernel, s: SlotState, t: Turn)
    requires Conserved(k)
    ensures Conserved(FirstCall(k, s, t).0)
  {
    FirstCallTakes(k, s, t);
    var own := Noted(k, s, CapOf(s, t), t);
    if own != [] { TakeConserves(k, own[0]); }
  }

  // ----- The slot that moves -----

  /** A round that took `r` does what `r` is due. */
  lemma ConcludingIsDue(routes: map<nat, nat>, l: Lane, t: Turn, r: Req, first: Answer, second: Answer)
    requires 0 !in routes && !t.stop && AnswersOn(l.s, t, r, first, second)
    ensures Visible(Concluding(routes, l, RoundOf(t, first, second)).events)
         == Visible(l.events) + Due(routes, Entry(r, FateIn(l.s, t, r)))
  {
    var round := RoundOf(t, first, second);
    VerdictFromAnswers(l.s, t, r, round);
    RoundIsDue(routes, Entry(r, FateIn(l.s, t, r)), t.second.fault);
    VisibleConcat(l.events, Adds(routes, l.s, round));
  }

  lemma FailedVerdict(s: SlotState, t: Turn, first: Answer)
    requires first.code != 0 && first.code != ERROR_MORE_DATA
    ensures VerdictOn(s, RoundOf(t, first, first)) == Failed(first.code)
  {}

  /** A round that took nothing shows nothing. */
  lemma ConcludingIsSilent(routes: map<nat, nat>, l: Lane, t: Turn, first: Answer)
    requires t.stop || (first.code != 0 && first.code != ERROR_MORE_DATA)
    ensures Visible(Concluding(routes, l, RoundOf(t, first, first)).events) == Visible(l.events)
  {
    var round := RoundOf(t, first, first);
    VisibleConcat(l.events, Adds(routes, l.s, round));
    if t.stop {
      assert Visible([StopLoaded(true)]) == [];
    } else {
      FailedVerdict(l.s, t, first);
      FailureIsSilent(routes, first.code);
    }
  }

  lemma StopKeepsLane(routes: map<nat, nat>, k: Kernel, owners: seq<nat>, i: nat, l: Lane, t: Turn, first: Answer)
    requires |owners| == |k.log| && LaneOk(routes, k, owners, i, l) && !l.over && l.going.None?
    requires t.stop || (first.code != 0 && first.code != ERROR_MORE_DATA)
    ensures LaneOk(routes, k, owners, i, Concluding(routes, l, RoundOf(t, first, first)))
  {
    ConcludingIsSilent(routes, l, t, first);
    ConcludingKeepsTrace(routes, l, RoundOf(t, first, first));
  }

  /** A slot that has done what one more request is due. */
  lemma LaneDoes(routes: map<nat, nat>, k: Kernel, owners: seq<nat>, i: nat, l: Lane, e: Entry, l': Lane, k': Kernel)
    requires |owners| == |k.log| && DueOk(routes, k.log, owners, i, l) && l.going.None? && k'.log == k.log + [e]
    requires l'.going.None? && TraceOk(routes, l') && Visible(l'.events) == Visible(l.events) + Due(routes, e)
    ensures LaneOk(routes, k', owners + [i], i, l')
  {
    MineGrows(routes, k.log, owners, e, i, i);
    DidIt(AllDue(routes, Mine(k'.log, owners + [i], i)), AllDue(routes, Mine(k.log, owners, i)), Due(routes, e),
          Visible(l.events), Visible(l'.events));
  }

  lemma DidIt(all: seq<Event>, before: seq<Event>, due: seq<Event>, seen: seq<Event>, seen': seq<Event>)
    requires all == before + due && before == seen + [] && seen' == seen + due
    ensures all == seen' + []
  {}

  /** A slot that has done what it owed. */
  lemma LaneCatchesUp(routes: map<nat, nat>, k: Kernel, owners: seq<nat>, i: nat, l: Lane, l': Lane, k': Kernel)
    requires |owners| == |k.log| && DueOk(routes, k.log, owners, i, l) && l.going.Some? && k'.log == k.log
    requires l.going.value.at < |k.log| && l'.going.None? && TraceOk(routes, l')
    requires Visible(l'.events) == Visible(l.events) + Due(routes, k.log[l.going.value.at])
    ensures LaneOk(routes, k', owners, i, l')
  {}

  /** A request taken and done with at once. */
  lemma TakeKeepsLane(routes: map<nat, nat>, k: Kernel, owners: seq<nat>, i: nat, l: Lane, t: Turn, r: Req,
                      first: Answer, k': Kernel)
    requires 0 !in routes && |owners| == |k.log| && LaneOk(routes, k, owners, i, l) && !l.over && l.going.None?
    requires !t.stop && AnswersOn(l.s, t, r, first, first) && k'.log == k.log + [Entry(r, FateIn(l.s, t, r))]
    ensures LaneOk(routes, k', owners + [i], i, Concluding(routes, l, RoundOf(t, first, first)))
  {
    ConcludingIsDue(routes, l, t, r, first, first);
    ConcludingKeepsTrace(routes, l, RoundOf(t, first, first));
    LaneDoes(routes, k, owners, i, l, Entry(r, FateIn(l.s, t, r)), Concluding(routes, l, RoundOf(t, first, first)), k');
  }

  /** A request taken that has to be asked for again. */
  lemma GoingKeepsLane(routes: map<nat, nat>, k: Kernel, owners: seq<nat>, i: nat, l: Lane, t: Turn, r: Req,
                       first: Answer, k': Kernel)
    requires |owners| == |k.log| && LaneOk(routes, k, owners, i, l) && !l.over && l.going.None?
    requires !t.stop && k'.log == k.log + [Entry(r, FateIn(l.s, t, r))]
    requires l.s.mode && !Fits(r, true, CapOf(l.s, t)) && first == AnswerAbout(r, true, CapOf(l.s, t), t.first)
    requires r.id in k'.held && k'.held[r.id] == r
    ensures LaneOk(routes, k', owners + [i], i, l.(going := Some(Going(t, first, |k.log|))))
  {
    LaneOwes(routes, k.log, owners, i, l, Entry(r, FateIn(l.s, t, r)), l.(going := Some(Going(t, first, |k.log|))));
  }

  /** A slot that owes what one more request is due. */
  lemma LaneOwes(routes: map<nat, nat>, log: seq<Entry>, owners: seq<nat>, i: nat, l: Lane, e: Entry, l': Lane)
    requires |owners| == |log| && DueOk(routes, log, owners, i, l) && l.going.None?
    requires l'.going.Some? && l'.going.value.at == |log| && l'.events == l.events
    ensures DueOk(routes, log + [e], owners + [i], i, l')
  {
    MineGrows(routes, log, owners, e, i, i);
    assert (log + [e])[|log|] == e;
  }

  /** The second call is about the request set aside. */
  lemma SecondCallAnswers(k: Kernel, owners: seq<nat>, i: nat, s: SlotState, g: Going)
    requires GoingOk(k, owners, i, s, g)
    ensures var r := k.log[g.at].req; var (k', second) := SecondCall(k, s, g);
            && AnswersOn(s, g.turn, r, g.first, second)
            && k'.log == k.log && k'.pending == k.pending && k'.arrived == k.arrived
            && HeldBut(k.held, Discharged(k', second).held, r.id)
  {}

  lemma FinishKeepsLane(routes: map<nat, nat>, k: Kernel, owners: seq<nat>, i: nat, l: Lane, second: Answer, k': Kernel)
    requires 0 !in routes && |owners| == |k.log| && LaneOk(routes, k, owners, i, l) && l.going.Some? && k'.log == k.log
    requires AnswersOn(l.s, l.going.value.turn, k.log[l.going.value.at].req, l.going.value.first, second)
    ensures LaneOk(routes, k', owners, i,
                   Concluding(routes, l, RoundOf(l.going.value.turn, l.going.value.first, second)))
  {
    var g := l.going.value;
    ConcludingIsDue(routes, l, g.turn, k.log[g.at].req, g.first, second);
    ConcludingKeepsTrace(routes, l, RoundOf(g.turn, g.first, second));
    LaneCatchesUp(routes, k, owners, i, l, Concluding(routes, l, RoundOf(g.turn, g.first, second)), k');
  }

  // ----- Every step -----

  lemma ComesKeepsInv(routes: map<nat, nat>, y: System, r: Req)
    requires Inv(routes, y) && NewId(y.k, r)
    ensures Inv(routes, Next(routes, y, Comes(r)))
  {
    var y' := Next(routes, y, Comes(r));
    forall i | 0 <= i < |y'.lanes| ensures LaneOk(routes, y'.k, y'.owners, i, y'.lanes[i]) {
      assert LaneOk(routes, y.k, y.owners, i, y.lanes[i]);
    }
  }

  /** A step of slot `i` about request `id` keeps the invariant, if it does for that slot and
      nobody else is going on about that request. */
  lemma StepKeepsLanes(routes: map<nat, nat>, y: System, y': System, i: nat, id: nat)
    requires Inv(routes, y) && QueueOk(y') && StepOf(y, y', i, id) && i < |y.lanes|
    requires LaneOk(routes, y'.k, y'.owners, i, y'.lanes[i])
    requires forall j :: 0 <= j < |y.lanes| && j != i && y.lanes[j].going.Some? ==> IdOf(y, j) != id
    ensures Inv(routes, y')
  {
    forall j | 0 <= j < |y'.lanes| && j != i ensures LaneOk(routes, y'.k, y'.owners, j, y'.lanes[j]) {
      assert LaneOk(routes, y.k, y.owners, j, y.lanes[j]);
      OtherLanes(routes, y, y', i, id, j);
    }
  }

  /** The id of the request slot `j` is going on about. */
  function IdOf(y: System, j: nat): nat
    requires j < |y.lanes| && y.lanes[j].going.Some?
  {
    var at := y.lanes[j].going.value.at;
    if at < |y.k.log| then y.k.log[at].req.id else 0
  }

  lemma GoingIds(y: System, a: nat, b: nat)
    requires QueueOk(y) && a < |y.k.log| && b < |y.k.log| && a != b
    ensures y.k.log[a].req.id != y.k.log[b].req.id
  {
    if a < b { LogIds(y, a, b); } else { LogIds(y, b, a); }
  }

  /** Two slots never go on about the same request. */
  lemma IdsDiffer(routes: map<nat, nat>, y: System, i: nat, j: nat)
    requires Inv(routes, y) && i < |y.lanes| && j < |y.lanes| && i != j
    requires y.lanes[i].going.Some? && y.lanes[j].going.Some?
    ensures IdOf(y, i) != IdOf(y, j)
  {
    assert LaneOk(routes, y.k, y.owners, i, y.lanes[i]);
    assert LaneOk(routes, y.k, y.owners, j, y.lanes[j]);
    GoingIds(y, y.lanes[i].going.value.at, y.lanes[j].going.value.at);
  }

  /** Nor about the head, nor about none. */
  lemma GoingIdIsNot(routes: map<nat, nat>, y: System, j: nat)
    requires Inv(routes, y) && j < |y.lanes| && y.lanes[j].going.Some?
    ensures IdOf(y, j) != if y.k.pending == [] then 0 else y.k.pending[0].id
  {
    assert LaneOk(routes, y.k, y.owners, j, y.lanes[j]);
    if y.k.pending != [] { LogIds(y, y.lanes[j].going.value.at, |y.k.log|); }
  }

  lemma FinishKeepsInv(routes: map<nat, nat>, y: System, i: nat)
    requires Inv(routes, y) && 0 !in routes && Enabled(y, Finish(i))
    ensures Inv(routes, Next(routes, y, Finish(i)))
  {
    var l, y' := y.lanes[i], Next(routes, y, Finish(i));
    assert LaneOk(routes, y.k, y.owners, i, l);
    SecondCallAnswers(y.k, y.owners, i, l.s, l.going.value);
    FinishKeepsLane(routes, y.k, y.owners, i, l, SecondCall(y.k, l.s, l.going.value).1, y'.k);
    forall j | 0 <= j < |y.lanes| && j != i && y.lanes[j].going.Some? ensures IdOf(y, j) != IdOf(y, i) {
      IdsDiffer(routes, y, i, j);
    }
    StepKeepsLanes(routes, y, y', i, IdOf(y, i));
  }

  lemma BeginKeepsLane(routes: map<nat, nat>, y: System, i: nat, t: Turn)
    requires Inv(routes, y) && 0 !in routes && Enabled(y, Begin(i, t))
    ensures var y' := Beginning(routes, y, i, t);
            |y'.owners| == |y'.k.log| && |y'.lanes| == |y.lanes| && LaneOk(routes, y'.k, y'.owners, i, y'.lanes[i])
  {
    var l, y' := y.lanes[i], Beginning(routes, y, i, t);
    assert LaneOk(routes, y.k, y.owners, i, l);
    var (k, first) := FirstCall(y.k, l.s, t);
    FirstCallTakes(y.k, l.s, t);
    if t.stop || k.log == y.k.log {
      StopKeepsLane(routes, y.k, y.owners, i, l, t, first);
      assert y'.owners == y.owners && y'.k.log == y.k.log;
    } else {
      assert y'.owners == y.owners + [i];
      if l.s.mode && first.code == ERROR_MORE_DATA {
        GoingKeepsLane(routes, y.k, y.owners, i, l, t, y.k.pending[0], first, y'.k);
      } else {
        TakeKeepsLane(routes, y.k, y.owners, i, l, t, y.k.pending[0], first, y'.k);
      }
    }
  }

  lemma BeginIsStepOf(routes: map<nat, nat>, y: System, i: nat, t: Turn)
    requires |y.owners| == |y.k.log| && Enabled(y, Begin(i, t)) && Conserved(y.k)
    ensures var y' := Beginning(routes, y, i, t);
            && StepOf(y, y', i, if y.k.pending == [] then 0 else y.k.pending[0].id)
            && Conserved(y'.k) && y'.k.arrived == y.k.arrived
  {
    var l, y' := y.lanes[i], Beginning(routes, y, i, t);
    FirstCallTakes(y.k, l.s, t);
    FirstCallConserves(y.k, l.s, t);
    if !t.stop && FirstCall(y.k, l.s, t).0.log != y.k.log { assert y'.owners == y.owners + [i]; }
    else { assert y'.owners == y.owners; }
  }

  lemma BeginKeepsQueue(y: System, y': System, i: nat, id: nat)
    requires QueueOk(y) && i < |y.lanes| && StepOf(y, y', i, id) && Conserved(y'.k) && y'.k.arrived == y.k.arrived
    ensures QueueOk(y')
  {}

  lemma BeginKeepsInv(routes: map<nat, nat>, y: System, i: nat, t: Turn)
    requires Inv(routes, y) && 0 !in routes && Enabled(y, Begin(i, t))
    ensures Inv(routes, Next(routes, y, Begin(i, t)))
  {
    var y', id := Beginning(routes, y, i, t), if y.k.pending == [] then 0 else y.k.pending[0].id;
    BeginKeepsLane(routes, y, i, t);
    BeginIsStepOf(routes, y, i, t);
    BeginKeepsQueue(y, y', i, id);
    forall j | 0 <= j < |y.lanes| && j != i && y.lanes[j].going.Some? ensures IdOf(y, j) != id {
      GoingIdIsNot(routes, y, j);
    }
    StepKeepsLanes(routes, y, y', i, id);
  }

  lemma {:induction false} RunKeepsInv(routes: map<nat, nat>, y: System, run: seq<Step>)
    requires 0 !in routes && Init(y) && After(routes, y, run).Some?
    ensures Inv(routes, After(routes, y, run).value)
  {
    if run == [] {
      assert Reqs(y.k.log) == [];
    } else {
      var before := After(routes, y, run[..|run| - 1]).value;
      RunKeepsInv(routes, y, run[..|run| - 1]);
      match run[|run| - 1]
      case Comes(r) => ComesKeepsInv(routes, before, r);
      case Begin(i, t) => BeginKeepsInv(routes, before, i, t);
      case Finish(i) => FinishKeepsInv(routes, before, i);
    }
  }

  // ----- Each request, over all slots -----

  /** Slot `i` took the p-th request and has finished with it. */
  predicate DidServe(y: System, i: nat, p: nat)
    requires |y.owners| == |y.k.log| && i < |y.lanes|
  {
    && p < |y.k.log| && y.owners[p] == i
    && !(y.lanes[i].going.Some? && y.lanes[i].going.value.at == p)
  }

  lemma MineTally(routes: map<nat, nat>, y: System, i: nat, p: nat)
    requires QueueOk(y) && p < |y.k.arrived|
    ensures |y.k.log| <= |y.k.arrived| && (p < |y.k.log| ==> y.k.log[p].req == y.k.arrived[p])
    ensures var id := y.k.arrived[p].id; var mine := Mine(y.k.log, y.owners, i);
            var own := p < |y.k.log| && y.owners[p] == i;
            && Tally(AllDue(routes, mine), SendTo(id)) == (if own && IsAnswered(y.k.log[p].fate) then 1 else 0)
            && Tally(AllDue(routes, mine), DeliveryOf(id)) == (if own && IsDelivered(y.k.log[p].fate) then 1 else 0)
  {
    var id, mine := y.k.arrived[p].id, Mine(y.k.log, y.owners, i);
    forall q | 0 <= q < |y.k.log| ensures y.k.log[q].req == y.k.arrived[q] {
      assert Reqs(y.k.log)[q] == y.k.arrived[q];
    }
    TallyOfOne(routes, mine, id, p);
  }

  /** What the slot still owes counts for the request it is going on about. */
  lemma OwedTally(routes: map<nat, nat>, y: System, i: nat, p: nat)
    requires Inv(routes, y) && i < |y.lanes| && p < |y.k.arrived|
    ensures var id, l := y.k.arrived[p].id, y.lanes[i]; var now := l.going.Some? && l.going.value.at == p;
            && (now ==> p < |y.k.log| && y.owners[p] == i)
            && Tally(Owed(routes, y.k.log, l), SendTo(id)) == (if now && IsAnswered(y.k.log[p].fate) then 1 else 0)
            && Tally(Owed(routes, y.k.log, l), DeliveryOf(id)) == (if now && IsDelivered(y.k.log[p].fate) then 1 else 0)
  {
    var l := y.lanes[i];
    assert LaneOk(routes, y.k, y.owners, i, l);
    if l.going.Some? {
      var at := l.going.value.at;
      assert Reqs(y.k.log)[at] == y.k.arrived[at];
      DueTally(routes, y.k.log[at], y.k.arrived[p].id);
    }
  }

  lemma LaneTally(routes: map<nat, nat>, y: System, i: nat, p: nat)
    requires Inv(routes, y) && i < |y.lanes| && p < |y.k.arrived|
    ensures var id := y.k.arrived[p].id; var did := DidServe(y, i, p);
            && Tally(y.lanes[i].events, SendTo(id)) == (if did && IsAnswered(y.k.log[p].fate) then 1 else 0)
            && Tally(y.lanes[i].events, DeliveryOf(id)) == (if did && IsDelivered(y.k.log[p].fate) then 1 else 0)
  {
    var id, l := y.k.arrived[p].id, y.lanes[i];
    var owed := Owed(routes, y.k.log, l);
    assert LaneOk(routes, y.k, y.owners, i, l);
    MineTally(routes, y, i, p);
    OwedTally(routes, y, i, p);
    TallyConcat(Visible(l.events), owed, SendTo(id));
    TallyConcat(Visible(l.events), owed, DeliveryOf(id));
    TallyVisible(l.events, SendTo(id));
    TallyVisible(l.events, DeliveryOf(id));
  }

  /** Over all slots. */
  function Total(lanes: seq<Lane>, f: Event -> bool): nat {
    if lanes == [] then 0 else Tally(lanes[0].events, f) + Total(lanes[1..], f)
  }

  lemma {:induction false} TotalOfOne(lanes: seq<Lane>, f: Event -> bool, i: nat)
    requires forall j :: 0 <= j < |lanes| && j != i ==> Tally(lanes[j].events, f) == 0
    ensures Total(lanes, f) == if i < |lanes| then Tally(lanes[i].events, f) else 0
  {
    if lanes != [] {
      if i == 0 { TotalOfOne(lanes[1..], f, |lanes|); } else { TotalOfOne(lanes[1..], f, i - 1); }
    }
  }

  /** The p-th request has been served by the slot that took it. */
  predicate Served(y: System, p: nat)
    requires QueueOk(y)
  {
    p < |y.k.log| && DidServe(y, y.owners[p], p)
  }

  /** Any number of slots, every interleaving: each request that ever arrived is delivered
      at most once and answered at most once by all slots together; once it has been served
      exactly once if its fate says so; and each slot's events are the trace of its loop. */
  lemma EachRequestOnceInAll(routes: map<nat, nat>, y0: System, run: seq<Step>, p: nat)
    requires 0 !in routes && Init(y0) && After(routes, y0, run).Some?
    requires p < |After(routes, y0, run).value.k.arrived|
    ensures var y := After(routes, y0, run).value; var id := y.k.arrived[p].id;
            && QueueOk(y) && (p < |y.k.log| ==> y.k.log[p].req == y.k.arrived[p])
            && Total(y.lanes, SendTo(id)) == (if Served(y, p) && IsAnswered(y.k.log[p].fate) then 1 else 0)
            && Total(y.lanes, DeliveryOf(id)) == (if Served(y, p) && IsDelivered(y.k.log[p].fate) then 1 else 0)
            && forall i :: 0 <= i < |y.lanes| ==> var l := y.lanes[i]; l.events == Trace(routes, l.start, l.rounds)
  {
    RunKeepsInv(routes, y0, run);
    var y := After(routes, y0, run).value;
    var id := y.k.arrived[p].id;
    MineTally(routes, y, 0, p);
    forall i | 0 <= i < |y.lanes| ensures TraceOk(routes, y.lanes[i]) {
      assert LaneOk(routes, y.k, y.owners, i, y.lanes[i]);
    }
    var owner := if p < |y.k.log| then y.owners[p] else |y.lanes|;
    forall i | 0 <= i < |y.lanes| && i != owner
      ensures Tally(y.lanes[i].events, SendTo(id)) == 0 == Tally(y.lanes[i].events, DeliveryOf(id))
    {
      LaneTally(routes, y, i, p);
    }
    if p < |y.k.log| { LaneTally(routes, y, owner, p); }
    TotalOfOne(y.lanes, SendTo(id), owner);
    TotalOfOne(y.lanes, DeliveryOf(id), owner);
  }

  // ----- When the slots end -----

  /** A slot is over after its first call exactly if the flag was set, no request came before
      the shutdown, or the call failed because the queue is gone. */
  lemma BeginEndsExactly(routes: map<nat, nat>, y: System, i: nat, t: Turn)
    requires Enabled(y, Begin(i, t))
    ensures Next(routes, y, Begin(i, t)).lanes[i].over <==>
              t.stop || (if Faulty(t.first) then QueueGone(t.first.fault) else y.k.pending == [])
  {
    var l := y.lanes[i];
    var first := FirstCall(y.k, l.s, t).1;
    FirstCallTakes(y.k, l.s, t);
    if Noted(y.k, l.s, CapOf(l.s, t), t) == [] {
      FailedVerdict(l.s, t, first);
    } else if !(l.s.mode && first.code == ERROR_MORE_DATA) {
      VerdictFromAnswers(l.s, t, y.k.pending[0], RoundOf(t, first, first));
    }
  }

  /** And after its second call exactly if that failed because the queue is gone. */
  lemma FinishEndsExactly(routes: map<nat, nat>, y: System, i: nat)
    requires Inv(routes, y) && Enabled(y, Finish(i))
    ensures var luck := y.lanes[i].going.value.turn.second;
            Next(routes, y, Finish(i)).lanes[i].over <==> Faulty(luck) && QueueGone(luck.fault)
  {
    var l := y.lanes[i];
    var g := l.going.value;
    assert LaneOk(routes, y.k, y.owners, i, l);
    SecondCallAnswers(y.k, y.owners, i, l.s, g);
    VerdictFromAnswers(l.s, g.turn, y.k.log[g.at].req, RoundOf(g.turn, g.first, SecondCall(y.k, l.s, g).1));
  }
}
