/** What the adaptive receive does to the mode, how many kernel calls it makes and how often
    it guesses wrong, over whole runs of the slot loop against the kernel's queue: other
    slots, faults and shutdown included. */
module Workload {
  import opened Basics
  import opened ReceiveBuffers
  import opened Receive
  import opened SlotLoop
  import opened KernelQueue

  /** Turns of a run in which the copy attempt failed and had to be repeated. */
  function Wastes(routes: map<nat, nat>, k: Kernel, s: SlotState, turns: seq<Turn>): nat
    decreases |turns|
  {
    if turns == [] || turns[0].stop then 0
    else
      var (k', round) := Play(k, s, turns[0]);
      (if Wasted(Got(s, round)) then 1 else 0)
      + (if Ends(VerdictOn(s, round)) then 0 else Wastes(routes, k', NextSlot(routes, s, round), turns[1..]))
  }

  /** `r` declares `d` bytes, of which any part may have arrived, and has at most 8 KiB of
      headers. */
  predicate OfKind(r: Req, d: nat) { r.length == Number(d) && r.need <= HEADER_SLACK && r.body <= d }

  /** Every request the slot takes is of the kind its turn is labelled with, and is dropped
      by its handler before the next take. */
  predicate Labelled(routes: map<nat, nat>, k: Kernel, s: SlotState, turns: seq<Turn>, kinds: seq<nat>)
    requires |kinds| == |turns|
    decreases |turns|
  {
    turns == [] || turns[0].stop ||
    var (k', round) := Play(k, s, turns[0]);
    && !turns[0].keeps
    && (OwnEntry(k, s, turns[0]) != [] ==> OfKind(OwnEntry(k, s, turns[0])[0].req, kinds[0]))
    && (Ends(VerdictOn(s, round)) || Labelled(routes, k', NextSlot(routes, s, round), turns[1..], kinds[1..]))
  }

  /** How often the traffic changes. */
  function Changes(kinds: seq<nat>): nat {
    if |kinds| <= 1 then 0 else (if kinds[0] != kinds[1] then 1 else 0) + Changes(kinds[1..])
  }

  /** A slot with its one buffer in the pool, or none yet, as `serve` sets it up. */
  predicate OneBuffer(s: SlotState) {
    && SizesOk(s.block, s.maxBytes) && s.bytes <= s.maxBytes
    && s.kept == [] && |s.free| <= 1 && AllSized(s.block, s.maxBytes, s.free)
  }

  lemma {:induction false} NothingRestored(s: SlotState, picks: seq<nat>)
    requires s.kept == []
    ensures Restored(s, picks) == s
    decreases |picks|
  {
    if picks != [] { NothingRestored(s, picks[1..]); }
  }

  /** Such a slot always receives into the buffer it had before. */
  lemma SameBuffer(routes: map<nat, nat>, s: SlotState, round: Round)
    requires OneBuffer(s) && !round.keeps
    ensures BufferFor(s, round) == Taken(s).0 && Sized(s.block, s.maxBytes, Taken(s).0)
    ensures NextSlot(routes, s, round) == s.(free := [Got(s, round).buf], mode := Got(s, round).copyBody)
  {
    NothingRestored(s, round.back);
    NothingRestored(s.(free := []), round.during);
    NewBufIsSized(s.block, s.maxBytes, s.bytes);
  }

  /** A copy attempt with a body of the declared length cannot fail. */
  predicate Settled(b: Buf, copyBody: bool, d: nat) { copyBody ==> d + HEADER_SLACK <= Capacity(b) }

  /** Whatever the answers about a request of the kind: from a settled slot no attempt is
      wasted and the slot stays settled, and a wasted one settles it. */
  predicate Settles(block: nat, maxBytes: nat, b: Buf, copyBody: bool, r: Received, d: nat) {
    && Sized(block, maxBytes, r.buf)
    && (Settled(b, copyBody, d) ==> !Wasted(r) && Settled(r.buf, r.copyBody, d))
    && (Wasted(r) ==> Settled(r.buf, r.copyBody, d))
  }

  lemma AnswersSettle(s: SlotState, t: Turn, r: Req, first: Answer, second: Answer, d: nat)
    requires SizesOk(s.block, s.maxBytes) && OfKind(r, d) && AnswersOn(s, t, r, first, second)
    requires CapOf(s, t) == Capacity(Taken(s).0) && Sized(s.block, s.maxBytes, Taken(s).0)
    ensures Settles(s.block, s.maxBytes, Taken(s).0, s.mode,
                    Receive.Receive(s.block, s.maxBytes, Taken(s).0, s.mode, first, second), d)
  {
    var b := Taken(s).0;
    assert Capacity(b.(header := HeaderOf(r))) == Capacity(b);
    FitIsExact(s.block, s.maxBytes, b.(header := HeaderOf(r)));
  }

  /** One turn, whether it takes a request of the kind or none. */
  lemma TurnSettles(routes: map<nat, nat>, k: Kernel, s: SlotState, t: Turn, d: nat)
    requires OneBuffer(s) && !t.keeps
    requires OwnEntry(k, s, t) != [] ==> OfKind(OwnEntry(k, s, t)[0].req, d)
    ensures var round := Play(k, s, t).1;
            Settles(s.block, s.maxBytes, Taken(s).0, s.mode, Got(s, round), d)
  {
    var round := Play(k, s, t).1;
    SameBuffer(routes, s, round);
    NothingRestored(s, t.back);
    if OwnEntry(k, s, t) != [] {
      var r := OwnEntry(k, s, t)[0].req;
      AnswersAboutTheHead(routes, k, s, t, r);
      AnswersSettle(s, t, r, round.first, round.second, d);
    }
  }

  /** One more turn in front: what the rest may waste, and what all may. */
  lemma OneMoreTurn(kinds: seq<nat>, wasted: bool, settled: bool, settles: bool, rest: nat)
    requires kinds != [] && rest <= 1 + Changes(kinds[1..])
    requires |kinds| > 1 && kinds[0] == kinds[1] && settles ==> rest <= Changes(kinds[1..])
    requires |kinds| == 1 ==> rest == 0
    requires (settled ==> !wasted && settles) && (wasted ==> settles)
    ensures (if wasted then 1 else 0) + rest <= 1 + Changes(kinds)
    ensures settled ==> (if wasted then 1 else 0) + rest <= Changes(kinds)
  {}

  /** From any state of a slot with one buffer, over any run: at most one wasted call per
      kind of traffic, that is, one more than the traffic changes; none more than it
      changes if the slot is settled on its first kind. */
  lemma {:induction false} OneWastePerChange(routes: map<nat, nat>, k: Kernel, s: SlotState, turns: seq<Turn>,
                                             kinds: seq<nat>)
    requires OneBuffer(s) && |kinds| == |turns| && Labelled(routes, k, s, turns, kinds)
    ensures Wastes(routes, k, s, turns) <= 1 + Changes(kinds)
    ensures turns != [] && Settled(Taken(s).0, s.mode, kinds[0]) ==> Wastes(routes, k, s, turns) <= Changes(kinds)
    decreases |turns|
  {
    if turns != [] && !turns[0].stop {
      var (k', round) := Play(k, s, turns[0]);
      var r, next := Got(s, round), NextSlot(routes, s, round);
      TurnSettles(routes, k, s, turns[0], kinds[0]);
      SameBuffer(routes, s, round);
      var rest := 0;
      if !Ends(VerdictOn(s, round)) {
        OneWastePerChange(routes, k', next, turns[1..], kinds[1..]);
        rest := Wastes(routes, k', next, turns[1..]);
      }
      OneMoreTurn(kinds, Wasted(r), Settled(Taken(s).0, s.mode, kinds[0]), Settled(r.buf, r.copyBody, kinds[0]), rest);
    }
  }

  lemma {:induction false} NoChange(d: nat, n: nat)
    ensures Changes(seq(n, _ => d)) == 0
  {
    if n > 1 {
      assert seq(n, _ => d)[1..] == seq(n - 1, _ => d);
      NoChange(d, n - 1);
    }
  }

  /** Traffic of one declared length wastes at most one call, however long it goes on. */
  lemma SteadyTrafficWastesOne(routes: map<nat, nat>, k: Kernel, s: SlotState, turns: seq<Turn>, d: nat)
    requires OneBuffer(s) && Labelled(routes, k, s, turns, seq(|turns|, _ => d))
    ensures Wastes(routes, k, s, turns) <= 1
  {
    NoChange(d, |turns|);
    OneWastePerChange(routes, k, s, turns, seq(|turns|, _ => d));
  }

  // ----- The mode -----

  /** A turn that takes nothing: the call failed, and nothing else has changed. */
  lemma NothingTakenChangesNothing(k: Kernel, s: SlotState, t: Turn)
    requires OwnEntry(k, s, t) == []
    ensures var r := Got(s, Play(k, s, t).1); r.copyBody == s.mode && r.calls == [KernelCall(0, s.mode)]
  {}

  /** Mode and calls of a turn that takes `q`. */
  predicate TurnIs(s: SlotState, t: Turn, q: Req, r: Received) {
    if s.mode && q.need + q.body <= CapOf(s, t) then r.copyBody && r.calls == [KernelCall(0, true)]
    else
      && (r.copyBody <==>
            q.need <= CapOf(s, t) && !(s.mode && Faulty(t.second)) && MayInline(q.length, s.maxBytes))
      && r.calls == if s.mode then [KernelCall(0, true), KernelCall(q.id, false)] else [KernelCall(0, false)]
  }

  lemma AnswersMakeTheTurn(s: SlotState, t: Turn, q: Req, round: Round)
    requires s.maxBytes < TWO_32 - 8 && round.back == t.back && AnswersOn(s, t, q, round.first, round.second)
    ensures TurnIs(s, t, q, Got(s, round))
  {
    var b := BufferFor(s, round);
    FitByCases(s.block, s.maxBytes, b.(header := HeaderOf(q)));
  }

  /** The mode a turn leaves, and the calls it makes.  A copy attempt that succeeds is the
      only call and keeps the mode.  A headers-only success turns it on exactly if the body
      of such a request may arrive inline.  It is turned off only by `ERROR_MORE_DATA` on a
      copy attempt, and a failed first call leaves it alone. */
  lemma ModeIsExact(routes: map<nat, nat>, k: Kernel, s: SlotState, t: Turn)
    requires s.maxBytes < TWO_32 - 8
    ensures var r := Got(s, Play(k, s, t).1); var own := OwnEntry(k, s, t);
            && (own == [] ==> r.copyBody == s.mode && r.calls == [KernelCall(0, s.mode)])
            && (own != [] ==> TurnIs(s, t, own[0].req, r))
            && NextSlot(routes, s, Play(k, s, t).1).mode == r.copyBody
  {
    if OwnEntry(k, s, t) == [] {
      NothingTakenChangesNothing(k, s, t);
    } else {
      var q := OwnEntry(k, s, t)[0].req;
      AnswersAboutTheHead(routes, k, s, t, q);
      AnswersMakeTheTurn(s, t, q, Play(k, s, t).1);
    }
  }

  lemma {:induction false} RestoredKeepsSizes(s: SlotState, picks: seq<nat>)
    ensures Restored(s, picks).maxBytes == s.maxBytes
    decreases |picks|
  {
    if picks != [] {
      if picks[0] >= |s.kept| {
        RestoredKeepsSizes(s, picks[1..]);
      } else {
        var s' := Returned(s, s.kept[picks[0]]).(kept := s.kept[..picks[0]] + s.kept[picks[0] + 1..]);
        RestoredKeepsSizes(s', picks[1..]);
      }
    }
  }

  lemma RoundKeepsSizes(routes: map<nat, nat>, s: SlotState, round: Round)
    ensures NextSlot(routes, s, round).maxBytes == s.maxBytes
  {
    var s' := Restored(s, round.back);
    RestoredKeepsSizes(s, round.back);
    RestoredKeepsSizes(s'.(free := Taken(s').1), round.during);
  }

  /** The kernel calls of each turn of a run. */
  function CallsOf(routes: map<nat, nat>, k: Kernel, s: SlotState, turns: seq<Turn>): seq<seq<KernelCall>>
    decreases |turns|
  {
    if turns == [] || turns[0].stop then []
    else
      var (k', round) := Play(k, s, turns[0]);
      [Got(s, round).calls]
      + (if Ends(VerdictOn(s, round)) then [] else CallsOf(routes, k', NextSlot(routes, s, round), turns[1..]))
  }

  /** Every turn made exactly these calls. */
  predicate Each(calls: seq<seq<KernelCall>>, want: seq<KernelCall>) {
    forall i :: 0 <= i < |calls| ==> calls[i] == want
  }

  lemma CallsCons(routes: map<nat, nat>, k: Kernel, s: SlotState, turns: seq<Turn>, want: seq<KernelCall>)
    requires turns != [] && !turns[0].stop
    ensures var (k', round) := Play(k, s, turns[0]);
            Each(CallsOf(routes, k, s, turns), want) <==>
              && Got(s, round).calls == want
              && (Ends(VerdictOn(s, round)) || Each(CallsOf(routes, k', NextSlot(routes, s, round), turns[1..]), want))
  {
    var (k', round) := Play(k, s, turns[0]);
    var rest := if Ends(VerdictOn(s, round)) then [] else CallsOf(routes, k', NextSlot(routes, s, round), turns[1..]);
    EachCons(Got(s, round).calls, rest, want);
  }

  lemma EachCons(first: seq<KernelCall>, rest: seq<seq<KernelCall>>, want: seq<KernelCall>)
    ensures Each([first] + rest, want) <==> first == want && Each(rest, want)
  {
    var all := [first] + rest;
    assert all[0] == first && all[1..] == rest;
    if Each(all, want) {
      forall i | 0 <= i < |rest| ensures rest[i] == want { assert all[i + 1] == rest[i]; }
    }
  }

  /** Every request the slot takes fits the buffer it is received into, body included. */
  predicate AllFit(routes: map<nat, nat>, k: Kernel, s: SlotState, turns: seq<Turn>)
    decreases |turns|
  {
    turns == [] || turns[0].stop ||
    var (k', round) := Play(k, s, turns[0]); var own := OwnEntry(k, s, turns[0]);
    && (own != [] ==> own[0].req.need + own[0].req.body <= CapOf(s, turns[0]))
    && (Ends(VerdictOn(s, round)) || AllFit(routes, k', NextSlot(routes, s, round), turns[1..]))
  }

  /** From copy mode, while everything fits, every turn is a single call that copies the
      body in, and none is ever wasted. */
  lemma {:induction false} OneCallPerTurn(routes: map<nat, nat>, k: Kernel, s: SlotState, turns: seq<Turn>)
    requires s.maxBytes < TWO_32 - 8 && s.mode && AllFit(routes, k, s, turns)
    ensures Each(CallsOf(routes, k, s, turns), [KernelCall(0, true)])
    ensures Wastes(routes, k, s, turns) == 0
    decreases |turns|
  {
    if turns != [] && !turns[0].stop {
      var (k', round) := Play(k, s, turns[0]);
      ModeIsExact(routes, k, s, turns[0]);
      RoundKeepsSizes(routes, s, round);
      CallsCons(routes, k, s, turns, [KernelCall(0, true)]);
      if !Ends(VerdictOn(s, round)) { OneCallPerTurn(routes, k', NextSlot(routes, s, round), turns[1..]); }
    }
  }

  /** Every request the slot takes has a length that keeps its body from arriving inline. */
  predicate NeverInline(routes: map<nat, nat>, k: Kernel, s: SlotState, turns: seq<Turn>)
    decreases |turns|
  {
    turns == [] || turns[0].stop ||
    var (k', round) := Play(k, s, turns[0]); var own := OwnEntry(k, s, turns[0]);
    && (own != [] ==> !MayInline(own[0].req.length, s.maxBytes))
    && (Ends(VerdictOn(s, round)) || NeverInline(routes, k', NextSlot(routes, s, round), turns[1..]))
  }

  /** Requests whose length cannot be parsed or is over the maximum fail at most one copy
      attempt, whatever happens to their buffers: after it the slot asks for headers only. */
  lemma {:induction false} NeverInlineWastesOne(routes: map<nat, nat>, k: Kernel, s: SlotState, turns: seq<Turn>)
    requires s.maxBytes < TWO_32 - 8 && NeverInline(routes, k, s, turns)
    ensures Wastes(routes, k, s, turns) <= 1 && (!s.mode ==> Wastes(routes, k, s, turns) == 0)
    ensures !s.mode ==> Each(CallsOf(routes, k, s, turns), [KernelCall(0, false)])
    decreases |turns|
  {
    if turns != [] && !turns[0].stop {
      var (k', round) := Play(k, s, turns[0]);
      ModeIsExact(routes, k, s, turns[0]);
      RoundKeepsSizes(routes, s, round);
      CallsCons(routes, k, s, turns, [KernelCall(0, false)]);
      if !Ends(VerdictOn(s, round)) { NeverInlineWastesOne(routes, k', NextSlot(routes, s, round), turns[1..]); }
    }
  }
}
