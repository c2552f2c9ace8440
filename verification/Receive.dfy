/** The adaptive receive of `queue.rs`: try to copy the body in with the headers,
    fall back to headers only, then resize and pick the next mode. */
module Receive {
  import opened Basics
  import opened ReceiveBuffers

  /** `ERROR_MORE_DATA`. */
  const ERROR_MORE_DATA: nat := 234

  /** How one `HttpReceiveHttpRequest` ended: the final status, the header block the
      kernel left, and the reported size if the call itself returned the status. */
  datatype Answer = Answer(code: nat, header: Header, sync: Option<nat>)

  datatype Result = Done | HeadersTooLarge(needed: nat) | Win32(code: nat)

  /** One `HttpReceiveHttpRequest`: which request was asked for (0: the next one), and
      whether its body was to be copied in. */
  datatype KernelCall = KernelCall(id: nat, copy: bool)

  /** Everything `receive` leaves behind, and the kernel calls it made. */
  datatype Received = Received(buf: Buf, copyBody: bool, result: Result, calls: seq<KernelCall>)

  /** The copy attempt failed and had to be repeated. */
  predicate Wasted(r: Received) { |r.calls| == 2 }

  /** The last call was for the headers only. */
  predicate Stripped(r: Received) { r.calls != [] && !r.calls[|r.calls| - 1].copy }

  function Reported(a: Answer, before: nat): nat {
    if a.code == ERROR_MORE_DATA && a.sync.Some? then a.sync.value else before
  }

  /** The headers-only call, and what follows it. */
  function HeadersOnly(block: nat, maxBytes: nat, b: Buf, id: nat, a: Answer, needed: nat,
                       before: seq<KernelCall>): Received {
    var b' := b.(header := a.header);
    var calls := before + [KernelCall(id, false)];
    if a.code == 0 then
      var (fitted, inline) := Fitted(block, maxBytes, b');
      Received(fitted, inline, Done, calls)
    else if a.code == ERROR_MORE_DATA then Received(b', false, HeadersTooLarge(Reported(a, needed)), calls)
    else Received(b', false, Win32(a.code), calls)
  }

  /** `RequestQueue::receive`, given how the kernel answers its one or two calls. */
  function Receive(block: nat, maxBytes: nat, b: Buf, copyBody: bool, first: Answer, second: Answer): Received {
    var attempt := [KernelCall(0, true)];
    if !copyBody then HeadersOnly(block, maxBytes, b, 0, second, 0, [])
    else if first.code == ERROR_MORE_DATA then
      HeadersOnly(block, maxBytes, b.(header := first.header), first.header.requestId, second,
                  Reported(first, 0), attempt)
    else Received(b.(header := first.header), true, if first.code == 0 then Done else Win32(first.code), attempt)
  }

  /** `receive`, step by step on the buffer object. */
  method ReceiveInto(buffer: PooledBuffer, copyBody: bool, first: Answer, second: Answer)
    returns (copyBody': bool, result: Result, calls: seq<KernelCall>)
    modifies buffer
    ensures Received(buffer.Value(), copyBody', result, calls)
         == Receive(buffer.block, buffer.maxBytes, old(buffer.Value()), copyBody, first, second)
  {
    copyBody', calls := copyBody, [];
    var needed, requestId := 0, 0;
    if copyBody' {
      calls := calls + [KernelCall(0, true)];
      needed := ReceiveOnce(buffer, first, needed);
      if first.code == ERROR_MORE_DATA {
        copyBody' := false;
        requestId := buffer.header.requestId;
      } else {
        result := if first.code == 0 then Done else Win32(first.code);
        return;
      }
    }
    calls := calls + [KernelCall(requestId, false)];
    needed := ReceiveOnce(buffer, second, needed);
    if second.code == ERROR_MORE_DATA {
      result := HeadersTooLarge(needed);
    } else if second.code == 0 {
      copyBody' := buffer.FitBodyInline();
      result := Done;
    } else {
      result := Win32(second.code);
    }
  }

  /** `receive_once`: clear the header block, let the kernel fill it, note the size it
      asks for if the call failed at once. */
  method ReceiveOnce(buffer: PooledBuffer, a: Answer, needed: nat) returns (needed': nat)
    modifies buffer
    ensures buffer.Value() == old(buffer.Value()).(header := a.header)
    ensures forall p: Pool :: p.out == [old(buffer.Value())] ==>
              PoolNext(p, PoolStep.Fill(0, a.header)) == p.(out := [buffer.Value()])
    ensures needed' == if a.code == ERROR_MORE_DATA && a.sync.Some? then a.sync.value else needed
  {
    buffer.Prepare();
    buffer.header := a.header;
    needed' := needed;
    if a.code == ERROR_MORE_DATA && a.sync.Some? { needed' := a.sync.value; }
  }

  // ----- What the caller finds in the buffer -----

  /** The answer whose request `receive` hands to its caller. */
  function Final(copyBody: bool, first: Answer, second: Answer): Answer {
    if copyBody && first.code != ERROR_MORE_DATA then first else second
  }

  /** A successful receive leaves the delivered request in the buffer if and only if
      `fit_body_inline` kept the allocation; otherwise the header block reads zero. */
  lemma RequestSurvivesExactly(block: nat, maxBytes: nat, b: Buf, copyBody: bool, first: Answer, second: Answer)
    requires SizesOk(block, maxBytes) && Sized(block, maxBytes, b)
    requires Receive(block, maxBytes, b, copyBody, first, second).result == Done
    ensures var h := Final(copyBody, first, second).header;
            var r := Receive(block, maxBytes, b, copyBody, first, second);
            var lost := Stripped(r) && Replaced(maxBytes, b.(header := h));
            && (r.buf.header == h <==> !lost)
            && (lost ==> r.buf.header == ZERO && r.copyBody)
            && Sized(block, maxBytes, r.buf)
  {
    var h := Final(copyBody, first, second).header;
    assert Capacity(b.(header := h)) == Capacity(b);
    FitIsExact(block, maxBytes, b.(header := h));
  }

  /** The condition a caller could check: headers-only, a length the maximum allows
      but the present buffer does not. */
  lemma LostExactlyWhen(maxBytes: nat, b: Buf, n: nat)
    requires n <= U64_MAX && maxBytes < U64_MAX && b.header.length == Number(n)
    ensures Replaced(maxBytes, b) <==> Capacity(b) < n + HEADER_SLACK <= maxBytes
  {}

  /** A concrete loss: a 16 KiB buffer and a declared 20000-byte body. */
  lemma LostExample(block: nat)
    requires block <= 4096
    ensures var b := NewBuf(block, 16384); var h := Header(7, 1, Number(20000));
            var more := Answer(ERROR_MORE_DATA, ZERO.(requestId := 7), None);
            Receive(block, 131072, b, true, more, Answer(0, h, None)).buf.header == ZERO
  {}

  /** The size a headers-too-large result reports: the one the kernel gave with the last
      call that failed at once, zero if none did. */
  lemma ReportedSize(block: nat, maxBytes: nat, b: Buf, copyBody: bool, first: Answer, second: Answer)
    requires Receive(block, maxBytes, b, copyBody, first, second).result.HeadersTooLarge?
    ensures var needed := Receive(block, maxBytes, b, copyBody, first, second).result.needed;
            && (second.sync.Some? ==> needed == second.sync.value)
            && (second.sync.None? && copyBody && first.sync.Some? ==> needed == first.sync.value)
            && (second.sync.None? && (!copyBody || first.sync.None?) ==> needed == 0)
  {}

  // ----- Mistakes over a workload -----

  /** A kind of request: bytes its headers need, and its declared body length. */
  datatype Request = Request(header: nat, length: ContentLength)

  /** The kernel's answer when it would copy `body` bytes in with the headers. */
  function AnswerTo(q: Request, id: nat, body: nat, b: Buf): Answer {
    if q.header + body <= Capacity(b) then Answer(0, Header(id, 1, q.length), None)
    else Answer(ERROR_MORE_DATA, ZERO.(requestId := id), None)
  }

  /** The slot between requests: its one buffer and its mode. */
  datatype Slot = Slot(buf: Buf, copyBody: bool)

  /** One request through the slot, dropped before the next take. */
  function Serve(block: nat, maxBytes: nat, s: Slot, q: Request, body: nat): Received {
    Receive(block, maxBytes, s.buf, s.copyBody, AnswerTo(q, 1, body, s.buf), AnswerTo(q, 1, 0, s.buf))
  }

  function After(r: Received): Slot { Slot(r.buf, r.copyBody) }

  /** Failed copy attempts over requests of one kind; `bodies[i]` is how much of the
      i-th body had arrived for the kernel to copy. */
  function Mistakes(block: nat, maxBytes: nat, s: Slot, q: Request, bodies: seq<nat>): nat
    decreases |bodies|
  {
    if bodies == [] then 0
    else var r := Serve(block, maxBytes, s, q, bodies[0]);
         (if Wasted(r) then 1 else 0) + Mistakes(block, maxBytes, After(r), q, bodies[1..])
  }

  function SlotAfter(block: nat, maxBytes: nat, s: Slot, q: Request, bodies: seq<nat>): Slot
    decreases |bodies|
  {
    if bodies == [] then s
    else SlotAfter(block, maxBytes, After(Serve(block, maxBytes, s, q, bodies[0])), q, bodies[1..])
  }

  /** Bodies never exceed the declared length. */
  predicate Within(bodies: seq<nat>, declared: nat) {
    forall i :: 0 <= i < |bodies| ==> bodies[i] <= declared
  }

  /** This kind of request will never fail a copy attempt again. */
  predicate Settled(maxBytes: nat, s: Slot, q: Request, declared: nat) {
    || (s.copyBody && q.header + declared <= Capacity(s.buf))
    || (!s.copyBody && (Room(declared) > maxBytes || q.header > Capacity(s.buf) || q.header <= HEADER_SLACK))
  }

  lemma ServeSettles(block: nat, maxBytes: nat, s: Slot, q: Request, declared: nat, body: nat)
    requires SizesOk(block, maxBytes) && Sized(block, maxBytes, s.buf)
    requires q.length == Number(declared) && q.header <= HEADER_SLACK && body <= declared
    ensures var r := Serve(block, maxBytes, s, q, body);
            && Sized(block, maxBytes, r.buf)
            && (Settled(maxBytes, s, q, declared) ==> !Wasted(r) && Settled(maxBytes, After(r), q, declared))
            && (Wasted(r) ==> Settled(maxBytes, After(r), q, declared))
  {
    FitIsExact(block, maxBytes, s.buf.(header := Header(1, 1, q.length)));
  }

  lemma {:induction false} SettledMakesNone(block: nat, maxBytes: nat, s: Slot, q: Request, declared: nat,
                                                bodies: seq<nat>)
    requires SizesOk(block, maxBytes) && Sized(block, maxBytes, s.buf)
    requires q.length == Number(declared) && q.header <= HEADER_SLACK && Within(bodies, declared)
    requires Settled(maxBytes, s, q, declared)
    ensures Mistakes(block, maxBytes, s, q, bodies) == 0
    decreases |bodies|
  {
    if bodies != [] {
      ServeSettles(block, maxBytes, s, q, declared, bodies[0]);
      SettledMakesNone(block, maxBytes, After(Serve(block, maxBytes, s, q, bodies[0])), q, declared, bodies[1..]);
    }
  }

  /** At most one mistake per workload: from any slot state, however the bodies
      arrive, requests with one declared length and at most 8 KiB of headers fail at
      most one copy attempt. */
  lemma {:induction false} AtMostOneMistake(block: nat, maxBytes: nat, s: Slot, q: Request, declared: nat,
                                                bodies: seq<nat>)
    requires SizesOk(block, maxBytes) && Sized(block, maxBytes, s.buf)
    requires q.length == Number(declared) && q.header <= HEADER_SLACK && Within(bodies, declared)
    ensures Mistakes(block, maxBytes, s, q, bodies) <= 1
    ensures Sized(block, maxBytes, SlotAfter(block, maxBytes, s, q, bodies).buf)
    decreases |bodies|
  {
    if bodies != [] {
      var r := Serve(block, maxBytes, s, q, bodies[0]);
      ServeSettles(block, maxBytes, s, q, declared, bodies[0]);
      AtMostOneMistake(block, maxBytes, After(r), q, declared, bodies[1..]);
      if Wasted(r) { SettledMakesNone(block, maxBytes, After(r), q, declared, bodies[1..]); }
    }
  }

  /** A run of requests of one kind. */
  datatype Block = Block(q: Request, declared: nat, bodies: seq<nat>)

  predicate BlockOk(k: Block) {
    k.q.length == Number(k.declared) && k.q.header <= HEADER_SLACK && Within(k.bodies, k.declared)
  }

  function TotalMistakes(block: nat, maxBytes: nat, s: Slot, w: seq<Block>): nat
    decreases |w|
  {
    if w == [] then 0
    else Mistakes(block, maxBytes, s, w[0].q, w[0].bodies)
         + TotalMistakes(block, maxBytes, SlotAfter(block, maxBytes, s, w[0].q, w[0].bodies), w[1..])
  }

  /** A traffic pattern that changes k times costs at most k wasted calls. */
  lemma {:induction false} OneMistakePerBlock(block: nat, maxBytes: nat, s: Slot, w: seq<Block>)
    requires SizesOk(block, maxBytes) && Sized(block, maxBytes, s.buf)
    requires forall i :: 0 <= i < |w| ==> BlockOk(w[i])
    ensures TotalMistakes(block, maxBytes, s, w) <= |w|
    decreases |w|
  {
    if w != [] {
      assert BlockOk(w[0]);
      AtMostOneMistake(block, maxBytes, s, w[0].q, w[0].declared, w[0].bodies);
      OneMistakePerBlock(block, maxBytes, SlotAfter(block, maxBytes, s, w[0].q, w[0].bodies), w[1..]);
    }
  }

  // ----- Exactly which workloads settle -----

  /** n bodies that have wholly arrived. */
  function Whole(n: nat, declared: nat): seq<nat> { seq(n, _ => declared) }

  /** The buffer after one headers-only receive of `q`, if the body is allowed inline. */
  function Target(block: nat, b: Buf, declared: nat): Buf { Grown(block, b, Room(declared)) }

  /** Headers fit the buffer, the body is allowed inline, and yet headers and body
      together exceed the buffer the slot settles on. */
  predicate Thrashes(block: nat, maxBytes: nat, s: Slot, q: Request, declared: nat) {
    && q.header <= Capacity(s.buf) && Room(declared) <= maxBytes
    && q.header + declared > Capacity(Target(block, s.buf, declared))
  }

  /** Once in copy mode, a thrashing slot stays so, one mistake per request. */
  lemma {:induction false} ThrashingNeverStops(block: nat, maxBytes: nat, s: Slot, q: Request, declared: nat, n: nat)
    requires SizesOk(block, maxBytes) && Sized(block, maxBytes, s.buf) && s.copyBody
    requires q.length == Number(declared) && Thrashes(block, maxBytes, s, q, declared)
    ensures Mistakes(block, maxBytes, s, q, Whole(n, declared)) == n
    decreases n
  {
    if n > 0 {
      var r := Serve(block, maxBytes, s, q, declared);
      FitIsExact(block, maxBytes, s.buf.(header := Header(1, 1, q.length)));
      assert Whole(n, declared)[1..] == Whole(n - 1, declared);
      assert Capacity(Target(block, s.buf, declared)) >= Capacity(s.buf);
      ThrashingNeverStops(block, maxBytes, After(r), q, declared, n - 1);
    }
  }

  /** A kind of request that does not thrash settles whatever its header size. */
  lemma {:induction false} QuietSettles(block: nat, maxBytes: nat, s: Slot, q: Request, declared: nat, n: nat)
    requires SizesOk(block, maxBytes) && Sized(block, maxBytes, s.buf)
    requires q.length == Number(declared) && !Thrashes(block, maxBytes, s, q, declared)
    ensures Mistakes(block, maxBytes, s, q, Whole(n, declared)) <= 1
    ensures !s.copyBody || q.header + declared <= Capacity(s.buf) ==>
              Mistakes(block, maxBytes, s, q, Whole(n, declared)) == 0
    decreases n
  {
    if n > 0 {
      var r := Serve(block, maxBytes, s, q, declared);
      FitIsExact(block, maxBytes, s.buf.(header := Header(1, 1, q.length)));
      assert Whole(n, declared)[1..] == Whole(n - 1, declared);
      QuietSettles(block, maxBytes, After(r), q, declared, n - 1);
    }
  }

  /** Identical requests settle after at most one mistake exactly when they do not
      thrash; the 8 KiB header allowance is what the promise rests on. */
  lemma SettlesExactly(block: nat, maxBytes: nat, s: Slot, q: Request, declared: nat)
    requires SizesOk(block, maxBytes) && Sized(block, maxBytes, s.buf) && q.length == Number(declared)
    ensures (forall n: nat :: Mistakes(block, maxBytes, s, q, Whole(n, declared)) <= 1)
              <==> !Thrashes(block, maxBytes, s, q, declared)
  {
    if Thrashes(block, maxBytes, s, q, declared) {
      var r := Serve(block, maxBytes, s, q, declared);
      FitIsExact(block, maxBytes, s.buf.(header := Header(1, 1, q.length)));
      if s.copyBody {
        ThrashingNeverStops(block, maxBytes, s, q, declared, 2);
      } else {
        ThrashingNeverStops(block, maxBytes, After(r), q, declared, 2);
        assert Whole(3, declared)[1..] == Whole(2, declared);
        assert Mistakes(block, maxBytes, s, q, Whole(3, declared)) == 2;
      }
    } else {
      forall n: nat ensures Mistakes(block, maxBytes, s, q, Whole(n, declared)) <= 1 {
        QuietSettles(block, maxBytes, s, q, declared, n);
      }
    }
  }

  /** A 16 KiB buffer, 12 KiB of headers and 6000 declared bytes: room for the body and
      8 KiB of headers is there already, so the buffer never grows, and every request is
      a mistake. */
  lemma ThrashingExample(block: nat, n: nat)
    requires block <= 4096
    ensures var q := Request(12 * 1024, Number(6000)); var s := Slot(NewBuf(block, 16384), true);
            && Thrashes(block, 131072, s, q, 6000)
            && Mistakes(block, 131072, s, q, Whole(n, 6000)) == n
  {
    NewBufIsSized(block, 131072, 16384);
    ThrashingNeverStops(block, 131072, Slot(NewBuf(block, 16384), true), Request(12 * 1024, Number(6000)), 6000, n);
  }

  /** Without a declared length the slot never settles: every large body is a mistake. */
  lemma {:induction false} ChunkedNeverSettles(block: nat, maxBytes: nat, s: Slot, q: Request, body: nat, n: nat)
    requires s.copyBody && q.length == Absent && q.header <= Capacity(s.buf) < q.header + body
    ensures Mistakes(block, maxBytes, s, q, Whole(n, body)) == n
    decreases n
  {
    if n > 0 {
      assert Whole(n, body)[1..] == Whole(n - 1, body);
      ChunkedNeverSettles(block, maxBytes, After(Serve(block, maxBytes, s, q, body)), q, body, n - 1);
    }
  }

  /** One KiB of headers and a chunked 20000-byte body, into a 16 KiB buffer. */
  lemma ChunkedExample(block: nat, n: nat)
    requires block <= 4096
    ensures Mistakes(block, 131072, Slot(NewBuf(block, 16384), true), Request(1024, Absent), Whole(n, 20000)) == n
  {
    ChunkedNeverSettles(block, 131072, Slot(NewBuf(block, 16384), true), Request(1024, Absent), 20000, n);
  }

  /** Failed copy attempts when every handler keeps its request, so that the slot's
      pool is empty at each take and a fresh buffer is allocated. */
  function KeptMistakes(block: nat, bytes: nat, maxBytes: nat, copyBody: bool, q: Request, bodies: seq<nat>): nat
    decreases |bodies|
  {
    if bodies == [] then 0
    else var r := Serve(block, maxBytes, Slot(NewBuf(block, bytes), copyBody), q, bodies[0]);
         (if Wasted(r) then 1 else 0) + KeptMistakes(block, bytes, maxBytes, r.copyBody, q, bodies[1..])
  }

  /** Then even a well-behaved workload never settles. */
  lemma {:induction false} KeptRequestsNeverSettle(block: nat, bytes: nat, maxBytes: nat, q: Request,
                                                       declared: nat, n: nat)
    requires SizesOk(block, maxBytes) && bytes <= maxBytes
    requires q.length == Number(declared) && Room(declared) <= maxBytes
    requires q.header <= Capacity(NewBuf(block, bytes)) < q.header + declared
    ensures KeptMistakes(block, bytes, maxBytes, true, q, Whole(n, declared)) == n
    decreases n
  {
    if n > 0 {
      assert Whole(n, declared)[1..] == Whole(n - 1, declared);
      KeptRequestsNeverSettle(block, bytes, maxBytes, q, declared, n - 1);
    }
  }
}
