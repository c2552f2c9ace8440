/** Request bodies: the vector pool of `buffer.rs` and the assembly of `request.rs`.

    A vector's capacity after `reserve` or `reserve_exact` is anything the contract
    of `Vec` allows; the one thing assumed about the allocator is that the spare
    capacity stays below 2^32, because the read length is cast to `u32`. */
module RequestBody {
  import opened Basics

  /** `MAX_BODY_RESERVE`. */
  const MAX_BODY_RESERVE: nat := 8 * 1024 * 1024
  /** `BODY_CHUNK_BYTES`. */
  const BODY_CHUNK_BYTES: nat := 256 * 1024

  type Byte = bv8

  // ----- The pool, over any run -----

  /** `capacity.saturating_sub(held)`: the argument `BodyPool::take` gives
      `reserve_exact` for a vector that already has `held` bytes. */
  function Additional(wanted: nat, held: nat): nat { if wanted > held then wanted - held else 0 }

  /** The capacities `take(wanted)` may yield from an empty vector holding `held`. */
  predicate MayYield(held: nat, wanted: nat, got: nat) {
    if Additional(wanted, held) <= held then got == held else got >= Additional(wanted, held)
  }

  /** `take` always yields at least max(held, wanted - held), which is half of what was
      asked for; it is sure to reach it only from an empty or a large enough vector. */
  lemma TakeIsExact(held: nat, wanted: nat)
    ensures forall got: nat :: MayYield(held, wanted, got) ==> got >= held && got + held >= wanted && 2 * got >= wanted
    ensures (forall got: nat :: MayYield(held, wanted, got) ==> got >= wanted) <==> held == 0 || held >= wanted
  {
    var least := Max(held, Additional(wanted, held));
    assert MayYield(held, wanted, least);
  }

  /** A kilobyte asked of a pooled 600-byte vector yields 600 bytes. */
  lemma TakeFallsShort()
    ensures MayYield(600, 1024, 600) && !MayYield(600, 1024, 1024)
  {}

  /** A pool: capacities of the (empty) free vectors, and of those checked out. */
  datatype Pool = Pool(slots: nat, maxRetained: nat, free: seq<nat>, out: seq<nat>)

  datatype PoolStep = Take(wanted: nat, got: nat) | Grow(i: nat, cap: nat) | Drop(i: nat)

  predicate PoolEnabled(p: Pool, a: PoolStep) {
    match a
    case Take(wanted, got) => MayYield(if p.free == [] then 0 else p.free[0], wanted, got)
    case Grow(i, cap) => i < |p.out| && cap >= p.out[i]
    case Drop(i) => i < |p.out|
  }

  function PoolNext(p: Pool, a: PoolStep): Pool
    requires PoolEnabled(p, a)
  {
    match a
    case Take(_, got) => p.(free := if p.free == [] then [] else p.free[1..], out := p.out + [got])
    case Grow(i, cap) => p.(out := p.out[i := cap])
    case Drop(i) =>
      p.(out := p.out[..i] + p.out[i + 1..],
         free := if p.out[i] <= p.maxRetained && |p.free| < Max(1, p.slots) then p.free + [p.out[i]] else p.free)
  }

  function PoolRun(p: Pool, run: seq<PoolStep>): Option<Pool>
    decreases |run|
  {
    if run == [] then Some(p)
    else if PoolEnabled(p, run[0]) then PoolRun(PoolNext(p, run[0]), run[1..]) else None
  }

  function Sum(caps: seq<nat>): nat { if caps == [] then 0 else caps[0] + Sum(caps[1..]) }

  lemma {:induction false} SumBound(caps: seq<nat>, each: nat)
    requires forall i :: 0 <= i < |caps| ==> caps[i] <= each
    ensures Sum(caps) <= |caps| * each
  {
    if caps != [] { SumBound(caps[1..], each); }
  }

  predicate PoolOk(p: Pool) {
    |p.free| <= Max(1, p.slots) && forall i :: 0 <= i < |p.free| ==> p.free[i] <= p.maxRetained
  }

  lemma {:induction false} RunKeepsPool(p: Pool, run: seq<PoolStep>)
    requires PoolOk(p)
    ensures var r := PoolRun(p, run);
            r.Some? ==> PoolOk(r.value) && r.value.slots == p.slots && r.value.maxRetained == p.maxRetained
    decreases |run|
  {
    if run != [] && PoolEnabled(p, run[0]) { RunKeepsPool(PoolNext(p, run[0]), run[1..]); }
  }

  /** Over any sequence of takes, growths and drops the pool retains at most
      max(1, slots) vectors, none above the cap, so idle memory is bounded. */
  lemma IdleMemoryIsBounded(slots: nat, maxRetained: nat, run: seq<PoolStep>)
    ensures var r := PoolRun(Pool(slots, maxRetained, [], []), run);
            r.Some? ==>
              && |r.value.free| <= Max(1, slots)
              && (forall i :: 0 <= i < |r.value.free| ==> r.value.free[i] <= maxRetained)
              && Sum(r.value.free) <= Max(1, slots) * maxRetained
  {
    var p := Pool(slots, maxRetained, [], []);
    RunKeepsPool(p, run);
    if PoolRun(p, run).Some? {
      var free := PoolRun(p, run).value.free;
      SumBound(free, maxRetained);
      Monotone(|free|, Max(1, slots), maxRetained);
    }
  }

  lemma Monotone(a: nat, b: nat, c: nat)
    requires a <= b
    ensures a * c <= b * c
  {}

  // ----- The objects -----

  /** A checked-out `Vec<u8>`. */
  class PooledVec {
    var data: seq<Byte>
    var cap: nat

    ghost predicate Valid()
      reads this
    {
      |data| <= cap < |data| + TWO_32
    }

    constructor (cap: nat)
      requires cap < TWO_32
      ensures Valid() && data == [] && this.cap == cap
    {
      data, this.cap := [], cap;
    }

    /** `Vec::reserve_exact` and `Vec::reserve`. */
    method Reserve(additional: nat)
      requires Valid() && additional < TWO_32
      modifies this
      ensures Valid() && data == old(data) && cap >= old(cap) && cap >= |data| + additional
      ensures old(cap) >= |data| + additional ==> cap == old(cap)
      ensures forall p: Pool :: p.out == [old(cap)] ==>
                PoolEnabled(p, PoolStep.Grow(0, cap)) && PoolNext(p, PoolStep.Grow(0, cap)) == p.(out := [cap])
    {
      if cap < |data| + additional {
        var c: nat :| |data| + additional <= c < |data| + TWO_32;
        cap := c;
      }
    }

    /** `extend_from_slice`. */
    method Extend(bytes: seq<Byte>)
      requires Valid() && |bytes| < TWO_32
      modifies this
      ensures Valid() && data == old(data) + bytes
      ensures old(cap) >= |data| ==> cap == old(cap)
    {
      Reserve(|bytes|);
      data := data + bytes;
    }
  }

  class BodyPool {
    const slots: nat
    const maxRetained: nat
    var free: seq<nat>

    ghost predicate Valid()
      reads this
    {
      |free| <= Max(1, slots) && forall i :: 0 <= i < |free| ==> free[i] <= maxRetained
    }

    constructor (slots: nat, maxRetained: nat)
      ensures Valid() && free == [] && this.slots == slots && this.maxRetained == maxRetained
    {
      this.slots, this.maxRetained, free := slots, maxRetained, [];
    }

    method Take(capacity: nat) returns (v: PooledVec)
      requires Valid() && maxRetained < TWO_32 && capacity < TWO_32
      modifies this
      ensures Valid() && fresh(v) && v.Valid() && v.data == []
      ensures MayYield(if old(free) == [] then 0 else old(free)[0], capacity, v.cap)
      ensures free == if old(free) == [] then [] else old(free)[1..]
      ensures var before := Pool(slots, maxRetained, old(free), []); var step := PoolStep.Take(capacity, v.cap);
              PoolEnabled(before, step) && PoolNext(before, step) == before.(free := free, out := [v.cap])
    {
      var held := 0;
      if free != [] {
        held := free[0];
        free := free[1..];
      }
      v := new PooledVec(held);
      v.Reserve(Additional(capacity, v.cap));
    }

    /** `PooledVec::drop`. */
    method Drop(v: PooledVec)
      requires Valid()
      modifies this
      ensures Valid()
      ensures free == if v.cap <= maxRetained && |old(free)| < Max(1, slots) then old(free) + [v.cap] else old(free)
      ensures var before := Pool(slots, maxRetained, old(free), [v.cap]);
              PoolNext(before, PoolStep.Drop(0)) == before.(free := free, out := [])
    {
      if v.cap <= maxRetained && |free| < Max(1, slots) { free := free + [v.cap]; }
    }
  }

  datatype ReadResult = Got(bytes: seq<Byte>) | Eof | Failed(code: nat)

  /** `ERROR_HANDLE_EOF`. */
  const ERROR_HANDLE_EOF: nat := 38

  /** What a kernel status means to the caller: more or no more bytes, or a failure. */
  function Failure(status: nat): Option<nat> {
    if status == 0 || status == 38 then None else Some(status)
  }

  /** The kernel's side of one request body.  A call may fail at any time; otherwise it
      returns between one and as many bytes as fit, all that fit under FILL_BUFFER,
      and nothing (or the end-of-file error) only at the end of the body.  `statuses` is
      the status of every call so far. */
  class EntityStream {
    const fill: bool
    var remaining: seq<Byte>
    var statuses: seq<nat>

    constructor (fill: bool, remaining: seq<Byte>)
      ensures this.fill == fill && this.remaining == remaining && statuses == []
    {
      this.fill, this.remaining, statuses := fill, remaining, [];
    }

    /** `read_entity_body`: `len` is the length of the destination slice. */
    method Read(len: nat) returns (r: ReadResult)
      modifies this
      ensures len == 0 ==> statuses == old(statuses) && r == Got([])
      ensures len > 0 ==>
                && |statuses| == |old(statuses)| + 1 && statuses[..|old(statuses)|] == old(statuses)
                && var status := statuses[|old(statuses)|];
                   && (r.Got? <==> status == 0) && (r.Eof? <==> status == 38)
                   && (r.Failed? ==> r.code == status)
      ensures r.Got? ==> old(remaining) == r.bytes + remaining && |r.bytes| <= len % TWO_32
      ensures !r.Got? ==> remaining == old(remaining)
      ensures len % TWO_32 > 0 && (r.Eof? || r == Got([])) ==> old(remaining) == []
      ensures fill && r.Got? ==> |r.bytes| == Min(len % TWO_32, |old(remaining)|)
    {
      if len == 0 { return Got([]); }
      var read, status := Transfer(len % TWO_32);
      statuses := statuses + [status];
      if status == ERROR_HANDLE_EOF { return Eof; }
      if status != 0 { return Failed(status); }
      r := Got(read);
    }

    /** What the kernel may answer when asked for up to `asked` bytes. */
    method Transfer(asked: nat) returns (read: seq<Byte>, status: nat)
      modifies this`remaining
      ensures status == 0 ==> old(remaining) == read + remaining && |read| <= asked
      ensures status != 0 ==> remaining == old(remaining)
      ensures asked > 0 && (status == 38 || (status == 0 && read == [])) ==> old(remaining) == []
      ensures fill && status == 0 ==> |read| == Min(asked, |old(remaining)|)
    {
      read, status := [], *;
      if status == 0 {
        var most := Min(asked, |remaining|);
        var n: nat :| n <= most && (most > 0 ==> n > 0) && (fill ==> n == most);
        read, remaining := remaining[..n], remaining[n..];
      } else if status == ERROR_HANDLE_EOF && remaining != [] {
        status := 1;
      }
    }
  }

  /** Chunks needed for `bytes`. */
  function Chunks(bytes: nat): nat { (bytes + BODY_CHUNK_BYTES - 1) / BODY_CHUNK_BYTES }

  /** Kernel reads that suffice for `left` bytes with `spare` bytes of room. */
  function ReadBound(left: nat, spare: nat): nat { 2 + Chunks(Additional(left, spare)) }

  lemma ChunksMonotone(a: nat, b: nat)
    requires a <= b
    ensures Chunks(a) <= Chunks(b)
  {}

  /** More room never costs reads, and room for everything leaves two. */
  lemma RoomHelps(left: nat, spare: nat)
    ensures ReadBound(left, spare) <= ReadBound(left, 0)
    ensures spare >= left ==> ReadBound(left, spare) == 2
  {
    ChunksMonotone(Additional(left, spare), left);
  }

  /** The account kept by the read loop: after `used` reads, `left` bytes are waiting
      and there is room for `spare`; the reads still needed stay within `bound`. */
  predicate Budget(bound: nat, used: nat, left: nat, spare: nat) {
    if used == 0 then bound == ReadBound(left, spare)
    else used + Chunks(left) + 1 <= bound && (left > 0 ==> spare == 0)
  }

  /** One read that fills `room` bytes or drains the body keeps the account; room is
      made for at least a chunk when there is none. */
  lemma ReadIsBudgeted(bound: nat, used: nat, left: nat, spare: nat, room: nat)
    requires Budget(bound, used, left, spare)
    requires if spare == 0 then room >= BODY_CHUNK_BYTES else room == spare
    ensures var n := Min(room, left);
            && used + 1 <= bound
            && (n > 0 ==> Budget(bound, used + 1, left - n, room - n))
  {
    if spare == 0 && left > 0 {
      ChunksMonotone(left - Min(room, left), left - Min(BODY_CHUNK_BYTES, left));
      assert Chunks(left - Min(BODY_CHUNK_BYTES, left)) + 1 == Chunks(left);
    }
  }

  /** One turn of the read loop: make room if there is none, and read into all of it.
      The slice handed to the kernel is never empty, so an empty read is the end. */
  method ReadOnce(body: PooledVec, stream: EntityStream) returns (r: ReadResult, ghost room: nat)
    requires body.Valid()
    modifies body, stream
    ensures body.Valid() && |stream.statuses| == |old(stream.statuses)| + 1
    ensures stream.statuses[..|old(stream.statuses)|] == old(stream.statuses)
    ensures var status := stream.statuses[|old(stream.statuses)|];
            (r.Got? <==> status == 0) && (r.Eof? <==> status == 38) && (r.Failed? ==> r.code == status)
    ensures if |old(body.data)| == old(body.cap) then room >= BODY_CHUNK_BYTES
            else room == old(body.cap) - |old(body.data)|
    ensures r.Got? ==> body.data == old(body.data) + r.bytes && old(stream.remaining) == r.bytes + stream.remaining
    ensures !r.Got? ==> body.data == old(body.data) && stream.remaining == old(stream.remaining)
    ensures r.Eof? || r == Got([]) ==> old(stream.remaining) == []
    ensures r.Got? ==> body.cap - |body.data| == room - |r.bytes|
    ensures r.Got? && stream.fill ==> |r.bytes| == Min(room, |old(stream.remaining)|)
  {
    if |body.data| == body.cap { body.Reserve(BODY_CHUNK_BYTES); }
    var spare := body.cap - |body.data|;
    room := spare;
    assert 0 < spare < TWO_32 && spare % TWO_32 == spare;
    r := stream.Read(spare);
    if r.Got? { body.data := body.data + r.bytes; }
  }

  /** The reads `now` has more than `before`: at least one, all but the last successful, and
      the last one decides. */
  predicate ReadUntil(before: seq<nat>, now: seq<nat>, failed: Option<nat>) {
    && |before| < |now| && now[..|before|] == before
    && (forall i :: |before| <= i < |now| - 1 ==> now[i] == 0)
    && failed == Failure(now[|now| - 1])
  }

  /** `read_remaining_body_into`: whatever sizes the kernel returns, the body grows by
      exactly what was left unless a read failed, and under FILL_BUFFER the number of kernel
      reads is bounded.  The call fails exactly if a read did, with its code; the end-of-file
      error is no failure.  No byte is lost between what was read and what is left. */
  method ReadRemaining(body: PooledVec, stream: EntityStream) returns (failed: Option<nat>)
    requires body.Valid()
    modifies body, stream
    ensures body.Valid()
    ensures body.data + stream.remaining == old(body.data) + old(stream.remaining) && old(body.data) <= body.data
    ensures failed.None? ==> body.data == old(body.data) + old(stream.remaining) && stream.remaining == []
    ensures ReadUntil(old(stream.statuses), stream.statuses, failed)
    ensures stream.fill ==>
              |stream.statuses| - |old(stream.statuses)|
                <= ReadBound(|old(stream.remaining)|, old(body.cap) - |old(body.data)|)
  {
    ghost var bound := ReadBound(|stream.remaining|, body.cap - |body.data|);
    ghost var before := stream.statuses;
    ghost var whole := body.data + stream.remaining;
    while true
      invariant body.Valid() && |before| <= |stream.statuses| && stream.statuses[..|before|] == before
      invariant forall i :: |before| <= i < |stream.statuses| ==> stream.statuses[i] == 0
      invariant body.data + stream.remaining == whole && old(body.data) <= body.data
      invariant stream.fill ==>
                  Budget(bound, |stream.statuses| - |before|, |stream.remaining|, body.cap - |body.data|)
      decreases |stream.remaining|
    {
      ghost var had, left, data := body.cap - |body.data|, |stream.remaining|, body.data;
      ghost var seen := stream.statuses;
      var r, room := ReadOnce(body, stream);
      if stream.fill { ReadIsBudgeted(bound, |seen| - |before|, left, had, room); }
      assert forall i :: 0 <= i < |seen| ==> stream.statuses[i] == stream.statuses[..|seen|][i];
      match r {
        case Failed(code) => return Some(code);
        case Eof => return None;
        case Got(bytes) =>
          assert data + (bytes + stream.remaining) == (data + bytes) + stream.remaining;
          if bytes == [] { return None; }
      }
    }
  }

  /** A `Body`: borrowed from the receive buffer, or owned. */
  datatype Body = Inline(bytes: seq<Byte>) | Owned(bytes: seq<Byte>)

  /** The declared length is the true one and not over the reserve limit, and the pool
      can meet it: it is empty, or its next vector is large enough. */
  predicate WellSized(length: nat, contentLength: Option<nat>, free: seq<nat>) {
    contentLength == Some(length) && length <= MAX_BODY_RESERVE && (free == [] || free[0] == 0 || free[0] >= length)
  }

  /** The pool after a vector of capacity `cap` was dropped into it. */
  function Retained(slots: nat, maxRetained: nat, free: seq<nat>, cap: nat): seq<nat> {
    if cap <= maxRetained && |free| < Max(1, slots) then free + [cap] else free
  }

  function Rest(free: seq<nat>): seq<nat> { if free == [] then [] else free[1..] }

  /** `Request::body`: for every inline prefix, every Content-Length (right, wrong or
      absent) and every split of the rest into reads, the body is the inline part followed
      by the rest, unless a read failed, and then that is the result and the vector goes
      back to the pool; under FILL_BUFFER a well-sized body takes at most two reads.
      `more` is the kernel's more-body flag. */
  method ReadBody(inline: seq<Byte>, more: bool, contentLength: Option<nat>, pool: BodyPool, stream: EntityStream)
    returns (body: Option<Body>, failed: nat)
    requires pool.Valid() && pool.maxRetained < TWO_32 && |inline| + BODY_CHUNK_BYTES < TWO_32
    requires !more ==> stream.remaining == []
    modifies pool, stream
    ensures pool.Valid()
    ensures body.Some? ==> body.value.bytes == inline + old(stream.remaining) && stream.remaining == []
    ensures body.Some? ==> (body.value.Inline? <==> !more)
    ensures !more ==> body.Some? && stream.statuses == old(stream.statuses) && pool.free == old(pool.free)
    ensures more ==>
              ReadUntil(old(stream.statuses), stream.statuses, if body.Some? then None else Some(failed))
    ensures more && body.Some? ==> pool.free == Rest(old(pool.free))
    ensures body.None? ==>
              exists cap :: cap >= |inline|
                            && pool.free == Retained(pool.slots, pool.maxRetained, Rest(old(pool.free)), cap)
    ensures stream.fill ==>
              |stream.statuses| - |old(stream.statuses)| <= ReadBound(|old(stream.remaining)|, 0)
    ensures stream.fill && WellSized(|inline| + |old(stream.remaining)|, contentLength, old(pool.free)) ==>
              |stream.statuses| - |old(stream.statuses)| <= 2
  {
    failed := 0;
    if !more { return Some(Inline(inline)), 0; }
    var declared := Min(if contentLength.Some? then contentLength.value else 0, MAX_BODY_RESERVE);
    var capacity := if declared > |inline| then declared else |inline| + BODY_CHUNK_BYTES;
    var v := pool.Take(capacity);
    v.Extend(inline);
    RoomHelps(|stream.remaining|, v.cap - |v.data|);
    var error := ReadRemaining(v, stream);
    if error.Some? {
      pool.Drop(v);
      assert pool.free == Retained(pool.slots, pool.maxRetained, Rest(old(pool.free)), v.cap);
      return None, error.value;
    }
    body := Some(Owned(v.data));
  }
}
